/** The arbitrary-precision integer arithmetic used on token amounts (all amounts are naturals). */
module FixedPoint {
  import opened Outcomes

  /** 10^18: one unit at 18 decimals. */
  const WAD: nat := 1_000_000_000_000_000_000

  function Pow10(n: nat): (r: nat)
    ensures r > 0
  {
    if n == 0 then 1 else 10 * Pow10(n - 1)
  }

  lemma {:induction false} Pow10Add(a: nat, b: nat)
    ensures Pow10(a + b) == Pow10(a) * Pow10(b)
  {
    if a > 0 {
      Pow10Add(a - 1, b);
      calc {
        Pow10(a + b);
        10 * Pow10(a - 1 + b);
        10 * (Pow10(a - 1) * Pow10(b));
        (10 * Pow10(a - 1)) * Pow10(b);
        Pow10(a) * Pow10(b);
      }
    }
  }

  lemma Pow10Is18Decimals()
    ensures Pow10(18) == WAD
  {
    assert Pow10(3) == 1000;
    assert Pow10(6) == 1000_000;
    assert Pow10(9) == 1000_000_000;
    assert Pow10(12) == 1000_000_000_000;
    assert Pow10(15) == 1000_000_000_000_000;
  }

  /** Reference definition of the sum of a list. */
  function Sum(s: seq<nat>): nat
  {
    if s == [] then 0 else s[0] + Sum(s[1..])
  }

  /** `s.reduce((sum, b) => sum.add(b), acc)`: adds the elements left to right onto a seed. */
  function FoldAdd(acc: nat, s: seq<nat>): (r: nat)
    ensures r == acc + Sum(s)
    decreases s
  {
    if s == [] then acc else FoldAdd(acc + s[0], s[1..])
  }

  /** `s.reduce((sum, b) => sum.add(b))` without a seed: the first element is the seed,
      and an empty array throws. */
  function ReduceAdd(s: seq<nat>): (r: Result<nat>)
    ensures r.Ok? <==> s != []
    ensures r.Err? ==> r.error == EmptyReduce
    ensures r.Ok? ==> r.value == Sum(s)
  {
    if s == [] then Err(EmptyReduce) else Ok(FoldAdd(s[0], s[1..]))
  }

  /** `m.mul(x).div(d)` applied to every element, as `map` does. */
  function MulDivAll(xs: seq<nat>, m: nat, d: nat): (r: seq<nat>)
    requires d > 0
    ensures |r| == |xs|
    ensures forall i :: 0 <= i < |xs| ==> r[i] == m * xs[i] / d
  {
    if xs == [] then [] else [m * xs[0] / d] + MulDivAll(xs[1..], m, d)
  }

  /** Truncating division loses, over a whole list, at most what exact division would give. */
  lemma {:induction false} MulDivAllSum(xs: seq<nat>, m: nat, d: nat)
    requires d > 0
    ensures Sum(MulDivAll(xs, m, d)) * d <= m * Sum(xs)
  {
    if xs != [] {
      var r := MulDivAll(xs, m, d);
      var rest := MulDivAll(xs[1..], m, d);
      MulDivAllSum(xs[1..], m, d);
      assert r == [r[0]] + rest;
      assert Sum(r) == r[0] + Sum(rest);
      DivIsFloor(m * xs[0], d);
      assert r[0] * d <= m * xs[0];
      calc {
        Sum(r) * d;
        r[0] * d + Sum(rest) * d;
      <= m * xs[0] + m * Sum(xs[1..]);
        m * (xs[0] + Sum(xs[1..]));
        m * Sum(xs);
      }
    }
  }

  /** Scaling by a factor of at most one never increases an element or the total. */
  lemma MulDivAllShrinks(xs: seq<nat>, m: nat, d: nat)
    requires 0 < d && m <= d
    ensures forall i :: 0 <= i < |xs| ==> MulDivAll(xs, m, d)[i] <= xs[i]
    ensures Sum(MulDivAll(xs, m, d)) <= Sum(xs)
  {
    var r := MulDivAll(xs, m, d);
    forall i | 0 <= i < |xs| ensures r[i] <= xs[i] {
      MulDivAtMost(xs[i], m, d);
    }
    MulDivAllSum(xs, m, d);
    MulLe(m, d, Sum(xs));
    DivBound(Sum(r), Sum(xs), d);
  }

  lemma MulDivAtMost(x: nat, m: nat, d: nat)
    requires 0 < d && m <= d
    ensures m * x / d <= x
  {
    DivIsFloor(m * x, d);
    MulLe(m, d, x);
    DivBound(m * x / d, x, d);
  }

  lemma MulAddDistrib(a: nat, b: nat, c: nat)
    ensures (a + b) * c == a * c + b * c
  {
  }

  lemma MulRegroup(a: nat, b: nat, c: nat)
    ensures (a * b) * c == b * (a * c)
  {
  }

  lemma MulLe(a: nat, b: nat, c: nat)
    requires a <= b
    ensures a * c <= b * c
  {
  }

  /** Cancelling a positive factor on both sides of an inequality. */
  lemma DivBound(a: nat, b: nat, d: nat)
    requires d > 0 && a * d <= d * b
    ensures a <= b
  {
    if a > b {
      assert false;
    }
  }

  /** The quotient of truncating division is the unique q with q*d <= n < (q+1)*d. */
  lemma DivIsFloor(n: nat, d: nat)
    requires d > 0
    ensures (n / d) * d <= n < (n / d + 1) * d
  {
  }

  /** Truncating division is monotone in its dividend. */
  lemma DivMonotone(a: nat, b: nat, d: nat)
    requires d > 0 && a <= b
    ensures a / d <= b / d
  {
    DivIsFloor(a, d);
    DivIsFloor(b, d);
    if a / d > b / d {
      assert false;
    }
  }

  /** A quotient and remainder that satisfy the division equation are the truncating ones. */
  lemma DivUnique(n: nat, d: nat, q: nat, r: nat)
    requires d > 0 && n == q * d + r && r < d
    ensures n / d == q
  {
    DivIsFloor(n, d);
    if n / d < q {
      MulLe(n / d + 1, q, d);
      assert false;
    }
    if n / d > q {
      MulLe(q + 1, n / d, d);
      assert false;
    }
  }

  /** Splitting a dividend loses at most one unit of the quotient per extra part. */
  lemma DivAddBounds(a: nat, b: nat, d: nat)
    requires d > 0
    ensures a / d + b / d <= (a + b) / d <= a / d + b / d + 1
  {
    var qa, ra := a / d, a % d;
    var qb, rb := b / d, b % d;
    assert a == qa * d + ra && b == qb * d + rb;
    MulAddDistrib(qa, qb, d);
    assert a + b == (qa + qb) * d + (ra + rb);
    if ra + rb < d {
      DivUnique(a + b, d, qa + qb, ra + rb);
    } else {
      MulAddDistrib(qa + qb, 1, d);
      assert a + b == (qa + qb + 1) * d + (ra + rb - d);
      DivUnique(a + b, d, qa + qb + 1, ra + rb - d);
    }
  }
}
