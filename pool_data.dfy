/**
 * The fixed-point arithmetic of `getSwapData` in the pool-data hook: once the contract
 * reads have returned, every figure the pool page shows is a truncating integer
 * expression over token balances, prices and LP-token supplies.
 */
module PoolData {
  import opened Outcomes
  import opened FixedPoint
  import opened PoolConfig

  /** `10 ** 5`: token percentages carry five decimals. */
  const PERCENT_SCALE: nat := 100_000
  /** `24 * 60 * 60` */
  const ONE_DAY_SECS: nat := 86_400

  /** A pool token with the balance `getTokenBalance(i)` returned, in the token's own decimals. */
  datatype PoolToken = PoolToken(symbol: string, decimals: nat, balance: nat)

  /** An entry of the partner staking record: the partner key and its amount, if any. */
  datatype PartnerStake = PartnerStake(partner: string, amount: Option<nat>)

  /** What the rewards contract reports: emission rate, total and this pool's allocation points. */
  datatype MiniChef = MiniChef(saddlePerSecond: nat, totalAllocPoint: nat, poolAllocPoint: nat)

  /** `balance * 10^(18 - decimals)`: the balance cast to 18 decimals. */
  function Normalise(balance: nat, decimals: nat): (r: nat)
    requires decimals <= 18
    ensures r * Pow10(decimals) == balance * WAD
  {
    Pow10Add(18 - decimals, decimals);
    Pow10Is18Decimals();
    MulRegroup(Pow10(18 - decimals), balance, Pow10(decimals));
    Pow10(18 - decimals) * balance
  }

  /** `tokenBalances`: every balance normalised; a token with more than 18 decimals makes
      `pow` throw. */
  function NormalisedBalances(tokens: seq<PoolToken>): (r: Result<seq<nat>>)
    ensures r.Ok? <==> forall i :: 0 <= i < |tokens| ==> tokens[i].decimals <= 18
    ensures r.Err? ==> r.error == NegativePower
    ensures r.Ok? ==> |r.value| == |tokens|
    ensures r.Ok? ==> forall i :: 0 <= i < |tokens| ==>
      r.value[i] * Pow10(tokens[i].decimals) == tokens[i].balance * WAD
  {
    if tokens == [] then Ok([])
    else if tokens[0].decimals > 18 then Err(NegativePower)
    else
      match NormalisedBalances(tokens[1..])
      case Err(e) => Err(e)
      case Ok(rest) => Ok([Normalise(tokens[0].balance, tokens[0].decimals)] + rest)
  }

  /** `tokenPricesUSD[symbol] || 0`: the 18-decimal USD price of a symbol, 0 when unknown. */
  function PriceOf(pricesUSD: map<string, nat>, symbol: string): nat
  {
    if symbol in pricesUSD then pricesUSD[symbol] else 0
  }

  /** The symbol a token is priced by: in a meta pool the last token (the base pool's LP
      token) is priced as the pool type's token. */
  function PricingSymbol(tokens: seq<PoolToken>, i: nat, isMetaSwap: bool, poolTypeSymbol: string): string
    requires i < |tokens|
  {
    if isMetaSwap && i == |tokens| - 1 then poolTypeSymbol else tokens[i].symbol
  }

  function TokenPrices(tokens: seq<PoolToken>, isMetaSwap: bool, poolTypeSymbol: string,
                       pricesUSD: map<string, nat>): (r: seq<nat>)
    ensures |r| == |tokens|
    ensures isMetaSwap && tokens != [] ==> r[|tokens| - 1] == PriceOf(pricesUSD, poolTypeSymbol)
    ensures forall i :: 0 <= i < |tokens| && !(isMetaSwap && i == |tokens| - 1) ==>
      r[i] == PriceOf(pricesUSD, tokens[i].symbol)
  {
    seq(|tokens|, i requires 0 <= i < |tokens| =>
      PriceOf(pricesUSD, PricingSymbol(tokens, i, isMetaSwap, poolTypeSymbol)))
  }

  /** `tokenBalancesUSD`: `balance * price / 10^18` per token. */
  function UsdBalances(balances: seq<nat>, prices: seq<nat>): (r: seq<nat>)
    requires |balances| == |prices|
    ensures |r| == |balances|
    ensures forall i :: 0 <= i < |r| ==> r[i] == balances[i] * prices[i] / WAD
  {
    if balances == [] then []
    else [balances[0] * prices[0] / WAD] + UsdBalances(balances[1..], prices[1..])
  }

  /** `lpTokenPriceUSD`: the pool's USD value per 10^18 normalised token units, 0 for an
      empty pool. */
  function LpTokenPriceUSD(usdSum: nat, balanceSum: nat): (r: nat)
    ensures balanceSum == 0 ==> r == 0
    ensures balanceSum > 0 ==> r * balanceSum <= usdSum * WAD < (r + 1) * balanceSum
  {
    if balanceSum == 0 then 0
    else
      DivIsFloor(usdSum * WAD, balanceSum);
      usdSum * WAD / balanceSum
  }

  /** The USD value of the pool never exceeds its balance at the highest token price. */
  lemma {:induction false} UsdSumAtMost(balances: seq<nat>, prices: seq<nat>, maxPrice: nat)
    requires |balances| == |prices|
    requires forall i :: 0 <= i < |prices| ==> prices[i] <= maxPrice
    ensures Sum(UsdBalances(balances, prices)) * WAD <= Sum(balances) * maxPrice
  {
    if balances != [] {
      var u := UsdBalances(balances, prices);
      var rest := UsdBalances(balances[1..], prices[1..]);
      UsdSumAtMost(balances[1..], prices[1..], maxPrice);
      assert u == [u[0]] + rest;
      DivIsFloor(balances[0] * prices[0], WAD);
      MulLe(prices[0], maxPrice, balances[0]);
      assert u[0] * WAD <= balances[0] * maxPrice;
      MulAddDistrib(u[0], Sum(rest), WAD);
      MulAddDistrib(balances[0], Sum(balances[1..]), maxPrice);
    }
  }

  /** The LP token is never priced above the most expensive token of the pool. */
  lemma LpTokenPriceAtMostMaxPrice(balances: seq<nat>, prices: seq<nat>, maxPrice: nat)
    requires |balances| == |prices|
    requires forall i :: 0 <= i < |prices| ==> prices[i] <= maxPrice
    ensures LpTokenPriceUSD(Sum(UsdBalances(balances, prices)), Sum(balances)) <= maxPrice
  {
    var s := Sum(balances);
    if s > 0 {
      var p := LpTokenPriceUSD(Sum(UsdBalances(balances, prices)), s);
      UsdSumAtMost(balances, prices, maxPrice);
      assert p * s <= s * maxPrice;
      DivBound(p, maxPrice, s);
    }
  }

  /** `virtualPrice`: 10^18 when no LP token exists, otherwise the contract's figure. */
  function VirtualPrice(totalLpTokenBalance: nat, contractVirtualPrice: nat): (r: nat)
    ensures totalLpTokenBalance == 0 ==> r == WAD
    ensures totalLpTokenBalance > 0 ==> r == contractVirtualPrice
  {
    if totalLpTokenBalance == 0 then WAD else contractVirtualPrice
  }

  /** `calculatePctOfTotalShare`: an LP amount as a 10^18-scaled fraction of the supply;
      the divisor is 1 when the supply is 0, so it never divides by zero. */
  function PctOfTotalShare(lpTokenAmount: nat, totalLpTokenBalance: nat): (r: nat)
    ensures totalLpTokenBalance == 0 ==> r == lpTokenAmount * WAD
    ensures totalLpTokenBalance > 0 ==>
      r * totalLpTokenBalance <= lpTokenAmount * WAD < (r + 1) * totalLpTokenBalance
  {
    var divisor := if totalLpTokenBalance == 0 then 1 else totalLpTokenBalance;
    DivIsFloor(lpTokenAmount * WAD, divisor);
    lpTokenAmount * WAD / divisor
  }

  lemma PctOfTotalShareMonotone(a: nat, b: nat, totalLpTokenBalance: nat)
    requires a <= b
    ensures PctOfTotalShare(a, totalLpTokenBalance) <= PctOfTotalShare(b, totalLpTokenBalance)
  {
    var divisor := if totalLpTokenBalance == 0 then 1 else totalLpTokenBalance;
    MulLe(a, b, WAD);
    DivMonotone(a * WAD, b * WAD, divisor);
  }

  /** The whole supply is exactly 10^18. */
  lemma PctOfWholeSupply(totalLpTokenBalance: nat)
    requires totalLpTokenBalance > 0
    ensures PctOfTotalShare(totalLpTokenBalance, totalLpTokenBalance) == WAD
  {
    DivUnique(totalLpTokenBalance * WAD, totalLpTokenBalance, WAD, 0);
  }

  /** `amountsStaked[key] || Zero` for every partner key. */
  function StakeAmounts(staked: seq<PartnerStake>): (r: seq<nat>)
    ensures |r| == |staked|
    ensures forall i :: 0 <= i < |staked| ==>
      r[i] == (if staked[i].amount.Some? then staked[i].amount.value else 0)
  {
    if staked == [] then []
    else [if staked[0].amount.Some? then staked[0].amount.value else 0] + StakeAmounts(staked[1..])
  }

  /** `userLpTokenBalanceStakedElsewhere`: the seeded sum over the partner record. */
  function StakedElsewhere(staked: seq<PartnerStake>): (r: nat)
    ensures r == Sum(StakeAmounts(staked))
  {
    FoldAdd(0, StakeAmounts(staked))
  }

  /** `userShare`: the wallet, partner-staked and rewards-staked LP tokens, each as a
      fraction of the supply, added up. */
  function UserShare(wallet: nat, staked: seq<PartnerStake>, inRewards: nat, totalLpTokenBalance: nat): nat
  {
    PctOfTotalShare(wallet, totalLpTokenBalance)
    + PctOfTotalShare(StakedElsewhere(staked), totalLpTokenBalance)
    + PctOfTotalShare(inRewards, totalLpTokenBalance)
  }

  /** Taking the three shares separately gives the share of everything the user holds,
      rounded down by at most two units of 10^-18. */
  lemma UserShareOfHoldings(wallet: nat, staked: seq<PartnerStake>, inRewards: nat, totalLpTokenBalance: nat)
    ensures var held := wallet + Sum(StakeAmounts(staked)) + inRewards;
      UserShare(wallet, staked, inRewards, totalLpTokenBalance) <= PctOfTotalShare(held, totalLpTokenBalance)
      <= UserShare(wallet, staked, inRewards, totalLpTokenBalance) + 2
  {
    var d := if totalLpTokenBalance == 0 then 1 else totalLpTokenBalance;
    var e := StakedElsewhere(staked);
    DivAddBounds(wallet * WAD, e * WAD, d);
    DivAddBounds(wallet * WAD + e * WAD, inRewards * WAD, d);
    MulAddDistrib(wallet, e, WAD);
    MulAddDistrib(wallet + e, inRewards, WAD);
  }

  /** A user who holds no more than the whole supply has a share of at most 10^18. */
  lemma UserShareAtMostWhole(wallet: nat, staked: seq<PartnerStake>, inRewards: nat, totalLpTokenBalance: nat)
    requires totalLpTokenBalance > 0
    requires wallet + Sum(StakeAmounts(staked)) + inRewards <= totalLpTokenBalance
    ensures UserShare(wallet, staked, inRewards, totalLpTokenBalance) <= WAD
  {
    var held := wallet + Sum(StakeAmounts(staked)) + inRewards;
    UserShareOfHoldings(wallet, staked, inRewards, totalLpTokenBalance);
    PctOfTotalShareMonotone(held, totalLpTokenBalance, totalLpTokenBalance);
    PctOfWholeSupply(totalLpTokenBalance);
  }

  /** `userPoolTokenBalances` and `userPoolTokenBalancesUSD`: `userShare * b / 10^18`. */
  function UserAmounts(userShare: nat, amounts: seq<nat>): (r: seq<nat>)
    ensures |r| == |amounts|
    ensures forall i :: 0 <= i < |amounts| ==> r[i] == userShare * amounts[i] / WAD
  {
    MulDivAll(amounts, userShare, WAD)
  }

  /** With a share of at most 10^18 the user never owns more of a token than the pool holds,
      nor more in total. */
  lemma UserAmountsWithinPool(userShare: nat, amounts: seq<nat>)
    requires userShare <= WAD
    ensures forall i :: 0 <= i < |amounts| ==> UserAmounts(userShare, amounts)[i] <= amounts[i]
    ensures Sum(UserAmounts(userShare, amounts)) <= Sum(amounts)
  {
    MulDivAllShrinks(amounts, userShare, WAD);
  }

  /** The token percentages as written: the guard tests the LP supply, but the divisor is
      the balance sum, so a pool with LP supply and no balances divides by zero. */
  function TokenPercentsAsWritten(balances: seq<nat>, totalLpTokenBalance: nat, balanceSum: nat): (r: Result<seq<nat>>)
    ensures r.Err? <==> balances != [] && totalLpTokenBalance > 0 && balanceSum == 0
    ensures r.Err? ==> r.error == DivisionByZero
    ensures r.Ok? ==> |r.value| == |balances|
    ensures r.Ok? ==> forall i :: 0 <= i < |balances| ==>
      r.value[i] == balances[i] * PERCENT_SCALE / (if totalLpTokenBalance == 0 then 1 else balanceSum)
  {
    if totalLpTokenBalance == 0 then Ok(MulDivAll(balances, PERCENT_SCALE, 1))
    else if balanceSum == 0 then (if balances == [] then Ok([]) else Err(DivisionByZero))
    else Ok(MulDivAll(balances, PERCENT_SCALE, balanceSum))
  }

  /** With LP supply but empty balances, the as-written percentages throw. */
  lemma TokenPercentsAsWrittenThrows()
    ensures TokenPercentsAsWritten([0, 0], 1, 0) == Err(DivisionByZero)
  {
  }

  /** With no LP supply, the as-written percentages add up to 200% for two equal tokens. */
  lemma TokenPercentsAsWrittenExceedWhole()
    ensures TokenPercentsAsWritten([1, 1], 0, 2) == Ok([PERCENT_SCALE, PERCENT_SCALE])
  {
    var r := MulDivAll([1, 1], PERCENT_SCALE, 1);
    assert r[0] == PERCENT_SCALE && r[1] == PERCENT_SCALE;
    assert r == [PERCENT_SCALE, PERCENT_SCALE];
  }

  /** The token percentages with the guard on the divisor itself. */
  function TokenPercents(balances: seq<nat>, balanceSum: nat): (r: seq<nat>)
    ensures |r| == |balances|
    ensures balanceSum > 0 ==> forall i :: 0 <= i < |balances| ==>
      r[i] == balances[i] * PERCENT_SCALE / balanceSum
  {
    MulDivAll(balances, PERCENT_SCALE, if balanceSum == 0 then 1 else balanceSum)
  }

  /** The corrected percentages never add up to more than 100%. */
  lemma TokenPercentsAtMostWhole(balances: seq<nat>)
    ensures Sum(TokenPercents(balances, Sum(balances))) <= PERCENT_SCALE
    ensures forall i :: 0 <= i < |balances| ==> TokenPercents(balances, Sum(balances))[i] <= PERCENT_SCALE
  {
    var s := Sum(balances);
    var p := TokenPercents(balances, s);
    if s == 0 {
      ZeroSumAllZero(balances);
      AllZeroScaled(balances, PERCENT_SCALE);
    } else {
      MulDivAllSum(balances, PERCENT_SCALE, s);
      assert Sum(p) * s <= s * PERCENT_SCALE;
      DivBound(Sum(p), PERCENT_SCALE, s);
    }
    forall i | 0 <= i < |balances| ensures p[i] <= PERCENT_SCALE {
      ElementAtMostSum(p, i);
    }
  }

  lemma {:induction false} ZeroSumAllZero(s: seq<nat>)
    requires Sum(s) == 0
    ensures forall i :: 0 <= i < |s| ==> s[i] == 0
  {
    if s != [] {
      ZeroSumAllZero(s[1..]);
      assert forall i :: 1 <= i < |s| ==> s[i] == s[1..][i - 1];
    }
  }

  lemma {:induction false} AllZeroScaled(s: seq<nat>, m: nat)
    requires forall i :: 0 <= i < |s| ==> s[i] == 0
    ensures Sum(MulDivAll(s, m, 1)) == 0
  {
    if s != [] {
      AllZeroScaled(s[1..], m);
      assert MulDivAll(s, m, 1) == [0] + MulDivAll(s[1..], m, 1);
    }
  }

  lemma {:induction false} ElementAtMostSum(s: seq<nat>, i: nat)
    requires i < |s|
    ensures s[i] <= Sum(s)
  {
    if i > 0 {
      ElementAtMostSum(s[1..], i - 1);
    }
  }

  /** `sdlPerDay`: read only when a rewards contract exists and the pid is not `null`; an
      `undefined` pid passes that test and makes `poolInfo(undefined)` throw, and
      `div(totalAllocPoint)` throws when no allocation point exists. */
  function SdlPerDay(rewards: Option<MiniChef>, rewardsPid: PidEntry): (r: Result<Option<nat>>)
    ensures r == Ok(None) <==> rewards.None? || rewardsPid.Null?
    ensures r == Err(InvalidArgument) <==> rewards.Some? && rewardsPid.Undefined?
    ensures r == Err(DivisionByZero) <==> rewards.Some? && rewardsPid.Pid? && rewards.value.totalAllocPoint == 0
    ensures r.Err? ==> r.error == InvalidArgument || r.error == DivisionByZero
    ensures r.Ok? && r.value.Some? ==>
      var c := rewards.value;
      r.value.value * c.totalAllocPoint <= c.saddlePerSecond * ONE_DAY_SECS * c.poolAllocPoint
      < (r.value.value + 1) * c.totalAllocPoint
  {
    if rewards.None? || rewardsPid.Null? then Ok(None)
    else if rewardsPid.Undefined? then Err(InvalidArgument)
    else
      var c := rewards.value;
      if c.totalAllocPoint == 0 then Err(DivisionByZero)
      else
        DivIsFloor(c.saddlePerSecond * ONE_DAY_SECS * c.poolAllocPoint, c.totalAllocPoint);
        Ok(Some(c.saddlePerSecond * ONE_DAY_SECS * c.poolAllocPoint / c.totalAllocPoint))
  }

  /** A pool never receives more than the whole daily emission. */
  lemma SdlPerDayWithinEmission(rewards: Option<MiniChef>, rewardsPid: PidEntry)
    requires rewards.Some? && rewards.value.poolAllocPoint <= rewards.value.totalAllocPoint
    requires SdlPerDay(rewards, rewardsPid).Ok? && SdlPerDay(rewards, rewardsPid).value.Some?
    ensures SdlPerDay(rewards, rewardsPid).value.value <= rewards.value.saddlePerSecond * ONE_DAY_SECS
  {
    var c := rewards.value;
    MulDivAtMost(c.saddlePerSecond * ONE_DAY_SECS, c.poolAllocPoint, c.totalAllocPoint);
    assert c.poolAllocPoint * (c.saddlePerSecond * ONE_DAY_SECS)
        == c.saddlePerSecond * ONE_DAY_SECS * c.poolAllocPoint;
  }

  /** `amount?.mul(virtualPrice).div(10^18)`: LP tokens as underlying tokens. */
  function ToUnderlying(amount: Option<nat>, virtualPrice: nat): (r: Option<nat>)
    ensures r.Some? <==> amount.Some?
    ensures r.Some? ==> r.value * WAD <= amount.value * virtualPrice < (r.value + 1) * WAD
  {
    if amount.Some? then
      DivIsFloor(amount.value * virtualPrice, WAD);
      Some(amount.value * virtualPrice / WAD)
    else None
  }

  predicate DistinctPartners(staked: seq<PartnerStake>)
  {
    forall i, j :: 0 <= i < j < |staked| ==> staked[i].partner != staked[j].partner
  }

  /** The keys the conversion keeps: every non-empty partner key. */
  function NamedPartners(staked: seq<PartnerStake>): set<string>
  {
    set i | 0 <= i < |staked| && staked[i].partner != "" :: staked[i].partner
  }

  /** `userShareData.amountsStaked`: the reduce over the partner keys that converts every
      amount through the virtual price and skips an empty key. */
  function ConvertStaked(acc: map<string, Option<nat>>, staked: seq<PartnerStake>, virtualPrice: nat)
    : (r: map<string, Option<nat>>)
    requires DistinctPartners(staked)
    ensures r.Keys == acc.Keys + NamedPartners(staked)
    ensures forall i :: 0 <= i < |staked| && staked[i].partner != "" ==>
      r[staked[i].partner] == ToUnderlying(staked[i].amount, virtualPrice)
    ensures forall k :: k in acc && k !in NamedPartners(staked) ==> r[k] == acc[k]
    decreases staked
  {
    if staked == [] then acc
    else
      var e := staked[0];
      var acc' := if e.partner != "" then acc[e.partner := ToUnderlying(e.amount, virtualPrice)] else acc;
      assert NamedPartners(staked) == NamedPartners(staked[1..]) + (if e.partner != "" then {e.partner} else {}) by {
        forall k | k in NamedPartners(staked) ensures k in NamedPartners(staked[1..]) || (e.partner != "" && k == e.partner) {
          var i :| 0 <= i < |staked| && staked[i].partner != "" && staked[i].partner == k;
          if i > 0 { assert staked[1..][i - 1] == staked[i]; }
        }
        forall k | k in NamedPartners(staked[1..]) ensures k in NamedPartners(staked) {
          var i :| 0 <= i < |staked[1..]| && staked[1..][i].partner != "" && staked[1..][i].partner == k;
          assert staked[i + 1] == staked[1..][i];
        }
      }
      assert e.partner !in NamedPartners(staked[1..]) by {
        forall i | 0 <= i < |staked[1..]| ensures staked[1..][i].partner != e.partner {
          assert staked[1..][i] == staked[i + 1];
        }
      }
      ConvertStaked(acc', staked[1..], virtualPrice)
  }

  /** With no LP supply the virtual price is 10^18, and staked amounts convert unchanged. */
  lemma ZeroSupplyConvertsUnchanged(staked: seq<PartnerStake>, contractVirtualPrice: nat)
    requires DistinctPartners(staked)
    ensures var m := ConvertStaked(map[], staked, VirtualPrice(0, contractVirtualPrice));
      forall i :: 0 <= i < |staked| && staked[i].partner != "" ==> m[staked[i].partner] == staked[i].amount
  {
    forall a: nat ensures a * WAD / WAD == a {
      DivUnique(a * WAD, WAD, a, 0);
    }
  }

  /** What `getSwapData` reads before computing: contract results, prices and the account. */
  datatype SwapInputs = SwapInputs(
    tokens: seq<PoolToken>,
    isMetaSwap: bool,
    poolTypeSymbol: string,
    pricesUSD: map<string, nat>,
    userLpTokenBalance: nat,
    totalLpTokenBalance: nat,
    contractVirtualPrice: nat,
    amountsStaked: seq<PartnerStake>,
    amountStakedInRewards: nat,
    hasAccount: bool,
    rewards: Option<MiniChef>,
    rewardsPid: PidEntry)

  /** A token row: the percentage before formatting, and an 18-decimal amount. */
  datatype TokenShare = TokenShare(symbol: string, percent: nat, value: nat)

  datatype PoolView = PoolView(
    tokens: seq<TokenShare>,
    reserve: nat,
    totalLocked: nat,
    virtualPrice: nat,
    lpTokenPriceUSD: nat,
    sdlPerDay: Option<nat>)

  datatype UserShareView = UserShareView(
    share: nat,
    underlyingTokensAmount: nat,
    usdBalance: nat,
    tokens: seq<TokenShare>,
    lpTokenBalance: nat,
    amountsStaked: map<string, Option<nat>>)

  datatype SwapData = SwapData(pool: PoolView, user: Option<UserShareView>)

  function TokenShares(tokens: seq<PoolToken>, percents: seq<nat>, values: seq<nat>): (r: seq<TokenShare>)
    requires |percents| == |tokens| && |values| == |tokens|
    ensures |r| == |tokens|
  {
    seq(|tokens|, i requires 0 <= i < |tokens| => TokenShare(tokens[i].symbol, percents[i], values[i]))
  }

  predicate DecimalsSupported(tokens: seq<PoolToken>)
  {
    forall i :: 0 <= i < |tokens| ==> tokens[i].decimals <= 18
  }

  /** `getSwapData` from the contract reads to the pool and user view models. The token
      percentages use the corrected divisor guard (see TokenPercentsAsWritten). */
  function GetSwapData(inp: SwapInputs): (r: Result<SwapData>)
    requires DistinctPartners(inp.amountsStaked)
    ensures !DecimalsSupported(inp.tokens) ==> r == Err(NegativePower)
    ensures DecimalsSupported(inp.tokens) && inp.tokens == [] ==> r == Err(EmptyReduce)
    ensures r.Ok? <==>
      && DecimalsSupported(inp.tokens)
      && inp.tokens != []
      && SdlPerDay(inp.rewards, inp.rewardsPid).Ok?
    ensures r.Ok? ==> (r.value.user.None? <==> !inp.hasAccount)
    ensures r.Ok? ==> |r.value.pool.tokens| == |inp.tokens|
    ensures r.Ok? ==> r.value.pool.totalLocked == inp.totalLpTokenBalance
    ensures r.Ok? && inp.totalLpTokenBalance == 0 ==> r.value.pool.virtualPrice == WAD
    ensures r.Ok? && r.value.user.Some? ==>
      && |r.value.user.value.tokens| == |inp.tokens|
      && r.value.user.value.lpTokenBalance == inp.userLpTokenBalance
      && forall i :: 0 <= i < |inp.tokens| ==>
           r.value.user.value.tokens[i].percent == r.value.pool.tokens[i].percent
  {
    match NormalisedBalances(inp.tokens)
    case Err(e) => Err(e)
    case Ok(balances) =>
      match ReduceAdd(balances)
      case Err(e) => Err(e)
      case Ok(balanceSum) =>
        var usd := UsdBalances(balances, TokenPrices(inp.tokens, inp.isMetaSwap, inp.poolTypeSymbol, inp.pricesUSD));
        var usdSum := Sum(usd);
        var virtualPrice := VirtualPrice(inp.totalLpTokenBalance, inp.contractVirtualPrice);
        var share := UserShare(inp.userLpTokenBalance, inp.amountsStaked, inp.amountStakedInRewards,
                               inp.totalLpTokenBalance);
        var userBalances := UserAmounts(share, balances);
        var userUsd := UserAmounts(share, usd);
        var percents := TokenPercents(balances, balanceSum);
        match SdlPerDay(inp.rewards, inp.rewardsPid)
        case Err(e) => Err(e)
        case Ok(sdlPerDay) =>
          var pool := PoolView(
            TokenShares(inp.tokens, percents, balances),
            usdSum,
            inp.totalLpTokenBalance,
            virtualPrice,
            LpTokenPriceUSD(usdSum, balanceSum),
            sdlPerDay);
          var user :=
            if inp.hasAccount then
              Some(UserShareView(
                share,
                Sum(userBalances),
                Sum(userUsd),
                TokenShares(inp.tokens, percents, userBalances),
                inp.userLpTokenBalance,
                ConvertStaked(map[], inp.amountsStaked, virtualPrice)))
            else None;
          Ok(SwapData(pool, user))
  }

  /** What the page shows adds up: token percentages total at most 100%, the LP price is
      no higher than the dearest token, and a share of at most 10^18 gives the user no more
      of any token than the pool holds. */
  lemma SwapDataConsistent(inp: SwapInputs, maxPrice: nat)
    requires DistinctPartners(inp.amountsStaked)
    requires GetSwapData(inp).Ok?
    requires forall i :: 0 <= i < |inp.tokens| ==>
      PriceOf(inp.pricesUSD, PricingSymbol(inp.tokens, i, inp.isMetaSwap, inp.poolTypeSymbol)) <= maxPrice
    ensures var d := GetSwapData(inp).value;
      && (forall i :: 0 <= i < |d.pool.tokens| ==> d.pool.tokens[i].percent <= PERCENT_SCALE)
      && d.pool.lpTokenPriceUSD <= maxPrice
      && (d.user.Some? && d.user.value.share <= WAD ==>
            && d.user.value.underlyingTokensAmount <= Sum(seq(|d.pool.tokens|, i requires 0 <= i < |d.pool.tokens| => d.pool.tokens[i].value))
            && forall i :: 0 <= i < |d.pool.tokens| ==> d.user.value.tokens[i].value <= d.pool.tokens[i].value)
  {
    var balances := NormalisedBalances(inp.tokens).value;
    var prices := TokenPrices(inp.tokens, inp.isMetaSwap, inp.poolTypeSymbol, inp.pricesUSD);
    var d := GetSwapData(inp).value;
    TokenPercentsAtMostWhole(balances);
    LpTokenPriceAtMostMaxPrice(balances, prices, maxPrice);
    assert seq(|d.pool.tokens|, i requires 0 <= i < |d.pool.tokens| => d.pool.tokens[i].value) == balances;
    if d.user.Some? && d.user.value.share <= WAD {
      UserAmountsWithinPool(d.user.value.share, balances);
    }
  }
}
