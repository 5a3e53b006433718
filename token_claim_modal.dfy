/**
 * The claim modal: which pools it lists and in what order, and when its claim buttons
 * are enabled.
 */
module TokenClaimModal {
  import opened Outcomes
  import opened PoolConfig
  import opened RewardClaims

  /** `10 ** 16`: no claim of less than 0.01 token. */
  const CLAIM_THRESHOLD: nat := 10_000_000_000_000_000

  /** The status key list items read before their own; no flow ever writes it. */
  const ALL_POOLS_KEY: string := "allPools"

  /** `rewardBalances[name] || Zero` */
  function RewardBalance(rewardBalances: map<string, nat>, name: string): nat
  {
    if name in rewardBalances then rewardBalances[name] else 0
  }

  /** `rewardBalances[name]?.gt(Zero)` */
  predicate HasUserRewards(rewardBalances: map<string, nat>, name: string)
  {
    name in rewardBalances && rewardBalances[name] > 0
  }

  predicate HasChainRewards(p: Pool, chainId: nat)
  {
    IsChainPool(p, chainId) && !PidIsNull(p, chainId)
  }

  /** The first `filter`: pools on the chain whose pid there is not `null`. */
  function ChainRewardPools(pools: seq<Pool>, chainId: nat): (r: seq<Pool>)
    ensures forall p :: multiset(r)[p] == if HasChainRewards(p, chainId) then multiset(pools)[p] else 0
  {
    if pools == [] then []
    else
      assert pools == [pools[0]] + pools[1..];
      (if HasChainRewards(pools[0], chainId) then [pools[0]] else []) + ChainRewardPools(pools[1..], chainId)
  }

  /** Non-increasing reward balance, a missing balance counted as 0. */
  ghost predicate SortedByReward(s: seq<Pool>, rewardBalances: map<string, nat>)
  {
    forall i, j :: 0 <= i < j < |s| ==> RewardBalance(rewardBalances, s[i].name) >= RewardBalance(rewardBalances, s[j].name)
  }

  /** One insertion step of the sort with comparator `(a >= b) ? -1 : 1`: the new pool goes
      before the first pool whose balance it equals or exceeds. */
  function InsertByReward(p: Pool, s: seq<Pool>, rewardBalances: map<string, nat>): (r: seq<Pool>)
    ensures multiset(r) == multiset(s) + multiset{p}
  {
    if s == [] then [p]
    else if RewardBalance(rewardBalances, p.name) >= RewardBalance(rewardBalances, s[0].name) then
      [p] + s
    else
      assert s == [s[0]] + s[1..];
      [s[0]] + InsertByReward(p, s[1..], rewardBalances)
  }

  lemma {:induction false} InsertByRewardSorted(p: Pool, s: seq<Pool>, rewardBalances: map<string, nat>)
    requires SortedByReward(s, rewardBalances)
    ensures SortedByReward(InsertByReward(p, s, rewardBalances), rewardBalances)
  {
    if s != [] && RewardBalance(rewardBalances, p.name) < RewardBalance(rewardBalances, s[0].name) {
      var rest := InsertByReward(p, s[1..], rewardBalances);
      SortedTail(s, rewardBalances);
      InsertByRewardSorted(p, s[1..], rewardBalances);
      forall j | 0 <= j < |rest|
        ensures RewardBalance(rewardBalances, s[0].name) >= RewardBalance(rewardBalances, rest[j].name)
      {
        assert rest[j] in multiset(rest);
        if rest[j] != p {
          assert rest[j] in multiset(s[1..]);
          var k :| 0 <= k < |s[1..]| && s[1..][k] == rest[j];
          assert s[k + 1] == rest[j];
        }
      }
      var r := [s[0]] + rest;
      forall i, j | 0 <= i < j < |r|
        ensures RewardBalance(rewardBalances, r[i].name) >= RewardBalance(rewardBalances, r[j].name)
      {
        if i > 0 {
          assert r[i] == rest[i - 1] && r[j] == rest[j - 1];
        } else {
          assert r[j] == rest[j - 1];
        }
      }
    }
  }

  lemma SortedTail(s: seq<Pool>, rewardBalances: map<string, nat>)
    requires SortedByReward(s, rewardBalances) && s != []
    ensures SortedByReward(s[1..], rewardBalances)
  {
    forall i, j | 0 <= i < j < |s[1..]|
      ensures RewardBalance(rewardBalances, s[1..][i].name) >= RewardBalance(rewardBalances, s[1..][j].name)
    {
      assert s[1..][i] == s[i + 1] && s[1..][j] == s[j + 1];
    }
  }

  /** The `sort`: pools inserted one by one, left to right. */
  function SortByReward(s: seq<Pool>, rewardBalances: map<string, nat>): (r: seq<Pool>)
    ensures multiset(r) == multiset(s)
    ensures SortedByReward(r, rewardBalances)
  {
    if s == [] then []
    else
      assert s == s[..|s| - 1] + [s[|s| - 1]];
      InsertByRewardSorted(s[|s| - 1], SortByReward(s[..|s| - 1], rewardBalances), rewardBalances);
      InsertByReward(s[|s| - 1], SortByReward(s[..|s| - 1], rewardBalances), rewardBalances)
  }

  /** The last `filter`: the pools where the user has a positive reward, in order. */
  function UserRewardPools(s: seq<Pool>, rewardBalances: map<string, nat>): (r: seq<Pool>)
    ensures forall i :: 0 <= i < |r| ==> HasUserRewards(rewardBalances, r[i].name)
  {
    if s == [] then []
    else
      (if HasUserRewards(rewardBalances, s[0].name) then [s[0]] else []) + UserRewardPools(s[1..], rewardBalances)
  }

  /** The `useMemo` block: `[allPoolsWithRewards, poolsWithUserRewards]`. */
  function SelectPools(chainId: Option<nat>, pools: seq<Pool>, rewardBalances: map<string, nat>)
    : (r: (seq<Pool>, seq<Pool>))
    ensures !ChainSelected(chainId) ==> r == ([], [])
  {
    if !ChainSelected(chainId) then ([], [])
    else
      var all := SortByReward(ChainRewardPools(pools, chainId.value), rewardBalances);
      (all, UserRewardPools(all, rewardBalances))
  }

  /** `allPoolsWithRewards` holds exactly the configured pools that are on the chain with a
      non-null pid, each as often as configured, ordered by non-increasing reward balance. */
  lemma AllPoolsWithRewardsSpec(chainId: Option<nat>, pools: seq<Pool>, rewardBalances: map<string, nat>)
    requires ChainSelected(chainId)
    ensures var all := SelectPools(chainId, pools, rewardBalances).0;
      && (forall p :: multiset(all)[p] == if HasChainRewards(p, chainId.value) then multiset(pools)[p] else 0)
      && (forall p :: p in all <==> p in pools && IsChainPool(p, chainId.value) && !PidIsNull(p, chainId.value))
      && SortedByReward(all, rewardBalances)
  {
    var all := SelectPools(chainId, pools, rewardBalances).0;
    forall p ensures p in all <==> p in pools && HasChainRewards(p, chainId.value) {
      assert p in all <==> p in multiset(all);
      assert p in pools <==> p in multiset(pools);
    }
  }

  /** Because the list is sorted, the pools with user rewards are a prefix of it, and no
      pool after that prefix has rewards. */
  lemma {:induction false} UserRewardPoolsIsPrefix(s: seq<Pool>, rewardBalances: map<string, nat>)
    requires SortedByReward(s, rewardBalances)
    ensures var u := UserRewardPools(s, rewardBalances);
      && |u| <= |s| && u == s[..|u|]
      && forall i :: |u| <= i < |s| ==> !HasUserRewards(rewardBalances, s[i].name)
  {
    if s != [] {
      if HasUserRewards(rewardBalances, s[0].name) {
        SortedTail(s, rewardBalances);
        UserRewardPoolsIsPrefix(s[1..], rewardBalances);
        PrefixStep(s, rewardBalances);
      } else {
        NoRewardsBehind(s, rewardBalances);
        NoneSelected(s, rewardBalances);
      }
    }
  }

  /** Extending the prefix by a leading pool with rewards. */
  lemma PrefixStep(s: seq<Pool>, rewardBalances: map<string, nat>)
    requires s != [] && HasUserRewards(rewardBalances, s[0].name)
    requires var u' := UserRewardPools(s[1..], rewardBalances);
      && |u'| <= |s| - 1 && u' == s[1..][..|u'|]
      && forall i :: |u'| <= i < |s| - 1 ==> !HasUserRewards(rewardBalances, s[1..][i].name)
    ensures var u := UserRewardPools(s, rewardBalances);
      && |u| <= |s| && u == s[..|u|]
      && forall i :: |u| <= i < |s| ==> !HasUserRewards(rewardBalances, s[i].name)
  {
    var u' := UserRewardPools(s[1..], rewardBalances);
    var u := UserRewardPools(s, rewardBalances);
    assert u == [s[0]] + u';
    assert s[..|u|] == [s[0]] + s[1..][..|u'|];
    forall i | |u| <= i < |s| ensures !HasUserRewards(rewardBalances, s[i].name) {
      assert s[i] == s[1..][i - 1];
    }
  }

  /** In a sorted list led by a pool without rewards, no pool has rewards. */
  lemma NoRewardsBehind(s: seq<Pool>, rewardBalances: map<string, nat>)
    requires SortedByReward(s, rewardBalances) && s != []
    requires !HasUserRewards(rewardBalances, s[0].name)
    ensures forall i :: 0 <= i < |s| ==> !HasUserRewards(rewardBalances, s[i].name)
  {
    forall i | 0 < i < |s| ensures !HasUserRewards(rewardBalances, s[i].name) {
      assert RewardBalance(rewardBalances, s[0].name) >= RewardBalance(rewardBalances, s[i].name);
    }
  }

  /** When no pool has rewards, the filter keeps nothing. */
  lemma {:induction false} NoneSelected(s: seq<Pool>, rewardBalances: map<string, nat>)
    requires forall i :: 0 <= i < |s| ==> !HasUserRewards(rewardBalances, s[i].name)
    ensures UserRewardPools(s, rewardBalances) == []
  {
    if s != [] {
      assert forall i :: 0 <= i < |s[1..]| ==> s[1..][i] == s[i + 1];
      NoneSelected(s[1..], rewardBalances);
    }
  }

  /** `poolsWithUserRewards` is the leading run of `allPoolsWithRewards` with a positive
      balance, and no later pool of that list has one. */
  lemma PoolsWithUserRewardsSpec(chainId: Option<nat>, pools: seq<Pool>, rewardBalances: map<string, nat>)
    ensures var (all, withUser) := SelectPools(chainId, pools, rewardBalances);
      && |withUser| <= |all| && withUser == all[..|withUser|]
      && (forall i :: 0 <= i < |withUser| ==> HasUserRewards(rewardBalances, withUser[i].name))
      && (forall i :: |withUser| <= i < |all| ==> !HasUserRewards(rewardBalances, all[i].name))
  {
    if ChainSelected(chainId) {
      UserRewardPoolsIsPrefix(SelectPools(chainId, pools, rewardBalances).0, rewardBalances);
    }
  }

  /** `disabled={poolsWithUserRewards.length < 2}` */
  predicate ClaimAllDisabled(poolsWithUserRewards: seq<Pool>)
  {
    |poolsWithUserRewards| < 2
  }

  /** The claim-all button is enabled exactly when the two top-ranked pools both carry a
      positive reward balance. */
  lemma ClaimAllEnabledIff(chainId: Option<nat>, pools: seq<Pool>, rewardBalances: map<string, nat>)
    ensures var (all, withUser) := SelectPools(chainId, pools, rewardBalances);
      !ClaimAllDisabled(withUser) <==>
        |all| >= 2 && HasUserRewards(rewardBalances, all[0].name) && HasUserRewards(rewardBalances, all[1].name)
  {
    var (all, withUser) := SelectPools(chainId, pools, rewardBalances);
    PoolsWithUserRewardsSpec(chainId, pools, rewardBalances);
    if |withUser| >= 2 {
      assert all[0] == withUser[0] && all[1] == withUser[1];
    } else if |all| >= 2 {
      assert |withUser| <= 1;
      assert !HasUserRewards(rewardBalances, all[1].name);
    }
  }

  /** `disabled` of a claim list item. */
  predicate ItemDisabled(status: Option<Status>, amount: nat)
  {
    status == Some(Pending) || status == Some(Success) || amount < CLAIM_THRESHOLD
  }

  /** The amount an item shows. */
  function DisplayedAmount(status: Option<Status>, amount: nat): nat
  {
    if status == Some(Success) then 0 else amount
  }

  /** `claimsStatuses["allPools"] || claimsStatuses[pool.name]`: PENDING is falsy, so only a
      SUCCESS or ERROR under "allPools" hides the pool's own status. */
  function PoolItemStatus(statuses: map<string, Status>, poolName: string): (r: Option<Status>)
    ensures NoAllPoolsOverride(statuses) ==> r == Lookup(statuses, poolName)
    ensures !NoAllPoolsOverride(statuses) ==> r == Lookup(statuses, ALL_POOLS_KEY) && r != Some(Pending)
  {
    if ALL_POOLS_KEY in statuses && statuses[ALL_POOLS_KEY] != Pending then Some(statuses[ALL_POOLS_KEY])
    else Lookup(statuses, poolName)
  }

  /** `claimsStatuses["retroactive"]` */
  function RetroItemStatus(statuses: map<string, Status>): Option<Status>
  {
    Lookup(statuses, RETRO_KEY)
  }

  /** Nothing writes "allPools" unless a pool is named so: no other key is visible behind it. */
  predicate NoAllPoolsOverride(statuses: map<string, Status>)
  {
    !(ALL_POOLS_KEY in statuses && statuses[ALL_POOLS_KEY] != Pending)
  }

  /** A pool's item after its claim: disabled and showing 0 after a successful harvest (which
      needs a numeric pid), enabled again after a failed one unless the amount is below the
      threshold. */
  lemma PoolItemAfterClaim(m: map<string, Status>, chainId: Option<nat>, hasAccount: bool,
                           hasRewardsContract: bool, pool: Pool, harvestSucceeds: bool, amount: nat)
    requires NoAllPoolsOverride(m) && pool.name != ALL_POOLS_KEY
    requires PoolClaimWrites(chainId, hasAccount, hasRewardsContract, pool, harvestSucceeds) != []
    ensures var status := PoolItemStatus(Apply(m, PoolClaimWrites(chainId, hasAccount, hasRewardsContract, pool, harvestSucceeds)), pool.name);
      var succeeded := harvestSucceeds && RewardPid(pool, chainId.value).Pid?;
      && (succeeded ==> ItemDisabled(status, amount) && DisplayedAmount(status, amount) == 0)
      && (!succeeded ==> (ItemDisabled(status, amount) <==> amount < CLAIM_THRESHOLD)
                         && DisplayedAmount(status, amount) == amount)
  {
    var w := PoolClaimWrites(chainId, hasAccount, hasRewardsContract, pool, harvestSucceeds);
    PoolClaimEffect(m, chainId, hasAccount, hasRewardsContract, pool, harvestSucceeds, ALL_POOLS_KEY);
  }

  /** The retroactive item after its claim: disabled and showing 0 when the vesting was read,
      a call was chosen and its transaction succeeded; otherwise enabled again for a large
      enough amount, showing the amount. */
  lemma RetroItemAfterClaim(m: map<string, Status>, vesting: VestingRead, hasMerkleData: bool,
                            txnSucceeds: bool, amount: nat)
    ensures var status := RetroItemStatus(Apply(m, RetroClaimWrites(true, true, vesting, hasMerkleData, txnSucceeds)));
      var succeeded := vesting.Vesting? && (vesting.isVerified || hasMerkleData) && txnSucceeds;
      && (succeeded ==> ItemDisabled(status, amount) && DisplayedAmount(status, amount) == 0)
      && (!succeeded ==> (ItemDisabled(status, amount) <==> amount < CLAIM_THRESHOLD)
                         && DisplayedAmount(status, amount) == amount)
  {
    RetroClaimEffect(m, true, true, vesting, hasMerkleData, txnSucceeds, RETRO_KEY);
  }

  /** No claim flow, except the claim of a pool named "allPools", writes a SUCCESS or ERROR
      under "allPools". */
  lemma FlowKeepsNoAllPoolsOverride(m: map<string, Status>, f: ClaimFlow)
    requires NoAllPoolsOverride(m)
    requires f.PoolClaim? ==> f.pool.name != ALL_POOLS_KEY
    ensures NoAllPoolsOverride(Apply(m, FlowWrites(f)))
  {
    match f
    case PoolClaim(c, a, r, p, h) => PoolClaimEffect(m, c, a, r, p, h, ALL_POOLS_KEY);
    case RetroClaim(a, r, v, d, t) => RetroClaimEffect(m, a, r, v, d, t, ALL_POOLS_KEY);
    case AllClaim(c, a, r, ps, p, b) => AllClaimEffect(m, c, a, r, ps, p, b, ALL_POOLS_KEY);
  }

  /** Every table the claim flows reach from the initial `{}` meets the precondition of
      PoolItemAfterClaim, as long as no pool is named "allPools". */
  lemma {:induction false} FlowsKeepNoAllPoolsOverride(flows: seq<ClaimFlow>)
    requires forall i :: 0 <= i < |flows| && flows[i].PoolClaim? ==> flows[i].pool.name != ALL_POOLS_KEY
    ensures NoAllPoolsOverride(RunFlows(map[], flows))
  {
    if flows != [] {
      FlowsKeepNoAllPoolsOverride(flows[..|flows| - 1]);
      FlowKeepsNoAllPoolsOverride(RunFlows(map[], flows[..|flows| - 1]), flows[|flows| - 1]);
    }
  }

  /** The batch claim writes "all" while items read "allPools": no list item ever reflects
      it, whatever its outcome. */
  lemma BatchClaimInvisibleToItems(m: map<string, Status>, chainId: Option<nat>, hasAccount: bool,
                                   hasRewardsContract: bool, pools: seq<Pool>, populateSucceeds: bool, batchSucceeds: bool,
                                   poolName: string)
    requires poolName != ALL_KEY
    ensures PoolItemStatus(Apply(m, AllClaimWrites(chainId, hasAccount, hasRewardsContract, pools, populateSucceeds, batchSucceeds)), poolName)
         == PoolItemStatus(m, poolName)
  {
    AllClaimEffect(m, chainId, hasAccount, hasRewardsContract, pools, populateSucceeds, batchSucceeds, ALL_POOLS_KEY);
    AllClaimEffect(m, chainId, hasAccount, hasRewardsContract, pools, populateSucceeds, batchSucceeds, poolName);
  }
}
