/**
 * The claim-status table of the reward-claims hook: a map from claim key to status that
 * each claim flow writes key by key. Contract calls are abstract inputs telling whether
 * they succeeded.
 */
module RewardClaims {
  import opened Outcomes
  import opened PoolConfig

  /** The `STATUSES` enum; PENDING is 0, so it is the one falsy status. */
  datatype Status = Pending | Success | Error

  /** The key the retroactive-drop claim writes. */
  const RETRO_KEY: string := "retroactive"
  /** The key the batch claim writes. */
  const ALL_KEY: string := "all"

  /** `claimsStatuses[key]`, `undefined` when the key was never written. */
  function Lookup(m: map<string, Status>, key: string): Option<Status>
  {
    if key in m then Some(m[key]) else None
  }

  /** The table after a sequence of `updateClaimStatus(key, status)` calls, in order. */
  function Apply(m: map<string, Status>, writes: seq<(string, Status)>): map<string, Status>
  {
    if writes == [] then m
    else
      var last := writes[|writes| - 1];
      Apply(m, writes[..|writes| - 1])[last.0 := last.1]
  }

  /** A key no write mentions keeps its status. */
  lemma {:induction false} ApplyUntouched(m: map<string, Status>, writes: seq<(string, Status)>, key: string)
    requires forall i :: 0 <= i < |writes| ==> writes[i].0 != key
    ensures Lookup(Apply(m, writes), key) == Lookup(m, key)
  {
    if writes != [] {
      ApplyUntouched(m, writes[..|writes| - 1], key);
    }
  }

  /** A key ends with the status of its last write. */
  lemma {:induction false} ApplyLastWrite(m: map<string, Status>, writes: seq<(string, Status)>, i: nat)
    requires i < |writes|
    requires forall j :: i < j < |writes| ==> writes[j].0 != writes[i].0
    ensures Lookup(Apply(m, writes), writes[i].0) == Some(writes[i].1)
  {
    if i < |writes| - 1 {
      ApplyLastWrite(m, writes[..|writes| - 1], i);
    }
  }

  /** Two runs of writes compose. */
  lemma {:induction false} ApplyConcat(m: map<string, Status>, w1: seq<(string, Status)>, w2: seq<(string, Status)>)
    ensures Apply(m, w1 + w2) == Apply(Apply(m, w1), w2)
  {
    if w2 == [] {
      assert w1 + w2 == w1;
    } else {
      assert (w1 + w2)[..|w1 + w2| - 1] == w1 + w2[..|w2| - 1];
      ApplyConcat(m, w1, w2[..|w2| - 1]);
    }
  }

  /** The writes of `claimPoolReward(pool)`: nothing without a chain, account or rewards
      contract, or when the pool's pid is `null`; otherwise PENDING, then SUCCESS or ERROR
      as the harvest transaction goes. An `undefined` pid passes the `null` test, and
      `harvest(undefined, account)` throws, so that claim always ends at ERROR. */
  function PoolClaimWrites(chainId: Option<nat>, hasAccount: bool, hasRewardsContract: bool,
                           pool: Pool, harvestSucceeds: bool): seq<(string, Status)>
  {
    if !ChainSelected(chainId) || !hasAccount || !hasRewardsContract then []
    else if PidIsNull(pool, chainId.value) then []
    else
      var harvested := harvestSucceeds && RewardPid(pool, chainId.value).Pid?;
      [(pool.name, Pending), (pool.name, if harvested then Success else Error)]
  }

  /** The vesting record `vestings(account)` returned, or the failure of that call. */
  datatype VestingRead = VestingUnavailable | Vesting(isVerified: bool)

  /** The retroactive-vesting contract call a claim sends. */
  datatype RetroCall = ClaimReward | VerifyAndClaimReward

  /** `claimReward` for a verified vesting, else `verifyAndClaimReward` when the user has
      Merkle data, else no call (and the flow throws). */
  function RetroCallChoice(isVerified: bool, hasMerkleData: bool): Option<RetroCall>
  {
    if isVerified then Some(ClaimReward)
    else if hasMerkleData then Some(VerifyAndClaimReward)
    else None
  }

  /** The call `claimRetroReward` sends, if it gets that far. */
  function RetroCallSent(hasAccount: bool, hasRetroContract: bool, vesting: VestingRead,
                         hasMerkleData: bool): Option<RetroCall>
  {
    if !hasAccount || !hasRetroContract || vesting.VestingUnavailable? then None
    else RetroCallChoice(vesting.isVerified, hasMerkleData)
  }

  /** The writes of `claimRetroReward`: nothing without an account or contract; otherwise
      PENDING, then SUCCESS when a call was chosen and its transaction succeeded, else ERROR. */
  function RetroClaimWrites(hasAccount: bool, hasRetroContract: bool, vesting: VestingRead,
                            hasMerkleData: bool, txnSucceeds: bool): seq<(string, Status)>
  {
    if !hasAccount || !hasRetroContract then []
    else
      var sent := RetroCallSent(hasAccount, hasRetroContract, vesting, hasMerkleData);
      [(RETRO_KEY, Pending), (RETRO_KEY, if sent.Some? && txnSucceeds then Success else Error)]
  }

  /** The writes of `claimAllPoolsRewards(pools)`: nothing without a chain, account or
      rewards contract; ERROR alone when building the harvest calls fails, which it always
      does when a pool's pid is `null` or `undefined` (the `as number` cast checks nothing);
      otherwise PENDING, then SUCCESS or ERROR as the batch transaction goes. Every write is
      under key "all". */
  function AllClaimWrites(chainId: Option<nat>, hasAccount: bool, hasRewardsContract: bool,
                          pools: seq<Pool>, populateSucceeds: bool, batchSucceeds: bool): seq<(string, Status)>
  {
    if !ChainSelected(chainId) || !hasAccount || !hasRewardsContract then []
    else if !populateSucceeds || !PidsNumeric(pools, chainId.value) then [(ALL_KEY, Error)]
    else [(ALL_KEY, Pending), (ALL_KEY, if batchSucceeds then Success else Error)]
  }

  /** A pool claim changes no key but the pool's name, and leaves that key at SUCCESS or
      ERROR as the harvest went, after marking it PENDING first; with an `undefined` pid it
      always ends at ERROR. */
  lemma PoolClaimEffect(m: map<string, Status>, chainId: Option<nat>, hasAccount: bool,
                        hasRewardsContract: bool, pool: Pool, harvestSucceeds: bool, key: string)
    ensures var w := PoolClaimWrites(chainId, hasAccount, hasRewardsContract, pool, harvestSucceeds);
      && (key != pool.name ==> Lookup(Apply(m, w), key) == Lookup(m, key))
      && (w == [] <==> !ChainSelected(chainId) || !hasAccount || !hasRewardsContract || PidIsNull(pool, chainId.value))
      && (w != [] ==>
            && w[0] == (pool.name, Pending)
            && Lookup(Apply(m, w), pool.name)
               == Some(if harvestSucceeds && RewardPid(pool, chainId.value).Pid? then Success else Error))
      && (w != [] && RewardPid(pool, chainId.value).Undefined? ==> Lookup(Apply(m, w), pool.name) == Some(Error))
  {
    var w := PoolClaimWrites(chainId, hasAccount, hasRewardsContract, pool, harvestSucceeds);
    if key != pool.name {
      ApplyUntouched(m, w, key);
    }
    if w != [] {
      ApplyLastWrite(m, w, 1);
    }
  }

  /** The retroactive claim changes only its own key. Without an account or contract it
      writes nothing; otherwise it marks the key PENDING first and leaves it at SUCCESS
      exactly when the vesting was read, a call was chosen (verified, or Merkle data
      present) and the transaction succeeded, and at ERROR otherwise. */
  lemma RetroClaimEffect(m: map<string, Status>, hasAccount: bool, hasRetroContract: bool,
                         vesting: VestingRead, hasMerkleData: bool, txnSucceeds: bool, key: string)
    ensures var w := RetroClaimWrites(hasAccount, hasRetroContract, vesting, hasMerkleData, txnSucceeds);
      var succeeded := vesting.Vesting? && (vesting.isVerified || hasMerkleData) && txnSucceeds;
      && (key != RETRO_KEY ==> Lookup(Apply(m, w), key) == Lookup(m, key))
      && (w == [] <==> !hasAccount || !hasRetroContract)
      && (w != [] ==>
            && w[0] == (RETRO_KEY, Pending)
            && Lookup(Apply(m, w), RETRO_KEY) == Some(if succeeded then Success else Error))
  {
    var w := RetroClaimWrites(hasAccount, hasRetroContract, vesting, hasMerkleData, txnSucceeds);
    if key != RETRO_KEY {
      ApplyUntouched(m, w, key);
    }
    if w != [] {
      ApplyLastWrite(m, w, 1);
    }
  }

  /** The batch claim writes only key "all". Without a chain, account or rewards contract it
      writes nothing; PENDING is written only once the harvest calls were built, and first;
      "all" ends at SUCCESS exactly when the calls were built and the batch succeeded, and
      at ERROR otherwise. A batch holding a pool without a numeric pid writes ERROR alone. */
  lemma AllClaimEffect(m: map<string, Status>, chainId: Option<nat>, hasAccount: bool,
                       hasRewardsContract: bool, pools: seq<Pool>, populateSucceeds: bool, batchSucceeds: bool,
                       key: string)
    ensures var w := AllClaimWrites(chainId, hasAccount, hasRewardsContract, pools, populateSucceeds, batchSucceeds);
      var built := ChainSelected(chainId) && populateSucceeds && PidsNumeric(pools, chainId.value);
      && (key != ALL_KEY ==> Lookup(Apply(m, w), key) == Lookup(m, key))
      && (w == [] <==> !ChainSelected(chainId) || !hasAccount || !hasRewardsContract)
      && (forall i :: 0 <= i < |w| && w[i].1 == Pending ==> i == 0 && built)
      && (w != [] && built ==> w[0] == (ALL_KEY, Pending))
      && (w != [] && !PidsNumeric(pools, chainId.value) ==> w == [(ALL_KEY, Error)])
      && (w != [] ==>
            Lookup(Apply(m, w), ALL_KEY) == Some(if built && batchSucceeds then Success else Error))
  {
    var w := AllClaimWrites(chainId, hasAccount, hasRewardsContract, pools, populateSucceeds, batchSucceeds);
    if key != ALL_KEY {
      ApplyUntouched(m, w, key);
    }
    if w != [] {
      ApplyLastWrite(m, w, |w| - 1);
    }
  }

  /** One run of a claim flow, with the outcomes of its contract calls. */
  datatype ClaimFlow =
    | PoolClaim(chainId: Option<nat>, hasAccount: bool, hasRewardsContract: bool, pool: Pool,
                harvestSucceeds: bool)
    | RetroClaim(hasAccount: bool, hasRetroContract: bool, vesting: VestingRead, hasMerkleData: bool,
                 txnSucceeds: bool)
    | AllClaim(chainId: Option<nat>, hasAccount: bool, hasRewardsContract: bool, pools: seq<Pool>,
               populateSucceeds: bool,
               batchSucceeds: bool)

  /** The status updates one flow makes. */
  function FlowWrites(f: ClaimFlow): seq<(string, Status)>
  {
    match f
    case PoolClaim(c, a, r, p, h) => PoolClaimWrites(c, a, r, p, h)
    case RetroClaim(a, r, v, d, t) => RetroClaimWrites(a, r, v, d, t)
    case AllClaim(c, a, r, ps, p, b) => AllClaimWrites(c, a, r, ps, p, b)
  }

  /** The table after the flows ran one after another. */
  function RunFlows(m: map<string, Status>, flows: seq<ClaimFlow>): map<string, Status>
  {
    if flows == [] then m
    else Apply(RunFlows(m, flows[..|flows| - 1]), FlowWrites(flows[|flows| - 1]))
  }

  /** The `pendingClaims` state of the hook. `history` records every update in order. */
  class ClaimsState {
    var pendingClaims: map<string, Status>
    ghost var history: seq<(string, Status)>

    /** The table is the replay of its updates from the initial empty table. */
    ghost predicate Valid()
      reads this
    {
      pendingClaims == Apply(map[], history)
    }

    constructor ()
      ensures Valid() && pendingClaims == map[] && history == []
    {
      pendingClaims := map[];
      history := [];
    }

    /** `updateClaimStatus(key, status)`: `{...state, [key]: status}`. */
    method UpdateClaimStatus(key: string, status: Status)
      requires Valid()
      modifies this
      ensures Valid()
      ensures pendingClaims == old(pendingClaims)[key := status]
      ensures forall k :: k != key ==> Lookup(pendingClaims, k) == Lookup(old(pendingClaims), k)
      ensures history == old(history) + [(key, status)]
    {
      pendingClaims := pendingClaims[key := status];
      history := history + [(key, status)];
      assert history[..|history| - 1] == old(history);
    }

    /** `claimPoolReward(pool)`, with the harvest transaction's outcome as an input. */
    method ClaimPoolReward(chainId: Option<nat>, hasAccount: bool, hasRewardsContract: bool,
                           pool: Pool, harvestSucceeds: bool)
      requires Valid()
      modifies this
      ensures Valid()
      ensures history == old(history) + PoolClaimWrites(chainId, hasAccount, hasRewardsContract, pool, harvestSucceeds)
      ensures pendingClaims == Apply(old(pendingClaims), PoolClaimWrites(chainId, hasAccount, hasRewardsContract, pool, harvestSucceeds))
    {
      ghost var w := PoolClaimWrites(chainId, hasAccount, hasRewardsContract, pool, harvestSucceeds);
      if !ChainSelected(chainId) || !hasAccount || !hasRewardsContract {
        return;
      }
      if PidIsNull(pool, chainId.value) {
        return;
      }
      UpdateClaimStatus(pool.name, Pending);
      if RewardPid(pool, chainId.value).Undefined? {
        // `harvest(undefined, account)` throws
        UpdateClaimStatus(pool.name, Error);
      } else if harvestSucceeds {
        UpdateClaimStatus(pool.name, Success);
      } else {
        UpdateClaimStatus(pool.name, Error);
      }
      assert history == old(history) + w;
      ApplyConcat(map[], old(history), w);
    }

    /** `claimRetroReward()`, with the vesting read and the transaction outcome as inputs;
        returns the contract call it sent. */
    method ClaimRetroReward(hasAccount: bool, hasRetroContract: bool, vesting: VestingRead,
                            hasMerkleData: bool, txnSucceeds: bool) returns (sent: Option<RetroCall>)
      requires Valid()
      modifies this
      ensures Valid()
      ensures sent == RetroCallSent(hasAccount, hasRetroContract, vesting, hasMerkleData)
      ensures history == old(history) + RetroClaimWrites(hasAccount, hasRetroContract, vesting, hasMerkleData, txnSucceeds)
      ensures pendingClaims == Apply(old(pendingClaims), RetroClaimWrites(hasAccount, hasRetroContract, vesting, hasMerkleData, txnSucceeds))
    {
      ghost var w := RetroClaimWrites(hasAccount, hasRetroContract, vesting, hasMerkleData, txnSucceeds);
      sent := None;
      if !hasAccount || !hasRetroContract {
        return;
      }
      UpdateClaimStatus(RETRO_KEY, Pending);
      if vesting.VestingUnavailable? {
        UpdateClaimStatus(RETRO_KEY, Error);
      } else {
        sent := RetroCallChoice(vesting.isVerified, hasMerkleData);
        if sent.None? {
          // "Unable to claim retro reward" is thrown
          UpdateClaimStatus(RETRO_KEY, Error);
        } else if txnSucceeds {
          UpdateClaimStatus(RETRO_KEY, Success);
        } else {
          UpdateClaimStatus(RETRO_KEY, Error);
        }
      }
      assert history == old(history) + w;
      ApplyConcat(map[], old(history), w);
    }

    /** `claimAllPoolsRewards(pools)`, with the outcomes of building the harvest calls (for
        pools whose pids are numbers) and of the batch transaction as inputs. */
    method ClaimAllPoolsRewards(chainId: Option<nat>, hasAccount: bool, hasRewardsContract: bool,
                                pools: seq<Pool>, populateSucceeds: bool, batchSucceeds: bool)
      requires Valid()
      modifies this
      ensures Valid()
      ensures history == old(history) + AllClaimWrites(chainId, hasAccount, hasRewardsContract, pools, populateSucceeds, batchSucceeds)
      ensures pendingClaims == Apply(old(pendingClaims), AllClaimWrites(chainId, hasAccount, hasRewardsContract, pools, populateSucceeds, batchSucceeds))
    {
      ghost var w := AllClaimWrites(chainId, hasAccount, hasRewardsContract, pools, populateSucceeds, batchSucceeds);
      if !ChainSelected(chainId) || !hasAccount || !hasRewardsContract {
        return;
      }
      if !populateSucceeds || !PidsNumeric(pools, chainId.value) {
        // a `null` or `undefined` pid makes `populateTransaction.harvest` throw
        UpdateClaimStatus(ALL_KEY, Error);
      } else {
        UpdateClaimStatus(ALL_KEY, Pending);
        if batchSucceeds {
          UpdateClaimStatus(ALL_KEY, Success);
        } else {
          UpdateClaimStatus(ALL_KEY, Error);
        }
      }
      assert history == old(history) + w;
      ApplyConcat(map[], old(history), w);
    }
  }
}
