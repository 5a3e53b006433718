/** The parts of a pool's static configuration that the claim modal consults. */
module PoolConfig {
  import opened Outcomes

  /** A pool: its name, its address on each chain, and its reward pid on each chain
      (`None` for an explicit `null`; a chain missing from the map is `undefined`). */
  datatype Pool = Pool(name: string, addresses: map<nat, string>, rewardPids: map<nat, Option<nat>>)

  /** `!!chainId`: a chain is selected when there is one and its id is not 0. */
  predicate ChainSelected(chainId: Option<nat>)
  {
    chainId.Some? && chainId.value != 0
  }

  /** `!!addresses[chainId]`: the pool has a non-empty address on the chain. */
  predicate IsChainPool(p: Pool, chainId: nat)
  {
    chainId in p.addresses && p.addresses[chainId] != ""
  }

  /** What `rewardPids[chainId]` reads: `undefined` for a chain missing from the table, an
      explicit `null`, or a pid. */
  datatype PidEntry = Undefined | Null | Pid(pid: nat)

  /** `rewardPids[chainId]` */
  function RewardPid(p: Pool, chainId: nat): (r: PidEntry)
    ensures r.Undefined? <==> chainId !in p.rewardPids
    ensures r.Null? <==> chainId in p.rewardPids && p.rewardPids[chainId].None?
    ensures r.Pid? ==> chainId in p.rewardPids && p.rewardPids[chainId] == Some(r.pid)
  {
    if chainId !in p.rewardPids then Undefined
    else if p.rewardPids[chainId].None? then Null
    else Pid(p.rewardPids[chainId].value)
  }

  /** Every pool has a numeric pid on the chain, so `harvest(pid, account)` can be encoded
      for each (a `null` or `undefined` pid makes the encoding throw). */
  predicate PidsNumeric(pools: seq<Pool>, chainId: nat)
  {
    forall i :: 0 <= i < |pools| ==> RewardPid(pools[i], chainId).Pid?
  }

  /** `rewardPids[chainId] === null`: only an explicit `null` counts; `undefined` does not. */
  predicate PidIsNull(p: Pool, chainId: nat)
  {
    RewardPid(p, chainId).Null?
  }
}
