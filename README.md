# Saddle front end: pool-data arithmetic and reward-claim logic

This project models two computational cores of the Saddle Finance web front end and proves
properties of them in Dafny.

- **Pool data** (`src/hooks/usePoolData.ts`, `getSwapData`). Once the contract reads have
  returned, the pool page's figures are computed with integer fixed-point arithmetic on
  arbitrary-precision naturals. The steps are: cast every token balance to 18 decimals; sum the
  balances and their USD values; price the LP token in USD; take the user's wallet,
  partner-staked and rewards-staked LP tokens as 10^18-scaled fractions of the LP supply; scale
  that share onto each token balance; compute 10^5-scaled token percentages and the SDL emitted
  per day; convert partner-staked LP amounts through the virtual price. Thrown exceptions are
  values of `Outcomes.Result`:
  - `NegativePower`: `pow` with a negative exponent, i.e. a token with more than 18 decimals.
  - `EmptyReduce`: a `reduce` without a seed on an empty list.
  - `DivisionByZero`: a `div` by zero.
  - `InvalidArgument`: `poolInfo` called with an `undefined` pid.
- **Claim modal** (`src/components/TokenClaimModal.tsx`). Three parts:
  - Pool selection: filter the configured pools by chain and reward pid, sort them by reward
    balance (highest first), then keep the pools where the user has a positive reward.
  - The rules that enable a claim button.
  - The claim-status table of `useRewardClaims`. It is a class, `RewardClaims.ClaimsState`. It
    holds the `pendingClaims` map and a ghost log of every `updateClaimStatus` call, and its
    invariant says the map is the replay of that log from `{}`. Each claim flow is a method.
    Its contract outcomes (transaction succeeded, vesting verified, Merkle data present) are
    inputs. Its `ensures` ties the new map to a write-script function (`PoolClaimWrites`,
    `RetroClaimWrites`, `AllClaimWrites`). Lemmas about those functions then state what each
    flow does to the table.

The batch claim writes status key `"all"`, but list items read `"allPools"`. The model keeps
this as it is, and `TokenClaimModal.BatchClaimInvisibleToItems` proves that no item of a pool
not named "all" ever shows the batch claim's status.

Modules: `Outcomes` (Option, Result, Error), `FixedPoint` (powers of ten, list sums, truncating
division facts), `PoolData`, `PoolConfig` (the `Pool` configuration record), `RewardClaims`,
`TokenClaimModal`.

## Model

| member | source | states |
|---|---|---|
| `FixedPoint.ReduceAdd` | src/hooks/usePoolData.ts:191-193 | a seedless sum reduce throws exactly on an empty list; otherwise it equals the list's sum |
| `FixedPoint.FoldAdd` | src/hooks/usePoolData.ts:233-238 | a seeded left-to-right reduce equals the seed plus the sum of the list |
| `PoolData.Normalise` | src/hooks/usePoolData.ts:186-188 | casting to 18 decimals is exact: result · 10^decimals = balance · 10^18, for decimals ≤ 18 |
| `PoolData.NormalisedBalances` | src/hooks/usePoolData.ts:183-190 | fails with NegativePower exactly when some token has more than 18 decimals; otherwise one exactly normalised balance per token, same length |
| `PoolData.TokenPrices` | src/hooks/usePoolData.ts:194-202 | in a meta pool the last token is priced by the pool type's symbol, every other token by its own; an unknown symbol is priced 0 |
| `PoolData.UsdBalances` | src/hooks/usePoolData.ts:194-204 | one USD value per token, balance · price / 10^18 truncated |
| `PoolData.UsdSumAtMost` | src/hooks/usePoolData.ts:205-207 | the pool's USD sum · 10^18 is at most the balance sum times the highest token price |
| `PoolData.LpTokenPriceUSD` | src/hooks/usePoolData.ts:208-212 | 0 for a zero balance sum; otherwise the floor of usdSum · 10^18 / balanceSum, by the bracketing r·s ≤ u·10^18 < (r+1)·s |
| `PoolData.LpTokenPriceAtMostMaxPrice` | src/hooks/usePoolData.ts:191-212 | the LP token is never priced above the dearest token of the pool |
| `PoolData.VirtualPrice` | src/hooks/usePoolData.ts:178-180 | exactly 10^18 when the LP supply is 0, the contract's value otherwise |
| `PoolData.PctOfTotalShare` | src/hooks/usePoolData.ts:222-231 | never divides by zero: amount · 10^18 for zero supply, otherwise the floor of amount · 10^18 / supply |
| `PoolData.PctOfTotalShareMonotone` | src/hooks/usePoolData.ts:222-231 | more LP tokens never give a smaller share |
| `PoolData.PctOfWholeSupply` | src/hooks/usePoolData.ts:222-231 | the whole supply is a share of exactly 10^18 |
| `PoolData.StakeAmounts` | src/hooks/usePoolData.ts:236 | a missing partner amount counts as 0, one entry per partner key |
| `PoolData.StakedElsewhere` | src/hooks/usePoolData.ts:233-238 | the seeded reduce over partner keys is the sum of their amounts |
| `PoolData.UserShare` | src/hooks/usePoolData.ts:240-242 | definition of `userShare`, the three shares added; its bounds are proved by `UserShareOfHoldings` and `UserShareAtMostWhole` |
| `PoolData.UserShareOfHoldings` | src/hooks/usePoolData.ts:239-242 | the user share (three per-source shares added) lies between the share of all holdings minus 2 and that share |
| `PoolData.UserShareAtMostWhole` | src/hooks/usePoolData.ts:239-242 | a user holding no more than the supply has a share of at most 10^18 |
| `PoolData.UserAmounts` | src/hooks/usePoolData.ts:243-251 | each user amount is userShare · b / 10^18 for the matching pool entry, same length |
| `PoolData.UserAmountsWithinPool` | src/hooks/usePoolData.ts:243-254 | with a share of at most 10^18 the user owns no more of any token, nor in total, than the pool |
| `PoolData.TokenPercentsAsWritten` | src/hooks/usePoolData.ts:256-283 | the percentages as written throw DivisionByZero exactly when there are tokens, LP supply and a zero balance sum; otherwise each token gets balance · 10^5 divided by 1 when the LP supply is 0 and by the balance sum when it is not, so with no LP supply each token shows its whole balance · 10^5 |
| `PoolData.TokenPercentsAsWrittenThrows` | src/hooks/usePoolData.ts:256-269 | two empty balances with an LP supply of 1 make the as-written percentages throw |
| `PoolData.TokenPercentsAsWrittenExceedWhole` | src/hooks/usePoolData.ts:256-269 | with zero LP supply the as-written percentages of two balances of 1 are 100% each, 200% in total |
| `PoolData.TokenPercents` | src/hooks/usePoolData.ts:256-283 | corrected percentages: b · 10^5 / balanceSum per token whenever the sum is positive, same length |
| `PoolData.TokenPercentsAtMostWhole` | src/hooks/usePoolData.ts:256-283 | corrected percentages of a pool never exceed 100% each nor in total |
| `PoolData.SdlPerDay` | src/hooks/usePoolData.ts:290-303 | null exactly without a rewards contract or with a `null` pid; an `undefined` pid (the chain missing from `rewardPids`, line 137) passes the `!== null` test and throws in `poolInfo`; a numeric pid throws exactly when the total allocation is 0; otherwise the floor of saddlePerSecond · 86400 · allocPoint / totalAllocPoint |
| `PoolData.SdlPerDayWithinEmission` | src/hooks/usePoolData.ts:290-303 | a pool whose allocation is within the total gets at most the whole daily emission |
| `PoolData.ToUnderlying` | src/hooks/usePoolData.ts:335-337 | an undefined amount stays undefined; otherwise the floor of amount · virtualPrice / 10^18 |
| `PoolData.ConvertStaked` | src/hooks/usePoolData.ts:330-340 | the staked map has exactly the non-empty partner keys, each amount converted to amount · virtualPrice / 10^18, undefined amounts left undefined |
| `PoolData.ZeroSupplyConvertsUnchanged` | src/hooks/usePoolData.ts:178-180 | with no LP supply the staked amounts convert unchanged |
| `PoolData.GetSwapData` | src/hooks/usePoolData.ts:173-343 | NegativePower for an unsupported token; EmptyReduce for no tokens; success exactly when decimals are supported, tokens exist and sdlPerDay does not throw; userShareData null exactly without an account; pool and user rows per token with equal percents |
| `PoolData.SwapDataConsistent` | src/hooks/usePoolData.ts:191-283 | on a successful read: every percentage at most 100%, LP price at most the dearest token, and per-token user amounts within the pool's when the share is at most 10^18 |
| `RewardClaims.ApplyUntouched` | src/components/TokenClaimModal.tsx:206-214 | status updates leave every key they do not name unchanged |
| `RewardClaims.ApplyLastWrite` | src/components/TokenClaimModal.tsx:206-214 | a key ends with the status of its last update |
| `RewardClaims.ApplyConcat` | src/components/TokenClaimModal.tsx:206-214 | consecutive runs of updates compose |
| `RewardClaims.PoolClaimEffect` | src/components/TokenClaimModal.tsx:216-237 | a pool claim writes nothing exactly without chain, account, rewards contract or with a null pid; otherwise it first marks the pool PENDING and leaves it SUCCESS exactly when the pid is a number and the harvest succeeded, ERROR otherwise, so always ERROR for an `undefined` pid, whose `harvest(undefined, account)` throws; no other key changes |
| `RewardClaims.RetroClaimEffect` | src/components/TokenClaimModal.tsx:238-263 | nothing is written exactly without an account or retroactive contract; otherwise PENDING is written first and the retroactive key ends SUCCESS exactly when the vesting read worked, a call was chosen (verified or Merkle data) and the transaction succeeded, ERROR otherwise; no other key changes |
| `RewardClaims.AllClaimEffect` | src/components/TokenClaimModal.tsx:265-293 | the batch claim changes no key other than "all"; it writes nothing exactly without a chain, account or rewards contract; building the calls fails whenever a batched pool's pid is `null` or `undefined` (the `as number` cast at line 271 checks nothing), and then ERROR alone is written; PENDING is written only after the calls were built, and first; "all" ends SUCCESS exactly when the calls were built and the batch succeeded, ERROR otherwise |
| `RewardClaims.ClaimsState.constructor` | src/components/TokenClaimModal.tsx:203-205 | the table starts empty |
| `RewardClaims.ClaimsState.UpdateClaimStatus` | src/components/TokenClaimModal.tsx:206-214 | sets map[key] = status, every other key unchanged, the update logged |
| `RewardClaims.ClaimsState.ClaimPoolReward` | src/components/TokenClaimModal.tsx:216-237 | the table becomes the old table with the pool-claim writes applied, in order (ERROR after PENDING for an `undefined` pid) |
| `RewardClaims.ClaimsState.ClaimRetroReward` | src/components/TokenClaimModal.tsx:238-263 | sends claimReward when verified, verifyAndClaimReward with Merkle data, nothing otherwise; the table gets the retroactive writes |
| `RewardClaims.ClaimsState.ClaimAllPoolsRewards` | src/components/TokenClaimModal.tsx:265-293 | the table gets the batch writes, all under key "all" (ERROR alone when building the calls fails, as it must for a pool without a numeric pid) |
| `PoolConfig.PidsNumeric` | src/components/TokenClaimModal.tsx:270-273 | definition: every batched pool has a numeric pid, so each `populateTransaction.harvest(pid, account)` can be encoded; its effect is stated in `RewardClaims.AllClaimEffect` |
| `PoolConfig.RewardPid` | src/components/TokenClaimModal.tsx:220 | `rewardPids[chainId]` reads `undefined` exactly for a chain missing from the table, `null` exactly for an explicit null, and the pid otherwise; the same reading feeds `PoolData.SwapInputs.rewardsPid` (src/hooks/usePoolData.ts:137) |
| `TokenClaimModal.ChainRewardPools` | src/components/TokenClaimModal.tsx:52-58 | keeps each pool with a non-empty address on the chain and a pid there that is not null, as often as it occurs, and nothing else |
| `TokenClaimModal.InsertByReward` | src/components/TokenClaimModal.tsx:59-65 | one insertion step adds exactly the new pool |
| `TokenClaimModal.InsertByRewardSorted` | src/components/TokenClaimModal.tsx:59-65 | inserting into a list ordered by non-increasing reward balance keeps it ordered |
| `TokenClaimModal.SortByReward` | src/components/TokenClaimModal.tsx:59-65 | the sort is a permutation ordered by non-increasing reward balance, a missing balance counted as 0 |
| `TokenClaimModal.UserRewardPools` | src/components/TokenClaimModal.tsx:66-69 | every pool kept has a positive reward balance |
| `TokenClaimModal.SelectPools` | src/components/TokenClaimModal.tsx:50-71 | with no chain id (or chain 0) both lists are empty |
| `TokenClaimModal.AllPoolsWithRewardsSpec` | src/components/TokenClaimModal.tsx:52-65 | allPoolsWithRewards holds exactly the pools on the chain with a non-null pid, a permutation of the filtered pools, ordered by non-increasing balance |
| `TokenClaimModal.UserRewardPoolsIsPrefix` | src/components/TokenClaimModal.tsx:66-69 | on a sorted list the positive-reward filter keeps a prefix, and nothing after it has rewards |
| `TokenClaimModal.PoolsWithUserRewardsSpec` | src/components/TokenClaimModal.tsx:59-69 | poolsWithUserRewards is the order-preserving leading run of allPoolsWithRewards with positive balances, and no later pool has one |
| `TokenClaimModal.ClaimAllDisabled` | src/components/TokenClaimModal.tsx:146 | definition of the claim-all button's `disabled`; its meaning is proved by `ClaimAllEnabledIff` |
| `TokenClaimModal.ClaimAllEnabledIff` | src/components/TokenClaimModal.tsx:146 | the claim-all button is enabled exactly when the two top-ranked pools both have positive rewards |
| `TokenClaimModal.PoolItemStatus` | src/components/TokenClaimModal.tsx:119 | the status an item reads is its own key's unless "allPools" holds a SUCCESS or ERROR, and then that one; PENDING under "allPools" is falsy and never shown |
| `TokenClaimModal.ItemDisabled` | src/components/TokenClaimModal.tsx:171-174 | definition of an item's `disabled`; what it means after each claim is proved by `PoolItemAfterClaim` and `RetroItemAfterClaim` |
| `TokenClaimModal.DisplayedAmount` | src/components/TokenClaimModal.tsx:178 | definition of the amount an item shows; proved 0 after a successful claim and the amount otherwise by `PoolItemAfterClaim` and `RetroItemAfterClaim` |
| `TokenClaimModal.PoolItemAfterClaim` | src/components/TokenClaimModal.tsx:216-237 | after a successful pool claim (a numeric pid and a successful harvest) its item is disabled and shows 0; after a failed one it is disabled only below 10^16 and shows the amount |
| `TokenClaimModal.RetroItemAfterClaim` | src/components/TokenClaimModal.tsx:238-263 | after a successful retroactive claim its item is disabled and shows 0; after a failed one it is disabled only below 10^16 and shows the amount |
| `TokenClaimModal.FlowKeepsNoAllPoolsOverride` | src/components/TokenClaimModal.tsx:119 | no claim flow but the claim of a pool named "allPools" puts a SUCCESS or ERROR under "allPools" |
| `TokenClaimModal.FlowsKeepNoAllPoolsOverride` | src/components/TokenClaimModal.tsx:119 | every table the claim flows reach from `{}` leaves the pool items reading their own key, so `PoolItemAfterClaim` applies to it |
| `TokenClaimModal.BatchClaimInvisibleToItems` | src/components/TokenClaimModal.tsx:119 | the batch claim's status ("all") never changes what the item of a pool not named "all" shows, which reads "allPools" |

## Findings

| source | as written | input that shows it | evidently intended | confidence | as-written member | corrected member |
|---|---|---|---|---|---|---|
| src/hooks/usePoolData.ts:259-265 | the token percentages test `totalLpTokenBalance.isZero()` but divide by `tokenBalancesSum` (the same at lines 273-279) | LP supply 1 with all balances 0 throws division-by-zero; LP supply 0 with balances [1, 1] gives 100% to each token | guard the divisor it uses: divide by 1 when `tokenBalancesSum` is zero | low: both inputs are pool states the contracts should not reach; not executed | `PoolData.TokenPercentsAsWritten` (with `TokenPercentsAsWrittenThrows`, `TokenPercentsAsWrittenExceedWhole`) | `PoolData.TokenPercents` (with `TokenPercentsAtMostWhole`), used by `PoolData.GetSwapData` |

## Left out

- Contract and RPC reads are not calls. The `balanceOf`, `totalSupply`, `getVirtualPrice`, `getTokenBalance`, `poolInfo`, `saddlePerSecond` and `totalAllocPoint` results the model uses are values in `PoolData.SwapInputs`; the results of `swapStorage`, `getA` and `paused` feed only pass-through fields and are not modelled (see below). Claim transactions (`harvest`, `batch`, `vestings`, `claimReward`, `verifyAndClaimReward`, `txn.wait`) are boolean outcomes. A failed send and a failed wait both lead to ERROR, so one outcome covers both.
- `Promise.all`, async ordering and React state batching are not modelled. Each flow runs in sequence, and its status updates apply in program order.
- The early returns of `getSwapData` (no pool name, contract, prices, library, chain or pool address; lines 125-134) are React/provider shell. The model starts after them.
- Prices come in already scaled to 18 decimals. The `parseUnits(String(price))` conversion of a floating-point price is not modelled, nor is the parsing of `swapStats` (volume, utilization, apy).
- `getThirdPartyDataForPool`, `getTokenSymbolForPoolType` and `POOLS_MAP` are not part of this model. Their results (the partner amounts, the pool-type symbol, the list of pools) are inputs. The partner amounts must have distinct keys, as the keys of an object do.
- The pass-through fields `adminFee`, `swapFee`, `aParameter`, `isPaused`, `name`, `lpToken` and `aprs` are not modelled. Neither is `formatBNToPercentString`: percentages are the 10^5-scaled integers before formatting.
- Which error surfaces when several could is fixed in this order: NegativePower, EmptyReduce, then InvalidArgument or DivisionByZero from `sdlPerDay`. The exact error ethers raises for an `undefined` argument is not modelled; only that the call throws.
- `PoolData.GetSwapData`: uses the corrected token percentages (see Findings). With the code as written, it would also throw DivisionByZero when there is LP supply but the balance sum is 0.
- `TokenClaimModal.SortByReward`: the comparator `(a >= b) ? -1 : 1` does not fix an order among pools with equal balances. The model fixes one: each pool is inserted before the first pool it equals or exceeds, as a binary insertion sort would do. Only ordering and permutation are proved, not an engine's tie order.
- `RewardClaims.ClaimsState.ClaimAllPoolsRewards`: the harvest-call data built for each pool (`populateTransaction.harvest` with the pool's pid) is ABI encoding. It is not modelled. Building it fails for any pool whose pid is not a number; apart from that, its success is an input.
- JSX rendering, the retroactive item's visibility, totals formatting, i18n, notifications, `console.error` and the MetaMask add-token button are not modelled.
- Amounts are naturals. BigNumber's negative values cannot occur on these paths and are not modelled.
