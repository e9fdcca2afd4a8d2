# CompXStaking staking ledger in Dafny

This project models `CompXStaking`, a single-reward-asset staking application for the Algorand Virtual Machine (AVM). Accounts opt in, lock a staked asset for a period between `minLockUp` and `contractDuration`, and on `unstake` withdraw their whole stake together with a share of the pool's `totalRewards`. The creator configures the pool and funds the rewards.

The model has five files:

- `avm.dfy` (module `Avm`): AVM `uint64` values, and the arithmetic that aborts on overflow, underflow and division by zero. It also has the faults that reject a call, and `Result`/`Outcome` types.
- `reward.dfy` (module `RewardFormula`): the reward formula. `Reward` is the formula over unbounded naturals. `ComputeReward` evaluates it step by step in `uint64`, as the contract does. The lemmas cover solvency, monotonicity and when the denominator is zero.
- `ledger.dfy` (module `Ledger`): the application state as a value, and one step function per ABI method that returns the committed state or the rejecting fault. It defines the conservation invariant `Conserved` (the accounts' `staked` values add up to `totalStaked`) and the lock invariant `DurationsWithin`. `Run` applies a sequence of calls, and lemmas prove both invariants over whole runs.
- `contract.dfy` (module `Contract`): the class `CompXStaking`. Its fields are the global state keys plus a map of the accounts' local state. Each method checks the contract's assertions in the contract's order, then writes its fields. Each method is specified by the matching `Ledger` step function and keeps `Valid()`.
- `scenarios.dfy` (module `Scenarios`): concrete runs. They show a worked reward, a pool too small to pay out, and what shrinking `contractDuration` does to a staker.

Inputs that the contract reads from the platform are parameters: the sender, the block time `now` (`globals.latestTimestamp`) and the creator (set by `createApplication`). The asset transfers that `stake` and `addRewards` verify are taken as already verified, so their amount arrives as `quantity`. The two transfers `unstake` sends are returned as a `Withdrawal(principal, reward)`.

The reward, with every division rounding down, is

`reward = (⌊⌊s/10^4⌋·100/15⌋ · d · ⌊R/10^4⌋ / ⌊⌊T/10^4⌋·100·cd/15⌋) · 10^4`

Here `s` is the caller's `staked`, `d` its `stakeDuration`, `R` is `totalRewards`, `T` is `totalStaked` and `cd` is `contractDuration`. The constants 100 and 15 are the hard-coded prices 1 000 000 and 150 000 divided by 10^4.

How the contract behaves, as the model states it:

- `unstake` takes no quantity argument; it always withdraws the caller's whole stake.
- The reward is computed by both `calculateRewards` and `unstake`.
- A pool holding 100 staked base units makes the reward's denominator zero, so `unstake` aborts instead of paying (`Scenarios.TinyPoolDividesByZero`).
- While the pool holds fewer than 10^4 staked base units, every `unstake` and `calculateRewards` aborts with a division by zero (`Ledger.SmallPoolAborts`). A staker can leave this state only once `totalStaked` reaches 10^4, by staking more or by another account staking.
- Solvency of `totalRewards -= reward` depends on every lock being no longer than `contractDuration`. `updateParams` can shrink `contractDuration` below an existing lock. A direct `unstake` then underflows and aborts (`Scenarios.ShrunkDurationBlocksUnstake`). The staker can recover by calling `stake` with quantity 0 and a lock that fits the new duration, which replaces the lock; `unstake` then succeeds (`Scenarios.RestakeRecoversUnstake`). The creator can also restore the duration.
- A second `stake` by the same account replaces its start time and lock duration; the reward then weights the whole stake by the new duration.

## Model

| member | source | states |
|---|---|---|
| RewardFormula.Reward | contracts/projects/contracts/contracts/CompXStaking.algo.ts:141-153 | The reward is a whole multiple of 10^4. It is zero when the stake is below 10^4 base units or the pool's rewards are below 10^4. |
| RewardFormula.ComputeReward | contracts/projects/contracts/contracts/CompXStaking.algo.ts:168-186 | The uint64 evaluation completes exactly when no product overflows, `totalStaked >= 10^4`, `contractDuration > 0` and the scaled-up reward fits; it then equals the exact formula. It fails with DivideByZero exactly when the products fit and `totalStaked < 10^4` or `contractDuration == 0`, and otherwise with Overflow. |
| RewardFormula.DenominatorZeroIff | contracts/projects/contracts/contracts/CompXStaking.algo.ts:183-186 | The division aborts exactly when `totalStaked < 10^4` or `contractDuration == 0`. |
| RewardFormula.RewardSolvent | contracts/projects/contracts/contracts/CompXStaking.algo.ts:180-200 | If `s <= T` and `d <= cd`, with `T >= 10^4` and `cd > 0` so that the denominator is positive, the reward is at most `totalRewards`. |
| RewardFormula.RewardMonotoneInStake | contracts/projects/contracts/contracts/CompXStaking.algo.ts:180-182 | A larger stake never earns a smaller reward. |
| RewardFormula.RewardMonotoneInDuration | contracts/projects/contracts/contracts/CompXStaking.algo.ts:182 | A longer lock never earns a smaller reward. |
| RewardFormula.RewardAntitoneInPool | contracts/projects/contracts/contracts/CompXStaking.algo.ts:183-186 | Among pools of at least 10^4 staked units, a larger pool never raises a given position's reward. |
| Ledger.CreateApplication | contracts/projects/contracts/contracts/CompXStaking.algo.ts:28-42 | The pool starts with `totalStaked` and `totalRewards` at zero and no opted-in account. The creator, both asset ids, the minimum lock-up, the contract duration and the oracle id are stored as given, and both invariants hold. |
| Ledger.OptInToApplication | contracts/projects/contracts/contracts/CompXStaking.algo.ts:44-49 | An account that opts in gets all-zero local state. Nothing else changes, and a second opt-in is rejected. |
| Ledger.OptInToAsset | contracts/projects/contracts/contracts/CompXStaking.algo.ts:51-52 | Accepted exactly when the sender is the creator. |
| Ledger.UpdateParams | contracts/projects/contracts/contracts/CompXStaking.algo.ts:77-83 | Accepted exactly when the sender is the creator. It sets the three parameters without checking them, and the ledger (stakes, totals, accounts) is untouched. |
| Ledger.AddRewards | contracts/projects/contracts/contracts/CompXStaking.algo.ts:85-99 | Only the creator can call it, and only when both asset ids, `minLockUp` and `contractDuration` are non-zero. It increases `totalRewards` by exactly `quantity` and changes nothing else. |
| Ledger.Stake | contracts/projects/contracts/contracts/CompXStaking.algo.ts:101-123 | It is accepted only if the pool is configured, `totalRewards != 0`, `minLockUp <= lockPeriod <= contractDuration` and the sender has opted in. It adds `quantity` to the stake and to `totalStaked`, and sets start time `now`, duration `lockPeriod` and unlock time `now + lockPeriod`. Other accounts and parameters are unchanged. |
| Ledger.CalculateRewards | contracts/projects/contracts/contracts/CompXStaking.algo.ts:130-154 | It is accepted exactly when the sender has a positive stake and its reward evaluates. It stores the formula's reward in `calculatedReward` and changes no other field. |
| Ledger.Unstake | contracts/projects/contracts/contracts/CompXStaking.algo.ts:156-203 | It is accepted only for a positive stake. It pays the whole stake and the formula's reward, and reduces `totalStaked` and `totalRewards` by them. It sets `staked` and `unlockTime` to 0 and keeps `stakeDuration` and `stakeStartTime`. Other accounts and parameters are unchanged. |
| Ledger.DeleteApplication | contracts/projects/contracts/contracts/CompXStaking.algo.ts:205-207 | Accepted exactly when the sender is the creator and `totalStaked == 0`. |
| Ledger.ApplyConserves | contracts/projects/contracts/contracts/CompXStaking.algo.ts:117-118 | Every call keeps the accounts' stakes adding up to `totalStaked`. |
| Ledger.RunConserves | contracts/projects/contracts/contracts/CompXStaking.algo.ts:199-201 | Conservation holds after any sequence of calls. |
| Ledger.ApplyKeepsDurations | contracts/projects/contracts/contracts/CompXStaking.algo.ts:107-120 | Every call other than `updateParams` keeps each lock within `contractDuration`. |
| Ledger.RunKeepsDurations | contracts/projects/contracts/contracts/CompXStaking.algo.ts:108 | Locks stay within `contractDuration` over any sequence of calls that does not call `updateParams`. |
| Ledger.CreatorGate | contracts/projects/contracts/contracts/CompXStaking.algo.ts:86 | `optInToAsset`, `updateParams` and `addRewards` from anyone but the creator are rejected with NotCreator and change nothing. |
| Ledger.StakeAcceptedIff | contracts/projects/contracts/contracts/CompXStaking.algo.ts:102-122 | Under conservation, `stake` is accepted if and only if its assertions hold, the sender has opted in, and neither `totalStaked + quantity` nor `now + lockPeriod` overflows. |
| Ledger.UnstakeAcceptedIff | contracts/projects/contracts/contracts/CompXStaking.algo.ts:157-200 | Under conservation, `unstake` is accepted if and only if the sender has a positive stake, its reward evaluates, and the reward is at most `totalRewards`. |
| Ledger.UnstakeSolvent | contracts/projects/contracts/contracts/CompXStaking.algo.ts:199-200 | Under conservation and locks within `contractDuration`, the subtraction from `totalRewards` cannot underflow, so `unstake` succeeds whenever the reward evaluates. |
| Ledger.CalculateMatchesUnstake | contracts/projects/contracts/contracts/CompXStaking.algo.ts:130-186 | `calculateRewards` records exactly the reward `unstake` pays in the same state. Under the two invariants, one is accepted exactly when the other is. |
| Ledger.SmallPoolAborts | contracts/projects/contracts/contracts/CompXStaking.algo.ts:144-153 | While `totalStaked < 10^4`, every `unstake` and `calculateRewards` of a staker aborts with DivideByZero. |
| Ledger.DeleteLeavesNoStake | contracts/projects/contracts/contracts/CompXStaking.algo.ts:206-207 | When deletion is accepted, no account still has a stake. |
| Ledger.RunSolvent | contracts/projects/contracts/contracts/CompXStaking.algo.ts:77-83 | From a new pool, after any calls that do not include `updateParams`, a staker whose reward evaluates can always unstake. |
| Contract.CompXStaking.constructor | contracts/projects/contracts/contracts/CompXStaking.algo.ts:28-42 | The new object equals `Ledger.CreateApplication` with the sender as creator, with zero totals, no accounts and `Valid()`. |
| Contract.CompXStaking.OptInToApplication | contracts/projects/contracts/contracts/CompXStaking.algo.ts:44-49 | The new state is the one `Ledger.OptInToApplication` commits, or the old state if it is rejected; `Valid()` is kept. |
| Contract.CompXStaking.OptInToAsset | contracts/projects/contracts/contracts/CompXStaking.algo.ts:51-52 | Passes exactly for the creator; otherwise fails with NotCreator. |
| Contract.CompXStaking.UpdateParams | contracts/projects/contracts/contracts/CompXStaking.algo.ts:77-83 | The new state is the one `Ledger.UpdateParams` commits; it passes exactly for the creator; `Valid()` is kept. |
| Contract.CompXStaking.AddRewards | contracts/projects/contracts/contracts/CompXStaking.algo.ts:85-99 | The new state and the fault are those of `Ledger.AddRewards`; `Valid()` is kept. |
| Contract.CompXStaking.Stake | contracts/projects/contracts/contracts/CompXStaking.algo.ts:101-123 | The new state and the fault are those of `Ledger.Stake`; `Valid()` is kept. |
| Contract.CompXStaking.CalculateRewards | contracts/projects/contracts/contracts/CompXStaking.algo.ts:130-154 | The new state and the fault are those of `Ledger.CalculateRewards`; `Valid()` is kept. |
| Contract.CompXStaking.Unstake | contracts/projects/contracts/contracts/CompXStaking.algo.ts:156-203 | It returns the withdrawal `Ledger.Unstake` computes and commits its state, or returns its fault and leaves the state unchanged. `Valid()` is kept. |
| Contract.CompXStaking.DeleteApplication | contracts/projects/contracts/contracts/CompXStaking.algo.ts:205-207 | Passes exactly for the creator when `totalStaked == 0`, and then no account has a stake. |
| Scenarios.WholePoolForWholeDuration | contracts/projects/contracts/contracts/CompXStaking.algo.ts:168-186 | A lone staker of 10^8 units locked for the full 86 400 s, with 10^8 reward units, is paid 99 990 000: truncation keeps 10^4. |
| Scenarios.TinyPoolDividesByZero | contracts/projects/contracts/contracts/CompXStaking.algo.ts:172-186 | With `totalStaked = 100` the reward's division aborts. |
| Scenarios.UnstakeAfterFixedParams | contracts/projects/contracts/contracts/CompXStaking.algo.ts:156-203 | After opt-in, funding and a stake with unchanged parameters, the staker can unstake. |
| Scenarios.ShrunkDurationBlocksUnstake | contracts/projects/contracts/contracts/CompXStaking.algo.ts:77-83 | After the same run followed by `updateParams` shrinking `contractDuration` from 2 to 1, a direct `unstake` fails with Underflow: the reward 20 000 exceeds `totalRewards` 10 000. |
| Scenarios.RestakeRecoversUnstake | contracts/projects/contracts/contracts/CompXStaking.algo.ts:101-122 | After that shrink, a `stake` of 0 units with a 1-second lock replaces the staker's lock, and `unstake` then pays the whole stake of 10 000 and a reward of 10 000. |

## Left out

- Asset and payment transfers (`sendAssetTransfer`, `sendPayment`, `verifyAssetTransferTxn`, `verifyPayTxn`) are platform I/O. A verified incoming transfer is the trusted input `quantity`, and an outgoing one is at most the returned `Withdrawal`. The model does not check the pool's real asset balances.
- `optInToAsset` is modelled only by its creator check. Opting the application into the two assets and checking the 2 000 000 microAlgo payment are platform I/O.
- `deleteApplication` is modelled by its two assertions. Sweeping the balances back to the creator and closing the asset holdings are platform I/O, and the deleted application is not represented.
- The price oracle is not modelled. Its lookup is commented out in the source, and the prices are the hard-coded constants.
- The unlock-time check at withdrawal is commented out in the source, so no lock is enforced by `calculateRewards` or `unstake`.
- The clock is not read. `globals.latestTimestamp` is the parameter `now`.
- Closing out or clearing an account's local state is a platform action with no handler in the source, and is not modelled. A cleared account's stake would leave `totalStaked` without decreasing it.
- The multi-asset injected-rewards pool exercised by the repository's tests is not modelled: its contract source is not part of this model. That covers the five-slot reward-asset registry, reward-per-share accrual and compounding, the freeze flag, and box storage sizing.
- Account addresses are natural numbers, and asset and application ids are `uint64` values. Opt-in and local-state access for accounts that have not opted in are modelled as the faults AlreadyOptedIn and NotOptedIn.
- `calculatedReward` is not written by `optInToApplication`. A fresh account's absent key reads as 0, so the model starts it at 0.
