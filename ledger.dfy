/**
 The staking ledger as values: the pool-wide state, each opted-in account's
 local state, and one step function per call the contract accepts. A step
 function returns the state the call commits, or the fault that rejects it;
 a rejected call changes nothing.

 The sender, the application's creator and the block time are explicit
 inputs. The asset transfers that `stake` and `addRewards` check are taken as
 already verified, so their amount arrives as `quantity`; the transfers that
 `unstake` sends are returned as a `Withdrawal`.
 */
module Ledger {
  import opened Avm
  import opened RewardFormula

  /** An account address. */
  type Address = nat

  /** The local state an account holds in the application. */
  datatype LocalState = LocalState(
    staked: u64,
    unlockTime: u64,
    stakeDuration: u64,
    stakeStartTime: u64,
    calculatedReward: u64)

  /** The local state of an account that has just opted in. */
  const EmptyLocal := LocalState(0, 0, 0, 0, 0)

  /** The global state of the application, with the local state of every opted-in account. */
  datatype State = State(
    creator: Address,
    stakedAssetId: u64,
    rewardAssetId: u64,
    minLockUp: u64,
    totalStaked: u64,
    totalRewards: u64,
    oracleAppID: u64,
    contractDuration: u64,
    local: map<Address, LocalState>)

  /** The two transfers `unstake` sends to the caller. */
  datatype Withdrawal = Withdrawal(principal: u64, reward: u64)

  // ---------------------------------------------------------------------
  // Invariants

  /** The sum of `staked` over some of the opted-in accounts. */
  ghost function SumStaked(local: map<Address, LocalState>, accounts: set<Address>): nat
    requires accounts <= local.Keys
    decreases accounts
  {
    if accounts == {} then 0
    else
      var a :| a in accounts;
      local[a].staked + SumStaked(local, accounts - {a})
  }

  /** The sum of `staked` over every opted-in account. */
  ghost function TotalOf(local: map<Address, LocalState>): nat {
    SumStaked(local, local.Keys)
  }

  /** Conservation: the accounts' stakes add up to `totalStaked`. */
  ghost predicate Conserved(st: State) {
    TotalOf(st.local) == st.totalStaked
  }

  /** No account's lock duration exceeds the contract duration. */
  ghost predicate DurationsWithin(st: State) {
    forall a :: a in st.local ==> st.local[a].stakeDuration <= st.contractDuration
  }

  /** The parameters that only the creator sets are the same in both states. */
  predicate SameConfig(st: State, st': State) {
    && st'.creator == st.creator
    && st'.stakedAssetId == st.stakedAssetId
    && st'.rewardAssetId == st.rewardAssetId
    && st'.minLockUp == st.minLockUp
    && st'.oracleAppID == st.oracleAppID
    && st'.contractDuration == st.contractDuration
  }

  /** The same accounts are opted in, and every account but `who` is untouched. */
  predicate OthersUnchanged(local: map<Address, LocalState>, local': map<Address, LocalState>, who: Address) {
    && local'.Keys == local.Keys
    && forall a :: a in local && a != who ==> local'[a] == local[a]
  }

  // ---------------------------------------------------------------------
  // Calls

  /** `createApplication`: the creator fixes the assets and parameters; nothing is staked or funded yet. */
  function CreateApplication(
    creator: Address, stakedAsset: u64, rewardAsset: u64,
    minLockUp: u64, contractDuration: u64, oracleAppID: u64): (st: State)
    ensures st.totalStaked == 0 && st.totalRewards == 0 && st.local == map[]
    ensures st.creator == creator && st.minLockUp == minLockUp && st.contractDuration == contractDuration
    ensures st.stakedAssetId == stakedAsset && st.rewardAssetId == rewardAsset && st.oracleAppID == oracleAppID
    ensures Conserved(st) && DurationsWithin(st)
  {
    State(creator, stakedAsset, rewardAsset, minLockUp, 0, 0, oracleAppID, contractDuration, map[])
  }

  /** `optInToApplication`: a new account starts with every local field at zero. */
  function OptInToApplication(st: State, sender: Address): (r: Result<State>)
    ensures r.Ok? <==> sender !in st.local
    ensures r.Ok? ==> r.value.local == st.local[sender := EmptyLocal]
    ensures r.Ok? ==> SameConfig(st, r.value) && r.value.totalStaked == st.totalStaked
                      && r.value.totalRewards == st.totalRewards
  {
    if sender in st.local then Err(AlreadyOptedIn)
    else Ok(st.(local := st.local[sender := EmptyLocal]))
  }

  /** `optInToAsset`: only the creator may call it; it changes no state of the ledger. */
  function OptInToAsset(st: State, sender: Address): (r: Outcome)
    ensures r.Pass? <==> sender == st.creator
  {
    if sender != st.creator then Fail(NotCreator) else Pass
  }

  /** `updateParams`: only the creator may call it; it sets the three parameters
      without any check of their values and leaves the ledger untouched. */
  function UpdateParams(st: State, sender: Address, minLockUp: u64, oracleAppID: u64, contractDuration: u64): (r: Result<State>)
    ensures r.Ok? <==> sender == st.creator
    ensures r.Err? ==> r.fault == NotCreator
    ensures r.Ok? ==> && r.value.minLockUp == minLockUp && r.value.oracleAppID == oracleAppID
                      && r.value.contractDuration == contractDuration
    ensures r.Ok? ==> && r.value.local == st.local && r.value.totalStaked == st.totalStaked
                      && r.value.totalRewards == st.totalRewards && r.value.creator == st.creator
                      && r.value.stakedAssetId == st.stakedAssetId && r.value.rewardAssetId == st.rewardAssetId
  {
    if sender != st.creator then Err(NotCreator)
    else Ok(st.(minLockUp := minLockUp, oracleAppID := oracleAppID, contractDuration := contractDuration))
  }

  /** Whether the pool is configured: both assets, the minimum lock-up and the duration are set. */
  predicate Configured(st: State) {
    st.stakedAssetId != 0 && st.rewardAssetId != 0 && st.minLockUp != 0 && st.contractDuration != 0
  }

  /** `addRewards`: only the creator may fund a configured pool; the funding is
      added to `totalRewards` and nothing else changes. */
  function AddRewards(st: State, sender: Address, quantity: u64): (r: Result<State>)
    ensures sender != st.creator ==> r == Err(NotCreator)
    ensures r.Ok? <==> sender == st.creator && Configured(st) && st.totalRewards + quantity <= MAX_U64
    ensures r.Ok? ==> r.value == st.(totalRewards := st.totalRewards + quantity)
  {
    if sender != st.creator then Err(NotCreator)
    else if st.stakedAssetId == 0 then Err(StakedAssetNotSet)
    else if st.rewardAssetId == 0 then Err(RewardAssetNotSet)
    else if st.minLockUp == 0 then Err(MinLockUpNotSet)
    else if st.contractDuration == 0 then Err(DurationNotSet)
    else
      var total :- Add(st.totalRewards, quantity);
      Ok(st.(totalRewards := total))
  }

  /** The conditions `stake` asserts before it accepts a deposit. */
  predicate StakeAllowed(st: State, lockPeriod: u64) {
    && Configured(st)
    && st.totalRewards != 0
    && st.minLockUp <= lockPeriod <= st.contractDuration
  }

  /** `stake`: adds `quantity` to the sender's stake and to `totalStaked`, and
      restarts the sender's lock at `now` for `lockPeriod`. */
  function Stake(st: State, sender: Address, quantity: u64, lockPeriod: u64, now: u64): (r: Result<State>)
    ensures r.Ok? ==> StakeAllowed(st, lockPeriod) && sender in st.local && sender in r.value.local
    ensures r.Ok? ==>
      var before, after := st.local[sender], r.value.local[sender];
      && after.staked == before.staked + quantity
      && after.stakeStartTime == now
      && after.stakeDuration == lockPeriod
      && after.unlockTime == now + lockPeriod
      && after.calculatedReward == before.calculatedReward
    ensures r.Ok? ==> && r.value.totalStaked == st.totalStaked + quantity
                      && r.value.totalRewards == st.totalRewards
                      && SameConfig(st, r.value)
                      && OthersUnchanged(st.local, r.value.local, sender)
  {
    if st.stakedAssetId == 0 then Err(StakedAssetNotSet)
    else if st.rewardAssetId == 0 then Err(RewardAssetNotSet)
    else if st.totalRewards == 0 then Err(NoRewards)
    else if st.minLockUp == 0 then Err(MinLockUpNotSet)
    else if st.contractDuration == 0 then Err(DurationNotSet)
    else if lockPeriod < st.minLockUp then Err(LockPeriodTooShort)
    else if lockPeriod > st.contractDuration then Err(LockPeriodTooLong)
    else
      var totalStaked :- Add(st.totalStaked, quantity);
      if sender !in st.local then Err(NotOptedIn)
      else
        var acct := st.local[sender];
        var staked :- Add(acct.staked, quantity);
        var unlockTime :- Add(now, lockPeriod);
        Ok(st.(totalStaked := totalStaked,
               local := st.local[sender := acct.(staked := staked, stakeStartTime := now,
                                                 stakeDuration := lockPeriod, unlockTime := unlockTime)]))
  }

  /** The reward the sender's current position is owed, as the contract evaluates it. */
  function PendingReward(st: State, sender: Address): Result<u64>
    requires sender in st.local
  {
    var acct := st.local[sender];
    ComputeReward(acct.staked, acct.stakeDuration, st.totalRewards, st.totalStaked, st.contractDuration)
  }

  /** `calculateRewards`: records in the sender's `calculatedReward` the reward
      its position is owed, and changes nothing else. */
  function CalculateRewards(st: State, sender: Address): (r: Result<State>)
    ensures r.Ok? <==> sender in st.local && st.local[sender].staked > 0 && PendingReward(st, sender).Ok?
    ensures r.Ok? ==> sender in r.value.local
    ensures r.Ok? ==>
      var acct := st.local[sender];
      && SCALE <= st.totalStaked && 0 < st.contractDuration
      && r.value.local[sender].calculatedReward
           == Reward(acct.staked, acct.stakeDuration, st.totalRewards, st.totalStaked, st.contractDuration)
      && r.value == st.(local := st.local[sender := acct.(calculatedReward := r.value.local[sender].calculatedReward)])
  {
    if sender !in st.local then Err(NotOptedIn)
    else
      var acct := st.local[sender];
      if acct.staked == 0 then Err(NoStakedAssets)
      else
        var reward :- PendingReward(st, sender);
        Ok(st.(local := st.local[sender := acct.(calculatedReward := reward)]))
  }

  /** `unstake`: withdraws the sender's whole position with its reward. The
      sender's stake and unlock time become zero; its lock duration, start
      time and recorded reward stay. */
  function Unstake(st: State, sender: Address): (r: Result<(State, Withdrawal)>)
    ensures r.Ok? ==> sender in st.local && st.local[sender].staked > 0 && sender in r.value.0.local
    ensures r.Ok? ==>
      var acct, w := st.local[sender], r.value.1;
      && SCALE <= st.totalStaked && 0 < st.contractDuration
      && w.principal == acct.staked
      && w.reward == Reward(acct.staked, acct.stakeDuration, st.totalRewards, st.totalStaked, st.contractDuration)
    ensures r.Ok? ==>
      var acct, after, w := st.local[sender], r.value.0, r.value.1;
      && after.totalStaked == st.totalStaked - w.principal
      && after.totalRewards == st.totalRewards - w.reward
      && after.local[sender] == acct.(staked := 0, unlockTime := 0)
    ensures r.Ok? ==> OthersUnchanged(st.local, r.value.0.local, sender) && SameConfig(st, r.value.0)
  {
    if sender !in st.local then Err(NotOptedIn)
    else
      var acct := st.local[sender];
      if acct.staked == 0 then Err(NoStakedAssets)
      else
        var reward :- PendingReward(st, sender);
        var totalStaked :- Sub(st.totalStaked, acct.staked);
        var totalRewards :- Sub(st.totalRewards, reward);
        Ok((st.(totalStaked := totalStaked, totalRewards := totalRewards,
                local := st.local[sender := acct.(staked := 0, unlockTime := 0)]),
            Withdrawal(acct.staked, reward)))
  }

  /** `deleteApplication`: only the creator may delete the pool, and only once nothing is staked. */
  function DeleteApplication(st: State, sender: Address): (r: Outcome)
    ensures r.Pass? <==> sender == st.creator && st.totalStaked == 0
    ensures sender != st.creator ==> r == Fail(NotCreator)
  {
    if sender != st.creator then Fail(NotCreator)
    else if st.totalStaked != 0 then Fail(StakedAssetsStillExist)
    else Pass
  }

  // ---------------------------------------------------------------------
  // Sequences of calls

  /** A call to the application, with its sender and arguments. */
  datatype Call =
    | OptInCall(sender: Address)
    | OptInToAssetCall(sender: Address)
    | UpdateParamsCall(sender: Address, minLockUp: u64, oracleAppID: u64, contractDuration: u64)
    | AddRewardsCall(sender: Address, quantity: u64)
    | StakeCall(sender: Address, quantity: u64, lockPeriod: u64, now: u64)
    | CalculateRewardsCall(sender: Address)
    | UnstakeCall(sender: Address)

  /** The calls only the creator may make. */
  predicate CreatorOnly(c: Call) {
    c.OptInToAssetCall? || c.UpdateParamsCall? || c.AddRewardsCall?
  }

  /** The state a call commits, or the fault that rejects it. */
  function Apply(st: State, c: Call): Result<State> {
    match c
    case OptInCall(sender) => OptInToApplication(st, sender)
    case OptInToAssetCall(sender) =>
      if OptInToAsset(st, sender).Pass? then Ok(st) else Err(OptInToAsset(st, sender).fault)
    case UpdateParamsCall(sender, minLockUp, oracleAppID, contractDuration) =>
      UpdateParams(st, sender, minLockUp, oracleAppID, contractDuration)
    case AddRewardsCall(sender, quantity) => AddRewards(st, sender, quantity)
    case StakeCall(sender, quantity, lockPeriod, now) => Stake(st, sender, quantity, lockPeriod, now)
    case CalculateRewardsCall(sender) => CalculateRewards(st, sender)
    case UnstakeCall(sender) =>
      var r := Unstake(st, sender);
      if r.Ok? then Ok(r.value.0) else Err(r.fault)
  }

  /** The state after a call: the committed state, or the same state when the call is rejected. */
  function Commit(st: State, r: Result<State>): State {
    if r.Ok? then r.value else st
  }

  /** The state after a sequence of calls, each one committed or rejected in turn. */
  function Run(st: State, calls: seq<Call>): State
    decreases |calls|
  {
    if calls == [] then st
    else Run(Commit(st, Apply(st, calls[0])), calls[1..])
  }

  /** No call in the sequence is `updateParams`. */
  predicate ParamsFixed(calls: seq<Call>) {
    forall i :: 0 <= i < |calls| ==> !calls[i].UpdateParamsCall?
  }

  // ---------------------------------------------------------------------
  // Sums of stakes

  lemma {:induction false} SumRemove(local: map<Address, LocalState>, accounts: set<Address>, k: Address)
    requires accounts <= local.Keys && k in accounts
    ensures SumStaked(local, accounts) == local[k].staked + SumStaked(local, accounts - {k})
    decreases accounts
  {
    var a :| a in accounts && SumStaked(local, accounts) == local[a].staked + SumStaked(local, accounts - {a});
    if a != k {
      SumRemove(local, accounts - {a}, k);
      SumRemove(local, accounts - {k}, a);
      assert accounts - {a} - {k} == accounts - {k} - {a};
    }
  }

  lemma {:induction false} SumAgree(local: map<Address, LocalState>, local': map<Address, LocalState>, accounts: set<Address>)
    requires accounts <= local.Keys && accounts <= local'.Keys
    requires forall a :: a in accounts ==> local[a].staked == local'[a].staked
    ensures SumStaked(local, accounts) == SumStaked(local', accounts)
    decreases accounts
  {
    if accounts != {} {
      var a :| a in accounts && SumStaked(local, accounts) == local[a].staked + SumStaked(local, accounts - {a});
      SumRemove(local', accounts, a);
      SumAgree(local, local', accounts - {a});
    }
  }

  /** No account holds more than the sum of all stakes. */
  lemma StakeWithinTotal(local: map<Address, LocalState>, a: Address)
    requires a in local
    ensures local[a].staked <= TotalOf(local)
  {
    SumRemove(local, local.Keys, a);
  }

  /** Replacing one account's local state changes the sum by the difference of its stakes. */
  lemma TotalAfterSet(local: map<Address, LocalState>, a: Address, v: LocalState)
    ensures TotalOf(local[a := v]) + (if a in local then local[a].staked else 0) == TotalOf(local) + v.staked
  {
    var local' := local[a := v];
    SumRemove(local', local'.Keys, a);
    assert local'.Keys - {a} == local.Keys - {a};
    SumAgree(local', local, local.Keys - {a});
    if a in local {
      SumRemove(local, local.Keys, a);
    } else {
      assert local.Keys - {a} == local.Keys;
    }
  }

  // ---------------------------------------------------------------------
  // Properties of the calls

  /** Every accepted call keeps the stakes adding up to `totalStaked`. */
  lemma ApplyConserves(st: State, c: Call)
    requires Conserved(st)
    ensures Conserved(Commit(st, Apply(st, c)))
  {
    var r := Apply(st, c);
    if r.Ok? {
      match c
      case OptInCall(sender) =>
        TotalAfterSet(st.local, sender, EmptyLocal);
      case StakeCall(sender, quantity, lockPeriod, now) =>
        TotalAfterSet(st.local, sender, r.value.local[sender]);
        assert r.value.local == st.local[sender := r.value.local[sender]];
      case CalculateRewardsCall(sender) =>
        TotalAfterSet(st.local, sender, r.value.local[sender]);
      case UnstakeCall(sender) =>
        TotalAfterSet(st.local, sender, r.value.local[sender]);
        assert r.value.local == st.local[sender := r.value.local[sender]];
      case _ =>
    }
  }

  /** Conservation holds after any sequence of calls. */
  lemma {:induction false} RunConserves(st: State, calls: seq<Call>)
    requires Conserved(st)
    ensures Conserved(Run(st, calls))
    decreases |calls|
  {
    if calls != [] {
      ApplyConserves(st, calls[0]);
      RunConserves(Commit(st, Apply(st, calls[0])), calls[1..]);
    }
  }

  /** Every accepted call other than `updateParams` keeps each lock within the contract duration. */
  lemma ApplyKeepsDurations(st: State, c: Call)
    requires DurationsWithin(st) && !c.UpdateParamsCall?
    ensures DurationsWithin(Commit(st, Apply(st, c)))
  {
  }

  /** Locks stay within the contract duration as long as `updateParams` is not called. */
  lemma {:induction false} RunKeepsDurations(st: State, calls: seq<Call>)
    requires DurationsWithin(st) && ParamsFixed(calls)
    ensures DurationsWithin(Run(st, calls))
    decreases |calls|
  {
    if calls != [] {
      ApplyKeepsDurations(st, calls[0]);
      assert ParamsFixed(calls[1..]) by {
        forall i | 0 <= i < |calls| - 1 ensures !calls[1..][i].UpdateParamsCall? {
          assert calls[1..][i] == calls[i + 1];
        }
      }
      RunKeepsDurations(Commit(st, Apply(st, calls[0])), calls[1..]);
    }
  }

  /** Every call only the creator may make is rejected for anyone else, and changes nothing. */
  lemma CreatorGate(st: State, c: Call)
    requires CreatorOnly(c) && c.sender != st.creator
    ensures Apply(st, c) == Err(NotCreator)
    ensures Commit(st, Apply(st, c)) == st
  {
  }

  /** Under conservation, `stake` is accepted exactly when its assertions hold,
      the sender has opted in and neither `totalStaked` nor the unlock time overflows. */
  lemma StakeAcceptedIff(st: State, sender: Address, quantity: u64, lockPeriod: u64, now: u64)
    requires Conserved(st)
    ensures Stake(st, sender, quantity, lockPeriod, now).Ok? <==>
      && StakeAllowed(st, lockPeriod) && sender in st.local
      && st.totalStaked + quantity <= MAX_U64 && now + lockPeriod <= MAX_U64
  {
    if sender in st.local {
      StakeWithinTotal(st.local, sender);
    }
  }

  /** Under conservation, `unstake` is accepted exactly when the sender holds a
      stake, its reward can be evaluated and the pool holds that much reward. */
  lemma UnstakeAcceptedIff(st: State, sender: Address)
    requires Conserved(st)
    ensures Unstake(st, sender).Ok? <==>
      && sender in st.local && st.local[sender].staked > 0
      && PendingReward(st, sender).Ok?
      && PendingReward(st, sender).value <= st.totalRewards
  {
    if sender in st.local {
      StakeWithinTotal(st.local, sender);
    }
  }

  /** Solvency: while stakes are conserved and locks are within the contract
      duration, `totalRewards -= reward` in `unstake` cannot underflow, so
      `unstake` succeeds whenever the reward can be evaluated. */
  lemma UnstakeSolvent(st: State, sender: Address)
    requires Conserved(st) && DurationsWithin(st)
    requires sender in st.local && st.local[sender].staked > 0
    requires PendingReward(st, sender).Ok?
    ensures Unstake(st, sender).Ok?
  {
    var acct := st.local[sender];
    StakeWithinTotal(st.local, sender);
    RewardSolvent(acct.staked, acct.stakeDuration, st.totalRewards, st.totalStaked, st.contractDuration);
    UnstakeAcceptedIff(st, sender);
  }

  /** `calculateRewards` records exactly the reward that `unstake` pays in the same
      state, and under the invariants it succeeds exactly when `unstake` does. */
  lemma CalculateMatchesUnstake(st: State, sender: Address)
    ensures Unstake(st, sender).Ok? ==>
      && CalculateRewards(st, sender).Ok?
      && CalculateRewards(st, sender).value.local[sender].calculatedReward == Unstake(st, sender).value.1.reward
    ensures Conserved(st) && DurationsWithin(st) ==>
      (CalculateRewards(st, sender).Ok? <==> Unstake(st, sender).Ok?)
  {
    if Conserved(st) && DurationsWithin(st) && CalculateRewards(st, sender).Ok? {
      UnstakeSolvent(st, sender);
    }
  }

  /** While the pool holds fewer than 10^4 staked base units, the reward's
      denominator is zero, so every `unstake` and `calculateRewards` aborts. */
  lemma SmallPoolAborts(st: State, sender: Address)
    requires Conserved(st) && st.totalStaked < SCALE
    requires sender in st.local && st.local[sender].staked > 0
    ensures Unstake(st, sender) == Err(DivideByZero)
    ensures CalculateRewards(st, sender) == Err(DivideByZero)
  {
    var acct := st.local[sender];
    StakeWithinTotal(st.local, sender);
    assert Normalised(acct.staked) == 0;
    assert PoolWeight(st.totalStaked, st.contractDuration) == 0;
    DenominatorZeroIff(st.totalStaked, st.contractDuration);
  }

  /** When `deleteApplication` is accepted no account still has a stake. */
  lemma DeleteLeavesNoStake(st: State, sender: Address)
    requires Conserved(st) && DeleteApplication(st, sender).Pass?
    ensures forall a :: a in st.local ==> st.local[a].staked == 0
  {
    forall a | a in st.local ensures st.local[a].staked == 0 {
      StakeWithinTotal(st.local, a);
    }
  }

  /** Solvency over whole runs: from a freshly created pool, as long as
      `updateParams` is never called, any staker whose reward can be
      evaluated can unstake. */
  lemma RunSolvent(
    creator: Address, stakedAsset: u64, rewardAsset: u64, minLockUp: u64,
    contractDuration: u64, oracleAppID: u64, calls: seq<Call>, sender: Address)
    requires ParamsFixed(calls)
    requires
      var st := Run(CreateApplication(creator, stakedAsset, rewardAsset, minLockUp, contractDuration, oracleAppID), calls);
      sender in st.local && st.local[sender].staked > 0 && PendingReward(st, sender).Ok?
    ensures Unstake(Run(CreateApplication(creator, stakedAsset, rewardAsset, minLockUp, contractDuration, oracleAppID), calls), sender).Ok?
  {
    var st0 := CreateApplication(creator, stakedAsset, rewardAsset, minLockUp, contractDuration, oracleAppID);
    RunConserves(st0, calls);
    RunKeepsDurations(st0, calls);
    UnstakeSolvent(Run(st0, calls), sender);
  }
}
