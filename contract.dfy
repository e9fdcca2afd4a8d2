/**
 The `CompXStaking` application: its global state keys as fields, the local
 state of the opted-in accounts as a map, and one method per ABI method.
 Each method checks what the contract asserts, in the contract's order, and
 only then writes its fields: the AVM reverts every write of a rejected call,
 so a rejected call leaves the object as it was.

 Each method is specified by the step function of the same name in `Ledger`,
 and keeps `Valid()`: the accounts' stakes add up to `totalStaked`.
 */
module Contract {
  import opened Avm
  import opened RewardFormula
  import opened Ledger

  class CompXStaking {
    /** The account that created the application (`this.app.creator`). */
    const creator: Address
    var stakedAssetId: u64
    var rewardAssetId: u64
    var minLockUp: u64
    var totalStaked: u64
    var totalRewards: u64
    var oracleAppID: u64
    var contractDuration: u64
    /** The local state of every opted-in account. */
    var local: map<Address, LocalState>

    /** The application's state as a value. */
    function Snapshot(): State
      reads this
    {
      State(creator, stakedAssetId, rewardAssetId, minLockUp, totalStaked, totalRewards,
            oracleAppID, contractDuration, local)
    }

    /** The object invariant: stakes are conserved. */
    ghost predicate Valid()
      reads this
    {
      Conserved(Snapshot())
    }

    /** `createApplication`, sent by `sender`, who becomes the creator. */
    constructor (sender: Address, stakedAsset: u64, rewardAsset: u64,
                 minLockUp: u64, contractDuration: u64, oracleAppID: u64)
      ensures Valid()
      ensures Snapshot() == CreateApplication(sender, stakedAsset, rewardAsset, minLockUp, contractDuration, oracleAppID)
      ensures totalStaked == 0 && totalRewards == 0 && local == map[]
    {
      creator := sender;
      stakedAssetId := stakedAsset;
      rewardAssetId := rewardAsset;
      this.minLockUp := minLockUp;
      totalRewards := 0;
      totalStaked := 0;
      this.contractDuration := contractDuration;
      this.oracleAppID := oracleAppID;
      local := map[];
    }

    /** `optInToApplication`: zeroes the sender's local state. */
    method OptInToApplication(sender: Address) returns (r: Outcome)
      requires Valid()
      modifies this
      ensures Valid()
      ensures Snapshot() == Commit(old(Snapshot()), Ledger.OptInToApplication(old(Snapshot()), sender))
      ensures r.Pass? <==> Ledger.OptInToApplication(old(Snapshot()), sender).Ok?
      ensures r.Fail? ==> r.fault == AlreadyOptedIn
    {
      ghost var before := Snapshot();
      if sender in local {
        return Fail(AlreadyOptedIn);
      }
      local := local[sender := LocalState(0, 0, 0, 0, 0)];
      r := Pass;
      ApplyConserves(before, OptInCall(sender));
    }

    /** `optInToAsset`: only the creator may call it. Opting the application into
        the assets and checking the fee payment are not modelled. */
    method OptInToAsset(sender: Address) returns (r: Outcome)
      ensures r.Pass? <==> sender == creator
      ensures r.Fail? ==> r.fault == NotCreator
    {
      if sender != creator {
        return Fail(NotCreator);
      }
      r := Pass;
    }

    /** `updateParams`: the creator replaces the minimum lock-up, the oracle and the duration. */
    method UpdateParams(sender: Address, minLockUp: u64, oracleAppID: u64, contractDuration: u64) returns (r: Outcome)
      requires Valid()
      modifies this
      ensures Valid()
      ensures Snapshot() == Commit(old(Snapshot()), Ledger.UpdateParams(old(Snapshot()), sender, minLockUp, oracleAppID, contractDuration))
      ensures r.Pass? <==> sender == creator
      ensures r.Fail? ==> r.fault == NotCreator
    {
      if sender != creator {
        return Fail(NotCreator);
      }
      this.minLockUp := minLockUp;
      this.oracleAppID := oracleAppID;
      this.contractDuration := contractDuration;
      r := Pass;
    }

    /** `addRewards`: the creator funds the pool with `quantity` reward tokens. */
    method AddRewards(sender: Address, quantity: u64) returns (r: Outcome)
      requires Valid()
      modifies this
      ensures Valid()
      ensures Snapshot() == Commit(old(Snapshot()), Ledger.AddRewards(old(Snapshot()), sender, quantity))
      ensures r.Pass? <==> Ledger.AddRewards(old(Snapshot()), sender, quantity).Ok?
      ensures r.Fail? ==> r.fault == Ledger.AddRewards(old(Snapshot()), sender, quantity).fault
    {
      if sender != creator {
        return Fail(NotCreator);
      }
      if stakedAssetId == 0 {
        return Fail(StakedAssetNotSet);
      }
      if rewardAssetId == 0 {
        return Fail(RewardAssetNotSet);
      }
      if minLockUp == 0 {
        return Fail(MinLockUpNotSet);
      }
      if contractDuration == 0 {
        return Fail(DurationNotSet);
      }
      if totalRewards + quantity > MAX_U64 {
        return Fail(Overflow);
      }
      totalRewards := totalRewards + quantity;
      r := Pass;
    }

    /** `stake`: the sender deposits `quantity` and locks it for `lockPeriod` from `now`. */
    method Stake(sender: Address, quantity: u64, lockPeriod: u64, now: u64) returns (r: Outcome)
      requires Valid()
      modifies this
      ensures Valid()
      ensures Snapshot() == Commit(old(Snapshot()), Ledger.Stake(old(Snapshot()), sender, quantity, lockPeriod, now))
      ensures r.Pass? <==> Ledger.Stake(old(Snapshot()), sender, quantity, lockPeriod, now).Ok?
      ensures r.Fail? ==> r.fault == Ledger.Stake(old(Snapshot()), sender, quantity, lockPeriod, now).fault
    {
      ghost var before := Snapshot();
      if stakedAssetId == 0 {
        return Fail(StakedAssetNotSet);
      }
      if rewardAssetId == 0 {
        return Fail(RewardAssetNotSet);
      }
      if totalRewards == 0 {
        return Fail(NoRewards);
      }
      if minLockUp == 0 {
        return Fail(MinLockUpNotSet);
      }
      if contractDuration == 0 {
        return Fail(DurationNotSet);
      }
      if lockPeriod < minLockUp {
        return Fail(LockPeriodTooShort);
      }
      if lockPeriod > contractDuration {
        return Fail(LockPeriodTooLong);
      }
      if totalStaked + quantity > MAX_U64 {
        return Fail(Overflow);
      }
      if sender !in local {
        return Fail(NotOptedIn);
      }
      var acct := local[sender];
      if acct.staked + quantity > MAX_U64 {
        return Fail(Overflow);
      }
      if now + lockPeriod > MAX_U64 {
        return Fail(Overflow);
      }
      totalStaked := totalStaked + quantity;
      acct := acct.(staked := acct.staked + quantity);
      acct := acct.(stakeStartTime := now);
      acct := acct.(stakeDuration := lockPeriod);
      acct := acct.(unlockTime := now + lockPeriod);
      local := local[sender := acct];
      r := Pass;
      ApplyConserves(before, StakeCall(sender, quantity, lockPeriod, now));
    }

    /** `calculateRewards`: records the sender's reward in its `calculatedReward`. */
    method CalculateRewards(sender: Address) returns (r: Outcome)
      requires Valid()
      modifies this
      ensures Valid()
      ensures Snapshot() == Commit(old(Snapshot()), Ledger.CalculateRewards(old(Snapshot()), sender))
      ensures r.Pass? <==> Ledger.CalculateRewards(old(Snapshot()), sender).Ok?
      ensures r.Fail? ==> r.fault == Ledger.CalculateRewards(old(Snapshot()), sender).fault
    {
      ghost var before := Snapshot();
      if sender !in local {
        return Fail(NotOptedIn);
      }
      var acct := local[sender];
      if acct.staked == 0 {
        return Fail(NoStakedAssets);
      }
      var reward := ComputeReward(acct.staked, acct.stakeDuration, totalRewards, totalStaked, contractDuration);
      if reward.Err? {
        return Fail(reward.fault);
      }
      local := local[sender := acct.(calculatedReward := reward.value)];
      r := Pass;
      ApplyConserves(before, CalculateRewardsCall(sender));
    }

    /** `unstake`: the sender withdraws its whole stake and its reward. */
    method Unstake(sender: Address) returns (r: Result<Withdrawal>)
      requires Valid()
      modifies this
      ensures Valid()
      ensures match Ledger.Unstake(old(Snapshot()), sender)
              case Ok((st, w)) => r == Ok(w) && Snapshot() == st
              case Err(f) => r == Err(f) && Snapshot() == old(Snapshot())
    {
      ghost var before := Snapshot();
      if sender !in local {
        return Err(NotOptedIn);
      }
      var acct := local[sender];
      var quantity := acct.staked;
      if quantity == 0 {
        return Err(NoStakedAssets);
      }
      var reward := ComputeReward(quantity, acct.stakeDuration, totalRewards, totalStaked, contractDuration);
      if reward.Err? {
        return Err(reward.fault);
      }
      if quantity > totalStaked {
        return Err(Underflow);
      }
      if reward.value > totalRewards {
        return Err(Underflow);
      }
      totalStaked := totalStaked - quantity;
      totalRewards := totalRewards - reward.value;
      local := local[sender := acct.(staked := 0, unlockTime := 0)];
      r := Ok(Withdrawal(quantity, reward.value));
      ApplyConserves(before, UnstakeCall(sender));
    }

    /** `deleteApplication`: accepted only from the creator once nothing is staked,
        and then no account is left with a stake. Returning the balances to the
        creator is not modelled. */
    method DeleteApplication(sender: Address) returns (r: Outcome)
      requires Valid()
      ensures r.Pass? <==> sender == creator && totalStaked == 0
      ensures r.Pass? ==> forall a :: a in local ==> local[a].staked == 0
    {
      if sender != creator {
        return Fail(NotCreator);
      }
      if totalStaked != 0 {
        return Fail(StakedAssetsStillExist);
      }
      r := Pass;
      DeleteLeavesNoStake(Snapshot(), sender);
    }
  }
}
