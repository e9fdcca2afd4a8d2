/**
 Concrete runs of the model that show how the reward formula and the
 parameters interact.
 */
module Scenarios {
  import opened Avm
  import opened RewardFormula
  import opened Ledger

  /** A lone staker of 100 tokens (six decimals) locked for the whole contract
      duration receives 99.99 of the 100 reward tokens: truncation keeps the rest. */
  lemma WholePoolForWholeDuration()
    ensures ComputeReward(100_000_000, 86400, 100_000_000, 100_000_000, 86400) == Ok(99_990_000)
  {
    assert Normalised(100_000_000) == 66666;
    assert Numerator(100_000_000, 86400, 100_000_000) == 57_599_424_000_000;
    assert Denominator(100_000_000, 86400) == 5_760_000_000;
  }

  /** A pool of 100 base units cannot pay out: the scaled-down total is zero and
      the reward's division aborts. */
  lemma TinyPoolDividesByZero()
    ensures ComputeReward(100, 86400, 100_000_000, 100, 86400) == Err(DivideByZero)
  {
    DenominatorZeroIff(100, 86400);
  }

  /** The pool of the runs below: creator 0, staked asset 1, reward asset 2,
      minimum lock-up 1 second, contract duration 2 seconds. */
  function Pool(): State {
    CreateApplication(0, 1, 2, 1, 2, 0)
  }

  /** Account 1 opts in, the creator funds 10^4 reward units, and account 1
      stakes 10^4 units for the full two seconds. */
  function Funded(): seq<Call> {
    [OptInCall(1), AddRewardsCall(0, 10000), StakeCall(1, 10000, 2, 0)]
  }

  /** The state after `Funded()`: account 1 holds the whole pool with a two-second lock. */
  lemma FundedState()
    ensures Run(Pool(), Funded()) == Pool().(
      totalStaked := 10000, totalRewards := 10000,
      local := map[1 := LocalState(10000, 2, 2, 0, 0)])
  {
    var calls := Funded();
    var st0 := Pool();
    var st1 := st0.(local := map[1 := EmptyLocal]);
    assert Apply(st0, calls[0]) == Ok(st1);
    var st2 := st1.(totalRewards := 10000);
    assert Apply(st1, calls[1]) == Ok(st2);
    var st3 := st2.(totalStaked := 10000, local := map[1 := LocalState(10000, 2, 2, 0, 0)]);
    assert StakeAllowed(st2, 2);
    assert st2.local[1 := LocalState(10000, 2, 2, 0, 0)] == st3.local;
    assert Apply(st2, calls[2]) == Ok(st3);
    assert calls[1..][1..][1..] == [];
    assert Run(st0, calls) == Run(st1, calls[1..]) == Run(st2, calls[1..][1..]) == Run(st3, []);
  }

  /** With the parameters left alone, the staker can withdraw. */
  lemma UnstakeAfterFixedParams()
    ensures Unstake(Run(Pool(), Funded()), 1).Ok?
  {
    FundedState();
    var st := Run(Pool(), Funded());
    assert Normalised(10000) == 6 && Denominator(10000, 2) == 13;
    assert Reward(10000, 2, 10000, 10000, 2) == 0;
  }

  /** When the creator shrinks the contract duration below the staker's lock,
      the reward exceeds `totalRewards` and a direct `unstake` underflows. */
  lemma ShrunkDurationBlocksUnstake()
    ensures Unstake(Run(Pool(), Funded() + [UpdateParamsCall(0, 1, 0, 1)]), 1) == Err(Underflow)
  {
    FundedState();
    var funded := Run(Pool(), Funded());
    RunAppend(Pool(), Funded(), UpdateParamsCall(0, 1, 0, 1));
    var st := funded.(contractDuration := 1);
    assert Apply(funded, UpdateParamsCall(0, 1, 0, 1)) == Ok(st);
    assert Run(Pool(), Funded() + [UpdateParamsCall(0, 1, 0, 1)]) == st;
    assert st.local[1] == LocalState(10000, 2, 2, 0, 0);
    assert PendingReward(st, 1) == Ok(20000) by {
      assert Normalised(10000) == 6 && Denominator(10000, 1) == 6;
      assert Reward(10000, 2, 10000, 10000, 1) == 20000;
    }
  }

  /** After the shrink, a `stake` of nothing with a lock that fits the new
      duration replaces the staker's lock, and `unstake` then pays the whole
      stake and the whole reward pool. */
  lemma RestakeRecoversUnstake()
    ensures var calls := Funded() + [UpdateParamsCall(0, 1, 0, 1), StakeCall(1, 0, 1, 5)];
            var r := Unstake(Run(Pool(), calls), 1);
            r.Ok? && r.value.1 == Withdrawal(10000, 10000)
  {
    FundedState();
    var shrink := UpdateParamsCall(0, 1, 0, 1);
    var restake := StakeCall(1, 0, 1, 5);
    var funded := Run(Pool(), Funded());
    RunAppend(Pool(), Funded(), shrink);
    var st := funded.(contractDuration := 1);
    assert Apply(funded, shrink) == Ok(st);
    RunAppend(Pool(), Funded() + [shrink], restake);
    assert Funded() + [shrink] + [restake] == Funded() + [shrink, restake];
    assert StakeAllowed(st, 1);
    var st2 := st.(local := map[1 := LocalState(10000, 6, 1, 5, 0)]);
    assert st.local[1 := LocalState(10000, 6, 1, 5, 0)] == st2.local;
    assert Apply(st, restake) == Ok(st2);
    assert Run(Pool(), Funded() + [shrink, restake]) == st2;
    assert st2.local[1] == LocalState(10000, 6, 1, 5, 0);
    assert PendingReward(st2, 1) == Ok(10000) by {
      assert Normalised(10000) == 6 && Denominator(10000, 1) == 6;
      assert Reward(10000, 1, 10000, 10000, 1) == 10000;
    }
  }

  /** Running one more call after a sequence of calls. */
  lemma {:induction false} RunAppend(st: State, calls: seq<Call>, c: Call)
    ensures Run(st, calls + [c]) == Commit(Run(st, calls), Apply(Run(st, calls), c))
    decreases |calls|
  {
    if calls == [] {
      assert [c][1..] == [];
    } else {
      assert (calls + [c])[1..] == calls[1..] + [c];
      RunAppend(Commit(st, Apply(st, calls[0])), calls[1..], c);
    }
  }
}
