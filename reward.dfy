/**
 The reward that `calculateRewards` records and `unstake` pays out.

 Every input is first scaled down by 10^4, the staked position is converted
 into reward-token units with two fixed prices, and the staker's share is the
 position weighted by its lock duration over the whole pool weighted by the
 contract duration. Every division rounds down. The share is then scaled back
 up by 10^4.

 `Reward` is the formula over unbounded naturals. `ComputeReward` evaluates it
 step by step in uint64 arithmetic, as the contract does, and aborts where the
 AVM would.
 */
module RewardFormula {
  import opened Avm

  /** The precision factor `10 ** 4`. */
  const SCALE: nat := 10000
  /** The hard-coded price of the staked token. */
  const STAKE_TOKEN_PRICE: nat := 1000000
  /** The hard-coded price of the reward token. */
  const REWARD_TOKEN_PRICE: nat := 150000
  /** The stake price at lower precision (100). */
  const STAKE_PRICE_LOW: nat := STAKE_TOKEN_PRICE / SCALE
  /** The reward price at lower precision (15). */
  const REWARD_PRICE_LOW: nat := REWARD_TOKEN_PRICE / SCALE

  /** The staker's position in reward-token units, at lower precision. */
  function Normalised(stake: nat): nat {
    (stake / SCALE * STAKE_PRICE_LOW) / REWARD_PRICE_LOW
  }

  /** The numerator `normalisedAmount * stakingDuration * totalRewardsLowerPrecision`. */
  function Numerator(stake: nat, dur: nat, totalRewards: nat): nat {
    Normalised(stake) * dur * (totalRewards / SCALE)
  }

  /** The product `totalStakedLowerPrecision * stakePrice * contractDuration` before the division. */
  function PoolWeight(totalStaked: nat, contractDuration: nat): nat {
    totalStaked / SCALE * STAKE_PRICE_LOW * contractDuration
  }

  /** The denominator: the whole pool in reward-token units times the contract duration. */
  function Denominator(totalStaked: nat, contractDuration: nat): nat {
    PoolWeight(totalStaked, contractDuration) / REWARD_PRICE_LOW
  }

  /** The reward in exact arithmetic. It is a whole number of 10^4 units,
      and a stake below 10^4 base units earns nothing. */
  function Reward(stake: nat, dur: nat, totalRewards: nat, totalStaked: nat, contractDuration: nat): (r: nat)
    requires SCALE <= totalStaked && 0 < contractDuration
    ensures r % SCALE == 0
    ensures stake < SCALE ==> r == 0
    ensures totalRewards < SCALE ==> r == 0
  {
    DenominatorZeroIff(totalStaked, contractDuration);
    Numerator(stake, dur, totalRewards) / Denominator(totalStaked, contractDuration) * SCALE
  }

  lemma LowPrecisionFits(x: u64)
    ensures x / SCALE * STAKE_PRICE_LOW <= MAX_U64
    ensures REWARD_PRICE_LOW == 15
  {
  }

  /** Whether every product the contract forms fits in a uint64. */
  predicate ProductsFit(stake: nat, dur: nat, totalRewards: nat, totalStaked: nat, contractDuration: nat) {
    && Normalised(stake) * dur <= MAX_U64
    && Numerator(stake, dur, totalRewards) <= MAX_U64
    && PoolWeight(totalStaked, contractDuration) <= MAX_U64
  }

  /** The reward as the contract evaluates it, in statement order, on uint64.
      It completes exactly when no product overflows, the pool holds at least
      10^4 staked units, the contract duration is positive and the scaled-up
      reward fits; then it equals `Reward`. It fails with DivideByZero exactly
      when the products fit and the denominator is zero, and with Overflow
      otherwise. */
  function ComputeReward(stake: u64, dur: u64, totalRewards: u64, totalStaked: u64, contractDuration: u64): (r: Result<u64>)
    ensures r.Ok? <==>
      && ProductsFit(stake, dur, totalRewards, totalStaked, contractDuration)
      && SCALE <= totalStaked && 0 < contractDuration
      && Reward(stake, dur, totalRewards, totalStaked, contractDuration) <= MAX_U64
    ensures r.Ok? ==> r.value == Reward(stake, dur, totalRewards, totalStaked, contractDuration)
    ensures r.Err? ==> (r.fault == DivideByZero <==>
      ProductsFit(stake, dur, totalRewards, totalStaked, contractDuration) && (totalStaked < SCALE || contractDuration == 0))
    ensures r.Err? ==> r.fault == Overflow || r.fault == DivideByZero
  {
    DenominatorZeroIff(totalStaked, contractDuration);
    var stakeLow: u64 := stake / SCALE;
    var rewardsLow: u64 := totalRewards / SCALE;
    var stakedLow: u64 := totalStaked / SCALE;
    LowPrecisionFits(stake);
    LowPrecisionFits(totalStaked);
    // a scaled-down value times 100 cannot overflow, and 15 is not zero
    var normalised: u64 := stakeLow * STAKE_PRICE_LOW / REWARD_PRICE_LOW;
    var timed :- Mul(normalised, dur);
    var nom :- Mul(timed, rewardsLow);
    var poolPriced: u64 := stakedLow * STAKE_PRICE_LOW;
    var poolTimed :- Mul(poolPriced, contractDuration);
    var dom: u64 := poolTimed / REWARD_PRICE_LOW;
    var share :- Div(nom, dom);
    Mul(share, SCALE)
  }

  // ---------------------------------------------------------------------
  // Arithmetic facts about natural numbers used below.

  lemma MulLeMul(a: nat, b: nat, c: nat, d: nat)
    requires a <= b && c <= d
    ensures a * c <= b * d
  {
    assert a * c <= b * c;
    assert b * c <= b * d;
  }

  lemma DivLeDiv(x: nat, y: nat, k: nat)
    requires x <= y && k > 0
    ensures x / k <= y / k
  {
    assert (x / k) * k <= x;
    assert y < (y / k + 1) * k;
    if x / k > y / k {
      MulLeMul(y / k + 1, x / k, k, k);
      assert false;
    }
  }

  lemma LeDivOfMulLe(x: nat, y: nat, k: nat)
    requires k > 0 && x * k <= y
    ensures x <= y / k
  {
    assert y < (y / k + 1) * k;
    if x > y / k {
      MulLeMul(y / k + 1, x, k, k);
      assert false;
    }
  }

  lemma DivLeOfLeMul(x: nat, y: nat, q: nat)
    requires y > 0 && x <= q * y
    ensures x / y <= q
  {
    assert (x / y) * y <= x;
    assert (q + 1) * y == q * y + y;
    if x / y > q {
      MulLeMul(q + 1, x / y, y, y);
      assert false;
    }
  }

  /** With `a <= b` and `d <= cd`, `(a * p / q) * d <= (b * p * cd) / q`. */
  lemma ScaledWeightLe(a: nat, b: nat, p: nat, q: nat, d: nat, cd: nat)
    requires a <= b && d <= cd && q > 0
    ensures (a * p / q) * d <= (b * p * cd) / q
  {
    var n := a * p / q;
    assert n * q <= a * p;
    MulLeMul(n * q, a * p, d, d);
    MulLeMul(a * p, b * p, d, cd) by { MulLeMul(a, b, p, p); }
    assert (n * d) * q == (n * q) * d;
    LeDivOfMulLe(n * d, b * p * cd, q);
  }

  lemma ScaleBack(share: nat, rl: nat, amount: nat)
    requires share <= rl && rl == amount / SCALE
    ensures share * SCALE <= amount
  {
    MulLeMul(share, rl, SCALE, SCALE);
  }

  /** A weight no larger than the total takes no more than the whole amount. */
  lemma ShareLe(x: nat, amount: nat, total: nat)
    requires 0 < total && x <= total
    ensures x * amount / total <= amount
  {
    MulLeMul(x, total, amount, amount);
    assert total * amount == amount * total;
    DivLeOfLeMul(x * amount, total, amount);
  }

  // ---------------------------------------------------------------------
  // Properties of the reward.

  /** The division by the denominator aborts exactly when the pool holds
      fewer than 10^4 staked base units or the contract duration is zero. */
  lemma DenominatorZeroIff(totalStaked: nat, contractDuration: nat)
    ensures Denominator(totalStaked, contractDuration) == 0 <==> totalStaked < SCALE || contractDuration == 0
  {
    var b := totalStaked / SCALE;
    if b >= 1 && contractDuration >= 1 {
      MulLeMul(1, b * STAKE_PRICE_LOW, 1, contractDuration);
      assert PoolWeight(totalStaked, contractDuration) >= STAKE_PRICE_LOW;
      DivLeDiv(STAKE_PRICE_LOW, PoolWeight(totalStaked, contractDuration), REWARD_PRICE_LOW);
    } else if b == 0 {
      assert PoolWeight(totalStaked, contractDuration) == 0;
    } else {
      assert PoolWeight(totalStaked, contractDuration) == 0;
    }
  }

  /** A position no larger than the pool, locked no longer than the contract
      duration, is owed no more than the rewards the pool holds. */
  lemma RewardSolvent(stake: nat, dur: nat, totalRewards: nat, totalStaked: nat, contractDuration: nat)
    requires stake <= totalStaked && dur <= contractDuration
    requires SCALE <= totalStaked && 0 < contractDuration
    ensures Reward(stake, dur, totalRewards, totalStaked, contractDuration) <= totalRewards
  {
    var rl := totalRewards / SCALE;
    DenominatorZeroIff(totalStaked, contractDuration);
    var dom := Denominator(totalStaked, contractDuration);
    DivLeDiv(stake, totalStaked, SCALE);
    ScaledWeightLe(stake / SCALE, totalStaked / SCALE, STAKE_PRICE_LOW, REWARD_PRICE_LOW, dur, contractDuration);
    assert Normalised(stake) * dur <= dom;
    ShareLe(Normalised(stake) * dur, rl, dom);
    assert Numerator(stake, dur, totalRewards) / dom <= rl;
    ScaleBack(Numerator(stake, dur, totalRewards) / dom, rl, totalRewards);
  }

  /** A larger stake never earns a smaller reward. */
  lemma RewardMonotoneInStake(s1: nat, s2: nat, dur: nat, totalRewards: nat, totalStaked: nat, contractDuration: nat)
    requires s1 <= s2
    requires SCALE <= totalStaked && 0 < contractDuration
    ensures Reward(s1, dur, totalRewards, totalStaked, contractDuration)
         <= Reward(s2, dur, totalRewards, totalStaked, contractDuration)
  {
    DivLeDiv(s1, s2, SCALE);
    DivLeDiv(s1 / SCALE * STAKE_PRICE_LOW, s2 / SCALE * STAKE_PRICE_LOW, REWARD_PRICE_LOW);
    MulLeMul(Normalised(s1), Normalised(s2), dur, dur);
    MulLeMul(Normalised(s1) * dur, Normalised(s2) * dur, totalRewards / SCALE, totalRewards / SCALE);
    DenominatorZeroIff(totalStaked, contractDuration);
    var dom := Denominator(totalStaked, contractDuration);
    DivLeDiv(Numerator(s1, dur, totalRewards), Numerator(s2, dur, totalRewards), dom);
    MulLeMul(Numerator(s1, dur, totalRewards) / dom, Numerator(s2, dur, totalRewards) / dom, SCALE, SCALE);
  }

  /** A longer lock never earns a smaller reward. */
  lemma RewardMonotoneInDuration(stake: nat, d1: nat, d2: nat, totalRewards: nat, totalStaked: nat, contractDuration: nat)
    requires d1 <= d2
    requires SCALE <= totalStaked && 0 < contractDuration
    ensures Reward(stake, d1, totalRewards, totalStaked, contractDuration)
         <= Reward(stake, d2, totalRewards, totalStaked, contractDuration)
  {
    MulLeMul(Normalised(stake), Normalised(stake), d1, d2);
    MulLeMul(Normalised(stake) * d1, Normalised(stake) * d2, totalRewards / SCALE, totalRewards / SCALE);
    DenominatorZeroIff(totalStaked, contractDuration);
    var dom := Denominator(totalStaked, contractDuration);
    DivLeDiv(Numerator(stake, d1, totalRewards), Numerator(stake, d2, totalRewards), dom);
    MulLeMul(Numerator(stake, d1, totalRewards) / dom, Numerator(stake, d2, totalRewards) / dom, SCALE, SCALE);
  }

  /** A larger pool never gives a given position a larger reward. */
  lemma RewardAntitoneInPool(stake: nat, dur: nat, totalRewards: nat, t1: nat, t2: nat, contractDuration: nat)
    requires SCALE <= t1 <= t2 && 0 < contractDuration
    ensures Reward(stake, dur, totalRewards, t2, contractDuration)
         <= Reward(stake, dur, totalRewards, t1, contractDuration)
  {
    DivLeDiv(t1, t2, SCALE);
    MulLeMul(t1 / SCALE * STAKE_PRICE_LOW, t2 / SCALE * STAKE_PRICE_LOW, contractDuration, contractDuration);
    DivLeDiv(PoolWeight(t1, contractDuration), PoolWeight(t2, contractDuration), REWARD_PRICE_LOW);
    var nom := Numerator(stake, dur, totalRewards);
    DenominatorZeroIff(t1, contractDuration);
    DenominatorZeroIff(t2, contractDuration);
    var d1, d2 := Denominator(t1, contractDuration), Denominator(t2, contractDuration);
    // nom / d2 <= nom / d1 because (nom / d2) * d1 <= (nom / d2) * d2 <= nom
    MulLeMul(nom / d2, nom / d2, d1, d2);
    LeDivOfMulLe(nom / d2, nom, d1);
    MulLeMul(nom / d2, nom / d1, SCALE, SCALE);
  }
}
