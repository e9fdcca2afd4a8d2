/**
 The slice of the Algorand Virtual Machine that the staking contract relies on:
 unsigned 64-bit integers whose arithmetic aborts the whole call on overflow,
 underflow or division by zero, and the reasons a call can be rejected.
 */
module Avm {

  /** Largest value of the AVM's `uint64`. */
  const MAX_U64: nat := 0xFFFF_FFFF_FFFF_FFFF

  /** A `uint64` as stored in global and local state. */
  type u64 = x: nat | x <= MAX_U64

  /** Why a call is rejected. Every rejection reverts the whole call. */
  datatype Fault =
    // arithmetic faults of the AVM's `+`, `-`, `*`, `/`
    | Overflow
    | Underflow
    | DivideByZero
    // failed `assert`s of the contract
    | NotCreator
    | StakedAssetNotSet
    | RewardAssetNotSet
    | NoRewards
    | MinLockUpNotSet
    | DurationNotSet
    | LockPeriodTooShort
    | LockPeriodTooLong
    | NoStakedAssets
    | StakedAssetsStillExist
    // local state of an account that has not opted in, or opts in twice
    | NotOptedIn
    | AlreadyOptedIn

  /** The result of a call that produces a value, usable with `:-`. */
  datatype Result<T> = Ok(value: T) | Err(fault: Fault) {
    predicate IsFailure() { Err? }

    function PropagateFailure<U>(): Result<U>
      requires Err?
    {
      Err(fault)
    }

    function Extract(): T
      requires Ok?
    {
      value
    }
  }

  /** The result of a call that produces no value. */
  datatype Outcome = Pass | Fail(fault: Fault)

  /** `a + b` on uint64. */
  function Add(a: u64, b: u64): Result<u64> {
    if a + b <= MAX_U64 then Ok(a + b) else Err(Overflow)
  }

  /** `a - b` on uint64. */
  function Sub(a: u64, b: u64): Result<u64> {
    if b <= a then Ok(a - b) else Err(Underflow)
  }

  /** `a * b` on uint64. */
  function Mul(a: u64, b: u64): Result<u64> {
    if a * b <= MAX_U64 then Ok(a * b) else Err(Overflow)
  }

  /** `a / b` on uint64: rounds down. */
  function Div(a: u64, b: u64): Result<u64> {
    if b == 0 then Err(DivideByZero) else Ok(a / b)
  }
}
