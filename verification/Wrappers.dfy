/** Result and option types, and the machine-integer bounds of the source. */
module Wrappers {

  datatype Option<+T> = None | Some(value: T)

  /** The refusal codes the ledger distinguishes. */
  datatype ErrorCode =
    | ApprovalInvalid
    | ApprovalNotFound
    | ApprovalRevoked
    | ApprovalInactive
    | ApprovalOutsideValidity
    | BackendInvalidRequest
    | CeremonyGrantInvalid
    | CeremonyGrantMismatch
    | ClaimRefused
    | ClockRollback
    | ClockUntrusted
    | EpochRollback
    | EpochStale
    | EpochUnreconciled
    | KeyStopped
    | LimitExceededOperations
    | LimitExceededRate
    | LimitExceededSignatures
    | LimitExceededValue
    | MutationQuotaExceeded
    | OperationIdConflict
    | PolicyNotFound
    | PolicyRefused
    | QuotaInvalid
    | RenewalPredecessorInvalid
    | RevocationStateInvalid
    | Storage
    | ValueOverflow
    | FeeAssetMismatch
    | FeeNotAllowed
    | FeeRequired
    | ValueAssetNotAllowed

  datatype Result<+T> = Ok(value: T) | Err(code: ErrorCode) {
    predicate IsFailure() { Err? }

    function PropagateFailure<U>(): Result<U>
      requires Err?
    {
      Err(code)
    }

    function Extract(): T
      requires Ok?
    {
      value
    }
  }

  /** Succeeds exactly when the condition holds. */
  function Need(condition: bool, code: ErrorCode): Result<()>
  {
    if condition then Ok(()) else Err(code)
  }

  const U64_MAX: int := 0xFFFF_FFFF_FFFF_FFFF
  const I64_MAX: int := 0x7FFF_FFFF_FFFF_FFFF

  type U64 = n: int | 0 <= n <= U64_MAX

  function SaturatingSub(a: nat, b: nat): nat
  {
    if a >= b then a - b else 0
  }

  function Min(a: U64, b: U64): U64
  {
    if a <= b then a else b
  }

  /** `n` copies of one element. */
  function Repeat<T>(x: T, n: nat): (s: seq<T>)
    ensures |s| == n && forall i :: 0 <= i < n ==> s[i] == x
  {
    if n == 0 then [] else Repeat(x, n - 1) + [x]
  }
}
