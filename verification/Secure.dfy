/** The failures of the secure layer (`src/secure/mod.rs`) and its machine word. */
module Secure {
  const U64_MAX: int := 0xFFFF_FFFF_FFFF_FFFF

  /** Counters are 64-bit: every `+ 1` below has to stay inside this type. */
  type u64 = n: int | 0 <= n <= U64_MAX

  datatype SecureError =
    | SchemaViolation
    | DowngradeDetected
    | SessionUnknown
    | SessionExpired
    | SessionExhausted
    | IdentityMismatch
    | BadHandshakeSignature
    | BadMessageSignature
    | ReplayRejected
    | SequenceGap
    | HoldOverflow
    | TamperDetected
    | ContractPending
    | ContractMismatch
    | GuardianUnavailable
    | RateLimited
    | UnknownOperation
}
