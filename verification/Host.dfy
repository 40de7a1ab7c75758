/** What the contract receives from its host: accounts, fixed-width integers and the outcome of a call.

    A call that returns `Err` leaves no trace, because the host discards the writes of a failing
    invocation.  The contract is built with overflow checks, so an unchecked operation that leaves
    its type aborts the call; that abort is the error `Overflow`. */
module Host {

  datatype Address = Account(id: nat)

  datatype Option<+T> = None | Some(value: T)

  datatype Result<+T> = Ok(value: T) | Err(error: ContractError)

  datatype ContractError =
    // Aborts of the host: failed authorization, arithmetic overflow, refused token transfer
    | Unauthorized | Overflow | TransferFailed
    // Audit trail, rate limit, batches
    | InvalidAuditEvent | AuditTrailFull | NoEventsToCompress | ArchiveNotFound
    | ArchiveIntegrityFailed | ArchiveCorrupted | InvalidRetentionPeriod
    | InvalidRateLimit | InvalidRateLimitWindow | CredentialRateLimitExceeded
    | EmptyBatch | BatchTooLarge | BatchNotFound | BatchAlreadyExecuted
    // Field permissions
    | InvalidPermission
    // Auctions, pools, bonds, simulation
    | InvalidAmount | InvalidInput | NoActiveLoan | InvalidStateTransition | InsufficientFunds
    | NoRefundAvailable | InvalidChain | BridgeAttestationRequired | AttestationRejected
    | CollateralPoolNotFound | CollateralPoolActive | DuplicateVouch | NotPoolMember
    | PoolBorrowerActiveLoan | TokenNotAllowed | StakeOverflow | BondAlreadyActive
    // Governance
    | VoucherNotFound | AlreadyVoted | ArithmeticError | SlashAlreadyExecuted | SlashVoteNotFound
    | QuorumNotMet | AppealNotFound

  const U32_MAX: int := 0xFFFF_FFFF
  const U64_MAX: int := 0xFFFF_FFFF_FFFF_FFFF
  const U128_MAX: int := 0xFFFF_FFFF_FFFF_FFFF_FFFF_FFFF_FFFF_FFFF
  const I128_MAX: int := 0x7FFF_FFFF_FFFF_FFFF_FFFF_FFFF_FFFF_FFFF
  const I128_MIN: int := -0x8000_0000_0000_0000_0000_0000_0000_0000

  type byte = n: int | 0 <= n < 256
  type u32 = n: int | 0 <= n <= U32_MAX
  type u64 = n: int | 0 <= n <= U64_MAX
  type u128 = n: int | 0 <= n <= U128_MAX
  type i128 = n: int | I128_MIN <= n <= I128_MAX

  predicate FitsI128(n: int) {
    I128_MIN <= n <= I128_MAX
  }

  function Min(a: int, b: int): int {
    if a <= b then a else b
  }

  function Max(a: int, b: int): int {
    if a <= b then b else a
  }

  /** The value of type i128 nearest to `n`: what a saturating operation with exact value `n` yields. */
  function ClampI128(n: int): i128 {
    if n > I128_MAX then I128_MAX else if n < I128_MIN then I128_MIN else n
  }

  /** Division that truncates toward zero, as the contract's integers do. */
  function TruncDiv(a: int, b: int): int
    requires b > 0
  {
    if a >= 0 then a / b else -((-a) / b)
  }
}
