/**
  Value types of the on-chain oracle contract: its records, its fixed-width integers and the
  reasons for which a call reverts.
 */
module OracleTypes {
  import opened Wrappers

  // Rust's fixed-width integers, as ranges of the unbounded `int`.
  type uint8 = x: int | 0 <= x < 0x100
  type uint16 = x: int | 0 <= x < 0x1_0000
  type uint64 = x: int | 0 <= x < 0x1_0000_0000_0000_0000
  type uint128 = x: int | 0 <= x < 0x1_0000_0000_0000_0000_0000_0000_0000_0000
  type int32 = x: int | -0x8000_0000 <= x < 0x8000_0000
  type int64 = x: int | -0x8000_0000_0000_0000 <= x < 0x8000_0000_0000_0000

  const UINT64_MAX: uint64 := 0xFFFF_FFFF_FFFF_FFFF

  type AccountId = string

  /** `u64::saturating_sub`. */
  function SaturatingSub(a: uint64, b: uint64): uint64 {
    if a >= b then a - b else 0
  }

  /** `u64::saturating_add`. */
  function SaturatingAdd(a: uint64, b: uint64): uint64 {
    if a + b <= UINT64_MAX then a + b else UINT64_MAX
  }

  /** The cast `n as u8`: keeps the low eight bits. */
  function TruncateToUint8(n: nat): uint8 {
    n % 0x100
  }

  /** The cast `x as i64` of a `u128`: keeps the low 64 bits, read in two's complement. */
  function WrapToInt64(x: uint128): int64 {
    var low := x % 0x1_0000_0000_0000_0000;
    if low < 0x8000_0000_0000_0000 then low else low - 0x1_0000_0000_0000_0000
  }

  /** A fixed-point price: `multiplier / 10^decimals`, as of `timestamp` (nanoseconds). */
  datatype Price = Price(multiplier: uint128, decimals: uint8, timestamp: uint64)

  /** One node's latest report for one asset. */
  datatype PriceReport = PriceReport(oracleId: AccountId, price: Price, timestamp: uint64)

  datatype Asset = Asset(
    id: string,
    symbol: string,
    name: string,
    decimals: uint8,
    active: bool,
    minSources: uint8)

  datatype OracleNode = OracleNode(
    accountId: AccountId,
    operatorId: AccountId,
    registeredAt: uint64,
    codeHash: string,
    lastReport: uint64,
    active: bool)

  /** What `get_price` returns. */
  datatype PriceData = PriceData(assetId: string, price: Price, numSources: uint8)

  /** What the Pyth-compatible views return. */
  datatype PythPrice = PythPrice(price: int64, conf: uint64, expo: int32, publishTime: int64)

  datatype AttestationData = AttestationData(mrEnclave: string, issuedAt: uint64)

  /** The actions a governance proposal can carry. */
  datatype AdminAction =
    | AddNodeOperator(accountId: AccountId)
    | RemoveNodeOperator(accountId: AccountId)
    | ApproveCodeHash(codeHash: string)
    | RemoveCodeHash(codeHash: string)
    | ApproveAttestation(codeHash: string, mrEnclave: string)
    | RemoveAttestation(codeHash: string)
    | Pause
    | Resume
    | UpdateConfig(recencyThreshold: Option<uint64>, minReportCount: Option<uint8>)

  datatype AdminProposal = AdminProposal(
    id: uint64,
    proposer: AccountId,
    action: AdminAction,
    scheduledFor: uint64,
    approvals: seq<AccountId>,
    executed: bool)

  /** The panics of the contract, one per `assert!` or `expect` message. */
  datatype Reason =
    | NotOwner                     // "Only owner can call this"
    | MaxAgeNotPositive            // "Max age must be positive"
    | CodeHashMustBeApprovedFirst  // "Code hash must be approved first"
    | NotWhitelistedOperator       // "Not a whitelisted operator"
    | NodeAccountNotSet            // "Node account not set by any operator"
    | OperatorNotWhitelisted       // "Operator not whitelisted"
    | CodeHashNotApproved          // "Code hash not approved"
    | AttestationNotApproved       // "Attestation not approved for code hash"
    | AttestationMismatch          // "Attestation measurement mismatch"
    | AttestationExpired           // "Attestation expired"
    | OraclePaused                 // "Oracle is paused"
    | NotAuthorizedNode            // "Not an authorized node"
    | AssetNotFound                // "Asset not found"
    | DecimalsMismatch             // "Decimals mismatch with asset definition"
    | EmptyVoterSet                // "Voter set cannot be empty"
    | QuorumTooLarge               // "Quorum must be <= 10000 basis points"
    | NotAdminProposer             // "Caller is not an admin proposer"
    | NotAdminVoter                // "Caller is not an admin voter"
    | ProposalNotFound             // "Proposal not found"
    | ProposalAlreadyExecuted      // "Proposal already executed"
    | TimelockNotElapsed           // "Timelock delay has not elapsed"
    | QuorumNotMet                 // "Proposal does not meet quorum"
    | NotAuthorizedToExecute       // "Caller is not authorized to execute proposals"

  /** How a call ends: normally, or reverted by a panic (which undoes all its writes). */
  datatype Status = Ok | Reverted(reason: Reason)
}
