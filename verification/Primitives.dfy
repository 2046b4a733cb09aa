/** The data every component shares: hashes, transactions, blocks, coins, and the verdicts
    the consensus rules return. */
module Primitives {

  datatype Option<+T> = None | Some(value: T)

  datatype Result<+T, +E> = Ok(value: T) | Err(error: E)

  type byte = x: int | 0 <= x < 256

  const INT64_MAX: int := 0x7FFF_FFFF_FFFF_FFFF
  const INT64_MIN: int := -0x8000_0000_0000_0000
  const UINT32_LIMIT: int := 0x1_0000_0000
  const UINT64_LIMIT: int := 0x1_0000_0000_0000_0000

  predicate FitsInt64(x: int) {
    INT64_MIN <= x <= INT64_MAX
  }

  /** The largest amount any output or sum of outputs may hold, in facets. */
  const MAX_MONEY: int := 83_999_999_932_170_000

  predicate IsValidAmount(amount: int) {
    0 <= amount <= MAX_MONEY
  }

  /** A 32-byte digest, as the number its bytes spell in the order they are hashed, most significant
      first: comparing two digests byte by byte is comparing these numbers. */
  datatype Hash256 = Hash256(value: nat) {
    predicate Less(other: Hash256) {
      value < other.value
    }
  }

  const ZERO_HASH := Hash256(0)

  datatype OutPoint = OutPoint(txid: Hash256, index: nat)

  const COINBASE_OUTPOINT_INDEX: nat := 0xFFFF_FFFF

  datatype Lock = Lock(version: nat, program: seq<byte>) {
    predicate IsUnspendable() {
      version == 0
    }
  }

  datatype TxInput = TxInput(outpoint: OutPoint, sequence: nat)

  datatype TxOutput = TxOutput(amount: int, lock: Lock)

  datatype PublicKey = PublicKey(scheme: nat, bytes: seq<byte>)

  datatype Signature = Signature(scheme: nat, bytes: seq<byte>)

  datatype SpendCondition = SpendCondition(version: nat, threshold: nat, keys: seq<PublicKey>)

  datatype Witness = Witness(condition: SpendCondition, signatures: seq<Signature>)

  datatype Transaction = Transaction(
    version: nat,
    inputs: seq<TxInput>,
    outputs: seq<TxOutput>,
    locktime: nat,
    witnesses: seq<Witness>,
    coinbaseData: seq<byte>)
  {
    predicate IsCoinbase() {
      CreatesCoins(inputs)
    }
  }

  /** One input, naming the outpoint that cannot exist. */
  predicate CreatesCoins(inputs: seq<TxInput>) {
    |inputs| == 1 && inputs[0].outpoint == OutPoint(ZERO_HASH, COINBASE_OUTPOINT_INDEX)
  }

  /** What decoding one transaction may hold. */
  datatype TxLimits = TxLimits(
    maxInputs: nat,
    maxOutputs: nat,
    maxWitnesses: nat,
    maxLockProgram: nat,
    maxKeys: nat,
    maxKeySize: nat,
    maxSignatures: nat,
    maxSignatureSize: nat,
    maxCoinbaseData: nat)

  datatype BlockHeader = BlockHeader(
    version: nat,
    height: nat,
    prevBlock: Hash256,
    merkleRoot: Hash256,
    timestamp: int,
    targetBits: nat,
    nonce: nat)

  datatype Block = Block(header: BlockHeader, transactions: seq<Transaction>)

  datatype Coin = Coin(output: TxOutput, height: nat, isCoinbase: bool)

  /** A set of unspent outputs. */
  type CoinSet = map<OutPoint, Coin>

  /** The consensus rules this model names. `Other` stands for the rules that are parameters
      of the model (proof of work, signatures), each carrying its own code. */
  datatype ValidationError =
    | HeaderWrongPrevBlock
    | HeaderWrongHeight
    | HeaderUnexpectedTarget
    | HeaderTimestampTooOld
    | HeaderTimestampTooFarAhead
    | TxNoInputs
    | TxNoOutputs
    | TxTooManyInputs
    | TxTooManyOutputs
    | TxCoinbaseHasWitnesses
    | TxCoinbaseDataTooLarge
    | TxCoinbaseDataOnNonCoinbase
    | TxWitnessCountMismatch
    | TxNullOutpoint
    | TxAmountOutOfRange
    | TxOutputSumOutOfRange
    | TxInputSumOutOfRange
    | TxOutputsExceedInputs
    | TxDuplicateInput
    | TxWeightTooLarge
    | TxCoinbaseAuthorisesNothing
    | TxSpentOutputCountMismatch
    | TxInputMissingOrSpent
    | TxCoinbaseNotMature
    | TxCreatesExistingOutpoint
    | TxSignatureDoesNotVerify
    | WitnessSignatureSchemeReserved
    | BlockNoTransactions
    | BlockTooManyTransactions
    | BlockFirstTxNotCoinbase
    | BlockMultipleCoinbases
    | BlockCoinbaseWrongHeight
    | BlockWeightTooLarge
    | BlockMerkleRootMismatch
    | BlockDuplicateSpend
    | BlockCoinbasePaysTooMuch
    | BlockFeesOutOfRange
    | Other(code: nat)

  datatype Verdict = Accepted | Rejected(error: ValidationError)

  lemma {:induction false} SubsetSize(a: set<Hash256>, b: set<Hash256>)
    requires a <= b
    ensures |a| <= |b|
  {
    if a != {} {
      var x :| x in a;
      SubsetSize(a - {x}, b - {x});
    }
  }
}
