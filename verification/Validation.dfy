/** The consensus rules that read amounts, heights and structure.

    Rules this model does not look inside (proof of work, signatures) are
    function-valued fields of `Params`, as are the hashes: a theorem about `Params` holds for
    every choice of them. */
module Validation {
  import opened Issuance
  import Merkle
  import opened Primitives

  datatype Params = Params(
    genesis: BlockHeader,
    hash: BlockHeader -> Hash256,
    txid: Transaction -> Hash256,
    wtxid: Transaction -> Hash256,
    weight: Transaction -> nat,
    checkHeader: BlockHeader -> Verdict,
    checkWitness: Witness -> Verdict,
    authorise: (Transaction, seq<TxOutput>) -> Verdict,
    work: nat -> nat,
    expectedBits: (nat, int, int) -> nat,
    merkle: Merkle.Tags,
    admits: Transaction -> bool,
    admitsHeader: BlockHeader -> bool,
    limits: TxLimits,
    maxTransactions: nat,
    maxBlockWeight: nat,
    coinbaseMaturity: nat,
    schedule: Schedule)

  // --- What the identifiers commit to ---

  /** Everything in the block is something the node can be handed. `admits` and `admitsHeader` say what that is:
      the values a decoder yields, or only those that were ever made. Nothing but the assumptions below, that
      no two of them collide, reads them. */
  ghost predicate AdmitsBlock(block: Block, p: Params) {
    p.admitsHeader(block.header) && forall i :: 0 <= i < |block.transactions| ==> p.admits(block.transactions[i])
  }

  /** Two transactions with one txid have the same effects. */
  ghost predicate TxidCommits(p: Params) {
    forall a: Transaction, b: Transaction :: p.admits(a) && p.admits(b) && p.txid(a) == p.txid(b) ==>
      a.inputs == b.inputs && a.outputs == b.outputs
  }

  /** Two transactions with one wtxid are one transaction. */
  ghost predicate WtxidCommits(p: Params) {
    forall a: Transaction, b: Transaction :: p.admits(a) && p.admits(b) && p.wtxid(a) == p.wtxid(b) ==> a == b
  }

  /** Two headers with one hash are one header. */
  ghost predicate HashCommits(p: Params) {
    forall a, b :: p.admitsHeader(a) && p.admitsHeader(b) && p.hash(a) == p.hash(b) ==> a == b
  }

  /** Txids commit to effects, and no transaction has more outputs than an index can number: an outpoint names
      one output. */
  ghost predicate Numberable(p: Params) {
    TxidCommits(p) && p.limits.maxOutputs <= UINT32_LIMIT
  }

  /** The outpoint names this output of the transaction. */
  ghost predicate IsOutput(tx: Transaction, o: OutPoint, output: TxOutput, p: Params) {
    p.admits(tx) && p.txid(tx) == o.txid && o.index < |tx.outputs| && tx.outputs[o.index] == output
  }

  /** The signature rules have refusals of their own. */
  ghost predicate AuthoriseOwnCodes(p: Params) {
    forall tx: Transaction, outputs: seq<TxOutput> ::
      p.authorise(tx, outputs) != Rejected(TxCreatesExistingOutpoint)
      && p.authorise(tx, outputs) != Rejected(TxCoinbaseNotMature)
  }

  // --- What a transaction takes ---

  predicate Spends(tx: Transaction, o: OutPoint) {
    exists i :: 0 <= i < |tx.inputs| && tx.inputs[i].outpoint == o
  }

  function OutPoints(inputs: seq<TxInput>): set<OutPoint> {
    set i | 0 <= i < |inputs| :: inputs[i].outpoint
  }

  function InputSet(tx: Transaction): set<OutPoint> {
    OutPoints(tx.inputs)
  }

  lemma InputSetMeans(tx: Transaction, o: OutPoint)
    ensures o in InputSet(tx) <==> Spends(tx, o)
  {
  }

  // --- Sums ---

  function SumOutputs(outputs: seq<TxOutput>): int {
    if outputs == [] then 0 else SumOutputs(outputs[..|outputs| - 1]) + outputs[|outputs| - 1].amount
  }

  function SumCoins(coins: seq<Coin>): int {
    if coins == [] then 0 else SumCoins(coins[..|coins| - 1]) + coins[|coins| - 1].output.amount
  }

  function Outputs(coins: seq<Coin>): seq<TxOutput> {
    seq(|coins|, i requires 0 <= i < |coins| => coins[i].output)
  }

  /** Every amount is in the money range and so is the total. Amounts being non-negative, this is
      the same as every partial sum being in range. */
  predicate PayableOutputs(outputs: seq<TxOutput>) {
    (forall i :: 0 <= i < |outputs| ==> IsValidAmount(outputs[i].amount)) && SumOutputs(outputs) <= MAX_MONEY
  }

  lemma {:induction false} SumOutputsMonotone(outputs: seq<TxOutput>, k: nat)
    requires k <= |outputs|
    requires forall i :: 0 <= i < |outputs| ==> outputs[i].amount >= 0
    ensures 0 <= SumOutputs(outputs[..k]) <= SumOutputs(outputs)
    decreases |outputs|
  {
    if k == |outputs| {
      assert outputs[..k] == outputs;
      if k > 0 {
        SumOutputsMonotone(outputs[..k - 1], k - 1);
        assert outputs[..k - 1][..k - 1] == outputs[..k - 1];
      }
    } else {
      SumOutputsMonotone(outputs[..|outputs| - 1], k);
      assert outputs[..|outputs| - 1][..k] == outputs[..k];
    }
  }

  lemma {:induction false} SumCoinsIsSumOfOutputs(coins: seq<Coin>)
    ensures SumCoins(coins) == SumOutputs(Outputs(coins))
  {
    if coins != [] {
      var n := |coins| - 1;
      SumCoinsIsSumOfOutputs(coins[..n]);
      assert Outputs(coins)[..n] == Outputs(coins[..n]);
    }
  }

  /** A running total, range-checked at every step. */
  method SumChecked(outputs: seq<TxOutput>) returns (total: Option<int>)
    ensures total == if PayableOutputs(outputs) then Some(SumOutputs(outputs)) else None
  {
    var acc := 0;
    for i := 0 to |outputs|
      invariant acc == SumOutputs(outputs[..i]) && IsValidAmount(acc)
      invariant forall j :: 0 <= j < i ==> IsValidAmount(outputs[j].amount)
    {
      assert outputs[..i + 1][..i] == outputs[..i];
      var amount := outputs[i].amount;
      if !IsValidAmount(amount) || !FitsInt64(acc + amount) || !IsValidAmount(acc + amount) {
        if PayableOutputs(outputs) {
          SumOutputsMonotone(outputs, i + 1);
          assert false;
        }
        return None;
      }
      acc := acc + amount;
    }
    assert outputs[..|outputs|] == outputs;
    return Some(acc);
  }

  // --- Transaction shape ---

  /** The running total the outputs are judged by, the first fault deciding. */
  function AmountsVerdict(outputs: seq<TxOutput>): Verdict {
    if outputs == [] then Accepted
    else
      var n := |outputs| - 1;
      if AmountsVerdict(outputs[..n]).Rejected? then AmountsVerdict(outputs[..n])
      else if !IsValidAmount(outputs[n].amount) then Rejected(TxAmountOutOfRange)
      else if !IsValidAmount(SumOutputs(outputs)) then Rejected(TxOutputSumOutOfRange)
      else Accepted
  }

  lemma {:induction false} AmountsAreThePayable(outputs: seq<TxOutput>)
    ensures AmountsVerdict(outputs).Accepted? <==> PayableOutputs(outputs)
  {
    if outputs != [] {
      var n := |outputs| - 1;
      AmountsAreThePayable(outputs[..n]);
      if PayableOutputs(outputs) {
        SumOutputsMonotone(outputs, n);
      } else if PayableOutputs(outputs[..n]) && IsValidAmount(outputs[n].amount) {
        assert forall i :: 0 <= i < n ==> outputs[i] == outputs[..n][i];
      }
    }
  }

  lemma {:induction false} AmountsPrefix(outputs: seq<TxOutput>, k: nat)
    requires k <= |outputs| && AmountsVerdict(outputs[..k]).Rejected?
    ensures AmountsVerdict(outputs) == AmountsVerdict(outputs[..k])
    decreases |outputs|
  {
    if k == |outputs| {
      assert outputs[..k] == outputs;
    } else {
      assert outputs[..|outputs| - 1][..k] == outputs[..k];
      AmountsPrefix(outputs[..|outputs| - 1], k);
    }
  }

  method CheckAmounts(outputs: seq<TxOutput>) returns (r: Verdict)
    ensures r == AmountsVerdict(outputs)
  {
    var total := 0;
    for i := 0 to |outputs|
      invariant total == SumOutputs(outputs[..i]) && IsValidAmount(total) && AmountsVerdict(outputs[..i]).Accepted?
    {
      assert outputs[..i + 1][..i] == outputs[..i];
      var amount := outputs[i].amount;
      if !IsValidAmount(amount) {
        AmountsPrefix(outputs, i + 1);
        return Rejected(TxAmountOutOfRange);
      }
      if !FitsInt64(total + amount) || !IsValidAmount(total + amount) {
        AmountsPrefix(outputs, i + 1);
        return Rejected(TxOutputSumOutOfRange);
      }
      total := total + amount;
    }
    assert outputs[..|outputs|] == outputs;
    return Accepted;
  }

  predicate DistinctInputs(inputs: seq<TxInput>) {
    forall i, j :: 0 <= i < j < |inputs| ==> inputs[i].outpoint != inputs[j].outpoint
  }

  predicate NoNullInput(inputs: seq<TxInput>) {
    forall i :: 0 <= i < |inputs| ==> inputs[i].outpoint != OutPoint(ZERO_HASH, COINBASE_OUTPOINT_INDEX)
  }

  /** The first witness refused decides. */
  function WitnessesVerdict(witnesses: seq<Witness>, p: Params): Verdict {
    if witnesses == [] then Accepted
    else if p.checkWitness(witnesses[0]).Rejected? then p.checkWitness(witnesses[0])
    else WitnessesVerdict(witnesses[1..], p)
  }

  /** The rules a transaction meets or breaks on its own, in the order they are asked. */
  function ShapeVerdict(tx: Transaction, p: Params): Verdict {
    if tx.inputs == [] then Rejected(TxNoInputs)
    else if tx.outputs == [] then Rejected(TxNoOutputs)
    else if |tx.inputs| > p.limits.maxInputs then Rejected(TxTooManyInputs)
    else if |tx.outputs| > p.limits.maxOutputs then Rejected(TxTooManyOutputs)
    else if tx.IsCoinbase() && tx.witnesses != [] then Rejected(TxCoinbaseHasWitnesses)
    else if tx.IsCoinbase() && |tx.coinbaseData| > p.limits.maxCoinbaseData then Rejected(TxCoinbaseDataTooLarge)
    else if !tx.IsCoinbase() && tx.coinbaseData != [] then Rejected(TxCoinbaseDataOnNonCoinbase)
    else if !tx.IsCoinbase() && |tx.witnesses| != |tx.inputs| then Rejected(TxWitnessCountMismatch)
    else if !tx.IsCoinbase() && !NoNullInput(tx.inputs) then Rejected(TxNullOutpoint)
    else if AmountsVerdict(tx.outputs).Rejected? then AmountsVerdict(tx.outputs)
    else if !tx.IsCoinbase() && !DistinctInputs(tx.inputs) then Rejected(TxDuplicateInput)
    else if !tx.IsCoinbase() && WitnessesVerdict(tx.witnesses, p).Rejected? then WitnessesVerdict(tx.witnesses, p)
    else if p.weight(tx) > p.maxBlockWeight then Rejected(TxWeightTooLarge)
    else Accepted
  }

  method CheckInputsNotNull(inputs: seq<TxInput>) returns (ok: bool)
    ensures ok == NoNullInput(inputs)
  {
    for i := 0 to |inputs|
      invariant NoNullInput(inputs[..i])
    {
      assert inputs[..i + 1][i] == inputs[i];
      if inputs[i].outpoint.txid == ZERO_HASH && inputs[i].outpoint.index == COINBASE_OUTPOINT_INDEX {
        return false;
      }
    }
    assert inputs[..|inputs|] == inputs;
    return true;
  }

  method CheckInputsDistinct(inputs: seq<TxInput>) returns (ok: bool)
    ensures ok == DistinctInputs(inputs)
  {
    var seen: set<OutPoint> := {};
    for i := 0 to |inputs|
      invariant forall o :: o in seen <==> exists j :: 0 <= j < i && inputs[j].outpoint == o
      invariant forall j, k :: 0 <= j < k < i ==> inputs[j].outpoint != inputs[k].outpoint
    {
      if inputs[i].outpoint in seen {
        return false;
      }
      seen := seen + {inputs[i].outpoint};
    }
    return true;
  }

  method CheckTransaction(tx: Transaction, p: Params) returns (r: Verdict)
    ensures r == ShapeVerdict(tx, p)
  {
    hide NoNullInput, DistinctInputs, AmountsVerdict;
    if tx.inputs == [] {
      return Rejected(TxNoInputs);
    }
    if tx.outputs == [] {
      return Rejected(TxNoOutputs);
    }
    if |tx.inputs| > p.limits.maxInputs {
      return Rejected(TxTooManyInputs);
    }
    if |tx.outputs| > p.limits.maxOutputs {
      return Rejected(TxTooManyOutputs);
    }
    var isCoinbase := tx.IsCoinbase();
    if isCoinbase {
      if tx.witnesses != [] {
        return Rejected(TxCoinbaseHasWitnesses);
      }
      if |tx.coinbaseData| > p.limits.maxCoinbaseData {
        return Rejected(TxCoinbaseDataTooLarge);
      }
    } else {
      if tx.coinbaseData != [] {
        return Rejected(TxCoinbaseDataOnNonCoinbase);
      }
      if |tx.witnesses| != |tx.inputs| {
        return Rejected(TxWitnessCountMismatch);
      }
      var named := CheckInputsNotNull(tx.inputs);
      if !named {
        return Rejected(TxNullOutpoint);
      }
    }
    r := CheckAmounts(tx.outputs);
    if r.Rejected? {
      return;
    }
    if !isCoinbase {
      var distinct := CheckInputsDistinct(tx.inputs);
      if !distinct {
        return Rejected(TxDuplicateInput);
      }
      for i := 0 to |tx.witnesses|
        invariant WitnessesVerdict(tx.witnesses, p) == WitnessesVerdict(tx.witnesses[i..], p)
      {
        r := p.checkWitness(tx.witnesses[i]);
        if r.Rejected? {
          return;
        }
      }
    }
    if p.weight(tx) > p.maxBlockWeight {
      return Rejected(TxWeightTooLarge);
    }
    return Accepted;
  }

  // --- Transaction inputs ---

  /** What a transaction pays: the coins it spends less the outputs it creates. */
  function Fee(tx: Transaction, spent: seq<Coin>): Result<int, ValidationError> {
    if tx.IsCoinbase() then Err(TxCoinbaseAuthorisesNothing)
    else if |spent| != |tx.inputs| then Err(TxSpentOutputCountMismatch)
    else if !PayableOutputs(Outputs(spent)) then Err(TxInputSumOutOfRange)
    else if !PayableOutputs(tx.outputs) then Err(TxOutputSumOutOfRange)
    else if SumOutputs(tx.outputs) > SumCoins(spent) then Err(TxOutputsExceedInputs)
    else Ok(SumCoins(spent) - SumOutputs(tx.outputs))
  }

  method TransactionFee(tx: Transaction, spent: seq<Coin>) returns (r: Result<int, ValidationError>)
    ensures r == Fee(tx, spent)
  {
    if tx.IsCoinbase() {
      return Err(TxCoinbaseAuthorisesNothing);
    }
    if |spent| != |tx.inputs| {
      return Err(TxSpentOutputCountMismatch);
    }
    var total := SumChecked(Outputs(spent));
    if total.None? {
      return Err(TxInputSumOutOfRange);
    }
    var paid := SumChecked(tx.outputs);
    if paid.None? {
      return Err(TxOutputSumOutOfRange);
    }
    SumCoinsIsSumOfOutputs(spent);
    if paid.value > total.value {
      return Err(TxOutputsExceedInputs);
    }
    return Ok(total.value - paid.value);
  }

  predicate Mature(coin: Coin, spendHeight: nat, p: Params) {
    coin.isCoinbase ==> spendHeight - coin.height >= p.coinbaseMaturity
  }

  predicate AllMature(spent: seq<Coin>, spendHeight: nat, p: Params) {
    forall i :: 0 <= i < |spent| ==> Mature(spent[i], spendHeight, p)
  }

  /** Maturity, then the fee, then the signatures. */
  function InputsVerdict(tx: Transaction, spent: seq<Coin>, spendHeight: nat, p: Params)
    : Result<int, ValidationError>
  {
    if tx.IsCoinbase() then Err(TxCoinbaseAuthorisesNothing)
    else if |spent| != |tx.inputs| then Err(TxSpentOutputCountMismatch)
    else if !AllMature(spent, spendHeight, p) then Err(TxCoinbaseNotMature)
    else if Fee(tx, spent).Err? then Fee(tx, spent)
    else if p.authorise(tx, Outputs(spent)).Rejected? then Err(p.authorise(tx, Outputs(spent)).error)
    else Fee(tx, spent)
  }

  /** A transaction that passes the input rules pays out no more than it spends, and the fee is
      exactly the difference. */
  lemma InputsConserve(tx: Transaction, spent: seq<Coin>, spendHeight: nat, p: Params)
    requires InputsVerdict(tx, spent, spendHeight, p).Ok?
    ensures InputsVerdict(tx, spent, spendHeight, p).value + SumOutputs(tx.outputs) == SumCoins(spent)
    ensures IsValidAmount(InputsVerdict(tx, spent, spendHeight, p).value)
    ensures PayableOutputs(tx.outputs)
  {
    SumCoinsIsSumOfOutputs(spent);
    SumOutputsMonotone(tx.outputs, 0);
  }

  method CheckTransactionInputs(tx: Transaction, spent: seq<Coin>, spendHeight: nat, p: Params)
    returns (r: Result<int, ValidationError>)
    ensures r == InputsVerdict(tx, spent, spendHeight, p)
  {
    if tx.IsCoinbase() {
      return Err(TxCoinbaseAuthorisesNothing);
    }
    if |spent| != |tx.inputs| {
      return Err(TxSpentOutputCountMismatch);
    }
    for i := 0 to |spent|
      invariant forall j :: 0 <= j < i ==> Mature(spent[j], spendHeight, p)
    {
      if spent[i].isCoinbase && spendHeight - spent[i].height < p.coinbaseMaturity {
        assert !Mature(spent[i], spendHeight, p);
        return Err(TxCoinbaseNotMature);
      }
    }
    r := TransactionFee(tx, spent);
    if r.Err? {
      return;
    }
    var authorised := p.authorise(tx, Outputs(spent));
    if authorised.Rejected? {
      return Err(authorised.error);
    }
  }

  // --- The coinbase ceiling ---

  function CoinbaseVerdict(block: Block, totalFees: int, p: Params): Verdict {
    if block.transactions == [] || !block.transactions[0].IsCoinbase() then Rejected(BlockFirstTxNotCoinbase)
    else if !IsValidAmount(totalFees) then Rejected(BlockFeesOutOfRange)
    else if !PayableOutputs(block.transactions[0].outputs) then Rejected(TxOutputSumOutOfRange)
    else
      var permitted := Reward(block.header.height, p.schedule) + totalFees;
      if !FitsInt64(permitted) || SumOutputs(block.transactions[0].outputs) > permitted
      then Rejected(BlockCoinbasePaysTooMuch)
      else Accepted
  }

  method CheckCoinbaseAmount(block: Block, totalFees: int, p: Params) returns (r: Verdict)
    ensures r == CoinbaseVerdict(block, totalFees, p)
  {
    if block.transactions == [] || !block.transactions[0].IsCoinbase() {
      return Rejected(BlockFirstTxNotCoinbase);
    }
    if !IsValidAmount(totalFees) {
      return Rejected(BlockFeesOutOfRange);
    }
    var claimed := SumChecked(block.transactions[0].outputs);
    if claimed.None? {
      return Rejected(TxOutputSumOutOfRange);
    }
    var reward := BlockReward(block.header.height, p.schedule);
    if !FitsInt64(reward + totalFees) || claimed.value > reward + totalFees {
      return Rejected(BlockCoinbasePaysTooMuch);
    }
    return Accepted;
  }

  // --- Blocks ---

  const HEADER_SIZE: nat := 92
  const WITNESS_SCALE_FACTOR: nat := 4

  function CompactSizeLen(n: nat): nat {
    if n < 0xFD then 1 else if n <= 0xFFFF then 3 else if n <= 0xFFFF_FFFF then 5 else 9
  }

  function TotalWeight(txs: seq<Transaction>, p: Params): nat {
    if txs == [] then 0 else TotalWeight(txs[..|txs| - 1], p) + p.weight(txs[|txs| - 1])
  }

  /** Everything outside the transactions counts at the full scale. */
  function BlockWeight(txs: seq<Transaction>, p: Params): nat {
    (HEADER_SIZE + CompactSizeLen(|txs|)) * WITNESS_SCALE_FACTOR + TotalWeight(txs, p)
  }

  function Wtxids(txs: seq<Transaction>, p: Params): seq<Hash256> {
    seq(|txs|, i requires 0 <= i < |txs| => p.wtxid(txs[i]))
  }

  predicate OneCoinbase(txs: seq<Transaction>) {
    forall i :: 1 <= i < |txs| ==> !txs[i].IsCoinbase()
  }

  /** The first transaction refused decides. */
  function ShapesVerdict(txs: seq<Transaction>, p: Params): Verdict {
    if txs == [] then Accepted
    else if ShapeVerdict(txs[0], p).Rejected? then ShapeVerdict(txs[0], p)
    else ShapesVerdict(txs[1..], p)
  }

  /** Every input that spends something, in block order. */
  function AllInputs(txs: seq<Transaction>): seq<TxInput> {
    if txs == [] then []
    else
      var n := |txs| - 1;
      AllInputs(txs[..n]) + if txs[n].IsCoinbase() then [] else txs[n].inputs
  }

  /** The rules a block meets or breaks on its own, in the order they are asked. */
  function BlockVerdict(block: Block, p: Params): Verdict {
    var txs := block.transactions;
    if p.checkHeader(block.header).Rejected? then p.checkHeader(block.header)
    else if txs == [] then Rejected(BlockNoTransactions)
    else if |txs| > p.maxTransactions then Rejected(BlockTooManyTransactions)
    else if !txs[0].IsCoinbase() then Rejected(BlockFirstTxNotCoinbase)
    else if !OneCoinbase(txs) then Rejected(BlockMultipleCoinbases)
    else if txs[0].inputs[0].sequence != block.header.height then Rejected(BlockCoinbaseWrongHeight)
    else if BlockWeight(txs, p) > p.maxBlockWeight then Rejected(BlockWeightTooLarge)
    else if Merkle.Root(Wtxids(txs, p), p.merkle) != Some(block.header.merkleRoot)
    then Rejected(BlockMerkleRootMismatch)
    else if ShapesVerdict(txs, p).Rejected? then ShapesVerdict(txs, p)
    else if !DistinctInputs(AllInputs(txs)) then Rejected(BlockDuplicateSpend)
    else Accepted
  }

  method CheckOneCoinbase(txs: seq<Transaction>) returns (ok: bool)
    requires txs != []
    ensures ok == OneCoinbase(txs)
  {
    for index := 1 to |txs|
      invariant forall i :: 1 <= i < index ==> !txs[i].IsCoinbase()
    {
      if txs[index].IsCoinbase() {
        return false;
      }
    }
    return true;
  }

  method WeighBlock(txs: seq<Transaction>, p: Params) returns (weight: nat)
    ensures weight == BlockWeight(txs, p)
  {
    weight := (HEADER_SIZE + CompactSizeLen(|txs|)) * WITNESS_SCALE_FACTOR;
    for i := 0 to |txs|
      invariant weight == (HEADER_SIZE + CompactSizeLen(|txs|)) * WITNESS_SCALE_FACTOR + TotalWeight(txs[..i], p)
    {
      assert txs[..i + 1][..i] == txs[..i];
      weight := weight + p.weight(txs[i]);
    }
    assert txs[..|txs|] == txs;
  }

  method CheckShapes(txs: seq<Transaction>, p: Params) returns (r: Verdict)
    ensures r == ShapesVerdict(txs, p)
  {
    hide ShapeVerdict;
    for i := 0 to |txs|
      invariant ShapesVerdict(txs, p) == ShapesVerdict(txs[i..], p)
    {
      r := CheckTransaction(txs[i], p);
      if r.Rejected? {
        return;
      }
    }
    return Accepted;
  }

  lemma {:induction false} AllInputsGrow(txs: seq<Transaction>, k: nat)
    requires k <= |txs|
    ensures AllInputs(txs[..k]) <= AllInputs(txs)
    decreases |txs|
  {
    if k < |txs| {
      assert txs[..|txs| - 1][..k] == txs[..k];
      AllInputsGrow(txs[..|txs| - 1], k);
    } else {
      assert txs[..k] == txs;
    }
  }

  /** One more input: still distinct if and only if what it spends is new. */
  lemma OneMoreInput(inputs: seq<TxInput>, k: nat)
    requires k < |inputs| && DistinctInputs(inputs[..k])
    ensures OutPoints(inputs[..k + 1]) == OutPoints(inputs[..k]) + {inputs[k].outpoint}
    ensures inputs[k].outpoint !in OutPoints(inputs[..k]) ==> DistinctInputs(inputs[..k + 1])
    ensures inputs[k].outpoint in OutPoints(inputs[..k]) ==> !DistinctInputs(inputs)
  {
    var some, more := inputs[..k], inputs[..k + 1];
    forall i | 0 <= i < k ensures more[i] == some[i] == inputs[i] {
    }
    assert more[k] == inputs[k];
    forall o | o in OutPoints(some) ensures o in OutPoints(more) {
      var i :| 0 <= i < |some| && some[i].outpoint == o;
      assert more[i].outpoint == o;
    }
  }

  /** The inputs of one more transaction, each against everything spent before it. */
  method SpendEach(inputs: seq<TxInput>, spent: set<OutPoint>, ghost before: seq<TxInput>)
    returns (ok: bool, spent': set<OutPoint>)
    requires DistinctInputs(before) && spent == OutPoints(before)
    ensures ok == DistinctInputs(before + inputs) && (ok ==> spent' == OutPoints(before + inputs))
  {
    hide DistinctInputs, OutPoints;
    spent' := spent;
    ghost var all := before + inputs;
    assert all[..|before|] == before;
    for a := 0 to |inputs|
      invariant spent' == OutPoints(all[..|before| + a]) && DistinctInputs(all[..|before| + a])
    {
      OneMoreInput(all, |before| + a);
      if inputs[a].outpoint in spent' {
        return false, spent';
      }
      spent' := spent' + {inputs[a].outpoint};
    }
    assert all[..|all|] == all;
    return true, spent';
  }

  lemma PrefixDistinct(some: seq<TxInput>, all: seq<TxInput>)
    requires some <= all && DistinctInputs(all)
    ensures DistinctInputs(some)
  {
    assert forall i :: 0 <= i < |some| ==> some[i] == all[i];
  }

  /** One outpoint is spent once in the whole block, not once in each transaction. */
  method CheckSpentOnce(txs: seq<Transaction>) returns (ok: bool)
    ensures ok == DistinctInputs(AllInputs(txs))
  {
    var spent: set<OutPoint> := {};
    for i := 0 to |txs|
      invariant DistinctInputs(AllInputs(txs[..i])) && spent == OutPoints(AllInputs(txs[..i]))
    {
      assert txs[..i + 1][..i] == txs[..i];
      if txs[i].IsCoinbase() {
        assert AllInputs(txs[..i + 1]) == AllInputs(txs[..i]);
        continue;
      }
      AllInputsGrow(txs, i + 1);
      ok, spent := SpendEach(txs[i].inputs, spent, AllInputs(txs[..i]));
      if !ok {
        if DistinctInputs(AllInputs(txs)) {
          PrefixDistinct(AllInputs(txs[..i + 1]), AllInputs(txs));
        }
        return;
      }
    }
    assert txs[..|txs|] == txs;
    return true;
  }

  method CheckBlock(block: Block, p: Params) returns (r: Verdict)
    ensures r == BlockVerdict(block, p)
  {
    hide BlockWeight, ShapesVerdict, Merkle.Root, OneCoinbase, DistinctInputs, AllInputs;
    var txs := block.transactions;
    r := p.checkHeader(block.header);
    if r.Rejected? {
      return;
    }
    if txs == [] {
      return Rejected(BlockNoTransactions);
    }
    if |txs| > p.maxTransactions {
      return Rejected(BlockTooManyTransactions);
    }
    if !txs[0].IsCoinbase() {
      return Rejected(BlockFirstTxNotCoinbase);
    }
    var ok := CheckOneCoinbase(txs);
    if !ok {
      return Rejected(BlockMultipleCoinbases);
    }
    if txs[0].inputs[0].sequence != block.header.height {
      return Rejected(BlockCoinbaseWrongHeight);
    }
    var weight := WeighBlock(txs, p);
    if weight > p.maxBlockWeight {
      return Rejected(BlockWeightTooLarge);
    }
    var root := Merkle.ComputeMerkleRoot(Wtxids(txs, p), p.merkle);
    if root.None? || root.value != block.header.merkleRoot {
      return Rejected(BlockMerkleRootMismatch);
    }
    r := CheckShapes(txs, p);
    if r.Rejected? {
      return;
    }
    ok := CheckSpentOnce(txs);
    return if ok then Accepted else Rejected(BlockDuplicateSpend);
  }

  /** A header has one body: two blocks that pass with one header carry the same transactions. */
  lemma HeaderCommits(a: Block, b: Block, p: Params)
    requires BlockVerdict(a, p).Accepted? && BlockVerdict(b, p).Accepted? && a.header == b.header
    requires AdmitsBlock(a, p) && AdmitsBlock(b, p) && WtxidCommits(p)
    requires Merkle.Apart(Wtxids(a.transactions, p), Wtxids(b.transactions, p), p.merkle)
    ensures a == b
  {
    hide ShapesVerdict, Merkle.Root, OneCoinbase, DistinctInputs, Merkle.Apart, BlockWeight;
    Merkle.RootCommits(Wtxids(a.transactions, p), Wtxids(b.transactions, p), p.merkle);
    assert |Wtxids(a.transactions, p)| == |Wtxids(b.transactions, p)|;
    forall i | 0 <= i < |a.transactions| ensures a.transactions[i] == b.transactions[i] {
      assert Wtxids(a.transactions, p)[i] == Wtxids(b.transactions, p)[i];
    }
  }

  lemma {:induction false} ShapesAccepted(txs: seq<Transaction>, p: Params)
    ensures ShapesVerdict(txs, p).Accepted? <==> forall i :: 0 <= i < |txs| ==> ShapeVerdict(txs[i], p).Accepted?
  {
    hide ShapeVerdict;
    if txs != [] {
      ShapesAccepted(txs[1..], p);
      assert forall i :: 1 <= i < |txs| ==> txs[i] == txs[1..][i - 1];
    }
  }
}
