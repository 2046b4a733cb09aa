/** What connecting and reversing a block do to a plain set of unspent outputs, and why the
    second undoes the first. */
module ConnectSpec {
  import opened Primitives
  import opened Validation

  datatype TxUndo = TxUndo(spent: seq<Coin>)

  datatype BlockUndo = BlockUndo(transactions: seq<TxUndo>)

  datatype DisconnectError =
    | UndoDoesNotDescribeBlock
    | CreatedCoinMissing
    | CreatedCoinDoesNotMatch
    | SpentOutpointOccupied

  /** The outpoint of output `index`, whose number is truncated to 32 bits. */
  function OutPointFor(txid: Hash256, index: nat): OutPoint {
    OutPoint(txid, index % UINT32_LIMIT)
  }

  predicate IsStored(output: TxOutput) {
    !output.lock.IsUnspendable()
  }

  // --- Inputs: spent in order, restored in reverse order ---

  datatype Spending = Spending(view: CoinSet, spent: seq<Coin>)

  function SpendAll(view: CoinSet, inputs: seq<TxInput>): (r: Option<Spending>)
    ensures r.Some? ==> |r.value.spent| == |inputs|
  {
    if inputs == [] then Some(Spending(view, []))
    else
      var n := |inputs| - 1;
      var o := inputs[n].outpoint;
      match SpendAll(view, inputs[..n])
      case None => None
      case Some(s) => if o in s.view then Some(Spending(s.view - {o}, s.spent + [s.view[o]])) else None
  }

  function RestoreAll(view: CoinSet, inputs: seq<TxInput>, spent: seq<Coin>): Option<CoinSet>
    requires |inputs| == |spent|
    decreases |inputs|
  {
    if inputs == [] then Some(view)
    else
      var n := |inputs| - 1;
      var o := inputs[n].outpoint;
      if o in view then None else RestoreAll(view[o := spent[n]], inputs[..n], spent[..n])
  }

  /** Spending one more: what was left before it is what is left after with its coin put back. */
  lemma SpendLast(before: CoinSet, inputs: seq<TxInput>, after: CoinSet, spent: seq<Coin>)
    requires |spent| == |inputs| > 0
    ensures var n := |inputs| - 1;
            var o := inputs[n].outpoint;
            SpendAll(before, inputs) == Some(Spending(after, spent))
            <==> o !in after && SpendAll(before, inputs[..n]) == Some(Spending(after[o := spent[n]], spent[..n]))
  {
    var n := |inputs| - 1;
    var o := inputs[n].outpoint;
    if SpendAll(before, inputs) == Some(Spending(after, spent)) {
      var s := SpendAll(before, inputs[..n]).value;
      assert s.spent + [s.view[o]] == spent;
      assert s.spent == spent[..n] && s.view == after[o := spent[n]];
    }
    if o !in after {
      assert after[o := spent[n]] - {o} == after && spent == spent[..n] + [spent[n]];
    }
  }

  /** Restoring inverts spending, and only spending. */
  lemma {:induction false} SpendRestore(before: CoinSet, inputs: seq<TxInput>, after: CoinSet, spent: seq<Coin>)
    requires |spent| == |inputs|
    ensures SpendAll(before, inputs) == Some(Spending(after, spent))
       <==> RestoreAll(after, inputs, spent) == Some(before)
    decreases |inputs|
  {
    if inputs != [] {
      var n := |inputs| - 1;
      var o := inputs[n].outpoint;
      SpendLast(before, inputs, after, spent);
      if o !in after {
        SpendRestore(before, inputs[..n], after[o := spent[n]], spent[..n]);
      }
    }
  }

  // --- Outputs: created in order, removed in the same order ---

  function Created(txid: Hash256, outputs: seq<TxOutput>, height: nat, isCoinbase: bool): CoinSet {
    if outputs == [] then map[]
    else
      var n := |outputs| - 1;
      var earlier := Created(txid, outputs[..n], height, isCoinbase);
      if IsStored(outputs[n])
      then earlier[OutPointFor(txid, n) := Coin(outputs[n], height, isCoinbase)]
      else earlier
  }

  /** No two stored outputs share an outpoint. Only the truncation of the index could make them. */
  predicate Distinct(txid: Hash256, outputs: seq<TxOutput>, height: nat, isCoinbase: bool) {
    outputs == [] ||
    var n := |outputs| - 1;
    && Distinct(txid, outputs[..n], height, isCoinbase)
    && (IsStored(outputs[n]) ==> OutPointFor(txid, n) !in Created(txid, outputs[..n], height, isCoinbase))
  }

  function AddAll(view: CoinSet, txid: Hash256, outputs: seq<TxOutput>, height: nat, isCoinbase: bool)
    : Option<CoinSet>
  {
    if outputs == [] then Some(view)
    else
      var n := |outputs| - 1;
      match AddAll(view, txid, outputs[..n], height, isCoinbase)
      case None => None
      case Some(v) =>
        if !IsStored(outputs[n]) then Some(v)
        else if OutPointFor(txid, n) in v then None
        else Some(v[OutPointFor(txid, n) := Coin(outputs[n], height, isCoinbase)])
  }

  function RemoveAll(view: CoinSet, txid: Hash256, outputs: seq<TxOutput>, height: nat, isCoinbase: bool)
    : Result<CoinSet, DisconnectError>
  {
    if outputs == [] then Ok(view)
    else
      var n := |outputs| - 1;
      var o := OutPointFor(txid, n);
      match RemoveAll(view, txid, outputs[..n], height, isCoinbase)
      case Err(e) => Err(e)
      case Ok(v) =>
        if !IsStored(outputs[n]) then Ok(v)
        else if o !in v then Err(CreatedCoinMissing)
        else if v[o] != Coin(outputs[n], height, isCoinbase) then Err(CreatedCoinDoesNotMatch)
        else Ok(v - {o})
  }

  lemma {:induction false} AddAllMeans(before: CoinSet, txid: Hash256, outputs: seq<TxOutput>, height: nat, cb: bool)
    ensures var made := Created(txid, outputs, height, cb);
            AddAll(before, txid, outputs, height, cb) ==
              if Distinct(txid, outputs, height, cb) && made.Keys !! before.Keys then Some(before + made) else None
  {
    if outputs == [] {
      assert before + map[] == before;
    } else {
      var n := |outputs| - 1;
      AddAllMeans(before, txid, outputs[..n], height, cb);
      var made := Created(txid, outputs[..n], height, cb);
      if IsStored(outputs[n]) {
        var o, c := OutPointFor(txid, n), Coin(outputs[n], height, cb);
        assert before + made[o := c] == (before + made)[o := c];
      }
    }
  }

  lemma {:induction false} RemoveAllMeans(after: CoinSet, txid: Hash256, outputs: seq<TxOutput>, height: nat, cb: bool)
    ensures var made := Created(txid, outputs, height, cb);
            var r := RemoveAll(after, txid, outputs, height, cb);
            && (r.Ok? <==> Distinct(txid, outputs, height, cb)
                           && forall o :: o in made ==> o in after && after[o] == made[o])
            && (r.Ok? ==> r.value == after - made.Keys)
  {
    if outputs == [] {
      assert after - {} == after;
    } else {
      var n := |outputs| - 1;
      RemoveAllMeans(after, txid, outputs[..n], height, cb);
      var made := Created(txid, outputs[..n], height, cb);
      if IsStored(outputs[n]) && Distinct(txid, outputs[..n], height, cb) {
        var o, c := OutPointFor(txid, n), Coin(outputs[n], height, cb);
        var made' := made[o := c];
        if forall k :: k in made ==> k in after && after[k] == made[k] {
          assert (after - made.Keys) - {o} == after - made'.Keys;
          if forall k :: k in made' ==> k in after && after[k] == made'[k] {
            if o !in made {
              assert o in made';
            }
          }
        } else {
          var k :| k in made && !(k in after && after[k] == made[k]);
          if o !in made {
            assert k in made' && made'[k] == made[k];
          }
        }
      }
    }
  }

  /** Removing inverts creating, and only creating. */
  lemma AddRemove(before: CoinSet, txid: Hash256, outputs: seq<TxOutput>, height: nat, cb: bool, after: CoinSet)
    ensures AddAll(before, txid, outputs, height, cb) == Some(after)
       <==> RemoveAll(after, txid, outputs, height, cb) == Ok(before)
  {
    AddAllMeans(before, txid, outputs, height, cb);
    RemoveAllMeans(after, txid, outputs, height, cb);
    var made := Created(txid, outputs, height, cb);
    if AddAll(before, txid, outputs, height, cb) == Some(after) {
      assert after - made.Keys == before;
    }
    if RemoveAll(after, txid, outputs, height, cb) == Ok(before) {
      assert before + made == after;
    }
  }

  // --- A run of transactions ---

  datatype Progress = Progress(view: CoinSet, undo: seq<TxUndo>, fees: int)

  /** One transaction applied after those that led to `prior`: its inputs leave the set, the rules
      judge the coins they held, and its outputs enter the set. */
  function ApplyOne(prior: Progress, tx: Transaction, cb: bool, height: nat, p: Params)
    : Result<Progress, ValidationError>
  {
    if cb then Create(prior, tx, cb, height, p)
    else match SpendAll(prior.view, tx.inputs)
      case None => Err(TxInputMissingOrSpent)
      case Some(s) =>
        match InputsVerdict(tx, s.spent, height, p)
        case Err(e) => Err(e)
        case Ok(fee) =>
          if !FitsInt64(prior.fees + fee) || !IsValidAmount(prior.fees + fee) then Err(BlockFeesOutOfRange)
          else Create(Progress(s.view, prior.undo + [TxUndo(s.spent)], prior.fees + fee), tx, cb, height, p)
  }

  function Create(prior: Progress, tx: Transaction, cb: bool, height: nat, p: Params)
    : Result<Progress, ValidationError>
  {
    match AddAll(prior.view, p.txid(tx), tx.outputs, height, cb)
    case None => Err(TxCreatesExistingOutpoint)
    case Some(v) => Ok(prior.(view := v))
  }

  function ApplyAll(view: CoinSet, txs: seq<Transaction>, height: nat, p: Params)
    : Result<Progress, ValidationError>
  {
    if txs == [] then Ok(Progress(view, [], 0))
    else
      var n := |txs| - 1;
      match ApplyAll(view, txs[..n], height, p)
      case Err(e) => Err(e)
      case Ok(prior) =>
        if txs[n].IsCoinbase() != (n == 0) then Err(BlockMultipleCoinbases)
        else ApplyOne(prior, txs[n], n == 0, height, p)
  }

  datatype Connected = Connected(view: CoinSet, undo: BlockUndo, fees: int)

  /** Connecting a block: the whole effect, or the first rule that refused it. */
  function Connect(block: Block, view: CoinSet, p: Params): Result<Connected, ValidationError> {
    if block.transactions == [] then Err(BlockNoTransactions)
    else if !block.transactions[0].IsCoinbase() then Err(BlockFirstTxNotCoinbase)
    else match ApplyAll(view, block.transactions, block.header.height, p)
      case Err(e) => Err(e)
      case Ok(done) =>
        match CoinbaseVerdict(block, done.fees, p)
        case Rejected(e) => Err(e)
        case Accepted => Ok(Connected(done.view, BlockUndo(done.undo), done.fees))
  }

  /** Reversing the transactions, last first: outputs leave the set, then inputs come back. */
  function RevertAll(view: CoinSet, txs: seq<Transaction>, undo: seq<TxUndo>, height: nat, p: Params)
    : Result<CoinSet, DisconnectError>
    requires txs == [] || |undo| + 1 == |txs|
    decreases |txs|
  {
    if txs == [] then Ok(view)
    else
      var n := |txs| - 1;
      match RemoveAll(view, p.txid(txs[n]), txs[n].outputs, height, n == 0)
      case Err(e) => Err(e)
      case Ok(v) =>
        if n == 0 then Ok(v)
        else if |undo[n - 1].spent| != |txs[n].inputs| then Err(UndoDoesNotDescribeBlock)
        else match RestoreAll(v, txs[n].inputs, undo[n - 1].spent)
          case None => Err(SpentOutpointOccupied)
          case Some(w) => RevertAll(w, txs[..n], undo[..n - 1], height, p)
  }

  function Disconnect(block: Block, undo: BlockUndo, view: CoinSet, p: Params): Result<CoinSet, DisconnectError> {
    if block.transactions == [] || |undo.transactions| + 1 != |block.transactions|
    then Err(UndoDoesNotDescribeBlock)
    else RevertAll(view, block.transactions, undo.transactions, block.header.height, p)
  }

  // --- The inverse pair ---

  /** The movement of coins alone, with no rule consulted. */
  function MoveAll(view: CoinSet, txs: seq<Transaction>, height: nat, p: Params): Option<(CoinSet, seq<TxUndo>)> {
    if txs == [] then Some((view, []))
    else
      var n := |txs| - 1;
      match MoveAll(view, txs[..n], height, p)
      case None => None
      case Some(prior) => MoveOne(prior, txs[n], n == 0, height, p)
  }

  function MoveOne(prior: (CoinSet, seq<TxUndo>), tx: Transaction, cb: bool, height: nat, p: Params)
    : Option<(CoinSet, seq<TxUndo>)>
  {
    if cb then
      match AddAll(prior.0, p.txid(tx), tx.outputs, height, cb)
      case None => None
      case Some(v) => Some((v, prior.1))
    else
      match SpendAll(prior.0, tx.inputs)
      case None => None
      case Some(s) =>
        match AddAll(s.view, p.txid(tx), tx.outputs, height, cb)
        case None => None
        case Some(v) => Some((v, prior.1 + [TxUndo(s.spent)]))
  }

  lemma {:induction false} ApplyMoves(view: CoinSet, txs: seq<Transaction>, height: nat, p: Params)
    requires ApplyAll(view, txs, height, p).Ok?
    ensures var done := ApplyAll(view, txs, height, p).value;
            MoveAll(view, txs, height, p) == Some((done.view, done.undo))
    ensures txs != [] ==> |ApplyAll(view, txs, height, p).value.undo| + 1 == |txs|
  {
    if txs != [] {
      ApplyMoves(view, txs[..|txs| - 1], height, p);
    }
  }

  /** Coins moved forwards by a block are exactly the coins moved back by reversing it. */
  lemma {:induction false} MoveRevert(before: CoinSet, txs: seq<Transaction>, height: nat, p: Params,
                                      after: CoinSet, undo: seq<TxUndo>)
    requires if txs == [] then undo == [] else |undo| + 1 == |txs|
    ensures MoveAll(before, txs, height, p) == Some((after, undo))
       <==> RevertAll(after, txs, undo, height, p) == Ok(before)
    decreases |txs|
  {
    if txs != [] {
      var n := |txs| - 1;
      var tx, id := txs[n], p.txid(txs[n]);
      if n == 0 {
        assert txs[..0] == [];
        AddRemove(before, id, tx.outputs, height, true, after);
      } else {
        if MoveAll(before, txs, height, p) == Some((after, undo)) {
          var prior := MoveAll(before, txs[..n], height, p).value;
          var s := SpendAll(prior.0, tx.inputs).value;
          assert undo == prior.1 + [TxUndo(s.spent)];
          assert undo[n - 1] == TxUndo(s.spent) && undo[..n - 1] == prior.1;
          AddRemove(s.view, id, tx.outputs, height, false, after);
          SpendRestore(prior.0, tx.inputs, s.view, s.spent);
          MoveRevert(before, txs[..n], height, p, prior.0, prior.1);
        }
        if RevertAll(after, txs, undo, height, p) == Ok(before) {
          var v := RemoveAll(after, id, tx.outputs, height, false).value;
          var w := RestoreAll(v, tx.inputs, undo[n - 1].spent).value;
          MoveRevert(before, txs[..n], height, p, w, undo[..n - 1]);
          SpendRestore(w, tx.inputs, v, undo[n - 1].spent);
          AddRemove(v, id, tx.outputs, height, false, after);
          assert undo == undo[..n - 1] + [undo[n - 1]];
        }
      }
    }
  }

  /** A connected block can always be reversed with the undo it produced, and reversing it restores
      the set exactly, coins created and spent inside the block included. */
  lemma DisconnectInvertsConnect(block: Block, view: CoinSet, p: Params)
    requires Connect(block, view, p).Ok?
    ensures var c := Connect(block, view, p).value;
            Disconnect(block, c.undo, c.view, p) == Ok(view)
  {
    var txs, height := block.transactions, block.header.height;
    ApplyMoves(view, txs, height, p);
    var done := ApplyAll(view, txs, height, p).value;
    MoveRevert(view, txs, height, p, done.view, done.undo);
  }

  /** And back again: a set that a reversal led to, and that accepts the block, leads to exactly the
      set and the undo record the reversal started from. */
  lemma ConnectInvertsDisconnect(block: Block, undo: BlockUndo, view: CoinSet, p: Params)
    requires Disconnect(block, undo, view, p).Ok?
    requires Connect(block, Disconnect(block, undo, view, p).value, p).Ok?
    ensures var c := Connect(block, Disconnect(block, undo, view, p).value, p).value;
            c.view == view && c.undo == undo
  {
    var txs, height := block.transactions, block.header.height;
    var before := Disconnect(block, undo, view, p).value;
    ApplyMoves(before, txs, height, p);
    MoveRevert(before, txs, height, p, view, undo.transactions);
  }

  // --- What each transaction does to the set ---

  lemma OutPointsGrow(inputs: seq<TxInput>)
    requires inputs != []
    ensures var n := |inputs| - 1; OutPoints(inputs) == OutPoints(inputs[..n]) + {inputs[n].outpoint}
  {
    var n := |inputs| - 1;
    forall i | 0 <= i < n ensures inputs[i].outpoint in OutPoints(inputs[..n]) {
      assert inputs[..n][i] == inputs[i];
    }
  }

  lemma {:induction false} CreatedUnder(txid: Hash256, outputs: seq<TxOutput>, height: nat, cb: bool)
    ensures forall o :: o in Created(txid, outputs, height, cb) ==> o.txid == txid
  {
    if outputs != [] {
      CreatedUnder(txid, outputs[..|outputs| - 1], height, cb);
    }
  }

  /** The coins created are the stored outputs, each under its own index, none in another's place. */
  lemma {:induction false} CreatedHas(txid: Hash256, outputs: seq<TxOutput>, height: nat, cb: bool)
    requires |outputs| <= UINT32_LIMIT
    ensures var made := Created(txid, outputs, height, cb);
            && Distinct(txid, outputs, height, cb)
            && (forall o :: o in made <==> o.txid == txid && o.index < |outputs| && IsStored(outputs[o.index]))
            && (forall o :: o in made ==> made[o] == Coin(outputs[o.index], height, cb))
  {
    if outputs != [] {
      var n := |outputs| - 1;
      CreatedHas(txid, outputs[..n], height, cb);
      assert n % UINT32_LIMIT == n;
      assert forall i :: 0 <= i < n ==> outputs[..n][i] == outputs[i];
    }
  }

  /** The coins a transaction leaves when it is connected at `height`. */
  function Made(tx: Transaction, height: nat, p: Params): CoinSet {
    Created(p.txid(tx), tx.outputs, height, tx.IsCoinbase())
  }

  /** What the block's transaction at `i` takes from the set. */
  function Withdrawn(txs: seq<Transaction>, i: nat): set<OutPoint>
    requires i < |txs|
  {
    if i == 0 then {} else InputSet(txs[i])
  }

  lemma {:induction false} SpendingRemoves(view: CoinSet, inputs: seq<TxInput>)
    requires SpendAll(view, inputs).Some?
    ensures OutPoints(inputs) <= view.Keys && SpendAll(view, inputs).value.view == view - OutPoints(inputs)
  {
    if inputs == [] {
      assert view - OutPoints(inputs) == view;
    } else {
      var n := |inputs| - 1;
      SpendingRemoves(view, inputs[..n]);
      OutPointsGrow(inputs);
      assert (view - OutPoints(inputs[..n])) - {inputs[n].outpoint} == view - OutPoints(inputs);
    }
  }

  /** What is withdrawn was there, what is made was not, and nothing else changes. */
  ghost predicate Stepped(before: CoinSet, txs: seq<Transaction>, n: nat, after: CoinSet, height: nat, p: Params)
    requires n < |txs|
  {
    var made := Created(p.txid(txs[n]), txs[n].outputs, height, n == 0);
    && Withdrawn(txs, n) <= before.Keys && made.Keys !! (before - Withdrawn(txs, n)).Keys
    && after == (before - Withdrawn(txs, n)) + made
  }

  /** One transaction's effect on the set. */
  lemma StepView(view: CoinSet, txs: seq<Transaction>, height: nat, p: Params)
    requires txs != [] && ApplyAll(view, txs, height, p).Ok?
    ensures ApplyAll(view, txs[..|txs| - 1], height, p).Ok?
    ensures Stepped(ApplyAll(view, txs[..|txs| - 1], height, p).value.view, txs, |txs| - 1,
                    ApplyAll(view, txs, height, p).value.view, height, p)
  {
    hide ApplyOne, Created, InputSet;
    var n := |txs| - 1;
    OneView(ApplyAll(view, txs[..n], height, p).value, txs[n], n == 0, height, p);
  }

  lemma OneView(prior: Progress, tx: Transaction, cb: bool, height: nat, p: Params)
    requires ApplyOne(prior, tx, cb, height, p).Ok?
    ensures var taken, made := if cb then {} else InputSet(tx), Created(p.txid(tx), tx.outputs, height, cb);
            && taken <= prior.view.Keys && made.Keys !! (prior.view - taken).Keys
            && ApplyOne(prior, tx, cb, height, p).value.view == (prior.view - taken) + made
  {
    hide AddAll, Created, InputsVerdict, SpendAll, Distinct, OutPoints;
    var taken := if cb then {} else InputSet(tx);
    if cb {
      assert prior.view - {} == prior.view;
    } else {
      SpendingRemoves(prior.view, tx.inputs);
    }
    AddAllMeans(prior.view - taken, p.txid(tx), tx.outputs, height, cb);
  }

  lemma {:induction false} OnlyFirstIsCoinbase(view: CoinSet, txs: seq<Transaction>, height: nat, p: Params)
    requires ApplyAll(view, txs, height, p).Ok?
    ensures forall i :: 0 <= i < |txs| ==> (txs[i].IsCoinbase() <==> i == 0)
  {
    hide ApplyOne;
    if txs != [] {
      OnlyFirstIsCoinbase(view, txs[..|txs| - 1], height, p);
    }
  }

  lemma NothingApplied(base: CoinSet, height: nat, p: Params)
    ensures ApplyAll(base, [], height, p) == Ok(Progress(base, [], 0))
  {
  }

  lemma {:induction false} ApplyPrefix(view: CoinSet, txs: seq<Transaction>, height: nat, p: Params, k: nat)
    requires k <= |txs| && ApplyAll(view, txs, height, p).Ok?
    ensures ApplyAll(view, txs[..k], height, p).Ok?
    decreases |txs|
  {
    hide ApplyOne;
    if k == |txs| {
      assert txs[..k] == txs;
    } else {
      assert txs[..|txs| - 1][..k] == txs[..k];
      ApplyPrefix(view, txs[..|txs| - 1], height, p, k);
    }
  }
}
