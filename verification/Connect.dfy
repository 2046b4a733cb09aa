/** Connecting and reversing a block against a layered coin set.

    Every change is staged in a fresh layer and reaches the caller's layer only if the whole block
    succeeds, so a refusal leaves the caller's view exactly as it was. */
module Connect {
  import opened Coins
  import opened ConnectSpec
  import opened Primitives
  import opened Validation

  datatype ConnectResult = ConnectResult(undo: BlockUndo, totalFees: int)

  /** Spends the inputs one by one. A missing coin stops the walk part way. */
  method SpendInputs(batch: CoinsCache, inputs: seq<TxInput>) returns (spent: Option<seq<Coin>>)
    requires batch.Stacked()
    modifies batch`entries
    ensures match SpendAll(old(batch.View()), inputs)
            case None => spent == None
            case Some(s) => spent == Some(s.spent) && batch.View() == s.view
  {
    var coins := [];
    for i := 0 to |inputs|
      invariant SpendAll(old(batch.View()), inputs[..i]) == Some(Spending(batch.View(), coins))
    {
      assert inputs[..i + 1][..i] == inputs[..i];
      var coin := batch.SpendCoin(inputs[i].outpoint);
      if coin.None? {
        SpendPrefixFails(old(batch.View()), inputs, i + 1);
        return None;
      }
      coins := coins + [coin.value];
    }
    assert inputs[..|inputs|] == inputs;
    return Some(coins);
  }

  lemma {:induction false} SpendPrefixFails(view: CoinSet, inputs: seq<TxInput>, k: nat)
    requires k <= |inputs| && SpendAll(view, inputs[..k]).None?
    ensures SpendAll(view, inputs).None?
    decreases |inputs|
  {
    if k == |inputs| {
      assert inputs[..k] == inputs;
    } else {
      assert inputs[..|inputs| - 1][..k] == inputs[..k];
      SpendPrefixFails(view, inputs[..|inputs| - 1], k);
    }
  }

  method AddOutputs(batch: CoinsCache, txid: Hash256, outputs: seq<TxOutput>, height: nat, cb: bool)
    returns (added: bool)
    requires batch.Stacked()
    modifies batch`entries
    ensures match AddAll(old(batch.View()), txid, outputs, height, cb)
            case None => !added
            case Some(v) => added && batch.View() == v
  {
    for i := 0 to |outputs|
      invariant AddAll(old(batch.View()), txid, outputs[..i], height, cb) == Some(batch.View())
    {
      assert outputs[..i + 1][..i] == outputs[..i];
      if !IsStored(outputs[i]) {
        continue;
      }
      var fresh' := batch.AddCoin(OutPointFor(txid, i), Coin(outputs[i], height, cb));
      if !fresh' {
        AddPrefixFails(old(batch.View()), txid, outputs, height, cb, i + 1);
        return false;
      }
    }
    assert outputs[..|outputs|] == outputs;
    return true;
  }

  lemma {:induction false} AddPrefixFails(view: CoinSet, txid: Hash256, outputs: seq<TxOutput>, height: nat, cb: bool,
                                          k: nat)
    requires k <= |outputs| && AddAll(view, txid, outputs[..k], height, cb).None?
    ensures AddAll(view, txid, outputs, height, cb).None?
    decreases |outputs|
  {
    if k == |outputs| {
      assert outputs[..k] == outputs;
    } else {
      assert outputs[..|outputs| - 1][..k] == outputs[..k];
      AddPrefixFails(view, txid, outputs[..|outputs| - 1], height, cb, k);
    }
  }

  method ApplyTransaction(batch: CoinsCache, tx: Transaction, cb: bool, height: nat, p: Params,
                          undo: seq<TxUndo>, fees: int)
    returns (r: Result<(seq<TxUndo>, int), ValidationError>)
    requires batch.Stacked()
    modifies batch`entries
    ensures match ApplyOne(Progress(old(batch.View()), undo, fees), tx, cb, height, p)
            case Err(e) => r == Err(e)
            case Ok(next) => r == Ok((next.undo, next.fees)) && batch.View() == next.view
  {
    var undo', fees' := undo, fees;
    if !cb {
      var spent := SpendInputs(batch, tx.inputs);
      if spent.None? {
        return Err(TxInputMissingOrSpent);
      }
      var fee := CheckTransactionInputs(tx, spent.value, height, p);
      if fee.Err? {
        return Err(fee.error);
      }
      if !FitsInt64(fees + fee.value) || !IsValidAmount(fees + fee.value) {
        return Err(BlockFeesOutOfRange);
      }
      undo', fees' := undo + [TxUndo(spent.value)], fees + fee.value;
    }
    var added := AddOutputs(batch, p.txid(tx), tx.outputs, height, cb);
    if !added {
      return Err(TxCreatesExistingOutpoint);
    }
    return Ok((undo', fees'));
  }

  lemma {:induction false} ApplyPrefixFails(view: CoinSet, txs: seq<Transaction>, height: nat, p: Params, k: nat)
    requires k <= |txs| && ApplyAll(view, txs[..k], height, p).Err?
    ensures ApplyAll(view, txs, height, p) == ApplyAll(view, txs[..k], height, p)
    decreases |txs|
  {
    if k == |txs| {
      assert txs[..k] == txs;
    } else {
      assert txs[..|txs| - 1][..k] == txs[..k];
      ApplyPrefixFails(view, txs[..|txs| - 1], height, p, k);
    }
  }

  method ApplyTransactions(batch: CoinsCache, txs: seq<Transaction>, height: nat, p: Params)
    returns (r: Result<(seq<TxUndo>, int), ValidationError>)
    requires batch.Stacked()
    modifies batch`entries
    ensures match ApplyAll(old(batch.View()), txs, height, p)
            case Err(e) => r == Err(e)
            case Ok(done) => r == Ok((done.undo, done.fees)) && batch.View() == done.view
  {
    hide ApplyOne;
    ghost var before := batch.View();
    var undo: seq<TxUndo>, fees := [], 0;
    assert txs[..0] == [];
    for i := 0 to |txs|
      invariant ApplyAll(before, txs[..i], height, p) == Ok(Progress(batch.View(), undo, fees))
    {
      assert txs[..i + 1][..i] == txs[..i];
      if txs[i].IsCoinbase() != (i == 0) {
        ApplyPrefixFails(before, txs, height, p, i + 1);
        return Err(BlockMultipleCoinbases);
      }
      var step := ApplyTransaction(batch, txs[i], i == 0, height, p, undo, fees);
      if step.Err? {
        ApplyPrefixFails(before, txs, height, p, i + 1);
        return Err(step.error);
      }
      undo, fees := step.value.0, step.value.1;
    }
    assert txs[..|txs|] == txs;
    return Ok((undo, fees));
  }

  method ConnectBlock(block: Block, coins: CoinsCache, p: Params) returns (r: Result<ConnectResult, ValidationError>)
    requires coins.Stacked()
    modifies coins`entries
    ensures match ConnectSpec.Connect(block, old(coins.View()), p)
            case Err(e) => r == Err(e) && coins.View() == old(coins.View())
            case Ok(c) => r == Ok(ConnectResult(c.undo, c.fees)) && coins.View() == c.view
    ensures old(coins.IsTight()) ==> coins.IsTight()
  {
    if block.transactions == [] {
      return Err(BlockNoTransactions);
    }
    if !block.transactions[0].IsCoinbase() {
      return Err(BlockFirstTxNotCoinbase);
    }
    var batch: CoinsCache := new CoinsCache.Over(coins);
    var applied := ApplyTransactions(batch, block.transactions, block.header.height, p);
    if applied.Err? {
      return Err(applied.error);
    }
    var (undo, fees) := applied.value;
    var ceiling := CheckCoinbaseAmount(block, fees, p);
    if ceiling.Rejected? {
      return Err(ceiling.error);
    }
    batch.Flush();
    return Ok(ConnectResult(BlockUndo(undo), fees));
  }

  // --- Reversal ---

  method RemoveOutputs(batch: CoinsCache, txid: Hash256, outputs: seq<TxOutput>, height: nat, cb: bool)
    returns (r: Result<(), DisconnectError>)
    requires batch.Stacked()
    modifies batch`entries
    ensures match RemoveAll(old(batch.View()), txid, outputs, height, cb)
            case Err(e) => r == Err(e)
            case Ok(v) => r == Ok(()) && batch.View() == v
  {
    for i := 0 to |outputs|
      invariant RemoveAll(old(batch.View()), txid, outputs[..i], height, cb) == Ok(batch.View())
    {
      assert outputs[..i + 1][..i] == outputs[..i];
      if !IsStored(outputs[i]) {
        continue;
      }
      var removed := batch.SpendCoin(OutPointFor(txid, i));
      if removed.None? {
        RemovePrefixFails(old(batch.View()), txid, outputs, height, cb, i + 1);
        return Err(CreatedCoinMissing);
      }
      if removed.value != Coin(outputs[i], height, cb) {
        RemovePrefixFails(old(batch.View()), txid, outputs, height, cb, i + 1);
        return Err(CreatedCoinDoesNotMatch);
      }
    }
    assert outputs[..|outputs|] == outputs;
    return Ok(());
  }

  lemma {:induction false} RemovePrefixFails(view: CoinSet, txid: Hash256, outputs: seq<TxOutput>, height: nat,
                                             cb: bool, k: nat)
    requires k <= |outputs| && RemoveAll(view, txid, outputs[..k], height, cb).Err?
    ensures RemoveAll(view, txid, outputs, height, cb) == RemoveAll(view, txid, outputs[..k], height, cb)
    decreases |outputs|
  {
    if k == |outputs| {
      assert outputs[..k] == outputs;
    } else {
      assert outputs[..|outputs| - 1][..k] == outputs[..k];
      RemovePrefixFails(view, txid, outputs[..|outputs| - 1], height, cb, k);
    }
  }

  method RestoreInputs(batch: CoinsCache, inputs: seq<TxInput>, spent: seq<Coin>) returns (restored: bool)
    requires batch.Stacked() && |inputs| == |spent|
    modifies batch`entries
    ensures match RestoreAll(old(batch.View()), inputs, spent)
            case None => !restored
            case Some(v) => restored && batch.View() == v
  {
    ghost var goal := RestoreAll(batch.View(), inputs, spent);
    assert inputs[..|inputs|] == inputs && spent[..|spent|] == spent;
    for i := |inputs| downto 0
      invariant RestoreAll(batch.View(), inputs[..i], spent[..i]) == goal
    {
      assert inputs[..i + 1][..i] == inputs[..i] && spent[..i + 1][..i] == spent[..i];
      var vacant := batch.AddCoin(inputs[i].outpoint, spent[i]);
      if !vacant {
        return false;
      }
    }
    return true;
  }

  /** Reverses the transactions, last first. */
  method RevertTransactions(batch: CoinsCache, txs: seq<Transaction>, undos: seq<TxUndo>, height: nat, p: Params)
    returns (r: Result<(), DisconnectError>)
    requires batch.Stacked() && txs != [] && |undos| + 1 == |txs|
    modifies batch`entries
    ensures match RevertAll(old(batch.View()), txs, undos, height, p)
            case Err(e) => r == Err(e)
            case Ok(v) => r == Ok(()) && batch.View() == v
  {
    hide RemoveAll, RestoreAll;
    ghost var goal := RevertAll(batch.View(), txs, undos, height, p);
    assert txs[..|txs|] == txs && undos[..|txs| - 1] == undos;
    for i := |txs| downto 0
      invariant RevertAll(batch.View(), txs[..i], undos[..if i == 0 then 0 else i - 1], height, p) == goal
    {
      assert txs[..i + 1][..i] == txs[..i];
      var removed := RemoveOutputs(batch, p.txid(txs[i]), txs[i].outputs, height, i == 0);
      if removed.Err? {
        return Err(removed.error);
      }
      if i == 0 {
        assert goal == Ok(batch.View());
        continue;
      }
      assert undos[..i][..i - 1] == undos[..i - 1];
      if |undos[i - 1].spent| != |txs[i].inputs| {
        return Err(UndoDoesNotDescribeBlock);
      }
      var restored := RestoreInputs(batch, txs[i].inputs, undos[i - 1].spent);
      if !restored {
        return Err(SpentOutpointOccupied);
      }
    }
    return Ok(());
  }

  method DisconnectBlock(block: Block, undo: BlockUndo, coins: CoinsCache, p: Params)
    returns (r: Result<(), DisconnectError>)
    requires coins.Stacked()
    modifies coins`entries
    ensures match Disconnect(block, undo, old(coins.View()), p)
            case Err(e) => r == Err(e) && coins.View() == old(coins.View())
            case Ok(v) => r == Ok(()) && coins.View() == v
    ensures old(coins.IsTight()) ==> coins.IsTight()
  {
    if block.transactions == [] || |undo.transactions| + 1 != |block.transactions| {
      return Err(UndoDoesNotDescribeBlock);
    }
    var batch: CoinsCache := new CoinsCache.Over(coins);
    r := RevertTransactions(batch, block.transactions, undo.transactions, block.header.height, p);
    if r.Ok? {
      batch.Flush();
    }
  }
}
