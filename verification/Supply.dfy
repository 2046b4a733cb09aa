/** Conservation of coins: what a block does to the total unspent value. */
module Supply {
  import opened ConnectSpec
  import opened Issuance
  import opened Primitives
  import opened Validation

  /** The total value of a set of unspent outputs. */
  ghost function Total(view: CoinSet): int {
    if view == map[] then 0
    else
      var o :| o in view;
      view[o].output.amount + Total(view - {o})
  }

  /** The total does not depend on the order the coins are counted in. */
  lemma {:induction false} TotalWithout(view: CoinSet, o: OutPoint)
    requires o in view
    ensures Total(view) == view[o].output.amount + Total(view - {o})
    decreases |view|
  {
    var k :| k in view && Total(view) == view[k].output.amount + Total(view - {k});
    if k != o {
      TotalWithout(view - {k}, o);
      TotalWithout(view - {o}, k);
      assert view - {k} - {o} == view - {o} - {k};
    }
  }

  lemma TotalWith(view: CoinSet, o: OutPoint, coin: Coin)
    requires o !in view
    ensures Total(view[o := coin]) == Total(view) + coin.output.amount
  {
    TotalWithout(view[o := coin], o);
    assert view[o := coin] - {o} == view;
  }

  /** The value of the outputs that enter the set, and of those no key can ever open. */
  function StoredValue(outputs: seq<TxOutput>): int {
    if outputs == [] then 0
    else
      var n := |outputs| - 1;
      StoredValue(outputs[..n]) + if IsStored(outputs[n]) then outputs[n].amount else 0
  }

  function BurnedValue(outputs: seq<TxOutput>): int {
    if outputs == [] then 0
    else
      var n := |outputs| - 1;
      BurnedValue(outputs[..n]) + if IsStored(outputs[n]) then 0 else outputs[n].amount
  }

  function Burned(txs: seq<Transaction>): int {
    if txs == [] then 0 else Burned(txs[..|txs| - 1]) + BurnedValue(txs[|txs| - 1].outputs)
  }

  lemma {:induction false} StoredOrBurned(outputs: seq<TxOutput>)
    ensures StoredValue(outputs) + BurnedValue(outputs) == SumOutputs(outputs)
    ensures PayableOutputs(outputs) ==> BurnedValue(outputs) >= 0
  {
    if outputs != [] {
      var n := |outputs| - 1;
      StoredOrBurned(outputs[..n]);
      if PayableOutputs(outputs) {
        SumOutputsMonotone(outputs, n);
        assert PayableOutputs(outputs[..n]);
      }
    }
  }

  lemma {:induction false} SpendingTakes(view: CoinSet, inputs: seq<TxInput>)
    requires SpendAll(view, inputs).Some?
    ensures var s := SpendAll(view, inputs).value; Total(view) == Total(s.view) + SumCoins(s.spent)
  {
    if inputs != [] {
      var n := |inputs| - 1;
      SpendingTakes(view, inputs[..n]);
      var prior := SpendAll(view, inputs[..n]).value;
      var o := inputs[n].outpoint;
      TotalWithout(prior.view, o);
      assert (prior.spent + [prior.view[o]])[..n] == prior.spent;
    }
  }

  lemma {:induction false} AddingGives(view: CoinSet, txid: Hash256, outputs: seq<TxOutput>, height: nat, cb: bool)
    requires AddAll(view, txid, outputs, height, cb).Some?
    ensures Total(AddAll(view, txid, outputs, height, cb).value) == Total(view) + StoredValue(outputs)
  {
    if outputs != [] {
      var n := |outputs| - 1;
      AddingGives(view, txid, outputs[..n], height, cb);
      if IsStored(outputs[n]) {
        var v := AddAll(view, txid, outputs[..n], height, cb).value;
        TotalWith(v, OutPointFor(txid, n), Coin(outputs[n], height, cb));
      }
    }
  }

  /** Up to any point of a block, the only value created is what the coinbase pays itself; fees and
      burned outputs account for the rest. */
  lemma {:induction false} ApplyAllConserves(view: CoinSet, txs: seq<Transaction>, height: nat, p: Params)
    requires txs != [] && ApplyAll(view, txs, height, p).Ok?
    ensures var done := ApplyAll(view, txs, height, p).value;
            Total(done.view) + Burned(txs) + done.fees == Total(view) + SumOutputs(txs[0].outputs)
    ensures Burned(txs) >= BurnedValue(txs[0].outputs)
    ensures IsValidAmount(ApplyAll(view, txs, height, p).value.fees)
  {
    var n := |txs| - 1;
    var tx, id := txs[n], p.txid(txs[n]);
    StoredOrBurned(tx.outputs);
    if n == 0 {
      assert txs[..0] == [];
      AddingGives(view, id, tx.outputs, height, true);
    } else {
      ApplyAllConserves(view, txs[..n], height, p);
      var prior := ApplyAll(view, txs[..n], height, p).value;
      var s := SpendAll(prior.view, tx.inputs).value;
      SpendingTakes(prior.view, tx.inputs);
      InputsConserve(tx, s.spent, height, p);
      AddingGives(s.view, id, tx.outputs, height, false);
    }
  }

  /** The part of the permitted reward the coinbase leaves unclaimed. */
  function Unclaimed(block: Block, fees: int, p: Params): int
    requires block.transactions != []
  {
    Reward(block.header.height, p.schedule) + fees - SumOutputs(block.transactions[0].outputs)
  }

  /** A connected block creates its scheduled reward and nothing else: what is not unspent afterwards
      was burned or never claimed. */
  lemma ConnectConserves(block: Block, view: CoinSet, p: Params)
    requires Connect(block, view, p).Ok?
    ensures var c := Connect(block, view, p).value;
            && Total(c.view) + Burned(block.transactions) + Unclaimed(block, c.fees, p)
               == Total(view) + Reward(block.header.height, p.schedule)
            && Burned(block.transactions) >= 0 && Unclaimed(block, c.fees, p) >= 0
  {
    ApplyAllConserves(view, block.transactions, block.header.height, p);
    StoredOrBurned(block.transactions[0].outputs);
  }
}
