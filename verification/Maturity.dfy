/** When a coinbase may be spent, in plain arithmetic on the heights of blocks. */
module Maturity {
  import opened ConnectSpec
  import opened Primitives
  import opened Validation

  /** A coin a coinbase made that is not yet `coinbaseMaturity` blocks deep where it would be spent. */
  predicate TooYoung(coin: Coin, height: nat, p: Params) {
    coin.isCoinbase && height < coin.height + p.coinbaseMaturity
  }

  predicate NoneTooYoung(coins: seq<Coin>, height: nat, p: Params) {
    forall i :: 0 <= i < |coins| ==> !TooYoung(coins[i], height, p)
  }

  /** What is spent is what was there. */
  lemma {:induction false} SpentWasThere(view: CoinSet, inputs: seq<TxInput>)
    requires SpendAll(view, inputs).Some?
    ensures forall i :: 0 <= i < |inputs| ==>
              inputs[i].outpoint in view && SpendAll(view, inputs).value.spent[i] == view[inputs[i].outpoint]
  {
    if inputs != [] {
      var n := |inputs| - 1;
      SpentWasThere(view, inputs[..n]);
      SpendingRemoves(view, inputs[..n]);
      assert forall i :: 0 <= i < n ==> inputs[..n][i] == inputs[i];
    }
  }

  lemma AcceptedIsOld(tx: Transaction, spent: seq<Coin>, height: nat, p: Params)
    requires InputsVerdict(tx, spent, height, p).Ok?
    ensures NoneTooYoung(spent, height, p)
  {
    hide PayableOutputs;
    forall i | 0 <= i < |spent| ensures !TooYoung(spent[i], height, p) {
      assert Mature(spent[i], height, p);
    }
  }

  /** What the last transaction of a run takes is old enough. */
  lemma WithdrawnIsOld(view: CoinSet, txs: seq<Transaction>, height: nat, p: Params)
    requires txs != [] && ApplyAll(view, txs, height, p).Ok?
    ensures ApplyAll(view, txs[..|txs| - 1], height, p).Ok?
    ensures var n := |txs| - 1;
            var prior := ApplyAll(view, txs[..n], height, p).value.view;
            forall o :: o in Withdrawn(txs, n) ==> o in prior && !TooYoung(prior[o], height, p)
  {
    hide AddAll, InputsVerdict, SpendAll;
    var n := |txs| - 1;
    if n > 0 {
      var prior := ApplyAll(view, txs[..n], height, p).value.view;
      AcceptedIsOld(txs[n], SpendAll(prior, txs[n].inputs).value.spent, height, p);
      SpentWasThere(prior, txs[n].inputs);
    }
  }

  /** As far as a block applies, every coin in its undo record was old enough. */
  lemma {:induction false} AppliedIsOld(view: CoinSet, txs: seq<Transaction>, height: nat, p: Params)
    requires ApplyAll(view, txs, height, p).Ok?
    ensures var undo := ApplyAll(view, txs, height, p).value.undo;
            forall i :: 0 <= i < |undo| ==> NoneTooYoung(undo[i].spent, height, p)
  {
    hide AddAll, InputsVerdict, SpendAll, NoneTooYoung;
    if txs != [] {
      var n := |txs| - 1;
      AppliedIsOld(view, txs[..n], height, p);
      if n > 0 {
        var prior := ApplyAll(view, txs[..n], height, p).value.view;
        AcceptedIsOld(txs[n], SpendAll(prior, txs[n].inputs).value.spent, height, p);
      }
    }
  }

  /** A block that connects spends no coinbase coin before its time. */
  lemma ConnectedIsOld(block: Block, view: CoinSet, p: Params)
    requires Connect(block, view, p).Ok?
    ensures var undo := Connect(block, view, p).value.undo.transactions;
            forall i, j :: 0 <= i < |undo| && 0 <= j < |undo[i].spent| && undo[i].spent[j].isCoinbase ==>
              undo[i].spent[j].height + p.coinbaseMaturity <= block.header.height
  {
    hide ApplyAll, CoinbaseVerdict;
    AppliedIsOld(view, block.transactions, block.header.height, p);
  }

  // --- And is refused for it only then ---

  /** When its turn comes, transaction `k` finds all its coins, and one of them is too young. */
  ghost predicate SpendsTooYoung(view: CoinSet, txs: seq<Transaction>, height: nat, p: Params, k: nat)
    requires k < |txs|
  {
    && k > 0 && !txs[k].IsCoinbase() && ApplyAll(view, txs[..k], height, p).Ok?
    && var spent := SpendAll(ApplyAll(view, txs[..k], height, p).value.view, txs[k].inputs);
       spent.Some? && !NoneTooYoung(spent.value.spent, height, p)
  }

  lemma RefusedForAge(tx: Transaction, spent: seq<Coin>, height: nat, p: Params)
    requires !tx.IsCoinbase() && |spent| == |tx.inputs| && AuthoriseOwnCodes(p)
    ensures InputsVerdict(tx, spent, height, p) == Err(TxCoinbaseNotMature) <==> !NoneTooYoung(spent, height, p)
  {
    hide PayableOutputs;
    assert forall i :: 0 <= i < |spent| ==> (Mature(spent[i], height, p) <==> !TooYoung(spent[i], height, p));
  }

  lemma StepRefusedForAge(prior: Progress, tx: Transaction, first: bool, height: nat, p: Params)
    requires AuthoriseOwnCodes(p) && (tx.IsCoinbase() <==> first)
    ensures var spent := SpendAll(prior.view, tx.inputs);
            ApplyOne(prior, tx, first, height, p) == Err(TxCoinbaseNotMature)
            <==> !first && spent.Some? && !NoneTooYoung(spent.value.spent, height, p)
  {
    hide AddAll, InputsVerdict, SpendAll, NoneTooYoung, AuthoriseOwnCodes;
    if !first && SpendAll(prior.view, tx.inputs).Some? {
      RefusedForAge(tx, SpendAll(prior.view, tx.inputs).value.spent, height, p);
    }
  }

  lemma TooYoungSofar(view: CoinSet, txs: seq<Transaction>, height: nat, p: Params)
    requires txs != []
    ensures var n := |txs| - 1;
            (exists k :: 0 <= k < |txs| && SpendsTooYoung(view, txs, height, p, k))
            <==> (exists k :: 0 <= k < n && SpendsTooYoung(view, txs[..n], height, p, k))
                 || SpendsTooYoung(view, txs, height, p, n)
  {
    hide ApplyAll, SpendAll, NoneTooYoung;
    var n := |txs| - 1;
    forall k | 0 <= k < n
      ensures SpendsTooYoung(view, txs[..n], height, p, k) <==> SpendsTooYoung(view, txs, height, p, k)
    {
      assert txs[..n][..k] == txs[..k];
    }
  }

  lemma {:induction false} AppliedTooYoung(view: CoinSet, txs: seq<Transaction>, height: nat, p: Params)
    requires AuthoriseOwnCodes(p)
    ensures ApplyAll(view, txs, height, p) == Err(TxCoinbaseNotMature)
       <==> exists k :: 0 <= k < |txs| && SpendsTooYoung(view, txs, height, p, k)
  {
    hide ApplyOne, SpendAll, NoneTooYoung, AuthoriseOwnCodes;
    if txs != [] {
      var n := |txs| - 1;
      AppliedTooYoung(view, txs[..n], height, p);
      TooYoungSofar(view, txs, height, p);
      if ApplyAll(view, txs[..n], height, p).Ok? && (txs[n].IsCoinbase() <==> n == 0) {
        StepRefusedForAge(ApplyAll(view, txs[..n], height, p).value, txs[n], n == 0, height, p);
      }
    }
  }

  /** A block is refused for age if and only if some transaction of it, everything before it having applied,
      would spend a coinbase coin less than the maturity deep. */
  lemma TooYoungIsRefused(block: Block, view: CoinSet, p: Params)
    requires AuthoriseOwnCodes(p) && block.transactions != [] && block.transactions[0].IsCoinbase()
    ensures Connect(block, view, p) == Err(TxCoinbaseNotMature)
       <==> exists k :: 0 <= k < |block.transactions|
                        && SpendsTooYoung(view, block.transactions, block.header.height, p, k)
  {
    hide ApplyAll, SpendsTooYoung, AuthoriseOwnCodes, PayableOutputs;
    AppliedTooYoung(view, block.transactions, block.header.height, p);
  }
}
