/** No transaction is ever on a chain twice. So what was spent never comes back, and nothing is ever created
    over a coin that is still unspent. */
module History {
  import opened ChainSpec
  import opened ConnectSpec
  import opened HeaderRules
  import opened IndexTree
  import opened Primitives
  import opened Validation

  // --- What a run of transactions leaves on record ---

  ghost predicate Issued(txs: seq<Transaction>, id: Hash256, p: Params) {
    exists i :: 0 <= i < |txs| && p.txid(txs[i]) == id
  }

  ghost predicate Produced(txs: seq<Transaction>, o: OutPoint, output: TxOutput, p: Params) {
    exists i :: 0 <= i < |txs| && IsOutput(txs[i], o, output, p)
  }

  ghost predicate Unrepeated(txs: seq<Transaction>, p: Params) {
    forall i, j :: 0 <= i < j < |txs| ==> p.txid(txs[i]) != p.txid(txs[j])
  }

  /** What one of the transactions spent, one of them had created, and it is gone. */
  ghost predicate SpentForGood(txs: seq<Transaction>, view: CoinSet, p: Params) {
    forall i, o :: 0 <= i < |txs| && !txs[i].IsCoinbase() && o in InputSet(txs[i]) ==>
      o !in view && Issued(txs, o.txid, p)
  }

  ghost predicate AllProduced(txs: seq<Transaction>, view: CoinSet, p: Params) {
    forall o :: o in view ==> Produced(txs, o, view[o].output, p)
  }

  /** Every transaction is well formed, and coinbases carry heights below the next one. */
  ghost predicate WellFormed(txs: seq<Transaction>, next: nat, p: Params) {
    forall i :: 0 <= i < |txs| ==>
      && ShapeVerdict(txs[i], p).Accepted? && p.admits(txs[i])
      && (txs[i].IsCoinbase() ==> txs[i].inputs[0].sequence < next)
  }

  /** The coins a run of transactions leaves, the next block being at height `next`. */
  ghost predicate Recorded(txs: seq<Transaction>, view: CoinSet, next: nat, p: Params) {
    Unrepeated(txs, p) && AllProduced(txs, view, p) && SpentForGood(txs, view, p) && WellFormed(txs, next, p)
  }

  // --- One transaction more ---

  /** What the next transaction of a block takes from the set. */
  function Takes(tx: Transaction): set<OutPoint> {
    if tx.IsCoinbase() then {} else InputSet(tx)
  }

  /** A transaction the set has coins for, or a coinbase of the next block. */
  ghost predicate Arrives(tx: Transaction, view: CoinSet, next: nat, p: Params) {
    && p.admits(tx) && tx.inputs != [] && |tx.outputs| <= UINT32_LIMIT && Takes(tx) <= view.Keys
    && (tx.IsCoinbase() ==> tx.inputs[0].sequence >= next)
  }

  /** Its txid is new: an earlier copy would have spent the same coins, or been a coinbase of the same height. */
  lemma ArrivesNew(txs: seq<Transaction>, view: CoinSet, next: nat, tx: Transaction, p: Params)
    requires Recorded(txs, view, next, p) && Arrives(tx, view, next, p) && TxidCommits(p)
    ensures !Issued(txs, p.txid(tx), p)
  {
    hide AllProduced, Unrepeated;
    assert tx.inputs[0].outpoint in InputSet(tx);
    forall i | 0 <= i < |txs| ensures p.txid(txs[i]) != p.txid(tx) {
      assert txs[i].inputs == tx.inputs ==> InputSet(txs[i]) == InputSet(tx);
    }
  }

  lemma MadeIs(tx: Transaction, height: nat, p: Params)
    requires p.admits(tx) && |tx.outputs| <= UINT32_LIMIT
    ensures Distinct(p.txid(tx), tx.outputs, height, tx.IsCoinbase())
    ensures forall o :: o in Made(tx, height, p) ==> IsOutput(tx, o, Made(tx, height, p)[o].output, p)
  {
    hide Created, Distinct;
    CreatedHas(p.txid(tx), tx.outputs, height, tx.IsCoinbase());
  }

  /** Nothing it creates is there already. */
  lemma CreatesNew(txs: seq<Transaction>, view: CoinSet, next: nat, tx: Transaction, height: nat, p: Params)
    requires Recorded(txs, view, next, p) && Arrives(tx, view, next, p) && TxidCommits(p)
    ensures Made(tx, height, p).Keys !! view.Keys
    ensures AddAll(view - Takes(tx), p.txid(tx), tx.outputs, height, tx.IsCoinbase()).Some?
  {
    hide Created, Distinct, AddAll, Unrepeated, SpentForGood, WellFormed;
    ArrivesNew(txs, view, next, tx, p);
    MadeIs(tx, height, p);
    forall o | o in view ensures o !in Made(tx, height, p) {
      var i :| 0 <= i < |txs| && IsOutput(txs[i], o, view[o].output, p);
    }
    AddAllMeans(view - Takes(tx), p.txid(tx), tx.outputs, height, tx.IsCoinbase());
  }

  lemma IssuedMore(txs: seq<Transaction>, tx: Transaction, id: Hash256, p: Params)
    ensures Issued(txs + [tx], id, p) <==> Issued(txs, id, p) || p.txid(tx) == id
  {
    var all := txs + [tx];
    assert all[|txs|] == tx && forall i :: 0 <= i < |txs| ==> all[i] == txs[i];
  }

  lemma ProducedMore(txs: seq<Transaction>, tx: Transaction, o: OutPoint, output: TxOutput, p: Params)
    ensures Produced(txs, o, output, p) ==> Produced(txs + [tx], o, output, p) && Issued(txs, o.txid, p)
    ensures IsOutput(tx, o, output, p) ==> Produced(txs + [tx], o, output, p)
  {
    var all := txs + [tx];
    assert all[|txs|] == tx && forall i :: 0 <= i < |txs| ==> all[i] == txs[i];
  }

  /** What was spent stays spent: nothing new is created where a coin once was. */
  lemma StaysSpent(txs: seq<Transaction>, view: CoinSet, next: nat, tx: Transaction, height: nat, p: Params)
    requires Recorded(txs, view, next, p) && Arrives(tx, view, next, p) && TxidCommits(p)
    ensures SpentForGood(txs + [tx], (view - Takes(tx)) + Made(tx, height, p), p)
  {
    hide Made, Unrepeated, WellFormed, InputSet, Issued, Produced;
    ArrivesNew(txs, view, next, tx, p);
    MadeIs(tx, height, p);
    var all, after := txs + [tx], (view - Takes(tx)) + Made(tx, height, p);
    forall i, o | 0 <= i < |all| && !all[i].IsCoinbase() && o in InputSet(all[i])
      ensures o !in after && Issued(all, o.txid, p)
    {
      if i < |txs| {
        assert all[i] == txs[i];
      } else {
        ProducedMore(txs, tx, o, view[o].output, p);
      }
      IssuedMore(txs, tx, o.txid, p);
    }
  }

  lemma StaysProduced(txs: seq<Transaction>, view: CoinSet, tx: Transaction, height: nat, p: Params)
    requires AllProduced(txs, view, p) && p.admits(tx) && |tx.outputs| <= UINT32_LIMIT
    ensures AllProduced(txs + [tx], (view - Takes(tx)) + Made(tx, height, p), p)
  {
    hide Made, Takes, Produced;
    MadeIs(tx, height, p);
    var after := (view - Takes(tx)) + Made(tx, height, p);
    forall o | o in after ensures Produced(txs + [tx], o, after[o].output, p) {
      ProducedMore(txs, tx, o, after[o].output, p);
    }
  }

  lemma RecordOne(txs: seq<Transaction>, view: CoinSet, next: nat, tx: Transaction, height: nat, next': nat, p: Params)
    requires Recorded(txs, view, next, p) && Arrives(tx, view, next, p) && TxidCommits(p)
    requires ShapeVerdict(tx, p).Accepted? && next <= next' && (tx.IsCoinbase() ==> tx.inputs[0].sequence < next')
    ensures Recorded(txs + [tx], (view - Takes(tx)) + Made(tx, height, p), next', p)
  {
    hide AllProduced, SpentForGood, Made, ShapeVerdict, Takes;
    ArrivesNew(txs, view, next, tx, p);
    StaysSpent(txs, view, next, tx, height, p);
    StaysProduced(txs, view, tx, height, p);
  }

  // --- One block more ---

  /** A block that passed on its own, for the next height. */
  ghost predicate IsNext(block: Block, next: nat, p: Params) {
    BlockVerdict(block, p).Accepted? && AdmitsBlock(block, p) && block.header.height == next
  }

  lemma NextFacts(block: Block, next: nat, p: Params)
    requires IsNext(block, next, p)
    ensures var txs := block.transactions;
            && txs != [] && txs[0].IsCoinbase() && txs[0].inputs[0].sequence == next
            && (forall i :: 0 <= i < |txs| ==>
                  && ShapeVerdict(txs[i], p).Accepted? && p.admits(txs[i])
                  && (txs[i].IsCoinbase() <==> i == 0))
  {
    hide ShapeVerdict, BlockWeight, Merkle.Root, DistinctInputs, ShapesVerdict;
    ShapesAccepted(block.transactions, p);
  }

  /** As far as the block applies, it leaves its transactions on record. */
  lemma {:induction false} RecordBlock(txs: seq<Transaction>, view: CoinSet, block: Block, next: nat, p: Params, k: nat)
    requires Recorded(txs, view, next, p) && IsNext(block, next, p) && Numberable(p) && k <= |block.transactions|
    requires ApplyAll(view, block.transactions[..k], next, p).Ok?
    ensures Recorded(txs + block.transactions[..k], ApplyAll(view, block.transactions[..k], next, p).value.view,
                     if k == 0 then next else next + 1, p)
  {
    hide Recorded, IsNext, Made, Takes, ApplyAll, InputSet, Created, ShapeVerdict;
    var all := block.transactions;
    if k == 0 {
      assert all[..0] == [] && txs + [] == txs;
      NothingApplied(view, next, p);
    } else {
      assert all[..k][..k - 1] == all[..k - 1] && all[..k][k - 1] == all[k - 1];
      StepView(view, all[..k], next, p);
      RecordBlock(txs, view, block, next, p, k - 1);
      var prior := ApplyAll(view, all[..k - 1], next, p).value.view;
      TurnArrives(block, next, prior, k - 1, p);
      RecordOne(txs + all[..k - 1], prior, if k == 1 then next else next + 1, all[k - 1], next, next + 1, p);
      assert txs + all[..k] == (txs + all[..k - 1]) + [all[k - 1]];
    }
  }

  /** When its turn comes, a transaction of the block whose coins are there arrives. */
  lemma TurnArrives(block: Block, next: nat, prior: CoinSet, k: nat, p: Params)
    requires IsNext(block, next, p) && Numberable(p)
    requires k < |block.transactions| && Withdrawn(block.transactions, k) <= prior.Keys
    ensures var tx := block.transactions[k];
            && ShapeVerdict(tx, p).Accepted?
            && Arrives(tx, prior, if k == 0 then next else next + 1, p) && Takes(tx) == Withdrawn(block.transactions, k)
            && (tx.IsCoinbase() <==> k == 0) && (k == 0 ==> tx.inputs[0].sequence == next)
            && Made(tx, next, p) == Created(p.txid(tx), tx.outputs, next, k == 0)
  {
    hide IsNext, InputSet, Created, AmountsVerdict, WitnessesVerdict, NoNullInput, DistinctInputs;
    NextFacts(block, next, p);
  }

  /** No transaction of the block is refused for creating what is there already. */
  lemma NeverRecreates(txs: seq<Transaction>, view: CoinSet, block: Block, next: nat, p: Params, k: nat)
    requires Recorded(txs, view, next, p) && IsNext(block, next, p) && Numberable(p) && k < |block.transactions|
    requires ApplyAll(view, block.transactions[..k], next, p).Ok?
    requires var prior := ApplyAll(view, block.transactions[..k], next, p).value;
             Withdrawn(block.transactions, k) <= prior.view.Keys
    ensures var tx, prior := block.transactions[k], ApplyAll(view, block.transactions[..k], next, p).value;
            AddAll(prior.view - Withdrawn(block.transactions, k), p.txid(tx), tx.outputs, next, k == 0).Some?
  {
    hide Recorded, IsNext, Made, Takes, AddAll, ApplyAll, Withdrawn, ShapeVerdict;
    RecordBlock(txs, view, block, next, p, k);
    var prior := ApplyAll(view, block.transactions[..k], next, p).value.view;
    TurnArrives(block, next, prior, k, p);
    CreatesNew(txs + block.transactions[..k], prior, if k == 0 then next else next + 1, block.transactions[k], next, p);
  }

  /** The rule against creating what is there never refuses a block that passed on its own. */
  lemma {:induction false} NeverRefusedForRecreating(txs: seq<Transaction>, view: CoinSet, block: Block, next: nat,
                                                     p: Params, k: nat)
    requires Recorded(txs, view, next, p) && IsNext(block, next, p) && Numberable(p) && k <= |block.transactions|
    requires AuthoriseOwnCodes(p)
    ensures ApplyAll(view, block.transactions[..k], next, p) != Err(TxCreatesExistingOutpoint)
  {
    hide Recorded, IsNext, Numberable, AddAll, InputsVerdict, SpendAll, Withdrawn;
    var all := block.transactions;
    if k > 0 {
      var j := k - 1;
      assert all[..k][..j] == all[..j] && all[..k][j] == all[j];
      NeverRefusedForRecreating(txs, view, block, next, p, j);
      if ApplyAll(view, all[..j], next, p).Ok? {
        StepNeverRefused(txs, view, block, next, p, j);
      }
    }
  }

  lemma StepNeverRefused(txs: seq<Transaction>, view: CoinSet, block: Block, next: nat, p: Params, k: nat)
    requires Recorded(txs, view, next, p) && IsNext(block, next, p) && Numberable(p) && k < |block.transactions|
    requires AuthoriseOwnCodes(p) && ApplyAll(view, block.transactions[..k], next, p).Ok?
    ensures ApplyOne(ApplyAll(view, block.transactions[..k], next, p).value, block.transactions[k], k == 0, next, p)
         != Err(TxCreatesExistingOutpoint)
  {
    hide Recorded, IsNext, Numberable, AddAll, SpendAll, ApplyAll;
    var tx, prior := block.transactions[k], ApplyAll(view, block.transactions[..k], next, p).value;
    if k == 0 {
      assert prior.view - {} == prior.view;
      NeverRecreates(txs, view, block, next, p, k);
    } else if SpendAll(prior.view, tx.inputs).Some? {
      SpendingRemoves(prior.view, tx.inputs);
      NeverRecreates(txs, view, block, next, p, k);
      VerdictsOwnCodes(tx, SpendAll(prior.view, tx.inputs).value.spent, next, p);
    }
  }

  lemma VerdictsOwnCodes(tx: Transaction, spent: seq<Coin>, height: nat, p: Params)
    requires AuthoriseOwnCodes(p)
    ensures InputsVerdict(tx, spent, height, p) != Err(TxCreatesExistingOutpoint)
  {
    hide PayableOutputs, AllMature;
  }

  lemma ConnectNeverRecreates(txs: seq<Transaction>, view: CoinSet, block: Block, next: nat, p: Params)
    requires Recorded(txs, view, next, p) && IsNext(block, next, p) && Numberable(p) && AuthoriseOwnCodes(p)
    ensures Connect(block, view, p) != Err(TxCreatesExistingOutpoint)
  {
    hide Recorded, BlockVerdict, ApplyAll, Numberable;
    var all := block.transactions;
    assert all[..|all|] == all;
    NeverRefusedForRecreating(txs, view, block, next, p, |all|);
  }

  // --- Every chain ---

  /** The transactions of the chain's blocks, in order. Genesis is seeded, not connected. */
  ghost function Transactions(chain: seq<Hash256>, blocks: Bodies): seq<Transaction> {
    if |chain| <= 1 then []
    else
      var n := |chain| - 1;
      Transactions(chain[..n], blocks) + if chain[n] in blocks then blocks[chain[n]].transactions else []
  }

  /** The body stored for an entry is for the entry's own height. */
  lemma BodyIsNext(t: Tree, order: seq<Hash256>, h: Hash256, blocks: Bodies, p: Params)
    requires IndexInvariant(t, p.hash(p.genesis), order, p) && p.genesis.height == 0 && HashCommits(p)
    requires StoreKeyed(t, blocks, p) && StoreSound(blocks, p) && TreeAdmitted(t, p) && h in blocks
    ensures h in t && Linked(t, p.hash(p.genesis)) && IsNext(blocks[h], |Path(t, p.hash(p.genesis), h)| - 1, p)
  {
    hide Path, Judged, FailuresExplained, FailuresPropagated, Arrivals, Heights, BlockVerdict;
    HeightIsPosition(t, order, h, p);
    assert p.hash(t[h].header) == p.hash(blocks[h].header);
  }

  lemma NothingRecorded(next: nat, p: Params)
    ensures Recorded([], map[], next, p)
  {
  }

  /** Along every path whose blocks replay, whether or not it is the active one, no txid comes twice and
      what was spent is gone for good. */
  lemma {:induction false} PathRecorded(t: Tree, order: seq<Hash256>, h: Hash256, blocks: Bodies, view: CoinSet,
                                        p: Params)
    requires IndexInvariant(t, p.hash(p.genesis), order, p) && p.genesis.height == 0 && HashCommits(p) && Numberable(p)
    requires StoreKeyed(t, blocks, p) && StoreSound(blocks, p) && TreeAdmitted(t, p) && h in t
    requires Linked(t, p.hash(p.genesis)) && Replay(Path(t, p.hash(p.genesis), h), blocks, p) == Some(view)
    ensures var path := Path(t, p.hash(p.genesis), h);
            Recorded(Transactions(path, blocks), view, |path|, p)
    decreases t[h].sequence
  {
    hide IndexInvariant, StoreKeyed, StoreSound, Recorded, IsNext, Numberable, HashCommits, Connect;
    var root, path := p.hash(p.genesis), Path(t, p.hash(p.genesis), h);
    if h == root {
      NothingRecorded(|path|, p);
    } else {
      var q, n := t[h].parent.value, |path| - 1;
      assert path[..n] == Path(t, root, q) && path[n] == h;
      PathRecorded(t, order, q, blocks, Replay(path[..n], blocks, p).value, p);
      BodyIsNext(t, order, h, blocks, p);
      RecordConnected(Transactions(path[..n], blocks), Replay(path[..n], blocks, p).value, blocks[h], n, p);
    }
  }

  lemma RecordConnected(txs: seq<Transaction>, view: CoinSet, block: Block, next: nat, p: Params)
    requires Recorded(txs, view, next, p) && IsNext(block, next, p) && Numberable(p) && Connect(block, view, p).Ok?
    ensures Recorded(txs + block.transactions, Connect(block, view, p).value.view, next + 1, p)
  {
    hide Recorded, Numberable, BlockVerdict, ApplyAll, CoinbaseVerdict;
    var all := block.transactions;
    assert all[..|all|] == all;
    RecordBlock(txs, view, block, next, p, |all|);
  }

  /** In every reachable state the coins are those of a history in which no txid comes twice. */
  lemma ChainRecorded(t: Tree, order: seq<Hash256>, chain: seq<Hash256>, view: CoinSet, blocks: Bodies, undos: Undos,
                      p: Params)
    requires Consistent(t, order, chain, view, blocks, undos, p) && Numberable(p)
    ensures Recorded(Transactions(chain, blocks), view, |chain|, p)
  {
    hide IndexInvariant, StoreKeyed, StoreSound, Recorded, Numberable, HashCommits, Replay, Path, UndosMatch;
    PathRecorded(t, order, chain[|chain| - 1], blocks, view, p);
  }

  /** In every reachable state, a block that passed on its own and is for the next height is never refused for
      creating an outpoint that is still unspent. */
  lemma NothingCreatedTwice(t: Tree, order: seq<Hash256>, chain: seq<Hash256>, view: CoinSet, blocks: Bodies,
                            undos: Undos, block: Block, p: Params)
    requires Consistent(t, order, chain, view, blocks, undos, p) && Numberable(p) && AuthoriseOwnCodes(p)
    requires IsNext(block, |chain|, p)
    ensures Connect(block, view, p) != Err(TxCreatesExistingOutpoint)
  {
    hide Consistent, Recorded, IsNext, Connect, Numberable;
    ChainRecorded(t, order, chain, view, blocks, undos, p);
    ConnectNeverRecreates(Transactions(chain, blocks), view, block, |chain|, p);
  }
}
