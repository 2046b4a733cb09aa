/** The unspent outputs of a chain, said outright: what its blocks created and can be spent, less what its
    blocks spent, each coin dated by the block it came in; and no coinbase spent before its time. */
module Ledger {
  import opened ChainSpec
  import opened ConnectSpec
  import opened HeaderRules
  import opened History
  import opened IndexTree
  import Maturity
  import opened Primitives
  import opened Validation

  /** The transactions of each block, by height. Genesis, at height 0, is seeded and not connected. */
  type Books = seq<seq<Transaction>>

  ghost function BooksOf(chain: seq<Hash256>, blocks: Bodies): Books {
    seq(|chain|, m requires 0 <= m < |chain| =>
      if m > 0 && chain[m] in blocks then blocks[chain[m]].transactions else [])
  }

  ghost predicate Has(b: Books, m: int, k: int) {
    0 <= m < |b| && 0 <= k < |b[m]|
  }

  /** Transaction `k` of block `m` creates the outpoint, and its output is one that can be spent. */
  ghost predicate Makes(b: Books, m: int, k: int, o: OutPoint, p: Params) {
    && Has(b, m, k) && p.txid(b[m][k]) == o.txid && o.index < |b[m][k].outputs|
    && b[m][k].outputs[o.index].lock.version != 0
  }

  /** Transaction `k` of block `m` names the outpoint as an input. */
  ghost predicate Uses(b: Books, m: int, k: int, o: OutPoint) {
    Has(b, m, k) && !b[m][k].IsCoinbase() && o in InputSet(b[m][k])
  }

  ghost predicate Used(b: Books, o: OutPoint) {
    exists m, k :: Uses(b, m, k, o)
  }

  ghost predicate MadeOn(b: Books, o: OutPoint, p: Params) {
    exists m, k :: Makes(b, m, k, o, p)
  }

  /** The coin is the output its outpoint names, with the height of its block and whether that was a coinbase. */
  ghost predicate IsCoinOf(b: Books, m: int, k: int, o: OutPoint, coin: Coin) {
    Has(b, m, k) && o.index < |b[m][k].outputs| && coin == Coin(b[m][k].outputs[o.index], m, k == 0)
  }

  /** Unspent is created and not spent, and a coin is the output it names with its block's height. */
  ghost predicate Balanced(b: Books, view: CoinSet, p: Params) {
    && (forall o :: o in view <==> MadeOn(b, o, p) && !Used(b, o))
    && (forall m, k, o :: Makes(b, m, k, o, p) && o in view ==> IsCoinOf(b, m, k, o, view[o]))
  }

  /** A coinbase is spent no sooner than the maturity after the block it came in. */
  ghost predicate Aged(b: Books, p: Params) {
    forall m, n, k, o :: Makes(b, m, 0, o, p) && Uses(b, n, k, o) ==> m + p.coinbaseMaturity <= n
  }

  // --- The books as one list ---

  ghost function Flat(b: Books): seq<Transaction> {
    if b == [] then [] else Flat(b[..|b| - 1]) + b[|b| - 1]
  }

  lemma {:induction false} FlatHas(b: Books, m: int, k: int)
    requires Has(b, m, k)
    ensures b[m][k] in Flat(b)
  {
    var n := |b| - 1;
    if m < n {
      assert b[..n][m] == b[m];
      FlatHas(b[..n], m, k);
    }
  }

  lemma {:induction false} FlatOf(chain: seq<Hash256>, blocks: Bodies)
    requires chain != []
    ensures Flat(BooksOf(chain, blocks)) == Transactions(chain, blocks)
    decreases |chain|
  {
    var b, n := BooksOf(chain, blocks), |chain| - 1;
    if n == 0 {
      assert b[..0] == [] && b[0] == [];
    } else {
      FlatOf(chain[..n], blocks);
      assert b[..n] == BooksOf(chain[..n], blocks);
    }
  }

  lemma FlatMore(b: Books, tx: Transaction)
    requires b != []
    ensures var n := |b| - 1; Flat(b[n := b[n] + [tx]]) == Flat(b) + [tx]
  {
    var n := |b| - 1;
    assert b[n := b[n] + [tx]][..n] == b[..n];
  }

  // --- One transaction more ---

  lemma HasMore(b: Books, tx: Transaction, m: int, k: int)
    requires b != []
    ensures var n := |b| - 1;
            var b' := b[n := b[n] + [tx]];
            && (Has(b', m, k) <==> Has(b, m, k) || (m == n && k == |b[n]|))
            && (Has(b, m, k) ==> b'[m][k] == b[m][k])
            && b'[n][|b[n]|] == tx
  {
  }

  /** Nothing on the books has the arrival's txid, and nothing it creates was ever spent. */
  lemma NewToTheBooks(b: Books, view: CoinSet, next: nat, tx: Transaction, p: Params)
    requires Recorded(Flat(b), view, next, p) && Arrives(tx, view, next, p) && TxidCommits(p)
    ensures forall m, k :: Has(b, m, k) ==> p.txid(b[m][k]) != p.txid(tx)
    ensures forall m, k, o :: Uses(b, m, k, o) ==> o !in view && o.txid != p.txid(tx)
    ensures forall o :: o in view ==> o.txid != p.txid(tx)
  {
    hide Unrepeated, WellFormed, Arrives, TxidCommits, InputSet;
    ArrivesNew(Flat(b), view, next, tx, p);
    forall m, k | Has(b, m, k)
      ensures p.txid(b[m][k]) != p.txid(tx)
      ensures forall o :: Uses(b, m, k, o) ==> o !in view && o.txid != p.txid(tx)
    {
      FlatHas(b, m, k);
    }
    forall o | o in view ensures o.txid != p.txid(tx) {
      assert Produced(Flat(b), o, view[o].output, p);
    }
  }

  lemma MakesMore(b: Books, tx: Transaction, o: OutPoint, p: Params)
    requires b != []
    ensures var n := |b| - 1;
            var b' := b[n := b[n] + [tx]];
            && (forall m, k :: Makes(b', m, k, o, p)
                  <==> Makes(b, m, k, o, p) || (m == n && k == |b[n]| && Makes(b', n, k, o, p)))
            && (forall m, k :: Uses(b', m, k, o) <==> Uses(b, m, k, o) || (m == n && k == |b[n]| && Uses(b', n, k, o)))
            && (Uses(b', n, |b[n]|, o) <==> o in Takes(tx))
            && (Makes(b', n, |b[n]|, o, p) <==>
                  p.txid(tx) == o.txid && o.index < |tx.outputs| && tx.outputs[o.index].lock.version != 0)
            && (Used(b', o) <==> Used(b, o) || o in Takes(tx))
            && (MadeOn(b', o, p) <==> MadeOn(b, o, p) || Makes(b', n, |b[n]|, o, p))
  {
    hide InputSet;
    var n := |b| - 1;
    var b' := b[n := b[n] + [tx]];
    forall m, k
      ensures Makes(b', m, k, o, p) <==> Makes(b, m, k, o, p) || (m == n && k == |b[n]| && Makes(b', n, k, o, p))
      ensures Uses(b', m, k, o) <==> Uses(b, m, k, o) || (m == n && k == |b[n]| && Uses(b', n, k, o))
    {
      HasMore(b, tx, m, k);
    }
    HasMore(b, tx, n, |b[n]|);
  }

  lemma MadeMeans(tx: Transaction, height: nat, first: bool, o: OutPoint, p: Params)
    requires |tx.outputs| <= UINT32_LIMIT && (tx.IsCoinbase() <==> first)
    ensures var made := Made(tx, height, p);
            && (o in made <==> o.txid == p.txid(tx) && o.index < |tx.outputs| && tx.outputs[o.index].lock.version != 0)
            && (o in made ==> made[o] == Coin(tx.outputs[o.index], height, first))
  {
    CreatedHas(p.txid(tx), tx.outputs, height, tx.IsCoinbase());
  }

  lemma BalancedMore(b: Books, view: CoinSet, next: nat, tx: Transaction, p: Params)
    requires b != [] && Balanced(b, view, p) && Recorded(Flat(b), view, next, p) && Arrives(tx, view, next, p)
    requires TxidCommits(p) && (tx.IsCoinbase() <==> b[|b| - 1] == [])
    ensures var n := |b| - 1;
            Balanced(b[n := b[n] + [tx]], (view - Takes(tx)) + Made(tx, n, p), p)
  {
    hide Recorded, TxidCommits, Made, InputSet, Takes, Makes, Uses, Used, MadeOn, IsCoinOf;
    var n := |b| - 1;
    var j := |b[n]|;
    var b', after := b[n := b[n] + [tx]], (view - Takes(tx)) + Made(tx, n, p);
    forall o
      ensures o in after <==> MadeOn(b', o, p) && !Used(b', o)
      ensures forall m, k :: Makes(b', m, k, o, p) && o in after ==> IsCoinOf(b', m, k, o, after[o])
    {
      BalancedAt(b, view, next, tx, o, p);
    }
  }

  lemma BalancedAt(b: Books, view: CoinSet, next: nat, tx: Transaction, o: OutPoint, p: Params)
    requires b != [] && Balanced(b, view, p) && Recorded(Flat(b), view, next, p) && Arrives(tx, view, next, p)
    requires TxidCommits(p) && (tx.IsCoinbase() <==> b[|b| - 1] == [])
    ensures var n := |b| - 1;
            var b', after := b[n := b[n] + [tx]], (view - Takes(tx)) + Made(tx, n, p);
            && (o in after <==> MadeOn(b', o, p) && !Used(b', o))
            && forall m, k :: Makes(b', m, k, o, p) && o in after ==> IsCoinOf(b', m, k, o, after[o])
  {
    hide Recorded, TxidCommits, Made, InputSet, Takes;
    var n := |b| - 1;
    NewToTheBooks(b, view, next, tx, p);
    MakesMore(b, tx, o, p);
    MadeMeans(tx, n, b[n] == [], o, p);
    forall m, k ensures Has(b, m, k) ==> b[n := b[n] + [tx]][m][k] == b[m][k] {
      HasMore(b, tx, m, k);
    }
  }

  lemma AgedMore(b: Books, view: CoinSet, next: nat, tx: Transaction, p: Params)
    requires b != [] && Balanced(b, view, p) && Aged(b, p) && Recorded(Flat(b), view, next, p)
    requires Arrives(tx, view, next, p) && TxidCommits(p)
    requires forall o :: o in Takes(tx) ==> !Maturity.TooYoung(view[o], |b| - 1, p)
    ensures var n := |b| - 1; Aged(b[n := b[n] + [tx]], p)
  {
    hide Recorded, TxidCommits, InputSet, Takes;
    var n := |b| - 1;
    var b' := b[n := b[n] + [tx]];
    NewToTheBooks(b, view, next, tx, p);
    forall m, i, k, o | Makes(b', m, 0, o, p) && Uses(b', i, k, o) ensures m + p.coinbaseMaturity <= i {
      AgedAt(b, view, tx, m, i, k, o, p);
    }
  }

  lemma AgedAt(b: Books, view: CoinSet, tx: Transaction, m: int, i: int, k: int, o: OutPoint, p: Params)
    requires b != [] && Balanced(b, view, p) && Aged(b, p) && Takes(tx) <= view.Keys
    requires forall o :: o in Takes(tx) ==> !Maturity.TooYoung(view[o], |b| - 1, p)
    requires forall m, k, o :: Uses(b, m, k, o) ==> o !in view && o.txid != p.txid(tx)
    requires forall o :: o in view ==> o.txid != p.txid(tx)
    requires var n := |b| - 1;
             var b' := b[n := b[n] + [tx]];
             Makes(b', m, 0, o, p) && Uses(b', i, k, o)
    ensures m + p.coinbaseMaturity <= i
  {
    hide InputSet, Takes;
    MakesMore(b, tx, o, p);
    if !Uses(b, i, k, o) {
      assert Makes(b, m, 0, o, p) && IsCoinOf(b, m, 0, o, view[o]);
    }
  }

  // --- One block more, and every chain ---

  ghost predicate Kept(b: Books, view: CoinSet, next: nat, p: Params) {
    Balanced(b, view, p) && Aged(b, p) && Recorded(Flat(b), view, next, p)
  }

  lemma KeptOpens(b: Books, view: CoinSet, p: Params)
    requires Kept(b, view, |b|, p)
    ensures Kept(b + [[]], view, |b|, p)
  {
    hide Recorded, InputSet;
    var b' := b + [[]];
    assert b'[..|b|] == b && Flat(b) + [] == Flat(b);
    assert Flat(b') == Flat(b);
    forall m, k ensures Has(b', m, k) <==> Has(b, m, k) ensures Has(b, m, k) ==> b'[m][k] == b[m][k] {
    }
    forall o ensures o in view <==> MadeOn(b', o, p) && !Used(b', o) {
      SameEntries(b, b', o, p);
    }
    forall m, k, o | Makes(b', m, k, o, p) && o in view ensures IsCoinOf(b', m, k, o, view[o]) {
      assert Makes(b, m, k, o, p) && IsCoinOf(b, m, k, o, view[o]);
    }
    forall m, i, k, o | Makes(b', m, 0, o, p) && Uses(b', i, k, o) ensures m + p.coinbaseMaturity <= i {
      assert Makes(b, m, 0, o, p) && Uses(b, i, k, o);
    }
  }

  lemma SameEntries(b: Books, b': Books, o: OutPoint, p: Params)
    requires forall m, k :: Has(b', m, k) <==> Has(b, m, k)
    requires forall m, k :: Has(b, m, k) ==> Has(b', m, k) && b'[m][k] == b[m][k]
    ensures (Used(b', o) <==> Used(b, o)) && (MadeOn(b', o, p) <==> MadeOn(b, o, p))
  {
    hide InputSet;
    forall m, k
      ensures Makes(b', m, k, o, p) <==> Makes(b, m, k, o, p)
      ensures Uses(b', m, k, o) <==> Uses(b, m, k, o)
    {
      assert Has(b', m, k) <==> Has(b, m, k);
    }
  }

  lemma {:induction false} KeptBlock(b: Books, view: CoinSet, block: Block, p: Params, k: nat)
    requires Kept(b, view, |b|, p) && IsNext(block, |b|, p) && Numberable(p) && k <= |block.transactions|
    requires ApplyAll(view, block.transactions[..k], |b|, p).Ok?
    ensures Kept(b + [block.transactions[..k]], ApplyAll(view, block.transactions[..k], |b|, p).value.view,
                 if k == 0 then |b| else |b| + 1, p)
  {
    hide Kept, IsNext, ApplyAll, Made, Takes, InputSet, ShapeVerdict, Created;
    var all, n := block.transactions, |b|;
    if k == 0 {
      assert all[..0] == [];
      NothingApplied(view, n, p);
      KeptOpens(b, view, p);
    } else {
      assert all[..k][..k - 1] == all[..k - 1] && all[..k][k - 1] == all[k - 1];
      StepView(view, all[..k], n, p);
      Maturity.WithdrawnIsOld(view, all[..k], n, p);
      KeptBlock(b, view, block, p, k - 1);
      var prior := ApplyAll(view, all[..k - 1], n, p).value.view;
      TurnArrives(block, n, prior, k - 1, p);
      KeptMore(b + [all[..k - 1]], prior, if k == 1 then n else n + 1, all[k - 1], n + 1, p);
      assert all[..k - 1] + [all[k - 1]] == all[..k];
      assert (b + [all[..k - 1]])[n := all[..k]] == b + [all[..k]];
    }
  }

  lemma KeptMore(b: Books, view: CoinSet, next: nat, tx: Transaction, next': nat, p: Params)
    requires b != [] && Kept(b, view, next, p) && Arrives(tx, view, next, p) && Numberable(p)
    requires ShapeVerdict(tx, p).Accepted? && next <= next' && (tx.IsCoinbase() ==> tx.inputs[0].sequence < next')
    requires tx.IsCoinbase() <==> b[|b| - 1] == []
    requires forall o :: o in Takes(tx) ==> !Maturity.TooYoung(view[o], |b| - 1, p)
    ensures var n := |b| - 1;
            Kept(b[n := b[n] + [tx]], (view - Takes(tx)) + Made(tx, n, p), next', p)
  {
    hide Recorded, Balanced, Aged, Made, Takes, ShapeVerdict, TxidCommits;
    var n := |b| - 1;
    BalancedMore(b, view, next, tx, p);
    AgedMore(b, view, next, tx, p);
    RecordOne(Flat(b), view, next, tx, n, next', p);
    FlatMore(b, tx);
  }

  lemma KeptConnected(b: Books, view: CoinSet, block: Block, p: Params)
    requires Kept(b, view, |b|, p) && IsNext(block, |b|, p) && Numberable(p) && Connect(block, view, p).Ok?
    ensures Kept(b + [block.transactions], Connect(block, view, p).value.view, |b| + 1, p)
  {
    hide Kept, Numberable, BlockVerdict, ApplyAll, CoinbaseVerdict;
    var all := block.transactions;
    assert all[..|all|] == all;
    KeptBlock(b, view, block, p, |all|);
  }

  lemma NothingKept(p: Params)
    ensures Kept([[]], map[], 1, p)
  {
    var b: Books := [[]];
    assert b[..0] == [] && Flat(b) == [];
  }

  /** Along every path whose blocks replay, active or not. */
  lemma {:induction false} PathBalanced(t: Tree, order: seq<Hash256>, h: Hash256, blocks: Bodies, view: CoinSet,
                                        p: Params)
    requires IndexInvariant(t, p.hash(p.genesis), order, p) && p.genesis.height == 0 && HashCommits(p) && Numberable(p)
    requires StoreKeyed(t, blocks, p) && StoreSound(blocks, p) && TreeAdmitted(t, p) && h in t
    requires Linked(t, p.hash(p.genesis)) && Replay(Path(t, p.hash(p.genesis), h), blocks, p) == Some(view)
    ensures var path := Path(t, p.hash(p.genesis), h);
            Kept(BooksOf(path, blocks), view, |path|, p)
    decreases t[h].sequence
  {
    hide IndexInvariant, StoreKeyed, StoreSound, TreeAdmitted, Kept, IsNext, Numberable, HashCommits, Connect;
    var root, path := p.hash(p.genesis), Path(t, p.hash(p.genesis), h);
    if h == root {
      NothingKept(p);
      assert BooksOf(path, blocks) == [[]];
    } else {
      var q, n := t[h].parent.value, |path| - 1;
      assert path[..n] == Path(t, root, q) && path[n] == h;
      PathBalanced(t, order, q, blocks, Replay(path[..n], blocks, p).value, p);
      BodyIsNext(t, order, h, blocks, p);
      KeptConnected(BooksOf(path[..n], blocks), Replay(path[..n], blocks, p).value, blocks[h], p);
      assert BooksOf(path, blocks) == BooksOf(path[..n], blocks) + [blocks[h].transactions];
    }
  }

  /** In every reachable state an outpoint is unspent if and only if some block of the active chain created it
      with an output that can be spent and no block of it spent it; the coin there carries that output and that
      block's height; and no coinbase was spent less than the maturity after its block. */
  lemma UnspentExactly(t: Tree, order: seq<Hash256>, chain: seq<Hash256>, view: CoinSet, blocks: Bodies, undos: Undos,
                       p: Params)
    requires Consistent(t, order, chain, view, blocks, undos, p) && Numberable(p)
    ensures Balanced(BooksOf(chain, blocks), view, p) && Aged(BooksOf(chain, blocks), p)
  {
    hide IndexInvariant, StoreKeyed, StoreSound, TreeAdmitted, Balanced, Aged, Recorded, Numberable, HashCommits;
    hide Replay, Path, UndosMatch;
    PathBalanced(t, order, chain[|chain| - 1], blocks, view, p);
  }
}
