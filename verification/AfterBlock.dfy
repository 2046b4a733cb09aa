/** Connecting a block and clearing the pool for it leaves a pool whose every entry holds on the new coins,
    at the next height. */
module PoolAfterBlock {
  import opened BlockTemplate
  import opened ConnectSpec
  import opened PoolAcceptance
  import opened PoolMinable
  import opened PoolRemoval
  import opened PoolSpec
  import opened Primitives
  import opened Reachability
  import opened Validation

  // --- The coins a connected block leaves ---

  /** Once a coin is there it stays, unless one of the later transactions spends it. */
  lemma {:induction false} Persists(view: CoinSet, txs: seq<Transaction>, height: nat, p: Params, k: nat, o: OutPoint)
    requires k <= |txs| && ApplyAll(view, txs, height, p).Ok? && ApplyAll(view, txs[..k], height, p).Ok?
    requires o in ApplyAll(view, txs[..k], height, p).value.view
    requires forall i :: k <= i < |txs| ==> o !in Withdrawn(txs, i)
    ensures var after := ApplyAll(view, txs, height, p).value.view;
            o in after && after[o] == ApplyAll(view, txs[..k], height, p).value.view[o]
    decreases |txs|
  {
    hide ApplyAll, Created;
    if k == |txs| {
      assert txs[..k] == txs;
    } else {
      var n := |txs| - 1;
      StepView(view, txs, height, p);
      assert txs[..n][..k] == txs[..k];
      forall i | k <= i < n ensures o !in Withdrawn(txs[..n], i) {
        assert Withdrawn(txs[..n], i) == Withdrawn(txs, i);
      }
      Persists(view, txs[..n], height, p, k, o);
    }
  }

  /** Every coin there was there before or was created by one of the transactions. */
  lemma {:induction false} Originates(view: CoinSet, txs: seq<Transaction>, height: nat, p: Params, o: OutPoint)
    requires ApplyAll(view, txs, height, p).Ok? && o in ApplyAll(view, txs, height, p).value.view
    ensures o in view || exists i :: 0 <= i < |txs| && p.txid(txs[i]) == o.txid
    decreases |txs|
  {
    hide Created;
    if txs != [] {
      var n := |txs| - 1;
      StepView(view, txs, height, p);
      CreatedUnder(p.txid(txs[n]), txs[n].outputs, height, n == 0);
      if o in ApplyAll(view, txs[..n], height, p).value.view {
        Originates(view, txs[..n], height, p, o);
        if i :| 0 <= i < |txs[..n]| && p.txid(txs[..n][i]) == o.txid {
          assert p.txid(txs[i]) == o.txid;
        }
      }
    }
  }

  /** The coins afterwards, as far as an outpoint the block did not spend can tell. */
  lemma Unspent(block: Block, base: CoinSet, p: Params, o: OutPoint)
    requires Connect(block, base, p).Ok? && forall i :: 1 <= i < |block.transactions| ==>
               o !in InputSet(block.transactions[i])
    ensures var after := Connect(block, base, p).value.view;
            && (o in base ==> o in after && after[o] == base[o])
            && (o in after ==>
                  o in base || exists i :: 0 <= i < |block.transactions| && p.txid(block.transactions[i]) == o.txid)
  {
    hide ApplyAll, InputSet, CoinbaseVerdict;
    var txs, height := block.transactions, block.header.height;
    NothingApplied(base, height, p);
    assert txs[..0] == [];
    if o in base {
      Persists(base, txs, height, p, 0, o);
    }
    if o in Connect(block, base, p).value.view {
      Originates(base, txs, height, p, o);
    }
  }

  /** An output the block created, can be spent, and was not spent in the block, is on the chain. */
  lemma NewlyOnChain(block: Block, base: CoinSet, p: Params, i: nat, o: OutPoint)
    requires Connect(block, base, p).Ok? && 1 <= i < |block.transactions|
    requires var tx := block.transactions[i];
             o.txid == p.txid(tx) && o.index < |tx.outputs| <= UINT32_LIMIT && IsStored(tx.outputs[o.index])
    requires forall j :: 1 <= j < |block.transactions| ==> o !in InputSet(block.transactions[j])
    ensures var after := Connect(block, base, p).value.view;
            o in after && after[o] == Coin(block.transactions[i].outputs[o.index], block.header.height, false)
  {
    hide ApplyAll, InputSet, CoinbaseVerdict, Created;
    var txs, height := block.transactions, block.header.height;
    ApplyPrefix(base, txs, height, p, i + 1);
    StepView(base, txs[..i + 1], height, p);
    assert txs[..i + 1][..i] == txs[..i];
    CreatedHas(p.txid(txs[i]), txs[i].outputs, height, false);
    Persists(base, txs, height, p, i + 1, o);
  }

  // --- What the pool sees ---

  /** What an entry that does not conflict spends, the block did not. */
  lemma NotSpentByBlock(block: Block, base: CoinSet, e: PoolEntry, o: OutPoint, p: Params)
    requires Connect(block, base, p).Ok? && Spends(e.tx, o) && !ConflictsWith(block, e)
    ensures forall i :: 1 <= i < |block.transactions| ==> o !in InputSet(block.transactions[i])
  {
    hide ApplyAll, CoinbaseVerdict;
    OnlyFirstIsCoinbase(base, block.transactions, block.header.height, p);
    forall i | 1 <= i < |block.transactions| ensures o !in InputSet(block.transactions[i]) {
      InputSetMeans(block.transactions[i], o);
    }
  }

  /** A pool in good standing, and a block that connects where it stands. */
  ghost predicate Settled(s: Pool, block: Block, base: CoinSet, rank: map<Hash256, nat>, p: Params) {
    && ValidPool(s, rank, p) && AllHold(s, base, block.header.height, p) && SoundRules(p) && Connect(block, base, p).Ok?
    && AdmitsBlock(block, p)
  }

  /** What is left neither conflicts nor is confirmed. */
  lemma LeftAlone(s: Pool, block: Block, w: Hash256, p: Params)
    requires w in s.nodes && w !in ForBlock(s, block, p)
    ensures !Confirms(block, s.nodes[w].entry, p) && !ConflictsWith(block, s.nodes[w].entry)
  {
    hide Confirms, ConflictsWith, Without, Reach;
    var s1 := Without(s, ConfirmedBy(s, block, p));
    WithoutMembers(s, ConfirmedBy(s, block, p));
    ReachesSelf(Down(s1.nodes), w);
  }

  /** A parent the block did not confirm stays with its child. */
  lemma ParentStays(s: Pool, block: Block, w: Hash256, q: Hash256, p: Params)
    requires LinksValid(s.nodes) && w in s.nodes && w !in ForBlock(s, block, p)
    requires q in s.nodes && q in s.nodes[w].parents && !Confirms(block, s.nodes[q].entry, p)
    ensures q !in ForBlock(s, block, p)
  {
    hide Confirms, ConflictsWith, Reach, Undone, Closed;
    var confirmed := ConfirmedBy(s, block, p);
    var s1 := Without(s, confirmed);
    WithoutLinks(s.nodes, confirmed);
    assert w in Down(s.nodes)[q] <==> q in Up(s.nodes)[w];
    UndonePassesDown(s1, block, q, w);
  }

  lemma UndonePassesDown(s: Pool, block: Block, q: Hash256, w: Hash256)
    requires LinksValid(s.nodes) && q in s.nodes && w in s.nodes[q].children
    ensures q in Undone(s, block) ==> w in Undone(s, block)
  {
    hide ConflictsWith, Reach;
    if q in Undone(s, block) {
      var c :| c in s.nodes && ConflictsWith(block, s.nodes[c].entry) && q in Reach(Down(s.nodes), c);
      ReachIsStable(Down(s.nodes), c);
      assert Down(s.nodes)[q] <= Reach(Down(s.nodes), c);
    }
  }

  /** The same coin as before, or one that differs only in the height a coin of the pool is taken to have. */
  predicate SameButAge(before: Coin, after: Coin) {
    after.output == before.output && (after.isCoinbase ==> after == before)
  }

  /** Each input of an entry that is left resolves on the new coins and in the pool that is left. */
  lemma InputAfter(s: Pool, block: Block, base: CoinSet, rank: map<Hash256, nat>, p: Params, w: Hash256, i: nat)
    requires Settled(s, block, base, rank, p) && w in s.nodes && w !in ForBlock(s, block, p)
    requires i < |s.nodes[w].entry.tx.inputs|
    ensures var o, after := s.nodes[w].entry.tx.inputs[i].outpoint, Connect(block, base, p).value.view;
            var before, now := ResolveOne(s, base, o, block.header.height),
                               ResolveOne(Without(s, ForBlock(s, block, p)), after, o, block.header.height + 1);
            before.Some? && now.Some? && SameButAge(before.value, now.value)
  {
    hide Connect, ForBlock, Confirms, ConflictsWith, AllHold, SoundRules, WithinLimits, Ranked, Justified, LinksValid;
    hide SpentByExact, EntriesOk;
    hide ByTxidExact, ResolveOne, Without;
    var e, h := s.nodes[w].entry, block.header.height;
    var o, after, s' := e.tx.inputs[i].outpoint, Connect(block, base, p).value.view, Without(s, ForBlock(s, block, p));
    LeftAlone(s, block, w, p);
    InputIsSpent(e.tx, i);
    NotSpentByBlock(block, base, e, o, p);
    Unspent(block, base, p, o);
    if o in base {
      ResolvesOnChain(s, base, o, h);
      ResolvesOnChain(s', after, o, h + 1);
    } else {
      var q := WaitsOnParent(s, base, w, h, p, i);
      if Confirms(block, s.nodes[q].entry, p) {
        var j := ConfirmedAt(s, block, base, q, rank, p);
        NewlyOnChain(block, base, p, j, o);
        ResolvesOnChain(s', after, o, h + 1);
      } else {
        ParentStays(s, block, w, q, p);
        NotConfirmedNotThere(s, block, after, q, o, p);
        ResolvesInPool(s, ForBlock(s, block, p), after, q, o, h + 1);
      }
    }
  }

  lemma InputIsSpent(tx: Transaction, i: nat)
    requires i < |tx.inputs|
    ensures Spends(tx, tx.inputs[i].outpoint)
  {
  }

  lemma NotConfirmedNotThere(s: Pool, block: Block, after: CoinSet, q: Hash256, o: OutPoint, p: Params)
    requires q in s.nodes && s.nodes[q].entry.txid == o.txid && !Confirms(block, s.nodes[q].entry, p)
    requires o in after ==> exists i :: 0 <= i < |block.transactions| && p.txid(block.transactions[i]) == o.txid
    ensures o !in after
  {
  }

  lemma ResolvesInPool(s: Pool, gone: set<Hash256>, base: CoinSet, q: Hash256, o: OutPoint, height: nat)
    requires ByTxidExact(s) && q in s.nodes && q !in gone && s.nodes[q].entry.txid == o.txid
    requires o !in base && o.index < |s.nodes[q].entry.tx.outputs|
    ensures ResolveOne(Without(s, gone), base, o, height)
         == Some(Coin(s.nodes[q].entry.tx.outputs[o.index], height, false))
  {
    assert o.txid in s.byTxid && s.byTxid[o.txid] == q;
  }

  /** The copy the block holds has the same effects, and is not its coinbase. */
  lemma ConfirmedAt(s: Pool, block: Block, base: CoinSet, q: Hash256, rank: map<Hash256, nat>, p: Params)
    returns (j: nat)
    requires Settled(s, block, base, rank, p) && q in s.nodes && Confirms(block, s.nodes[q].entry, p)
    ensures 1 <= j < |block.transactions|
    ensures var tx := block.transactions[j];
            && p.txid(tx) == s.nodes[q].entry.txid && tx.outputs == s.nodes[q].entry.tx.outputs
            && |tx.outputs| <= UINT32_LIMIT
  {
    hide AllHold, LinksValid, WithinLimits, Ranked, Justified, SpentByExact, ByTxidExact, ApplyAll, CoinbaseVerdict;
    var e := s.nodes[q].entry;
    j :| 0 <= j < |block.transactions| && p.txid(block.transactions[j]) == e.txid;
    assert EntryOk(q, e, p);
    assert block.transactions[j].inputs == e.tx.inputs && block.transactions[j].outputs == e.tx.outputs;
    OnlyFirstIsCoinbase(base, block.transactions, block.header.height, p);
  }

  // --- The rules, one block later ---

  lemma {:induction false} ResolveAll(s: Pool, base: CoinSet, inputs: seq<TxInput>, height: nat)
    requires forall i :: 0 <= i < |inputs| ==> ResolveOne(s, base, inputs[i].outpoint, height).Some?
    ensures Resolve(s, base, inputs, height).Some?
  {
    hide ResolveOne;
    if inputs != [] {
      ResolveAll(s, base, inputs[..|inputs| - 1], height);
    }
  }

  /** A spend that passes keeps passing as coins age. */
  lemma VerdictCarries(tx: Transaction, before: seq<Coin>, after: seq<Coin>, height: nat, p: Params)
    requires InputsVerdict(tx, before, height, p).Ok? && |after| == |before|
    requires forall i :: 0 <= i < |before| ==> SameButAge(before[i], after[i])
    ensures InputsVerdict(tx, after, height + 1, p) == InputsVerdict(tx, before, height, p)
  {
    hide PayableOutputs;
    assert Outputs(after) == Outputs(before);
    SumCoinsIsSumOfOutputs(before);
    SumCoinsIsSumOfOutputs(after);
    forall i | 0 <= i < |after| ensures Mature(after[i], height + 1, p) {
      assert Mature(before[i], height, p);
    }
  }

  lemma EntryHoldsAfter(s: Pool, block: Block, base: CoinSet, rank: map<Hash256, nat>, p: Params, w: Hash256)
    requires Settled(s, block, base, rank, p) && w in s.nodes && w !in ForBlock(s, block, p)
    ensures Holds(Without(s, ForBlock(s, block, p)), Connect(block, base, p).value.view, s.nodes[w].entry.tx,
                  block.header.height + 1, p)
  {
    hide Connect, ForBlock, Without, ResolveOne, ValidPool, SoundRules, FullyLinked, InputsVerdict, Resolve;
    var tx, h := s.nodes[w].entry.tx, block.header.height;
    var after, s' := Connect(block, base, p).value.view, Without(s, ForBlock(s, block, p));
    assert Holds(s, base, tx, h, p);
    var before := Resolve(s, base, tx.inputs, h).value;
    forall i | 0 <= i < |tx.inputs|
      ensures var o := tx.inputs[i].outpoint;
              ResolveOne(s', after, o, h + 1).Some? && SameButAge(before[i], ResolveOne(s', after, o, h + 1).value)
    {
      InputAfter(s, block, base, rank, p, w, i);
      ResolveAt(s, base, tx.inputs, h, i);
    }
    ResolveAll(s', after, tx.inputs, h + 1);
    var now := Resolve(s', after, tx.inputs, h + 1).value;
    forall i | 0 <= i < |tx.inputs| ensures SameButAge(before[i], now[i]) {
      ResolveAt(s', after, tx.inputs, h + 1, i);
    }
    VerdictCarries(tx, before, now, h, p);
  }

  /** Everything left in the pool after a block can be mined in the next one: its inputs resolve on the coins
      the block left and pass the input rules one height up, and what it waits on is linked to it. */
  lemma BlockLeavesAllHolding(s: Pool, block: Block, base: CoinSet, rank: map<Hash256, nat>, p: Params)
    requires Settled(s, block, base, rank, p)
    ensures AllHold(Without(s, ForBlock(s, block, p)), Connect(block, base, p).value.view, block.header.height + 1, p)
  {
    hide Connect, ForBlock, ValidPool, SoundRules, Holds, Without, NamesUnconfirmed;
    var after, gone := Connect(block, base, p).value.view, ForBlock(s, block, p);
    var s' := Without(s, gone);
    WithoutMembers(s, gone);
    forall w | w in s'.nodes ensures Holds(s', after, s'.nodes[w].entry.tx, block.header.height + 1, p) {
      EntryHoldsAfter(s, block, base, rank, p, w);
    }
    forall w, q | w in s'.nodes && q in s'.nodes
                  && NamesUnconfirmed(s'.nodes[w].entry.tx, s'.nodes[q].entry.txid, after)
      ensures q in s'.nodes[w].parents
    {
      StillWaits(s, block, base, p, w, s.nodes[q].entry.txid);
      WithoutParents(s, gone, w, q);
    }
  }

  /** What an entry that is left waits on now, it waited on before. */
  lemma StillWaits(s: Pool, block: Block, base: CoinSet, p: Params, w: Hash256, txid: Hash256)
    requires Connect(block, base, p).Ok? && w in s.nodes && w !in ForBlock(s, block, p)
    requires NamesUnconfirmed(s.nodes[w].entry.tx, txid, Connect(block, base, p).value.view)
    ensures NamesUnconfirmed(s.nodes[w].entry.tx, txid, base)
  {
    hide Connect, ForBlock, Confirms, ConflictsWith;
    var e, after := s.nodes[w].entry, Connect(block, base, p).value.view;
    var i :| 0 <= i < |e.tx.inputs| && e.tx.inputs[i].outpoint.txid == txid && e.tx.inputs[i].outpoint !in after;
    LeftAlone(s, block, w, p);
    InputIsSpent(e.tx, i);
    NotSpentByBlock(block, base, e, e.tx.inputs[i].outpoint, p);
    Unspent(block, base, p, e.tx.inputs[i].outpoint);
  }

  lemma WithoutParents(s: Pool, gone: set<Hash256>, w: Hash256, q: Hash256)
    requires w in s.nodes && w !in gone && q !in gone && q in s.nodes[w].parents
    ensures w in Without(s, gone).nodes && q in Without(s, gone).nodes[w].parents
  {
  }
}
