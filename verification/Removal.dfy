/** What the pool looks like after entries leave it, and after the chain under it moves. */
module PoolRemoval {
  import opened PoolSpec
  import opened Primitives
  import opened Reachability
  import opened Validation

  /** `n` with `w` struck from the children of `ps` and the parents of `cs`. */
  function Detach(n: Nodes, w: Hash256, ps: set<Hash256>, cs: set<Hash256>): Nodes {
    map a | a in n ::
      n[a].(children := if a in ps then n[a].children - {w} else n[a].children,
            parents := if a in cs then n[a].parents - {w} else n[a].parents)
  }

  /** Striking an entry from its own parents and children strikes it from everywhere. */
  lemma DetachIsExact(n: Nodes, w: Hash256)
    requires LinksValid(n) && w in n
    ensures Detach(n, w, n[w].parents, n[w].children) - {w} == NodesWithout(n, {w})
  {
    var x, y := Detach(n, w, n[w].parents, n[w].children) - {w}, NodesWithout(n, {w});
    forall a | a in x ensures x[a] == y[a] {
      assert w in Down(n)[a] <==> a in Up(n)[w];
      assert a in Down(n)[w] <==> w in Up(n)[a];
    }
  }

  // --- Cleaning up after the chain moved ---

  ghost predicate Confirms(block: Block, e: PoolEntry, p: Params) {
    exists i :: 0 <= i < |block.transactions| && p.txid(block.transactions[i]) == e.txid
  }

  /** The entry spends an outpoint a transaction of the block, its coinbase apart, spent. */
  ghost predicate ConflictsWith(block: Block, e: PoolEntry) {
    exists i, j :: 0 <= i < |block.transactions| && !block.transactions[i].IsCoinbase()
                   && 0 <= j < |block.transactions[i].inputs|
                   && Spends(e.tx, block.transactions[i].inputs[j].outpoint)
  }

  predicate SpentBefore(tx: Transaction, k: nat, o: OutPoint)
    requires k <= |tx.inputs|
  {
    exists i :: 0 <= i < k && tx.inputs[i].outpoint == o
  }

  /** `spentBy` with what `w` spends by its first `k` inputs taken out. */
  function Dropped(spentBy: map<OutPoint, Hash256>, tx: Transaction, k: nat, w: Hash256): map<OutPoint, Hash256>
    requires k <= |tx.inputs|
  {
    map o | o in spentBy && !(spentBy[o] == w && SpentBefore(tx, k, o)) :: spentBy[o]
  }

  lemma DroppedNext(spentBy: map<OutPoint, Hash256>, tx: Transaction, k: nat, w: Hash256)
    requires k < |tx.inputs|
    ensures var m, o := Dropped(spentBy, tx, k, w), tx.inputs[k].outpoint;
            Dropped(spentBy, tx, k + 1, w) == if o in m && m[o] == w then m - {o} else m
  {
  }

  lemma DroppedAll(s: Pool, e: PoolEntry, w: Hash256)
    requires SpentByExact(s) && w in s.nodes && s.nodes[w].entry == e
    ensures Dropped(s.spentBy, e.tx, |e.tx.inputs|, w) == Without(s, {w}).spentBy
  {
    forall o | o in s.spentBy && s.spentBy[o] == w ensures SpentBefore(e.tx, |e.tx.inputs|, o) {
      assert Spends(e.tx, o);
    }
  }

  lemma WithoutNodes(s: Pool, gone: set<Hash256>)
    ensures Without(s, gone).nodes == NodesWithout(s.nodes, gone)
  {
  }

  lemma BoundedWithout(n: Nodes, gone: set<Hash256>, rank: map<Hash256, nat>, top: nat)
    requires RankBounded(n, rank, top)
    ensures RankBounded(NodesWithout(n, gone), rank, top)
  {
  }

  lemma WithoutAbsent(s: Pool, w: Hash256)
    requires LinksValid(s.nodes) && SpentByExact(s) && ByTxidExact(s) && w !in s.nodes
    ensures Without(s, {w}) == s
  {
    hide Spends;
    NodesWithoutAbsent(s.nodes, w);
    forall o | o in s.spentBy ensures s.spentBy[o] != w {
    }
    forall t | t in s.byTxid ensures s.byTxid[t] != w {
    }
    assert Without(s, {w}).spentBy == s.spentBy && Without(s, {w}).byTxid == s.byTxid;
  }

  lemma NodesWithoutAbsent(n: Nodes, w: Hash256)
    requires LinksValid(n) && w !in n
    ensures NodesWithout(n, {w}) == n
  {
    var x := NodesWithout(n, {w});
    forall a | a in n ensures x[a] == n[a] {
      assert Down(n)[a] <= Down(n).Keys && Up(n)[a] <= Up(n).Keys;
    }
    assert x == n;
  }

  lemma SumOneMore(n: Nodes, s: set<Hash256>, x: Hash256)
    requires x !in s
    ensures FeeOf(n, s + {x}) == FeeOf(n, s) + if x in n then n[x].entry.fee else 0
    ensures WeightOf(n, s + {x}) == WeightOf(n, s) + if x in n then n[x].entry.weight else 0
  {
    hide SumOver;
    var a, b := Only(n, s), Only(n, s + {x});
    if x in n {
      assert Fees(b) - {x} == Fees(a) && Weights(b) - {x} == Weights(a);
      SumWithout(Fees(b), x);
      SumWithout(Weights(b), x);
    } else {
      assert a == b;
    }
  }

  lemma {:induction false} ResolvePrefixFails(s: Pool, base: CoinSet, inputs: seq<TxInput>, k: nat, height: nat)
    requires k <= |inputs| && Resolve(s, base, inputs[..k], height).None?
    ensures Resolve(s, base, inputs, height).None?
    decreases |inputs|
  {
    if k == |inputs| {
      assert inputs[..k] == inputs;
    } else {
      assert inputs[..|inputs| - 1][..k] == inputs[..k];
      ResolvePrefixFails(s, base, inputs[..|inputs| - 1], k, height);
    }
  }

  lemma HoldsUnfolds(s: Pool, base: CoinSet, tx: Transaction, height: nat, p: Params)
    ensures Holds(s, base, tx, height, p) <==>
              Resolve(s, base, tx.inputs, height).Some?
              && InputsVerdict(tx, Resolve(s, base, tx.inputs, height).value, height, p).Ok?
  {
  }

  /** Part way through the sweep: what has gone fell, took its descendants along, and includes every
      visited entry that does not hold. */
  ghost predicate Swept(s: Pool, gone: set<Hash256>, base: CoinSet, height: nat, visited: seq<Hash256>, p: Params) {
    && gone <= s.nodes.Keys
    && (FullyLinked(s.nodes, base) ==>
          && Stable(Down(s.nodes), gone)
          && gone <= Fallen(s, base, height, p)
          && forall x :: x in visited && x in s.nodes && x !in gone ==> Holds(s, base, s.nodes[x].entry.tx, height, p))
  }

  lemma SweepStarts(s: Pool, base: CoinSet, height: nat, candidates: seq<Hash256>, p: Params)
    ensures Swept(s, {}, base, height, candidates[..0], p)
  {
  }

  lemma SweepSkips(s: Pool, gone: set<Hash256>, base: CoinSet, height: nat, visited: seq<Hash256>, w: Hash256,
                   p: Params)
    requires Swept(s, gone, base, height, visited, p) && w !in Without(s, gone).nodes
    ensures Swept(s, gone, base, height, visited + [w], p)
  {
    assert w in s.nodes ==> w in gone;
  }

  /** One entry judged against the pool as it stands: it holds there exactly if it held at the start, and
      if it does not, it goes with everything under it. */
  lemma SweepJudges(s: Pool, gone: set<Hash256>, base: CoinSet, height: nat, visited: seq<Hash256>, w: Hash256,
                    rank: map<Hash256, nat>, p: Params)
    requires ValidPool(s, rank, p)
    requires Swept(s, gone, base, height, visited, p) && w in Without(s, gone).nodes
    ensures var s1 := Without(s, gone);
            var more := Reach(Down(s1.nodes), w);
            && gone !! more
            && (Holds(s1, base, s1.nodes[w].entry.tx, height, p) ==> Swept(s, gone, base, height, visited + [w], p))
            && (!Holds(s1, base, s1.nodes[w].entry.tx, height, p) ==>
                  Swept(s, gone + more, base, height, visited + [w], p))
  {
    hide Holds, Stable, Reach, WithinLimits, Ranked, Justified, EntriesOk, SpentByExact, LinksValid, ByTxidExact;
    hide FullyLinked, Fallen;
    DownWithout(s.nodes, gone);
    MinusShrinks(Down(s.nodes), gone, w);
    ReachKnown(Down(s.nodes), w);
    if FullyLinked(s.nodes, base) {
      HoldsSurvives(s, gone, base, w, height, p);
      LinkedSweep(s, gone, base, height, w, p);
    }
  }

  /** Everything under a fallen entry falls, and what has fallen stays closed under descent. */
  lemma LinkedSweep(s: Pool, gone: set<Hash256>, base: CoinSet, height: nat, w: Hash256, p: Params)
    requires LinksValid(s.nodes) && w in s.nodes && w !in gone
    requires Stable(Down(s.nodes), gone) && gone <= Fallen(s, base, height, p)
    ensures var more := Reach(Minus(Down(s.nodes), gone), w);
            && w in more && Stable(Down(s.nodes), gone + more)
            && (!Holds(s, base, s.nodes[w].entry.tx, height, p) ==> gone + more <= Fallen(s, base, height, p))
  {
    hide Holds;
    MinusStable(Down(s.nodes), gone, w);
    var r := Reach(Down(s.nodes), w);
    ReachIsStable(Down(s.nodes), w);
    ReachesSelf(Down(s.nodes), w);
    assert Stable(Down(s.nodes), gone + (r - gone)) by {
      forall b | b in gone + (r - gone) && b in Down(s.nodes) ensures Down(s.nodes)[b] <= gone + (r - gone) {
        assert b !in gone ==> Down(s.nodes)[b] <= r;
      }
    }
  }

  lemma SweepEnds(s: Pool, gone: set<Hash256>, base: CoinSet, height: nat, candidates: seq<Hash256>,
                  rank: map<Hash256, nat>, p: Params)
    requires ValidPool(s, rank, p)
    requires Swept(s, gone, base, height, candidates, p) && forall x :: x in s.nodes ==> x in candidates
    ensures FullyLinked(s.nodes, base) ==>
              && gone == Fallen(s, base, height, p)
              && var s1 := Without(s, gone);
                 forall w :: w in s1.nodes ==> Holds(s1, base, s1.nodes[w].entry.tx, height, p)
  {
    hide Holds, WithinLimits, Ranked, Justified, EntriesOk, SpentByExact;
    if FullyLinked(s.nodes, base) {
      forall w | w in Fallen(s, base, height, p) ensures w in gone {
        var x :| x in s.nodes && !Holds(s, base, s.nodes[x].entry.tx, height, p) && w in Reach(Down(s.nodes), x);
        assert x in gone;
        ReachIsLeast(Down(s.nodes), x, gone);
      }
      forall w | w in Without(s, gone).nodes ensures Holds(Without(s, gone), base, s.nodes[w].entry.tx, height, p) {
        HoldsSurvives(s, gone, base, w, height, p);
      }
    }
  }

  ghost predicate ConfirmsBefore(block: Block, k: nat, e: PoolEntry, p: Params)
    requires k <= |block.transactions|
  {
    exists i :: 0 <= i < k && p.txid(block.transactions[i]) == e.txid
  }

  lemma ConfirmsNext(block: Block, k: nat, p: Params)
    requires k < |block.transactions|
    ensures forall e: PoolEntry :: ConfirmsBefore(block, k + 1, e, p)
              <==> ConfirmsBefore(block, k, e, p) || p.txid(block.transactions[k]) == e.txid
  {
    forall e: PoolEntry
      ensures ConfirmsBefore(block, k + 1, e, p)
         <==> ConfirmsBefore(block, k, e, p) || p.txid(block.transactions[k]) == e.txid
    {
    }
  }

  /** After some entries left, the txid index still finds exactly the one that is left. */
  lemma ByTxidAfter(s: Pool, gone: set<Hash256>, txid: Hash256, rank: map<Hash256, nat>, p: Params)
    requires ValidPool(s, rank, p)
    ensures var index := Without(s, gone).byTxid;
            && (txid in index ==> index[txid] in s.nodes && index[txid] !in gone
                                  && s.nodes[index[txid]].entry.txid == txid)
            && forall w :: w in s.nodes && w !in gone && s.nodes[w].entry.txid == txid ==>
                 txid in index && index[txid] == w
  {
    hide LinksValid, WithinLimits, Ranked, Justified, EntriesOk, SpentByExact;
    forall w | w in s.nodes && w !in gone && s.nodes[w].entry.txid == txid
      ensures txid in s.byTxid && s.byTxid[txid] == w
    {
    }
  }

  ghost predicate SpendsAny(tx: Transaction, inputs: seq<TxInput>, k: nat)
    requires k <= |inputs|
  {
    exists i :: 0 <= i < k && Spends(tx, inputs[i].outpoint)
  }

  lemma SpendsNext(inputs: seq<TxInput>, k: nat)
    requires k < |inputs|
    ensures forall tx: Transaction :: SpendsAny(tx, inputs, k + 1)
              <==> SpendsAny(tx, inputs, k) || Spends(tx, inputs[k].outpoint)
  {
    forall tx: Transaction
      ensures SpendsAny(tx, inputs, k + 1) <==> SpendsAny(tx, inputs, k) || Spends(tx, inputs[k].outpoint)
    {
    }
  }

  lemma SpenderAfter(s: Pool, gone: set<Hash256>, o: OutPoint, rank: map<Hash256, nat>, p: Params)
    requires ValidPool(s, rank, p)
    ensures var index := Without(s, gone).spentBy;
            && (o in index ==> index[o] in s.nodes && index[o] !in gone && Spends(s.nodes[index[o]].entry.tx, o))
            && forall w :: w in s.nodes && w !in gone && Spends(s.nodes[w].entry.tx, o) ==> o in index && index[o] == w
  {
    hide LinksValid, WithinLimits, Ranked, Justified, EntriesOk, ByTxidExact, Spends;
    forall w | w in s.nodes && w !in gone && Spends(s.nodes[w].entry.tx, o)
      ensures o in s.spentBy && s.spentBy[o] == w
    {
    }
  }

  /** What falls with a spender in the pool as it stands fell under it in the pool as it was. */
  lemma SpenderFalls(s: Pool, gone: set<Hash256>, spender: Hash256, rank: map<Hash256, nat>, p: Params)
    requires ValidPool(s, rank, p) && spender in s.nodes && spender !in gone
    ensures var more := Reach(Down(Without(s, gone).nodes), spender);
            && spender in Without(s, gone).nodes && spender in more
            && more !! gone && more <= s.nodes.Keys && more <= Reach(Down(s.nodes), spender)
  {
    hide LinksValid, WithinLimits, Ranked, Justified, EntriesOk, ByTxidExact, SpentByExact, Reach;
    DownWithout(s.nodes, gone);
    MinusShrinks(Down(s.nodes), gone, spender);
    ReachKnown(Down(s.nodes), spender);
    ReachesSelf(Down(Without(s, gone).nodes), spender);
  }

  lemma WithoutMembers(s: Pool, gone: set<Hash256>)
    ensures forall w :: w in Without(s, gone).nodes <==> w in s.nodes && w !in gone
    ensures forall w :: w in Without(s, gone).nodes ==> Without(s, gone).nodes[w].entry == s.nodes[w].entry
  {
  }

  /** The entry descends from one that spends one of the first `k` of these outpoints. */
  ghost predicate Under(s: Pool, inputs: seq<TxInput>, k: nat, w: Hash256)
    requires k <= |inputs|
  {
    exists c :: c in s.nodes && SpendsAny(s.nodes[c].entry.tx, inputs, k) && w in Reach(Down(s.nodes), c)
  }

  /** What has gone spent one of the first `k` outpoints or descends from what did, took all its
      descendants along, and nothing that is left spends one. */
  ghost predicate Evicted(s: Pool, gone: set<Hash256>, inputs: seq<TxInput>, k: nat)
    requires k <= |inputs|
  {
    && gone <= s.nodes.Keys && Stable(Down(s.nodes), gone)
    && (forall w :: w in gone ==> Under(s, inputs, k, w))
    && (forall w :: w in s.nodes && w !in gone ==> !SpendsAny(s.nodes[w].entry.tx, inputs, k))
  }

  lemma EvictStart(s: Pool, inputs: seq<TxInput>)
    ensures Evicted(s, {}, inputs, 0)
  {
  }

  lemma EvictedKnown(s: Pool, gone: set<Hash256>, inputs: seq<TxInput>, k: nat)
    requires k <= |inputs| && Evicted(s, gone, inputs, k)
    ensures gone <= s.nodes.Keys && Stable(Down(s.nodes), gone)
  {
  }

  /** Taking everything under `c` along keeps what is gone closed under descent. */
  lemma StableGrowsBy(s: Pool, gone: set<Hash256>, c: Hash256, rank: map<Hash256, nat>, p: Params)
    requires ValidPool(s, rank, p) && Stable(Down(s.nodes), gone) && c in s.nodes && c !in gone
    ensures Stable(Down(s.nodes), gone + Reach(Down(Without(s, gone).nodes), c))
  {
    hide Reach, WithinLimits, Ranked, Justified, EntriesOk, SpentByExact, ByTxidExact;
    var d := Down(s.nodes);
    DownWithout(s.nodes, gone);
    MinusStable(d, gone, c);
    ReachIsStable(d, c);
    StableUnion(d, gone, Reach(d, c));
    assert gone + (Reach(d, c) - gone) == gone + Reach(d, c);
  }

  lemma StableUnion(l: Links, a: set<Hash256>, b: set<Hash256>)
    requires Stable(l, a) && Stable(l, b)
    ensures Stable(l, a + b)
  {
  }

  /** Nobody left spends the next outpoint. */
  lemma EvictNobody(s: Pool, gone: set<Hash256>, inputs: seq<TxInput>, k: nat)
    requires k < |inputs| && Evicted(s, gone, inputs, k)
    requires forall w :: w in s.nodes && w !in gone ==> !Spends(s.nodes[w].entry.tx, inputs[k].outpoint)
    ensures Evicted(s, gone, inputs, k + 1)
  {
    hide Reach, Spends, SpendsAny, Stable;
    SpendsNext(inputs, k);
    forall w | w in gone ensures Under(s, inputs, k + 1, w) {
      assert Under(s, inputs, k, w);
    }
  }

  /** The only one left that spends the next outpoint goes, with what is under it. */
  lemma EvictOne(s: Pool, gone: set<Hash256>, more: set<Hash256>, c: Hash256, inputs: seq<TxInput>, k: nat)
    requires k < |inputs| && Evicted(s, gone, inputs, k)
    requires c in s.nodes && c in more && more <= s.nodes.Keys && more <= Reach(Down(s.nodes), c)
    requires Stable(Down(s.nodes), gone + more)
    requires Spends(s.nodes[c].entry.tx, inputs[k].outpoint)
    requires forall w :: w in s.nodes && w !in gone && Spends(s.nodes[w].entry.tx, inputs[k].outpoint) ==> w == c
    ensures Evicted(s, gone + more, inputs, k + 1)
  {
    hide Reach, Spends, SpendsAny, Stable;
    SpendsNext(inputs, k);
    forall w | w in gone + more ensures Under(s, inputs, k + 1, w) {
      if w in gone {
        assert Under(s, inputs, k, w);
      } else {
        assert SpendsAny(s.nodes[c].entry.tx, inputs, k + 1);
      }
    }
  }

  lemma EvictStep(s: Pool, gone: set<Hash256>, inputs: seq<TxInput>, k: nat, rank: map<Hash256, nat>, p: Params)
    requires ValidPool(s, rank, p) && k < |inputs| && Evicted(s, gone, inputs, k)
    ensures var s1, o := Without(s, gone), inputs[k].outpoint;
            if o !in s1.spentBy then Evicted(s, gone, inputs, k + 1)
            else
              var more := Reach(Down(s1.nodes), s1.spentBy[o]);
              s1.spentBy[o] in s1.nodes && more !! gone && Evicted(s, gone + more, inputs, k + 1)
  {
    hide ValidPool, Without, Reach, Spends, Evicted;
    var s1, o := Without(s, gone), inputs[k].outpoint;
    SpenderAfter(s, gone, o, rank, p);
    if o in s1.spentBy {
      var c := s1.spentBy[o];
      SpenderFalls(s, gone, c, rank, p);
      StableGrowsBy(s, gone, c, rank, p) by { EvictedKnown(s, gone, inputs, k); }
      EvictOne(s, gone, Reach(Down(s1.nodes), c), c, inputs, k);
    } else {
      EvictNobody(s, gone, inputs, k);
    }
  }

  /** The entries the block holds. */
  ghost function ConfirmedBy(s: Pool, block: Block, p: Params): set<Hash256> {
    set w | w in s.nodes && Confirms(block, s.nodes[w].entry, p)
  }

  /** The entries that spend what the block spent, and everything that depends on them. */
  ghost function Undone(s: Pool, block: Block): set<Hash256> {
    set w, c | c in s.nodes && ConflictsWith(block, s.nodes[c].entry) && w in Reach(Down(s.nodes), c) :: w
  }

  /** What a connected block takes out of the pool: what it confirmed, and then what it made impossible. */
  ghost function ForBlock(s: Pool, block: Block, p: Params): set<Hash256> {
    ConfirmedBy(s, block, p) + Undone(Without(s, ConfirmedBy(s, block, p)), block)
  }

  lemma UndoneMeans(s: Pool, block: Block)
    ensures Undone(s, block) <= s.nodes.Keys
    ensures forall w :: w in s.nodes && w !in Undone(s, block) ==> !ConflictsWith(block, s.nodes[w].entry)
  {
    hide ConflictsWith, Reach;
    forall w | w in Undone(s, block) ensures w in s.nodes {
      var c :| c in s.nodes && ConflictsWith(block, s.nodes[c].entry) && w in Reach(Down(s.nodes), c);
      ReachKnown(Down(s.nodes), c);
    }
    forall w | w in s.nodes && w !in Undone(s, block) ensures !ConflictsWith(block, s.nodes[w].entry) {
      ReachesSelf(Down(s.nodes), w);
    }
  }

  lemma ForBlockIs(s: Pool, block: Block, confirmed: set<Hash256>, fallen: set<Hash256>, p: Params)
    requires confirmed == ConfirmedBy(s, block, p) && fallen == Undone(Without(s, confirmed), block)
    ensures ForBlock(s, block, p) == confirmed + fallen && confirmed !! fallen
    ensures |confirmed + fallen| == |confirmed| + |fallen|
    ensures forall w :: w in Without(s, confirmed + fallen).nodes ==>
              !Confirms(block, Without(s, confirmed + fallen).nodes[w].entry, p)
              && !ConflictsWith(block, Without(s, confirmed + fallen).nodes[w].entry)
  {
    hide Confirms, ConflictsWith, Without, Reach, Undone;
    var s1 := Without(s, confirmed);
    WithoutMembers(s, confirmed);
    WithoutMembers(s, confirmed + fallen);
    UndoneMeans(s1, block);
    assert forall w :: w in fallen ==> w in s1.nodes;
    assert confirmed !! fallen;
  }

  lemma SoundAfter(s: Pool, gone: set<Hash256>, rank: map<Hash256, nat>, p: Params)
    requires ValidPool(s, rank, p)
    ensures ValidPool(Without(s, gone), rank, p)
  {
    hide ValidPool;
    WithoutValid(s, gone, rank, p);
  }

  /** Part way: what has fallen is closed under descent and fell rightly, and nothing left spends what the
      first `k` transactions spent. */
  ghost predicate Clearing(block: Block, s: Pool, fallen: set<Hash256>, k: nat)
    requires k <= |block.transactions|
  {
    && fallen <= s.nodes.Keys && Stable(Down(s.nodes), fallen) && fallen <= Undone(s, block)
    && (forall w, i :: w in s.nodes && w !in fallen && 0 <= i < k && !block.transactions[i].IsCoinbase() ==>
          !SpendsAny(s.nodes[w].entry.tx, block.transactions[i].inputs, |block.transactions[i].inputs|))
  }

  lemma ClearingStarts(s: Pool, block: Block)
    ensures Clearing(block, s, {}, 0)
  {
  }

  lemma ClearingCoinbase(block: Block, s: Pool, fallen: set<Hash256>, k: nat)
    requires k < |block.transactions| && block.transactions[k].IsCoinbase() && Clearing(block, s, fallen, k)
    ensures Clearing(block, s, fallen, k + 1)
  {
    hide SpendsAny, Undone, Stable;
  }

  /** What falls under a transaction of the block, in what is left of the pool, is undone by the block. */
  lemma EvictedIsUndone(block: Block, s: Pool, fallen: set<Hash256>, more: set<Hash256>, k: nat)
    requires k < |block.transactions| && !block.transactions[k].IsCoinbase() && fallen <= s.nodes.Keys
    requires Evicted(Without(s, fallen), more, block.transactions[k].inputs, |block.transactions[k].inputs|)
    ensures more <= Undone(s, block)
  {
    hide SpendsAny, Without, Reach, ConflictsWith, Stable;
    var s1, inputs := Without(s, fallen), block.transactions[k].inputs;
    WithoutMembers(s, fallen);
    forall w | w in more ensures w in Undone(s, block) {
      var c :| c in s1.nodes && SpendsAny(s1.nodes[c].entry.tx, inputs, |inputs|) && w in Reach(Down(s1.nodes), c);
      SpendsAnyConflicts(block, k, s.nodes[c].entry);
      ReachShrinks(s, fallen, c);
    }
  }

  lemma ClearingMore(block: Block, s: Pool, fallen: set<Hash256>, more: set<Hash256>, k: nat, rank: map<Hash256, nat>,
                     p: Params)
    requires ValidPool(s, rank, p) && k < |block.transactions| && !block.transactions[k].IsCoinbase()
    requires Clearing(block, s, fallen, k)
    requires Evicted(Without(s, fallen), more, block.transactions[k].inputs, |block.transactions[k].inputs|)
    ensures Clearing(block, s, fallen + more, k + 1) && fallen !! more
  {
    hide SpendsAny, Without, Reach, ConflictsWith, ValidPool, Stable, Undone;
    WithoutMembers(s, fallen);
    EvictedIsUndone(block, s, fallen, more, k);
    StableOnTop(s, fallen, more);
  }

  /** Closed under descent in what was left, closed under descent with what had gone. */
  lemma StableOnTop(s: Pool, gone: set<Hash256>, more: set<Hash256>)
    requires Stable(Down(s.nodes), gone) && Stable(Down(Without(s, gone).nodes), more)
    requires more <= Without(s, gone).nodes.Keys
    ensures Stable(Down(s.nodes), gone + more)
  {
    DownWithout(s.nodes, gone);
    var d := Down(s.nodes);
    forall a | a in gone + more && a in d ensures d[a] <= gone + more {
      if a in more {
        assert Minus(d, gone)[a] <= more;
      }
    }
  }

  lemma ReachShrinks(s: Pool, gone: set<Hash256>, c: Hash256)
    ensures Reach(Down(Without(s, gone).nodes), c) <= Reach(Down(s.nodes), c)
  {
    DownWithout(s.nodes, gone);
    MinusShrinks(Down(s.nodes), gone, c);
  }

  lemma SpendsAnyConflicts(block: Block, k: nat, e: PoolEntry)
    requires k < |block.transactions| && !block.transactions[k].IsCoinbase()
    requires SpendsAny(e.tx, block.transactions[k].inputs, |block.transactions[k].inputs|)
    ensures ConflictsWith(block, e)
  {
    hide Spends;
  }

  /** Whatever conflicts has fallen, and with it all that depends on it. */
  lemma ClearingEnds(block: Block, s: Pool, fallen: set<Hash256>, rank: map<Hash256, nat>, p: Params)
    requires ValidPool(s, rank, p) && Clearing(block, s, fallen, |block.transactions|)
    ensures fallen == Undone(s, block)
  {
    hide Spends, Reach, ConflictsWith, LinksValid, WithinLimits, Ranked, Justified, EntriesOk, SpentByExact;
    hide ByTxidExact;
    forall w | w in Undone(s, block) ensures w in fallen {
      var c :| c in s.nodes && ConflictsWith(block, s.nodes[c].entry) && w in Reach(Down(s.nodes), c);
      ConflictIsSpend(block, s.nodes[c].entry);
      assert c in fallen;
      ReachIsLeast(Down(s.nodes), c, fallen);
    }
  }

  lemma ConflictIsSpend(block: Block, e: PoolEntry)
    requires ConflictsWith(block, e)
    ensures exists i :: 0 <= i < |block.transactions| && !block.transactions[i].IsCoinbase()
                        && SpendsAny(e.tx, block.transactions[i].inputs, |block.transactions[i].inputs|)
  {
    hide Spends;
    var i, j :| 0 <= i < |block.transactions| && !block.transactions[i].IsCoinbase()
                && 0 <= j < |block.transactions[i].inputs| && Spends(e.tx, block.transactions[i].inputs[j].outpoint);
    assert SpendsAny(e.tx, block.transactions[i].inputs, |block.transactions[i].inputs|);
  }
}
