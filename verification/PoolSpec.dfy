/** The mempool as a value: entries, the links between them, and the two indexes over them. */
module PoolSpec {
  import opened Primitives
  import opened Reachability
  import opened Validation

  datatype PoolEntry = PoolEntry(tx: Transaction, txid: Hash256, wtxid: Hash256, fee: int, weight: nat, time: int)

  datatype Node = Node(entry: PoolEntry, parents: set<Hash256>, children: set<Hash256>)

  type Nodes = map<Hash256, Node>

  datatype Pool = Pool(nodes: Nodes, spentBy: map<OutPoint, Hash256>, byTxid: map<Hash256, Hash256>)

  const MAX_MEMPOOL_WEIGHT: nat := 50_000_000
  const MIN_RELAY_FEERATE: nat := 1
  const MAX_MEMPOOL_DESCENDANTS: nat := 25
  const MAX_MEMPOOL_ANCESTORS: nat := 25
  const MAX_REPLACEMENT_EVICTIONS: nat := 100

  // --- Sums ---

  ghost function SumOver(m: map<Hash256, int>): int {
    if m == map[] then 0
    else
      var k :| k in m;
      m[k] + SumOver(m - {k})
  }

  lemma {:induction false} SumWithout(m: map<Hash256, int>, k: Hash256)
    requires k in m
    ensures SumOver(m) == m[k] + SumOver(m - {k})
    decreases |m|
  {
    var j :| j in m && SumOver(m) == m[j] + SumOver(m - {j});
    if j != k {
      SumWithout(m - {j}, k);
      SumWithout(m - {k}, j);
      assert m - {j} - {k} == m - {k} - {j};
    }
  }

  function Weights(n: Nodes): map<Hash256, int> {
    map w | w in n :: n[w].entry.weight
  }

  function Fees(n: Nodes): map<Hash256, int> {
    map w | w in n :: n[w].entry.fee
  }

  /** The part of the pool inside `s`. */
  function Only(n: Nodes, s: set<Hash256>): Nodes {
    map w | w in n && w in s :: n[w]
  }

  ghost function FeeOf(n: Nodes, s: set<Hash256>): int {
    SumOver(Fees(Only(n, s)))
  }

  ghost function WeightOf(n: Nodes, s: set<Hash256>): int {
    SumOver(Weights(Only(n, s)))
  }

  // --- Shape ---

  function Down(n: Nodes): Links {
    map w | w in n :: n[w].children
  }

  function Up(n: Nodes): Links {
    map w | w in n :: n[w].parents
  }

  ghost predicate LinksValid(n: Nodes) {
    Closed(Down(n)) && Closed(Up(n)) && Mirrored(Down(n), Up(n))
  }

  /** Arrival order: a link only ever leads to something that came later. So there is no cycle. */
  ghost predicate Ranked(n: Nodes, rank: map<Hash256, nat>) {
    forall a, b :: a in n && b in n && b in n[a].children ==> a in rank && b in rank && rank[a] < rank[b]
  }

  ghost predicate SpendsFrom(tx: Transaction, txid: Hash256) {
    exists i :: 0 <= i < |tx.inputs| && tx.inputs[i].outpoint.txid == txid
  }

  /** Every link is there because an input names the parent. */
  ghost predicate Justified(n: Nodes) {
    forall w, q :: w in n && q in n[w].parents && q in n ==> SpendsFrom(n[w].entry.tx, n[q].entry.txid)
  }

  ghost predicate EntryOk(w: Hash256, e: PoolEntry, p: Params) {
    && w == e.wtxid == p.wtxid(e.tx)
    && e.txid == p.txid(e.tx)
    && 0 < e.weight == p.weight(e.tx) <= MAX_MEMPOOL_WEIGHT
    && e.weight * MIN_RELAY_FEERATE <= e.fee <= MAX_MONEY
    && ShapeVerdict(e.tx, p).Accepted? && !e.tx.IsCoinbase() && p.admits(e.tx)
  }

  ghost predicate EntriesOk(n: Nodes, p: Params) {
    forall w :: w in n ==> EntryOk(w, n[w].entry, p)
  }

  /** The outpoint index is exactly who spends what, so no two entries spend one outpoint. */
  ghost predicate SpentByExact(s: Pool) {
    forall o, w :: (o in s.spentBy && s.spentBy[o] == w) <==> (w in s.nodes && Spends(s.nodes[w].entry.tx, o))
  }

  /** The txid index is exactly the entries' own txids. */
  ghost predicate ByTxidExact(s: Pool) {
    forall t, w :: (t in s.byTxid && s.byTxid[t] == w) <==> (w in s.nodes && s.nodes[w].entry.txid == t)
  }

  ghost predicate WithinLimits(n: Nodes) {
    forall w :: w in n ==>
      && |Reach(Up(n), w)| <= MAX_MEMPOOL_ANCESTORS + 1
      && |Reach(Down(n), w)| <= MAX_MEMPOOL_DESCENDANTS + 1
  }

  /** What holds of the pool in every reachable state. */
  ghost predicate ValidPool(s: Pool, rank: map<Hash256, nat>, p: Params) {
    && LinksValid(s.nodes)
    && Ranked(s.nodes, rank)
    && Justified(s.nodes)
    && EntriesOk(s.nodes, p)
    && SpentByExact(s)
    && ByTxidExact(s)
    && WithinLimits(s.nodes)
  }

  lemma NoSharedOutpoint(s: Pool, v: Hash256, w: Hash256, o: OutPoint)
    requires SpentByExact(s) && v in s.nodes && w in s.nodes
    requires Spends(s.nodes[v].entry.tx, o) && Spends(s.nodes[w].entry.tx, o)
    ensures v == w
  {
    assert s.spentBy[o] == v;
  }

  // --- Taking entries away ---

  function NodesWithout(n: Nodes, gone: set<Hash256>): Nodes {
    map w | w in n && w !in gone :: n[w].(parents := n[w].parents - gone, children := n[w].children - gone)
  }

  function Without(s: Pool, gone: set<Hash256>): Pool {
    Pool(NodesWithout(s.nodes, gone),
         map o | o in s.spentBy && s.spentBy[o] !in gone :: s.spentBy[o],
         map t | t in s.byTxid && s.byTxid[t] !in gone :: s.byTxid[t])
  }

  lemma WithoutTwice(s: Pool, a: set<Hash256>, b: set<Hash256>)
    ensures Without(Without(s, a), b) == Without(s, a + b)
  {
    var x, y := Without(Without(s, a), b), Without(s, a + b);
    forall w | w in x.nodes ensures x.nodes[w] == y.nodes[w] {
      assert s.nodes[w].parents - a - b == s.nodes[w].parents - (a + b);
      assert s.nodes[w].children - a - b == s.nodes[w].children - (a + b);
    }
    assert x.nodes == y.nodes && x.spentBy == y.spentBy && x.byTxid == y.byTxid;
  }

  lemma WithoutNothing(s: Pool)
    ensures Without(s, {}) == s
  {
    var x := Without(s, {});
    forall w | w in s.nodes ensures x.nodes[w] == s.nodes[w] {
      assert s.nodes[w].parents - {} == s.nodes[w].parents && s.nodes[w].children - {} == s.nodes[w].children;
    }
    assert x.nodes == s.nodes && x.spentBy == s.spentBy && x.byTxid == s.byTxid;
  }

  lemma DownWithout(n: Nodes, gone: set<Hash256>)
    ensures Down(NodesWithout(n, gone)) == Minus(Down(n), gone)
    ensures Up(NodesWithout(n, gone)) == Minus(Up(n), gone)
  {
  }

  lemma WithoutLinks(n: Nodes, gone: set<Hash256>)
    requires LinksValid(n)
    ensures LinksValid(NodesWithout(n, gone))
  {
    DownWithout(n, gone);
    var d, u := Down(n), Up(n);
    assert Closed(Minus(d, gone)) && Closed(Minus(u, gone));
    assert Mirrored(Minus(d, gone), Minus(u, gone)) by {
      forall a, b | a in Minus(d, gone) && b in Minus(d, gone)
        ensures b in Minus(d, gone)[a] <==> a in Minus(u, gone)[b]
      {
        assert b in d[a] <==> a in u[b];
      }
    }
  }

  lemma WithoutLimits(n: Nodes, gone: set<Hash256>)
    requires WithinLimits(n)
    ensures WithinLimits(NodesWithout(n, gone))
  {
    hide Reach;
    DownWithout(n, gone);
    forall w | w in NodesWithout(n, gone)
      ensures |Reach(Minus(Up(n), gone), w)| <= MAX_MEMPOOL_ANCESTORS + 1
      ensures |Reach(Minus(Down(n), gone), w)| <= MAX_MEMPOOL_DESCENDANTS + 1
    {
      MinusShrinks(Up(n), gone, w);
      SubsetSize(Reach(Minus(Up(n), gone), w), Reach(Up(n), w));
      MinusShrinks(Down(n), gone, w);
      SubsetSize(Reach(Minus(Down(n), gone), w), Reach(Down(n), w));
    }
  }

  lemma WithoutIndexes(s: Pool, gone: set<Hash256>)
    requires SpentByExact(s) && ByTxidExact(s)
    ensures SpentByExact(Without(s, gone)) && ByTxidExact(Without(s, gone))
  {
  }

  /** Removing any entries at all leaves a valid pool. */
  lemma WithoutValid(s: Pool, gone: set<Hash256>, rank: map<Hash256, nat>, p: Params)
    requires ValidPool(s, rank, p)
    ensures ValidPool(Without(s, gone), rank, p)
  {
    hide WithinLimits, LinksValid, SpentByExact, ByTxidExact, EntryOk, SpendsFrom;
    WithoutLinks(s.nodes, gone);
    WithoutLimits(s.nodes, gone);
    WithoutIndexes(s, gone);
  }

  // --- Adding an entry ---

  function NodesWith(n: Nodes, w: Hash256, e: PoolEntry, parents: set<Hash256>): Nodes {
    (map a | a in n :: if a in parents then n[a].(children := n[a].children + {w}) else n[a])[w := Node(e, parents, {})]
  }

  /** The pool with a new entry linked under `parents`. */
  function With(s: Pool, w: Hash256, e: PoolEntry, parents: set<Hash256>): Pool {
    Pool(NodesWith(s.nodes, w, e, parents),
         s.spentBy + (map o | o in InputSet(e.tx) :: w),
         s.byTxid[e.txid := w])
  }

  /** Nothing in the pool touches what the new entry brings. */
  ghost predicate Vacant(s: Pool, w: Hash256, e: PoolEntry) {
    && w !in s.nodes
    && (forall v :: v in s.nodes ==> s.nodes[v].entry.txid != e.txid)
    && (forall v, o :: v in s.nodes && Spends(s.nodes[v].entry.tx, o) ==> !Spends(e.tx, o))
  }

  lemma WithEntries(n: Nodes, w: Hash256, e: PoolEntry, parents: set<Hash256>)
    ensures var n' := NodesWith(n, w, e, parents);
            && (forall v :: v in n' <==> v == w || v in n)
            && (forall v :: v in n' ==> n'[v].entry == if v == w then e else n[v].entry)
  {
  }

  lemma WithSpentBy(s: Pool, w: Hash256, e: PoolEntry, parents: set<Hash256>)
    requires SpentByExact(s) && Vacant(s, w, e)
    ensures SpentByExact(With(s, w, e, parents))
  {
    hide NodesWith;
    WithEntries(s.nodes, w, e, parents);
    var s' := With(s, w, e, parents);
    forall o, v
      ensures (o in s'.spentBy && s'.spentBy[o] == v) <==> (v in s'.nodes && Spends(s'.nodes[v].entry.tx, o))
    {
      InputSetMeans(e.tx, o);
      assert (o in s.spentBy && s.spentBy[o] == v) <==> (v in s.nodes && Spends(s.nodes[v].entry.tx, o));
      if o in s.spentBy {
        assert Spends(s.nodes[s.spentBy[o]].entry.tx, o);
      }
    }
  }

  lemma WithByTxid(s: Pool, w: Hash256, e: PoolEntry, parents: set<Hash256>)
    requires ByTxidExact(s) && Vacant(s, w, e)
    ensures ByTxidExact(With(s, w, e, parents))
  {
    hide NodesWith;
    WithEntries(s.nodes, w, e, parents);
    var s' := With(s, w, e, parents);
    forall t, v ensures (t in s'.byTxid && s'.byTxid[t] == v) <==> (v in s'.nodes && s'.nodes[v].entry.txid == t) {
      assert (t in s.byTxid && s.byTxid[t] == v) <==> (v in s.nodes && s.nodes[v].entry.txid == t);
    }
  }

  lemma WithLinks(n: Nodes, w: Hash256, e: PoolEntry, parents: set<Hash256>)
    requires LinksValid(n) && w !in n && parents <= n.Keys
    ensures LinksValid(NodesWith(n, w, e, parents))
  {
    var n' := NodesWith(n, w, e, parents);
    var d, u, d', u' := Down(n), Up(n), Down(n'), Up(n');
    forall a | a in n' ensures d'[a] <= d'.Keys && u'[a] <= u'.Keys {
      if a != w {
        assert d[a] <= d.Keys && u[a] <= u.Keys;
      }
    }
    forall a, b | a in d' && b in d' ensures b in d'[a] <==> a in u'[b] {
      if a != w && b != w {
        assert b in d[a] <==> a in u[b];
      } else if a != w {
        assert d[a] <= d.Keys;
      } else if b != w {
        assert u[b] <= u.Keys;
      }
    }
  }

  // --- What the new entry does to reachability ---

  /** Whatever could not reach a parent cannot reach the newcomer; whatever could gains only it. */
  lemma WithDown(n: Nodes, w: Hash256, e: PoolEntry, parents: set<Hash256>, a: Hash256)
    requires LinksValid(n) && w !in n && parents <= n.Keys && a in n
    ensures var r := Reach(Down(n), a);
            Reach(Down(NodesWith(n, w, e, parents)), a) <= if r !! parents then r else r + {w}
  {
    var d, d' := Down(n), Down(NodesWith(n, w, e, parents));
    var r := Reach(d, a);
    ReachIsStable(d, a);
    ReachesSelf(d, a);
    var bound := if r !! parents then r else r + {w};
    forall b | b in bound && b in d' ensures d'[b] <= bound {
      if b != w {
        assert d[b] <= r;
      }
    }
    assert Stable(d', bound);
    ReachIsLeast(d', a, bound);
  }

  lemma WithUp(n: Nodes, w: Hash256, e: PoolEntry, parents: set<Hash256>, a: Hash256)
    requires LinksValid(n) && w !in n && parents <= n.Keys && a in n
    ensures Reach(Up(NodesWith(n, w, e, parents)), a) <= Reach(Up(n), a)
  {
    var u, u' := Up(n), Up(NodesWith(n, w, e, parents));
    ReachIsStable(u, a);
    ReachesSelf(u, a);
    forall b | b in Reach(u, a) && b in u' ensures u'[b] <= Reach(u, a) {
      assert u[b] <= Reach(u, a);
    }
    assert Stable(u', Reach(u, a));
    ReachIsLeast(u', a, Reach(u, a));
  }

  /** The newcomer's ancestors are its parents' ancestors; it has no descendant yet. */
  lemma WithNewcomer(n: Nodes, w: Hash256, e: PoolEntry, parents: set<Hash256>, ancestors: set<Hash256>)
    requires LinksValid(n) && w !in n && parents <= n.Keys
    requires forall q :: q in parents ==> Reach(Up(n), q) <= ancestors
    ensures Reach(Up(NodesWith(n, w, e, parents)), w) <= ancestors + {w}
    ensures Reach(Down(NodesWith(n, w, e, parents)), w) <= {w}
  {
    var n' := NodesWith(n, w, e, parents);
    assert Stable(Down(n'), {w});
    ReachIsLeast(Down(n'), w, {w});
    var u' := Up(n');
    forall x | x in Reach(u', w) ensures x in ancestors + {w} {
      if x != w {
        var q := ReachUnfolds(u', w, x);
        WithUp(n, w, e, parents, q);
      }
    }
  }

  /** Counting the pool as it will be: with the doomed entries gone and the newcomer linked, every entry
      is still within both limits. */
  lemma WithLimits(n: Nodes, w: Hash256, e: PoolEntry, parents: set<Hash256>, ancestors: set<Hash256>)
    requires LinksValid(n) && WithinLimits(n) && w !in n && parents <= n.Keys
    requires forall q :: q in parents ==> Reach(Up(n), q) <= ancestors
    requires |ancestors| <= MAX_MEMPOOL_ANCESTORS
    requires forall a :: a in ancestors && a in n ==> |Reach(Down(n), a)| <= MAX_MEMPOOL_DESCENDANTS
    ensures WithinLimits(NodesWith(n, w, e, parents))
  {
    hide Reach, Closed, Mirrored;
    var n' := NodesWith(n, w, e, parents);
    forall a | a in n'
      ensures |Reach(Up(n'), a)| <= MAX_MEMPOOL_ANCESTORS + 1
      ensures |Reach(Down(n'), a)| <= MAX_MEMPOOL_DESCENDANTS + 1
    {
      if a == w {
        WithNewcomer(n, w, e, parents, ancestors);
        SubsetSize(Reach(Up(n'), w), ancestors + {w});
        SubsetSize(Reach(Down(n'), w), {w});
      } else {
        WithUp(n, w, e, parents, a);
        SubsetSize(Reach(Up(n'), a), Reach(Up(n), a));
        WithDownLimit(n, w, e, parents, ancestors, a);
      }
    }
  }

  lemma WithDownLimit(n: Nodes, w: Hash256, e: PoolEntry, parents: set<Hash256>, ancestors: set<Hash256>, a: Hash256)
    requires LinksValid(n) && WithinLimits(n) && w !in n && parents <= n.Keys && a in n
    requires forall q :: q in parents ==> Reach(Up(n), q) <= ancestors
    requires forall b :: b in ancestors && b in n ==> |Reach(Down(n), b)| <= MAX_MEMPOOL_DESCENDANTS
    ensures |Reach(Down(NodesWith(n, w, e, parents)), a)| <= MAX_MEMPOOL_DESCENDANTS + 1
  {
    hide Reach, Closed, Mirrored;
    var r := Reach(Down(n), a);
    WithDown(n, w, e, parents, a);
    if r !! parents {
      SubsetSize(Reach(Down(NodesWith(n, w, e, parents)), a), r);
    } else {
      var q :| q in r && q in parents;
      MirroredReach(Down(n), Up(n), a, q);
      assert a in ancestors;
      SubsetSize(Reach(Down(NodesWith(n, w, e, parents)), a), r + {w});
    }
  }

  /** Every entry has a rank below the next one to be given out. */
  ghost predicate RankBounded(n: Nodes, rank: map<Hash256, nat>, top: nat) {
    forall a :: a in n ==> a in rank && rank[a] < top
  }

  lemma WithRanked(n: Nodes, w: Hash256, e: PoolEntry, parents: set<Hash256>, rank: map<Hash256, nat>, top: nat)
    requires LinksValid(n) && Ranked(n, rank) && RankBounded(n, rank, top) && w !in n && parents <= n.Keys
    ensures Ranked(NodesWith(n, w, e, parents), rank[w := top])
    ensures RankBounded(NodesWith(n, w, e, parents), rank[w := top], top + 1)
  {
    var n' := NodesWith(n, w, e, parents);
    forall a, b | a in n' && b in n' && b in n'[a].children
      ensures rank[w := top][a] < rank[w := top][b]
    {
      assert a in n && Down(n)[a] <= Down(n).Keys;
    }
  }

  lemma WithJustified(n: Nodes, w: Hash256, e: PoolEntry, parents: set<Hash256>)
    requires LinksValid(n) && Justified(n) && w !in n && parents <= n.Keys
    requires forall q :: q in parents ==> SpendsFrom(e.tx, n[q].entry.txid)
    ensures Justified(NodesWith(n, w, e, parents))
  {
    var n' := NodesWith(n, w, e, parents);
    forall v, q | v in n' && q in n'[v].parents && q in n' ensures SpendsFrom(n'[v].entry.tx, n'[q].entry.txid) {
      if v != w {
        assert Up(n)[v] <= Up(n).Keys;
        assert SpendsFrom(n[v].entry.tx, n[q].entry.txid);
      }
    }
  }

  /** A newcomer that keeps the limits leaves a valid pool. */
  lemma WithValid(s: Pool, w: Hash256, e: PoolEntry, parents: set<Hash256>, ancestors: set<Hash256>,
                  rank: map<Hash256, nat>, top: nat, p: Params)
    requires ValidPool(s, rank, p) && RankBounded(s.nodes, rank, top)
    requires Vacant(s, w, e) && EntryOk(w, e, p) && parents <= s.nodes.Keys
    requires forall q :: q in parents ==> SpendsFrom(e.tx, s.nodes[q].entry.txid)
    requires forall q :: q in parents ==> Reach(Up(s.nodes), q) <= ancestors
    requires |ancestors| <= MAX_MEMPOOL_ANCESTORS
    requires forall a :: a in ancestors && a in s.nodes ==> |Reach(Down(s.nodes), a)| <= MAX_MEMPOOL_DESCENDANTS
    ensures ValidPool(With(s, w, e, parents), rank[w := top], p)
    ensures RankBounded(With(s, w, e, parents).nodes, rank[w := top], top + 1)
  {
    hide LinksValid, WithinLimits, SpentByExact, ByTxidExact, Reach, Justified, Ranked, RankBounded;
    WithLinks(s.nodes, w, e, parents);
    WithLimits(s.nodes, w, e, parents, ancestors);
    WithSpentBy(s, w, e, parents);
    WithByTxid(s, w, e, parents);
    WithRanked(s.nodes, w, e, parents, rank, top);
    WithJustified(s.nodes, w, e, parents);
  }

  // --- Totals ---

  lemma SumsWithout(n: Nodes, w: Hash256)
    requires w in n
    ensures SumOver(Weights(NodesWithout(n, {w}))) == SumOver(Weights(n)) - n[w].entry.weight
    ensures SumOver(Fees(NodesWithout(n, {w}))) == SumOver(Fees(n)) - n[w].entry.fee
  {
    assert Weights(NodesWithout(n, {w})) == Weights(n) - {w};
    assert Fees(NodesWithout(n, {w})) == Fees(n) - {w};
    SumWithout(Weights(n), w);
    SumWithout(Fees(n), w);
  }

  lemma SumsWith(n: Nodes, w: Hash256, e: PoolEntry, parents: set<Hash256>)
    requires w !in n
    ensures SumOver(Weights(NodesWith(n, w, e, parents))) == SumOver(Weights(n)) + e.weight
    ensures SumOver(Fees(NodesWith(n, w, e, parents))) == SumOver(Fees(n)) + e.fee
  {
    var n' := NodesWith(n, w, e, parents);
    assert Weights(n') - {w} == Weights(n) && Fees(n') - {w} == Fees(n);
    SumWithout(Weights(n'), w);
    SumWithout(Fees(n'), w);
  }

  lemma {:induction false} SumSplit(m: map<Hash256, int>, gone: set<Hash256>)
    ensures SumOver(m) == SumOver(m - gone) + SumOver(map k | k in m && k in gone :: m[k])
    decreases |gone|
  {
    hide SumOver;
    var inside := map k | k in m && k in gone :: m[k];
    if x :| x in gone {
      var rest := gone - {x};
      var inside' := map k | k in m && k in rest :: m[k];
      SumSplit(m, rest);
      if x in m {
        assert m - gone == (m - rest) - {x} && inside - {x} == inside';
        SumWithout(m - rest, x);
        SumWithout(inside, x);
      } else {
        assert m - gone == m - rest && inside == inside';
      }
    } else {
      assert inside == map[] && m - gone == m;
      SumOfNothing();
    }
  }

  lemma SumOfNothing()
    ensures SumOver(map[]) == 0
  {
  }

  /** What is taken away is taken off the totals. */
  lemma SumsWithoutAll(n: Nodes, gone: set<Hash256>)
    ensures SumOver(Weights(NodesWithout(n, gone))) == SumOver(Weights(n)) - WeightOf(n, gone)
    ensures SumOver(Fees(NodesWithout(n, gone))) == SumOver(Fees(n)) - FeeOf(n, gone)
  {
    hide SumOver;
    SumSplit(Weights(n), gone);
    SumSplit(Fees(n), gone);
    assert Weights(NodesWithout(n, gone)) == Weights(n) - gone && Fees(NodesWithout(n, gone)) == Fees(n) - gone;
    assert Weights(Only(n, gone)) == map k | k in Weights(n) && k in gone :: Weights(n)[k];
    assert Fees(Only(n, gone)) == map k | k in Fees(n) && k in gone :: Fees(n)[k];
  }

  // --- Resolving inputs against the chain and the pool ---

  /** The coin an outpoint names: one unspent on the chain, or an output of an entry of the pool. */
  function ResolveOne(s: Pool, base: CoinSet, o: OutPoint, height: nat): Option<Coin> {
    if o in base then Some(base[o])
    else if o.txid in s.byTxid && s.byTxid[o.txid] in s.nodes
            && o.index < |s.nodes[s.byTxid[o.txid]].entry.tx.outputs|
    then Some(Coin(s.nodes[s.byTxid[o.txid]].entry.tx.outputs[o.index], height, false))
    else None
  }

  function Resolve(s: Pool, base: CoinSet, inputs: seq<TxInput>, height: nat): (r: Option<seq<Coin>>)
    ensures r.Some? ==> |r.value| == |inputs|
  {
    if inputs == [] then Some([])
    else
      var n := |inputs| - 1;
      match Resolve(s, base, inputs[..n], height)
      case None => None
      case Some(coins) =>
        match ResolveOne(s, base, inputs[n].outpoint, height)
        case None => None
        case Some(coin) => Some(coins + [coin])
  }

  /** The transaction's inputs resolve, and pass the rules the next block would apply to them. */
  predicate Holds(s: Pool, base: CoinSet, tx: Transaction, height: nat, p: Params) {
    match Resolve(s, base, tx.inputs, height)
    case None => false
    case Some(spent) => InputsVerdict(tx, spent, height, p).Ok?
  }

  /** An input names the txid, and what it names is not on the chain. */
  ghost predicate NamesUnconfirmed(tx: Transaction, txid: Hash256, base: CoinSet) {
    exists i :: 0 <= i < |tx.inputs| && tx.inputs[i].outpoint.txid == txid && tx.inputs[i].outpoint !in base
  }

  /** Every entry waiting on another entry's outputs is linked to it. */
  ghost predicate FullyLinked(n: Nodes, base: CoinSet) {
    forall w, q :: w in n && q in n && NamesUnconfirmed(n[w].entry.tx, n[q].entry.txid, base) ==> q in n[w].parents
  }

  lemma WithoutFullyLinked(n: Nodes, gone: set<Hash256>, base: CoinSet)
    requires FullyLinked(n, base)
    ensures FullyLinked(NodesWithout(n, gone), base)
  {
  }

  /** Acceptance keeps every name linked exactly when nothing already in the pool waits on the newcomer. */
  lemma WithFullyLinked(n: Nodes, w: Hash256, e: PoolEntry, parents: set<Hash256>, base: CoinSet)
    requires FullyLinked(n, base) && LinksValid(n) && w !in n && parents <= n.Keys
    requires forall q :: q in n ==> (q in parents <==> SpendsFrom(e.tx, n[q].entry.txid))
    ensures FullyLinked(NodesWith(n, w, e, parents), base)
       <==> !NamesUnconfirmed(e.tx, e.txid, base)
            && forall v :: v in n ==> !NamesUnconfirmed(n[v].entry.tx, e.txid, base)
  {
    var n' := NodesWith(n, w, e, parents);
    assert n'[w] == Node(e, parents, {}) && w !in parents;
    forall v | v in n ensures n'[v].parents == n[v].parents && n'[v].entry == n[v].entry && w !in n[v].parents {
      assert Up(n)[v] <= Up(n).Keys;
    }
    forall t | NamesUnconfirmed(e.tx, t, base) ensures SpendsFrom(e.tx, t) {
    }
  }

  /** Removing descendants with their ancestors leaves every other entry's inputs as they were. */
  lemma {:induction false} ResolveSurvives(s: Pool, gone: set<Hash256>, base: CoinSet, tx: Transaction, k: nat,
                                           height: nat)
    requires ByTxidExact(s) && k <= |tx.inputs|
    requires forall q :: q in gone && q in s.nodes ==> !NamesUnconfirmed(tx, s.nodes[q].entry.txid, base)
    ensures Resolve(Without(s, gone), base, tx.inputs[..k], height) == Resolve(s, base, tx.inputs[..k], height)
  {
    hide ByTxidExact;
    if k > 0 {
      ResolveSurvives(s, gone, base, tx, k - 1, height);
      assert tx.inputs[..k][..k - 1] == tx.inputs[..k - 1];
      ResolveOneSurvives(s, gone, base, tx, k - 1, height);
    }
  }

  lemma ResolveOneSurvives(s: Pool, gone: set<Hash256>, base: CoinSet, tx: Transaction, i: nat, height: nat)
    requires ByTxidExact(s) && i < |tx.inputs|
    requires forall q :: q in gone && q in s.nodes ==> !NamesUnconfirmed(tx, s.nodes[q].entry.txid, base)
    ensures var o := tx.inputs[i].outpoint;
            ResolveOne(Without(s, gone), base, o, height) == ResolveOne(s, base, o, height)
  {
    var o := tx.inputs[i].outpoint;
    if o.txid in s.byTxid && o !in base {
      var q := s.byTxid[o.txid];
      assert s.nodes[q].entry.txid == o.txid;
      assert NamesUnconfirmed(tx, o.txid, base);
    }
  }

  /** Judged with the fallen gone, or judged before anything fell: the same verdict. */
  lemma HoldsSurvives(s: Pool, gone: set<Hash256>, base: CoinSet, x: Hash256, height: nat, p: Params)
    requires LinksValid(s.nodes) && ByTxidExact(s) && FullyLinked(s.nodes, base)
    requires Stable(Down(s.nodes), gone) && x in s.nodes && x !in gone
    ensures Holds(Without(s, gone), base, s.nodes[x].entry.tx, height, p)
       <==> Holds(s, base, s.nodes[x].entry.tx, height, p)
  {
    var tx := s.nodes[x].entry.tx;
    forall q | q in gone && q in s.nodes ensures !NamesUnconfirmed(tx, s.nodes[q].entry.txid, base) {
      assert x in Down(s.nodes)[q] <==> q in Up(s.nodes)[x];
      assert Down(s.nodes)[q] <= gone;
    }
    ResolveSurvives(s, gone, base, tx, |tx.inputs|, height);
    assert tx.inputs[..|tx.inputs|] == tx.inputs;
  }

  /** The entries a change of chain brings down: those that no longer hold, with all their descendants. */
  ghost function Fallen(s: Pool, base: CoinSet, height: nat, p: Params): set<Hash256> {
    set w, x | x in s.nodes && !Holds(s, base, s.nodes[x].entry.tx, height, p) && w in Reach(Down(s.nodes), x) :: w
  }
}
