/** What the pool asks of an arrival, and the pool it would leave behind. */
module PoolAcceptance {
  import opened Feerate
  import opened PoolEviction
  import opened PoolRemoval
  import opened PoolSpec
  import opened Primitives
  import opened Reachability
  import opened Validation

  datatype RejectReason =
    | Coinbase
    | AlreadyPresent
    | ConsensusRuleFailed
    | MissingOrSpentInput
    | ZeroWeight
    | FeeBelowRelayMinimum
    | TooManyAncestors
    | TooManyDescendants
    | ConflictFeerateTooLow
    | ConflictFeeTooLow
    | ConflictsTooMany
    | PoolFull

  /** The pool's reason, and the consensus rule behind it when there was one. */
  datatype Rejection = Rejection(reason: RejectReason, rule: Option<ValidationError>)

  // --- The arrival on its own ---

  /** The entry the arrival would become, unless a consensus rule or the relay floor refuses it. */
  function Screen(s: Pool, tx: Transaction, spent: seq<Coin>, height: nat, now: int, p: Params)
    : Result<PoolEntry, Rejection>
  {
    if tx.IsCoinbase() then Err(Rejection(Coinbase, None))
    else if p.wtxid(tx) in s.nodes then Err(Rejection(AlreadyPresent, None))
    else if ShapeVerdict(tx, p).Rejected? then Err(Rejection(ConsensusRuleFailed, Some(ShapeVerdict(tx, p).error)))
    else
      match InputsVerdict(tx, spent, height, p)
      case Err(rule) => Err(Rejection(ConsensusRuleFailed, Some(rule)))
      case Ok(fee) =>
        if p.weight(tx) == 0 then Err(Rejection(ZeroWeight, None))
        else if p.weight(tx) > MAX_MEMPOOL_WEIGHT then Err(Rejection(PoolFull, None))
        else if fee < p.weight(tx) * MIN_RELAY_FEERATE then Err(Rejection(FeeBelowRelayMinimum, None))
        else Ok(PoolEntry(tx, p.txid(tx), p.wtxid(tx), fee, p.weight(tx), now))
  }

  lemma ScreenedOk(s: Pool, tx: Transaction, spent: seq<Coin>, height: nat, now: int, p: Params)
    requires Screen(s, tx, spent, height, now, p).Ok? && p.admits(tx)
    ensures var e := Screen(s, tx, spent, height, now, p).value;
            && e.tx == tx && EntryOk(e.wtxid, e, p) && e.wtxid !in s.nodes && e.fee > 0 && e.time == now
            && InputsVerdict(tx, spent, height, p) == Ok(e.fee)
  {
    hide PayableOutputs;
    InputsConserve(tx, spent, height, p);
  }

  // --- What it would displace ---

  /** The entries spending something the arrival spends. */
  function Direct(s: Pool, tx: Transaction): set<Hash256> {
    set o | o in InputSet(tx) && o in s.spentBy :: s.spentBy[o]
  }

  lemma DirectMeans(s: Pool, tx: Transaction, c: Hash256)
    requires SpentByExact(s)
    ensures c in Direct(s, tx) <==> c in s.nodes && exists o :: Spends(tx, o) && Spends(s.nodes[c].entry.tx, o)
  {
    hide Spends;
    if c in Direct(s, tx) {
      var o :| o in InputSet(tx) && o in s.spentBy && s.spentBy[o] == c;
      InputSetMeans(tx, o);
      assert Spends(s.nodes[c].entry.tx, o);
    }
    if c in s.nodes && exists o :: Spends(tx, o) && Spends(s.nodes[c].entry.tx, o) {
      var o :| Spends(tx, o) && Spends(s.nodes[c].entry.tx, o);
      InputSetMeans(tx, o);
      assert o in s.spentBy && s.spentBy[o] == c;
    }
  }

  /** Those, and everything that depends on them. */
  ghost function Doomed(s: Pool, tx: Transaction): set<Hash256> {
    Below(s.nodes, Direct(s, tx))
  }

  ghost function Below(n: Nodes, from: set<Hash256>): set<Hash256> {
    set c, w | c in from && w in Reach(Down(n), c) :: w
  }

  lemma DoomedStable(s: Pool, tx: Transaction)
    requires LinksValid(s.nodes) && SpentByExact(s)
    ensures Stable(Down(s.nodes), Doomed(s, tx)) && Doomed(s, tx) <= s.nodes.Keys && Direct(s, tx) <= Doomed(s, tx)
  {
    hide Reach;
    var d := Down(s.nodes);
    forall a | a in Doomed(s, tx) && a in d ensures d[a] <= Doomed(s, tx) {
      var c :| c in Direct(s, tx) && a in Reach(d, c);
      ReachIsStable(d, c);
      assert d[a] <= Reach(d, c);
    }
    forall a | a in Doomed(s, tx) ensures a in s.nodes {
      var c :| c in Direct(s, tx) && a in Reach(d, c);
      ReachKnown(d, c);
    }
    forall c | c in Direct(s, tx) ensures c in Doomed(s, tx) {
      DirectMeans(s, tx, c);
      ReachesSelf(d, c);
    }
  }

  ghost predicate Outbids(n: Nodes, e: PoolEntry, c: Hash256) {
    WeightNotNegative(n, Package(n, c));
    CompareRates(e.fee, e.weight, FeeOf(n, Package(n, c)), WeightOf(n, Package(n, c))) > 0
  }

  /** The price of a replacement: a higher rate than each cluster, and more in all than everything it takes. */
  ghost function SwapRefusal(s: Pool, e: PoolEntry): Option<Rejection> {
    if |Doomed(s, e.tx)| > MAX_REPLACEMENT_EVICTIONS then Some(Rejection(ConflictsTooMany, None))
    else if exists c :: c in Direct(s, e.tx) && !Outbids(s.nodes, e, c)
    then Some(Rejection(ConflictFeerateTooLow, None))
    else if Doomed(s, e.tx) != {} && e.fee <= FeeOf(s.nodes, Doomed(s, e.tx))
    then Some(Rejection(ConflictFeeTooLow, None))
    else None
  }

  // --- Where it would sit ---

  /** The entries whose txid an input names. */
  function ParentsOf(s: Pool, tx: Transaction): set<Hash256> {
    set o | o in InputSet(tx) && o.txid in s.byTxid :: s.byTxid[o.txid]
  }

  lemma ParentsMean(s: Pool, tx: Transaction, q: Hash256)
    requires ByTxidExact(s)
    ensures q in ParentsOf(s, tx) <==> q in s.nodes && SpendsFrom(tx, s.nodes[q].entry.txid)
  {
    if q in s.nodes && SpendsFrom(tx, s.nodes[q].entry.txid) {
      var i :| 0 <= i < |tx.inputs| && tx.inputs[i].outpoint.txid == s.nodes[q].entry.txid;
      var o := tx.inputs[i].outpoint;
      assert o in InputSet(tx);
      assert o.txid in s.byTxid && s.byTxid[o.txid] == q;
    }
    if q in ParentsOf(s, tx) {
      var o :| o in InputSet(tx) && o.txid in s.byTxid && s.byTxid[o.txid] == q;
      assert s.nodes[q].entry.txid == o.txid;
    }
  }

  /** Its ancestors, of those that would be left. */
  ghost function Ancestors(s: Pool, tx: Transaction): set<Hash256> {
    Above(s.nodes, ParentsOf(s, tx)) - Doomed(s, tx)
  }

  ghost function Above(n: Nodes, from: set<Hash256>): set<Hash256> {
    set q, a | q in from && a in Reach(Up(n), q) :: a
  }

  /** How many descendants an entry would be left with, the arrival not counted. */
  ghost function Surviving(n: Nodes, doomed: set<Hash256>, a: Hash256): nat {
    |Reach(Down(n), a) - doomed - {a}|
  }

  ghost function PlaceRefusal(s: Pool, tx: Transaction): Option<Rejection> {
    if exists q :: q in ParentsOf(s, tx) && q in Doomed(s, tx)
    then Some(Rejection(MissingOrSpentInput, Some(TxInputMissingOrSpent)))
    else if |Ancestors(s, tx)| > MAX_MEMPOOL_ANCESTORS then Some(Rejection(TooManyAncestors, None))
    else if exists a :: a in Ancestors(s, tx) && Surviving(s.nodes, Doomed(s, tx), a) + 1 > MAX_MEMPOOL_DESCENDANTS
    then Some(Rejection(TooManyDescendants, None))
    else None
  }

  // --- The pool it would leave ---

  ghost function Committed(s: Pool, e: PoolEntry): Pool {
    With(Without(s, Doomed(s, e.tx)), e.wtxid, e, ParentsOf(s, e.tx))
  }

  /** With the displaced gone, nothing left shares an outpoint or a txid with the arrival. */
  lemma CommitVacant(s: Pool, e: PoolEntry, p: Params)
    requires LinksValid(s.nodes) && SpentByExact(s) && EntriesOk(s.nodes, p) && TxidCommits(p)
    requires EntryOk(e.wtxid, e, p) && e.wtxid !in s.nodes
    ensures Vacant(Without(s, Doomed(s, e.tx)), e.wtxid, e)
  {
    hide LinksValid, Doomed, Direct, SpentByExact, Spends;
    DoomedStable(s, e.tx);
    WithoutMembers(s, Doomed(s, e.tx));
    forall v, o | v in s.nodes && v !in Doomed(s, e.tx) && Spends(s.nodes[v].entry.tx, o) ensures !Spends(e.tx, o) {
      DirectMeans(s, e.tx, v);
    }
    forall v | v in s.nodes && v !in Doomed(s, e.tx) ensures s.nodes[v].entry.txid != e.txid {
      DirectMeans(s, e.tx, v);
      SpendsFirst(e.tx);
      if s.nodes[v].entry.txid == e.txid {
        assert s.nodes[v].entry.tx.inputs == e.tx.inputs;
        SpendsFirst(s.nodes[v].entry.tx);
      }
    }
  }

  lemma SpendsFirst(tx: Transaction)
    requires tx.inputs != []
    ensures Spends(tx, tx.inputs[0].outpoint)
  {
  }

  /** Removing the displaced, and only them, is all that changes the ancestors and descendants of the rest. */
  lemma SurvivorsReach(s: Pool, tx: Transaction, a: Hash256)
    requires LinksValid(s.nodes) && SpentByExact(s) && a in s.nodes && a !in Doomed(s, tx)
    ensures var n1 := NodesWithout(s.nodes, Doomed(s, tx));
            && Reach(Down(n1), a) == Reach(Down(s.nodes), a) - Doomed(s, tx)
            && Reach(Up(n1), a) == Reach(Up(s.nodes), a) - Doomed(s, tx)
  {
    hide Reach, Doomed, SpentByExact;
    var doomed := Doomed(s, tx);
    var n1 := NodesWithout(s.nodes, doomed);
    DoomedStable(s, tx);
    DownWithout(s.nodes, doomed);
    MinusStable(Down(s.nodes), doomed, a);
    MinusShrinks(Up(s.nodes), doomed, a);
    WithoutLinks(s.nodes, doomed);
    forall b | b in Reach(Up(s.nodes), a) && b !in doomed ensures b in Reach(Up(n1), a) {
      MirroredReach(Down(s.nodes), Up(s.nodes), b, a);
      ReachKnown(Up(s.nodes), a);
      MinusStable(Down(s.nodes), doomed, b);
      MirroredReach(Down(n1), Up(n1), b, a);
    }
  }

  lemma AncestorsAfter(s: Pool, tx: Transaction)
    requires LinksValid(s.nodes) && SpentByExact(s) && ByTxidExact(s) && ParentsOf(s, tx) !! Doomed(s, tx)
    ensures ParentsOf(s, tx) <= NodesWithout(s.nodes, Doomed(s, tx)).Keys
    ensures Ancestors(s, tx) == Above(NodesWithout(s.nodes, Doomed(s, tx)), ParentsOf(s, tx))
  {
    hide Reach, Doomed, SpentByExact, ByTxidExact, LinksValid, ParentsOf;
    var doomed, n1 := Doomed(s, tx), NodesWithout(s.nodes, Doomed(s, tx));
    forall q | q in ParentsOf(s, tx)
      ensures q in n1 && Reach(Up(n1), q) == Reach(Up(s.nodes), q) - doomed
    {
      ParentsMean(s, tx, q);
      SurvivorsReach(s, tx, q);
    }
    forall a | a in Ancestors(s, tx) ensures a in Above(n1, ParentsOf(s, tx)) {
      var q :| q in ParentsOf(s, tx) && a in Reach(Up(s.nodes), q);
      assert a in Reach(Up(n1), q);
    }
    forall a | a in Above(n1, ParentsOf(s, tx)) ensures a in Ancestors(s, tx) {
      var q :| q in ParentsOf(s, tx) && a in Reach(Up(n1), q);
      assert a in Reach(Up(s.nodes), q);
    }
  }

  lemma SurvivingAfter(s: Pool, tx: Transaction, a: Hash256)
    requires LinksValid(s.nodes) && SpentByExact(s) && a in s.nodes && a !in Doomed(s, tx)
    ensures |Reach(Down(NodesWithout(s.nodes, Doomed(s, tx))), a)| == Surviving(s.nodes, Doomed(s, tx), a) + 1
  {
    hide Reach, Doomed, SpentByExact, LinksValid;
    SurvivorsReach(s, tx, a);
    var r := Reach(Down(s.nodes), a) - Doomed(s, tx);
    ReachesSelf(Down(s.nodes), a);
    assert r == (r - {a}) + {a};
  }

  /** An arrival nothing refuses leaves a valid pool. */
  lemma CommitValid(s: Pool, e: PoolEntry, rank: map<Hash256, nat>, top: nat, p: Params)
    requires ValidPool(s, rank, p) && RankBounded(s.nodes, rank, top) && TxidCommits(p)
    requires EntryOk(e.wtxid, e, p) && e.wtxid !in s.nodes && PlaceRefusal(s, e.tx).None?
    ensures ValidPool(Committed(s, e), rank[e.wtxid := top], p)
    ensures RankBounded(Committed(s, e).nodes, rank[e.wtxid := top], top + 1)
    ensures ParentsOf(s, e.tx) <= Without(s, Doomed(s, e.tx)).nodes.Keys
    ensures e.wtxid !in Without(s, Doomed(s, e.tx)).nodes
  {
    hide LinksValid, SpentByExact, ByTxidExact, WithinLimits, Ranked, Justified, EntriesOk, RankBounded, TxidCommits;
    hide Doomed, Reach, ParentsOf, EntryOk, Vacant, SpendsFrom, With, Without, Above, Surviving;
    var doomed, parents := Doomed(s, e.tx), ParentsOf(s, e.tx);
    var s1 := Without(s, doomed);
    WithoutNodes(s, doomed);
    WithoutMembers(s, doomed);
    WithoutValid(s, doomed, rank, p);
    BoundedWithout(s.nodes, doomed, rank, top);
    CommitVacant(s, e, p);
    assert parents !! doomed;
    AncestorsAfter(s, e.tx);
    forall q | q in parents ensures SpendsFrom(e.tx, s1.nodes[q].entry.txid) {
      ParentsMean(s, e.tx, q);
    }
    forall q | q in parents ensures Reach(Up(s1.nodes), q) <= Ancestors(s, e.tx) {
      AboveHolds(s1.nodes, parents, q);
    }
    forall a | a in Ancestors(s, e.tx) && a in s1.nodes ensures |Reach(Down(s1.nodes), a)| <= MAX_MEMPOOL_DESCENDANTS {
      SurvivingAfter(s, e.tx, a);
    }
    WithValid(s1, e.wtxid, e, parents, Ancestors(s, e.tx), rank, top, p);
  }

  lemma AboveHolds(n: Nodes, from: set<Hash256>, q: Hash256)
    requires q in from
    ensures Reach(Up(n), q) <= Above(n, from)
  {
    hide Reach;
  }

  /** What the newcomer's arrival adds: it has all its parents' ancestors, and is a descendant of each. */
  lemma NewcomerReach(n: Nodes, w: Hash256, e: PoolEntry, parents: set<Hash256>)
    requires LinksValid(n) && w !in n && parents <= n.Keys
    ensures var n' := NodesWith(n, w, e, parents);
            && Above(n, parents) + {w} <= Reach(Up(n'), w)
            && forall a :: a in Above(n, parents) ==> a in n && Reach(Down(n), a) + {w} <= Reach(Down(n'), a)
  {
    hide Reach, LinksValid;
    var n' := NodesWith(n, w, e, parents);
    WithLinks(n, w, e, parents);
    NewcomerLinks(n, w, e, parents);
    ReachesSelf(Up(n'), w);
    forall a | a in Above(n, parents)
      ensures a in n && a in Reach(Up(n'), w) && Reach(Down(n), a) + {w} <= Reach(Down(n'), a)
    {
      var q :| q in parents && a in Reach(Up(n), q);
      ReachKnown(Up(n), q);
      MoreReaches(Up(n), Up(n'), q);
      ReachesLinked(Up(n'), w, q);
      MoreReaches(Down(n), Down(n'), a);
      MirroredValid(n', a, w);
    }
  }

  lemma NewcomerLinks(n: Nodes, w: Hash256, e: PoolEntry, parents: set<Hash256>)
    requires w !in n && parents <= n.Keys
    ensures var n' := NodesWith(n, w, e, parents);
            && Up(n')[w] == parents
            && (forall b :: b in Up(n) ==> b in Up(n') && Up(n)[b] <= Up(n')[b])
            && (forall b :: b in Down(n) ==> b in Down(n') && Down(n)[b] <= Down(n')[b])
  {
  }

  lemma ReachesLinked(l: Links, a: Hash256, b: Hash256)
    requires a in l && b in l && b in l[a] && l[a] <= l.Keys
    ensures forall c :: c in Reach(l, b) ==> c in Reach(l, a)
  {
    forall c | c in Reach(l, b) ensures c in Reach(l, a) {
      var w :| IsWalk(l, w) && w[0] == b && w[|w| - 1] == c;
      assert IsWalk(l, [a] + w) by {
        forall i | 0 <= i < |w| ensures ([a] + w)[i + 1] in l[([a] + w)[i]] {
          if i > 0 {
            assert w[i - 1 + 1] in l[w[i - 1]];
          }
        }
      }
      assert ([a] + w)[|w|] == c;
    }
  }

  lemma MirroredValid(n: Nodes, a: Hash256, b: Hash256)
    requires LinksValid(n)
    ensures b in Reach(Down(n), a) <==> a in Reach(Up(n), b)
  {
    MirroredReach(Down(n), Up(n), a, b);
  }

  /** The counts are exact: an arrival that spends nothing doomed is refused a place exactly when the pool
      it would leave has an entry over one of the limits. */
  lemma PlaceIsExact(s: Pool, e: PoolEntry, rank: map<Hash256, nat>, p: Params)
    requires ValidPool(s, rank, p) && TxidCommits(p) && EntryOk(e.wtxid, e, p) && e.wtxid !in s.nodes
    requires ParentsOf(s, e.tx) !! Doomed(s, e.tx)
    ensures PlaceRefusal(s, e.tx).None? <==> WithinLimits(Committed(s, e).nodes)
  {
    hide LinksValid, SpentByExact, ByTxidExact, Ranked, Justified, EntriesOk, TxidCommits, Ancestors;
    hide Doomed, Reach, ParentsOf, EntryOk, Vacant, SpendsFrom, Above, Surviving, NodesWith, NodesWithout, WithinLimits;
    var doomed, parents := Doomed(s, e.tx), ParentsOf(s, e.tx);
    var n1 := NodesWithout(s.nodes, doomed);
    var n' := NodesWith(n1, e.wtxid, e, parents);
    AncestorsAfter(s, e.tx);
    WithoutLinks(s.nodes, doomed);
    WithoutLimits(s.nodes, doomed);
    WithoutMembers(s, doomed);
    forall a | a in Ancestors(s, e.tx)
      ensures a in n1 && |Reach(Down(n1), a)| == Surviving(s.nodes, doomed, a) + 1
    {
      AncestorSurvives(s, e.tx, a);
      SurvivingAfter(s, e.tx, a);
    }
    if WithinLimits(n') {
      PlaceNeeded(n1, e.wtxid, e, parents);
    }
    if PlaceRefusal(s, e.tx).None? {
      forall q | q in parents ensures Reach(Up(n1), q) <= Ancestors(s, e.tx) {
        AboveHolds(n1, parents, q);
      }
      WithLimits(n1, e.wtxid, e, parents, Ancestors(s, e.tx));
    }
  }

  lemma AncestorSurvives(s: Pool, tx: Transaction, a: Hash256)
    requires a in Ancestors(s, tx)
    ensures a in s.nodes && a !in Doomed(s, tx) && a in NodesWithout(s.nodes, Doomed(s, tx))
  {
    hide Doomed;
  }

  /** A pool within its limits had room for the newcomer. */
  lemma PlaceNeeded(n: Nodes, w: Hash256, e: PoolEntry, parents: set<Hash256>)
    requires LinksValid(n) && w !in n && parents <= n.Keys && WithinLimits(NodesWith(n, w, e, parents))
    ensures |Above(n, parents)| <= MAX_MEMPOOL_ANCESTORS
    ensures forall a :: a in Above(n, parents) ==> |Reach(Down(n), a)| <= MAX_MEMPOOL_DESCENDANTS
  {
    hide LinksValid, Reach, Above;
    var n' := NodesWith(n, w, e, parents);
    NewcomerReach(n, w, e, parents);
    NewcomerNotAbove(n, w, parents);
    assert w in n';
    SubsetSize(Above(n, parents) + {w}, Reach(Up(n'), w));
    forall a | a in Above(n, parents) ensures |Reach(Down(n), a)| <= MAX_MEMPOOL_DESCENDANTS {
      SubsetSize(Reach(Down(n), a) + {w}, Reach(Down(n'), a));
      ReachKnown(Down(n), a);
      assert a in n';
    }
  }

  lemma NewcomerNotAbove(n: Nodes, w: Hash256, parents: set<Hash256>)
    requires w !in n
    ensures w !in Above(n, parents)
  {
  }

  // --- The economics ---

  /** A replacement nothing refuses outbids each entry it displaces directly, cluster by cluster, and the
      pool earns strictly more in all. */
  lemma SwapPays(s: Pool, e: PoolEntry, p: Params)
    requires SpentByExact(s) && EntriesOk(s.nodes, p) && LinksValid(s.nodes)
    requires e.wtxid !in s.nodes && e.fee > 0 && SwapRefusal(s, e).None?
    ensures forall c, o :: c in s.nodes && Spends(s.nodes[c].entry.tx, o) && Spends(e.tx, o) ==> Outbids(s.nodes, e, c)
    ensures SumOver(Fees(Committed(s, e).nodes)) > SumOver(Fees(s.nodes))
    ensures SumOver(Weights(Committed(s, e).nodes))
         == SumOver(Weights(s.nodes)) - WeightOf(s.nodes, Doomed(s, e.tx)) + e.weight
  {
    hide SumOver, Direct, Outbids, Reach, LinksValid, SpentByExact, Spends, FeeOf, Below;
    var doomed := Doomed(s, e.tx);
    forall c, o | c in s.nodes && Spends(s.nodes[c].entry.tx, o) && Spends(e.tx, o) ensures Outbids(s.nodes, e, c) {
      DirectMeans(s, e.tx, c);
    }
    SumsWithoutAll(s.nodes, doomed);
    SumsWith(NodesWithout(s.nodes, doomed), e.wtxid, e, ParentsOf(s, e.tx));
    FeeOfNothing(s.nodes);
  }

  lemma FeeOfNothing(n: Nodes)
    ensures FeeOf(n, {}) == 0
  {
    assert Fees(Only(n, {})) == map[];
  }

  // --- The whole decision ---

  /** The first reason to refuse, in the order they are asked. */
  ghost function Refusal(s: Pool, tx: Transaction, spent: seq<Coin>, height: nat, now: int,
                         p: Params): (r: Option<Rejection>)
    ensures r.None? ==> Screen(s, tx, spent, height, now, p).Ok?
  {
    match Screen(s, tx, spent, height, now, p)
    case Err(reason) => Some(reason)
    case Ok(e) => if SwapRefusal(s, e).Some? then SwapRefusal(s, e) else PlaceRefusal(s, tx)
  }

  lemma CommitTotals(s: Pool, e: PoolEntry, rank: map<Hash256, nat>, p: Params)
    requires ValidPool(s, rank, p) && e.wtxid !in s.nodes && EntryOk(e.wtxid, e, p) && SwapRefusal(s, e).None?
    ensures var s1 := Without(s, Doomed(s, e.tx));
            && SumOver(Weights(Committed(s, e).nodes)) == SumOver(Weights(s1.nodes)) + e.weight
            && SumOver(Fees(Committed(s, e).nodes)) == SumOver(Fees(s1.nodes)) + e.fee
            && SumOver(Fees(Committed(s, e).nodes)) > SumOver(Fees(s.nodes))
  {
    hide SumOver, LinksValid, WithinLimits, Ranked, Justified, EntriesOk, SpentByExact, ByTxidExact, SwapRefusal;
    hide Doomed, ParentsOf;
    SwapPays(s, e, p);
    SumsWith(NodesWithout(s.nodes, Doomed(s, e.tx)), e.wtxid, e, ParentsOf(s, e.tx));
  }

  lemma CommitHasEntry(s: Pool, e: PoolEntry)
    ensures e.wtxid in Committed(s, e).nodes
  {
    hide Doomed, ParentsOf;
  }

  lemma LinksOf(s: Pool, rank: map<Hash256, nat>, p: Params)
    requires ValidPool(s, rank, p)
    ensures LinksValid(s.nodes) && SpentByExact(s) && ByTxidExact(s)
    ensures forall tx :: Direct(s, tx) <= s.nodes.Keys
  {
    hide LinksValid, WithinLimits, Ranked, Justified, EntriesOk, ByTxidExact, Direct;
    forall tx: Transaction, c | c in Direct(s, tx) ensures c in s.nodes {
      DirectMeans(s, tx, c);
    }
  }

  lemma DoomedIsBelow(s: Pool, tx: Transaction)
    ensures Doomed(s, tx) == Below(s.nodes, Direct(s, tx))
  {
  }

  lemma ParentsKnown(s: Pool, tx: Transaction)
    requires ByTxidExact(s)
    ensures ParentsOf(s, tx) <= s.nodes.Keys
  {
    hide ParentsOf;
    forall q | q in ParentsOf(s, tx) ensures q in s.nodes {
      ParentsMean(s, tx, q);
    }
  }

  lemma AboveKnown(n: Nodes, roots: set<Hash256>)
    ensures Above(n, roots) <= n.Keys
  {
  }

  // --- Linking ---

  /** `n` with `w` added to the children of `ps`. */
  function Attach(n: Nodes, w: Hash256, ps: set<Hash256>): Nodes {
    map a | a in n :: if a in ps then n[a].(children := n[a].children + {w}) else n[a]
  }

  lemma AttachNone(n: Nodes, w: Hash256)
    ensures forall ps: set<Hash256> :: ps == {} ==> Attach(n, w, ps) == n
  {
  }

  lemma AttachMore(n: Nodes, w: Hash256, ps: set<Hash256>, q: Hash256)
    requires q in n && q !in ps
    ensures var m := Attach(n, w, ps);
            q in m && m[q := m[q].(children := m[q].children + {w})] == Attach(n, w, ps + {q})
  {
  }

  lemma AttachAll(n: Nodes, w: Hash256, e: PoolEntry, parents: set<Hash256>)
    requires w !in n && parents <= n.Keys
    ensures Attach(n[w := Node(e, parents, {})], w, parents) == NodesWith(n, w, e, parents)
  {
  }

  /** `spentBy` with the first `k` inputs entered as spent by `w`. */
  function Entered(spentBy: map<OutPoint, Hash256>, tx: Transaction, k: nat, w: Hash256): map<OutPoint, Hash256>
    requires k <= |tx.inputs|
  {
    spentBy + (map o | o in InputSet(tx) && SpentBefore(tx, k, o) :: w)
  }

  lemma EnteredNone(spentBy: map<OutPoint, Hash256>, tx: Transaction, w: Hash256)
    ensures Entered(spentBy, tx, 0, w) == spentBy
  {
  }

  lemma EnteredNext(spentBy: map<OutPoint, Hash256>, tx: Transaction, k: nat, w: Hash256)
    requires k < |tx.inputs|
    ensures Entered(spentBy, tx, k + 1, w) == Entered(spentBy, tx, k, w)[tx.inputs[k].outpoint := w]
  {
    assert tx.inputs[k].outpoint in InputSet(tx);
  }

  lemma EnteredAll(spentBy: map<OutPoint, Hash256>, tx: Transaction, w: Hash256)
    ensures Entered(spentBy, tx, |tx.inputs|, w) == spentBy + (map o | o in InputSet(tx) :: w)
  {
    forall o | o in InputSet(tx) ensures SpentBefore(tx, |tx.inputs|, o) {
    }
  }
}
