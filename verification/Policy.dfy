/** What the pool takes, gives up and offers first, in plain terms: counts, products of fees and weights, and
    hashes as numbers. */
module PoolPolicy {
  import opened Feerate
  import opened PoolAcceptance
  import opened PoolEviction
  import opened PoolRemoval
  import opened PoolSelection
  import opened PoolSpec
  import opened Primitives
  import opened Reachability
  import opened Validation

  /** What an entry and everything that depends on it pay, and weigh. */
  ghost function Fee(n: Nodes, w: Hash256): int {
    FeeOf(n, Reach(Down(n), w))
  }

  ghost function Weight(n: Nodes, w: Hash256): int {
    WeightOf(n, Reach(Down(n), w))
  }

  lemma RatesMean(a: int, w: nat, b: int, v: nat)
    requires 0 <= a && 0 <= b && 0 < w && 0 < v
    ensures (CompareRates(a, w, b, v) > 0 <==> a * v > b * w) && (CompareRates(a, w, b, v) < 0 <==> a * v < b * w)
    ensures CompareRates(a, w, b, v) == 0 <==> a * v == b * w
  {
  }

  lemma PackageIsSound(n: Nodes, w: Hash256, p: Params)
    requires EntriesOk(n, p) && WithinLimits(n) && w in n
    ensures 0 <= Fee(n, w) && 0 < Weight(n, w) && Package(n, w) == Reach(Down(n), w)
  {
    hide EntriesOk, WithinLimits, FeeOf, WeightOf, Reach;
    PackageFits(n, w, p);
  }

  // --- Giving up ---

  /** The cheapest package is the one of least fee per weight, ties going to the lesser hash. */
  lemma CheapestMeans(n: Nodes, w: Hash256, p: Params)
    requires EntriesOk(n, p) && WithinLimits(n) && w in n
    ensures IsCheapest(n, w)
       <==> forall v :: v in n && v != w ==>
              || Fee(n, w) * Weight(n, v) < Fee(n, v) * Weight(n, w)
              || (Fee(n, w) * Weight(n, v) == Fee(n, v) * Weight(n, w) && w.value < v.value)
  {
    hide EntriesOk, WithinLimits, Fee, Weight, CompareRates, GoesBefore;
    forall v | v in n && v != w
      ensures GoesBefore(n, w, v)
         <==> || Fee(n, w) * Weight(n, v) < Fee(n, v) * Weight(n, w)
              || (Fee(n, w) * Weight(n, v) == Fee(n, v) * Weight(n, w) && w.value < v.value)
    {
      GoesBeforeMeans(n, w, v, p);
    }
  }

  lemma GoesBeforeMeans(n: Nodes, w: Hash256, v: Hash256, p: Params)
    requires EntriesOk(n, p) && WithinLimits(n) && w in n && v in n
    ensures GoesBefore(n, w, v)
       <==> || Fee(n, w) * Weight(n, v) < Fee(n, v) * Weight(n, w)
            || (Fee(n, w) * Weight(n, v) == Fee(n, v) * Weight(n, w) && w.value < v.value)
  {
    hide EntriesOk, WithinLimits, CompareRates, FeeOf, WeightOf, Reach;
    PackageIsSound(n, w, p);
    PackageIsSound(n, v, p);
    RatesMean(Fee(n, w), Weight(n, w), Fee(n, v), Weight(n, v));
  }

  // --- Offering ---

  /** A template considers packages from the most fee per weight down, ties going to the lesser hash. */
  lemma RankedMeans(n: Nodes, ranked: seq<Candidate>, i: nat, j: nat, p: Params)
    requires EntriesOk(n, p) && WithinLimits(n) && Describes(n, n.Keys, ranked) && InOrder(ranked)
    requires i < j < |ranked|
    ensures var a, b := ranked[i].id, ranked[j].id;
            || Fee(n, a) * Weight(n, b) > Fee(n, b) * Weight(n, a)
            || (Fee(n, a) * Weight(n, b) == Fee(n, b) * Weight(n, a) && a.value < b.value)
  {
    hide EntriesOk, WithinLimits, CompareRates, FeeOf, WeightOf, Reach;
    var a, b := ranked[i], ranked[j];
    assert RanksBefore(a, b) && DescribesOne(n, a) && DescribesOne(n, b);
    PackageIsSound(n, a.id, p);
    PackageIsSound(n, b.id, p);
    RatesMean(a.fee, a.weight, b.fee, b.weight);
  }

  // --- Taking ---

  /** The entry spends an outpoint the transaction spends. */
  ghost predicate Clashes(s: Pool, tx: Transaction, c: Hash256) {
    c in s.nodes && exists o :: Spends(tx, o) && Spends(s.nodes[c].entry.tx, o)
  }

  /** The entries it clashes with, and everything that depends on them. */
  ghost function Displaced(s: Pool, tx: Transaction): set<Hash256> {
    set c, w | c in s.nodes && Clashes(s, tx, c) && w in Reach(Down(s.nodes), c) :: w
  }

  lemma DoomedIsDisplaced(s: Pool, tx: Transaction)
    requires SpentByExact(s)
    ensures Doomed(s, tx) == Displaced(s, tx) && forall c :: c in Direct(s, tx) <==> Clashes(s, tx, c)
  {
    hide Reach, Spends, Direct, SpentByExact;
    forall c ensures c in Direct(s, tx) <==> Clashes(s, tx, c) {
      DirectMeans(s, tx, c);
    }
  }

  /** A replacement is let in if and only if it displaces at most a hundred entries, pays more for its weight than
      each package it clashes with, and pays more than everything it displaces together. */
  lemma ReplacementMeans(s: Pool, e: PoolEntry, rank: map<Hash256, nat>, p: Params)
    requires ValidPool(s, rank, p) && 0 <= e.fee && 0 < e.weight
    ensures SwapRefusal(s, e).None?
       <==> && |Displaced(s, e.tx)| <= 100
            && (forall c :: Clashes(s, e.tx, c) ==> e.fee * Weight(s.nodes, c) > Fee(s.nodes, c) * e.weight)
            && (Displaced(s, e.tx) != {} ==> e.fee > FeeOf(s.nodes, Displaced(s, e.tx)))
  {
    hide LinksValid, Ranked, Justified, EntriesOk, SpentByExact, ByTxidExact, WithinLimits, FeeOf, WeightOf, Reach;
    hide Doomed, Displaced, Direct, Clashes, Outbids, Fee, Weight;
    DoomedIsDisplaced(s, e.tx);
    forall c | Clashes(s, e.tx, c)
      ensures Outbids(s.nodes, e, c) <==> e.fee * Weight(s.nodes, c) > Fee(s.nodes, c) * e.weight
    {
      OutbidsMeans(s, e, c, rank, p);
    }
  }

  lemma OutbidsMeans(s: Pool, e: PoolEntry, c: Hash256, rank: map<Hash256, nat>, p: Params)
    requires ValidPool(s, rank, p) && 0 <= e.fee && 0 < e.weight && Clashes(s, e.tx, c)
    ensures Outbids(s.nodes, e, c) <==> e.fee * Weight(s.nodes, c) > Fee(s.nodes, c) * e.weight
  {
    hide LinksValid, Ranked, Justified, EntriesOk, SpentByExact, ByTxidExact, WithinLimits, FeeOf, WeightOf, Reach;
    hide CompareRates;
    PackageIsSound(s.nodes, c, p);
    RatesMean(e.fee, e.weight, Fee(s.nodes, c), Weight(s.nodes, c));
  }

  /** The arrival passes every rule of its own: not there already, well formed, its spends allowed, weighing
      something and no more than the pool holds, and paying at least a unit of fee for each unit of weight. */
  ghost predicate Welcome(s: Pool, tx: Transaction, spent: seq<Coin>, height: nat, p: Params) {
    && !tx.IsCoinbase() && p.wtxid(tx) !in s.nodes && ShapeVerdict(tx, p).Accepted?
    && InputsVerdict(tx, spent, height, p).Ok? && 0 < p.weight(tx) <= 50_000_000
    && p.weight(tx) <= InputsVerdict(tx, spent, height, p).value
  }

  /** An arrival is taken if and only if it is welcome, worth what it displaces, spends nothing it displaces, and
      leaves no entry with more than 25 ancestors or descendants. */
  lemma AcceptanceIsExact(s: Pool, tx: Transaction, spent: seq<Coin>, height: nat, now: int, rank: map<Hash256, nat>,
                          p: Params)
    requires ValidPool(s, rank, p) && TxidCommits(p) && p.admits(tx)
    ensures Refusal(s, tx, spent, height, now, p).None?
       <==> && Welcome(s, tx, spent, height, p)
            && var fee := InputsVerdict(tx, spent, height, p).value;
               var e := PoolEntry(tx, p.txid(tx), p.wtxid(tx), fee, p.weight(tx), now);
               && |Displaced(s, tx)| <= 100
               && (forall c :: Clashes(s, tx, c) ==> fee * Weight(s.nodes, c) > Fee(s.nodes, c) * p.weight(tx))
               && (Displaced(s, tx) != {} ==> fee > FeeOf(s.nodes, Displaced(s, tx)))
               && ParentsOf(s, tx) !! Displaced(s, tx) && WithinLimits(Committed(s, e).nodes)
  {
    hide ValidPool, TxidCommits, ShapeVerdict, InputsVerdict, WithinLimits, Committed, FeeOf, WeightOf, Displaced;
    hide Clashes, Fee, Weight, SwapRefusal, PlaceRefusal, EntryOk, ParentsOf, Doomed;
    if Welcome(s, tx, spent, height, p) {
      var e := Screen(s, tx, spent, height, now, p).value;
      ScreenedOk(s, tx, spent, height, now, p);
      ReplacementMeans(s, e, rank, p);
      PlaceMeans(s, e, rank, p);
    }
  }

  lemma PlaceMeans(s: Pool, e: PoolEntry, rank: map<Hash256, nat>, p: Params)
    requires ValidPool(s, rank, p) && TxidCommits(p) && EntryOk(e.wtxid, e, p) && e.wtxid !in s.nodes
    ensures PlaceRefusal(s, e.tx).None?
       <==> ParentsOf(s, e.tx) !! Displaced(s, e.tx) && WithinLimits(Committed(s, e).nodes)
  {
    hide LinksValid, Ranked, Justified, EntriesOk, SpentByExact, ByTxidExact, WithinLimits, TxidCommits, EntryOk;
    hide Committed, Displaced, ParentsOf, Ancestors, Surviving, Doomed;
    DoomedIsDisplaced(s, e.tx);
    if ParentsOf(s, e.tx) !! Doomed(s, e.tx) {
      PlaceIsExact(s, e, rank, p);
    }
  }

  /** An entry and what it waits on, or what waits on it, are at most twenty-six. */
  lemma LimitsMean(n: Nodes)
    ensures WithinLimits(n) <==> forall w :: w in n ==> |Reach(Up(n), w)| <= 26 && |Reach(Down(n), w)| <= 26
  {
  }

  // --- After a block ---

  /** What a block takes out it holds by txid, or it descends from an entry that spends what the block spent;
      and every entry of either first kind goes. */
  lemma ForBlockMeans(s: Pool, block: Block, w: Hash256, p: Params)
    requires LinksValid(s.nodes) && w in s.nodes
    ensures w in ForBlock(s, block, p) ==>
              || Confirms(block, s.nodes[w].entry, p)
              || exists c :: c in s.nodes && ConflictsWith(block, s.nodes[c].entry) && w in Reach(Down(s.nodes), c)
    ensures Confirms(block, s.nodes[w].entry, p) || ConflictsWith(block, s.nodes[w].entry) ==>
              w in ForBlock(s, block, p)
  {
    hide Confirms, ConflictsWith, Without, Reach;
    var confirmed := ConfirmedBy(s, block, p);
    var s1 := Without(s, confirmed);
    WithoutMembers(s, confirmed);
    if w in Undone(s1, block) {
      var c :| c in s1.nodes && ConflictsWith(block, s1.nodes[c].entry) && w in Reach(Down(s1.nodes), c);
      ReachShrinks(s, confirmed, c);
    }
    if w in s1.nodes {
      ReachesSelf(Down(s1.nodes), w);
    }
  }
}
