/** Acceptance and eviction keep every entry spendable against the chain and the pool as it is left. */
module PoolMinable {
  import opened PoolAcceptance
  import opened PoolEviction
  import opened PoolRemoval
  import opened PoolSpec
  import opened Primitives
  import opened Reachability
  import opened Validation

  /** Every entry's inputs resolve and pass the input rules, and whatever an entry waits on is linked to it. */
  ghost predicate AllHold(s: Pool, base: CoinSet, height: nat, p: Params) {
    && FullyLinked(s.nodes, base)
    && forall w :: w in s.nodes ==> Holds(s, base, s.nodes[w].entry.tx, height, p)
  }

  lemma {:induction false} ResolveEach(s: Pool, base: CoinSet, inputs: seq<TxInput>, height: nat, i: nat)
    requires Resolve(s, base, inputs, height).Some? && i < |inputs|
    ensures ResolveOne(s, base, inputs[i].outpoint, height).Some?
    decreases |inputs|
  {
    if i < |inputs| - 1 {
      ResolveEach(s, base, inputs[..|inputs| - 1], height, i);
    }
  }

  /** What resolves does not wait on something absent. */
  lemma ResolvedNamesPresent(s: Pool, base: CoinSet, tx: Transaction, height: nat, txid: Hash256)
    requires ByTxidExact(s) && Resolve(s, base, tx.inputs, height).Some?
    requires forall v :: v in s.nodes ==> s.nodes[v].entry.txid != txid
    ensures !NamesUnconfirmed(tx, txid, base)
  {
    hide Resolve;
    if NamesUnconfirmed(tx, txid, base) {
      var i :| 0 <= i < |tx.inputs| && tx.inputs[i].outpoint.txid == txid && tx.inputs[i].outpoint !in base;
      ResolveEach(s, base, tx.inputs, height, i);
    }
  }

  lemma {:induction false} ResolveWith(s: Pool, w: Hash256, e: PoolEntry, parents: set<Hash256>, base: CoinSet,
                                       inputs: seq<TxInput>, height: nat)
    requires ByTxidExact(s) && Vacant(s, w, e) && Resolve(s, base, inputs, height).Some?
    ensures Resolve(With(s, w, e, parents), base, inputs, height) == Resolve(s, base, inputs, height)
    decreases |inputs|
  {
    hide ByTxidExact, Vacant, With;
    if inputs != [] {
      var n := |inputs| - 1;
      ResolveWith(s, w, e, parents, base, inputs[..n], height);
      ResolveOneWith(s, w, e, parents, base, inputs[n].outpoint, height);
    }
  }

  lemma ResolveOneWith(s: Pool, w: Hash256, e: PoolEntry, parents: set<Hash256>, base: CoinSet, o: OutPoint,
                       height: nat)
    requires ByTxidExact(s) && Vacant(s, w, e) && ResolveOne(s, base, o, height).Some?
    ensures ResolveOne(With(s, w, e, parents), base, o, height) == ResolveOne(s, base, o, height)
  {
    if o !in base {
      assert s.nodes[s.byTxid[o.txid]].entry.txid == o.txid;
    }
  }

  lemma HoldsWith(s: Pool, w: Hash256, e: PoolEntry, parents: set<Hash256>, base: CoinSet, tx: Transaction, height: nat,
                  p: Params)
    requires ByTxidExact(s) && Vacant(s, w, e) && Holds(s, base, tx, height, p)
    ensures Holds(With(s, w, e, parents), base, tx, height, p)
  {
    hide ByTxidExact, Vacant, With, Resolve;
    ResolveWith(s, w, e, parents, base, tx.inputs, height);
  }

  lemma HoldsResolves(s: Pool, base: CoinSet, tx: Transaction, height: nat, p: Params)
    requires Holds(s, base, tx, height, p)
    ensures Resolve(s, base, tx.inputs, height).Some?
  {
  }

  /** Taking away entries with all their descendants leaves every other entry holding. */
  lemma WithoutHolds(s: Pool, gone: set<Hash256>, base: CoinSet, height: nat, p: Params)
    requires AllHold(s, base, height, p) && LinksValid(s.nodes) && ByTxidExact(s) && Stable(Down(s.nodes), gone)
    ensures AllHold(Without(s, gone), base, height, p)
  {
    hide Holds, FullyLinked, LinksValid, ByTxidExact, Stable, Without;
    WithoutFullyLinked(s.nodes, gone, base);
    WithoutNodes(s, gone);
    WithoutMembers(s, gone);
    forall w | w in Without(s, gone).nodes ensures Holds(Without(s, gone), base, s.nodes[w].entry.tx, height, p) {
      HoldsSurvives(s, gone, base, w, height, p);
    }
  }

  /** An arrival that resolves and that nothing refuses holds in the pool it leaves. */
  lemma NewcomerHolds(s: Pool, e: PoolEntry, base: CoinSet, height: nat, p: Params)
    requires ByTxidExact(s) && ParentsOf(s, e.tx) !! Doomed(s, e.tx) && Holds(s, base, e.tx, height, p)
    ensures Holds(Without(s, Doomed(s, e.tx)), base, e.tx, height, p)
  {
    hide Doomed, ByTxidExact, Resolve, ParentsOf, Without;
    var gone := Doomed(s, e.tx);
    forall q | q in gone && q in s.nodes ensures !NamesUnconfirmed(e.tx, s.nodes[q].entry.txid, base) {
      ParentsMean(s, e.tx, q);
      NamesSpends(e.tx, s.nodes[q].entry.txid, base);
    }
    ResolveSurvives(s, gone, base, e.tx, |e.tx.inputs|, height);
    assert e.tx.inputs[..|e.tx.inputs|] == e.tx.inputs;
  }

  lemma NamesSpends(tx: Transaction, txid: Hash256, base: CoinSet)
    ensures NamesUnconfirmed(tx, txid, base) ==> SpendsFrom(tx, txid)
  {
  }

  lemma WithHolds(s: Pool, w: Hash256, e: PoolEntry, parents: set<Hash256>, base: CoinSet, height: nat, p: Params)
    requires AllHold(s, base, height, p) && LinksValid(s.nodes) && ByTxidExact(s) && Vacant(s, w, e)
    requires parents <= s.nodes.Keys
    requires forall q :: q in s.nodes ==> (q in parents <==> SpendsFrom(e.tx, s.nodes[q].entry.txid))
    requires Holds(s, base, e.tx, height, p)
    ensures AllHold(With(s, w, e, parents), base, height, p)
  {
    hide Holds, FullyLinked, LinksValid, ByTxidExact, SpendsFrom, NamesUnconfirmed, Resolve;
    forall v | v in s.nodes ensures !NamesUnconfirmed(s.nodes[v].entry.tx, e.txid, base) {
      HoldsResolves(s, base, s.nodes[v].entry.tx, height, p);
      ResolvedNamesPresent(s, base, s.nodes[v].entry.tx, height, e.txid);
    }
    HoldsResolves(s, base, e.tx, height, p);
    ResolvedNamesPresent(s, base, e.tx, height, e.txid);
    WithFullyLinked(s.nodes, w, e, parents, base);
    var s' := With(s, w, e, parents);
    forall v | v in s'.nodes ensures Holds(s', base, s'.nodes[v].entry.tx, height, p) {
      HoldsWith(s, w, e, parents, base, if v == w then e.tx else s.nodes[v].entry.tx, height, p);
    }
  }

  /** The whole step: displace, link, and every entry of the new pool still holds. */
  lemma CommitHolds(s: Pool, e: PoolEntry, base: CoinSet, height: nat, rank: map<Hash256, nat>, p: Params)
    requires ValidPool(s, rank, p) && AllHold(s, base, height, p) && TxidCommits(p)
    requires EntryOk(e.wtxid, e, p) && e.wtxid !in s.nodes && PlaceRefusal(s, e.tx).None?
    requires Holds(s, base, e.tx, height, p)
    ensures AllHold(Committed(s, e), base, height, p)
  {
    hide Holds, AllHold, LinksValid, SpentByExact, ByTxidExact, WithinLimits, Ranked, Justified, EntriesOk, TxidCommits;
    hide Doomed, ParentsOf, Ancestors, Surviving, EntryOk, Vacant, With, Without, SpendsFrom;
    var gone, parents := Doomed(s, e.tx), ParentsOf(s, e.tx);
    var s1 := Without(s, gone);
    DoomedStable(s, e.tx);
    WithoutHolds(s, gone, base, height, p);
    WithoutValid(s, gone, rank, p);
    assert parents !! gone;
    NewcomerHolds(s, e, base, height, p);
    CommitVacant(s, e, p);
    WithoutMembers(s, gone);
    forall q ensures q in parents ==> q in s1.nodes
             ensures q in s1.nodes ==> (q in parents <==> SpendsFrom(e.tx, s1.nodes[q].entry.txid)) {
      ParentsMean(s, e.tx, q);
    }
    WithHolds(s1, e.wtxid, e, parents, base, height, p);
  }

  lemma {:induction false} TrimHolds(s: Pool, rounds: seq<Hash256>, base: CoinSet, height: nat, rank: map<Hash256, nat>,
                                     p: Params)
    requires ValidPool(s, rank, p) && AllHold(s, base, height, p)
    ensures ValidPool(After(s, rounds), rank, p) && AllHold(After(s, rounds), base, height, p)
    decreases |rounds|
  {
    hide AllHold, ValidPool, Without;
    if rounds != [] {
      var k := |rounds| - 1;
      TrimHolds(s, rounds[..k], base, height, rank, p);
      var s1 := After(s, rounds[..k]);
      PackageLeaves(s1, rounds[k], base, height, rank, p);
    }
  }

  lemma PackageLeaves(s: Pool, w: Hash256, base: CoinSet, height: nat, rank: map<Hash256, nat>, p: Params)
    requires ValidPool(s, rank, p) && AllHold(s, base, height, p)
    ensures var s1 := Without(s, Package(s.nodes, w));
            ValidPool(s1, rank, p) && AllHold(s1, base, height, p)
  {
    hide AllHold, Without, WithinLimits, Ranked, Justified, EntriesOk, SpentByExact, ByTxidExact, Reach;
    ReachIsStable(Down(s.nodes), w);
    WithoutValid(s, Package(s.nodes, w), rank, p);
    WithoutHolds(s, Package(s.nodes, w), base, height, p);
  }

  // --- Offering a transaction against the chain ---

  /** The reason to refuse an arrival whose inputs are still to be looked up. */
  ghost function OfferRefusal(s: Pool, tx: Transaction, base: CoinSet, height: nat, now: int,
                              p: Params): (r: Option<Rejection>)
    ensures r.None? ==> Resolve(s, base, tx.inputs, height).Some?
                        && Refusal(s, tx, Resolve(s, base, tx.inputs, height).value, height, now, p).None?
  {
    if tx.IsCoinbase() then Some(Rejection(Coinbase, None))
    else if ShapeVerdict(tx, p).Rejected? then Some(Rejection(ConsensusRuleFailed, Some(ShapeVerdict(tx, p).error)))
    else
      match Resolve(s, base, tx.inputs, height)
      case None => Some(Rejection(MissingOrSpentInput, Some(TxInputMissingOrSpent)))
      case Some(spent) => Refusal(s, tx, spent, height, now, p)
  }

  /** The entry an arrival nothing refuses becomes. */
  ghost function Offered(s: Pool, tx: Transaction, base: CoinSet, height: nat, now: int, p: Params): PoolEntry
    requires OfferRefusal(s, tx, base, height, now, p).None?
  {
    Screen(s, tx, Resolve(s, base, tx.inputs, height).value, height, now, p).value
  }

  lemma OfferHolds(s: Pool, tx: Transaction, spent: seq<Coin>, base: CoinSet, height: nat, now: int,
                   rank: map<Hash256, nat>, top: nat, rounds: seq<Hash256>, p: Params)
    requires ValidPool(s, rank, p) && RankBounded(s.nodes, rank, top) && TxidCommits(p) && AllHold(s, base, height, p)
    requires Resolve(s, base, tx.inputs, height) == Some(spent) && Refusal(s, tx, spent, height, now, p).None?
    requires p.admits(tx)
    ensures AllHold(After(Committed(s, Screen(s, tx, spent, height, now, p).value), rounds), base, height, p)
  {
    hide ValidPool, RankBounded, AllHold, Resolve, TxidCommits, After, Committed, EntryOk, SwapRefusal, PlaceRefusal;
    hide ShapeVerdict;
    var e := Screen(s, tx, spent, height, now, p).value;
    ScreenedOk(s, tx, spent, height, now, p);
    assert Holds(s, base, e.tx, height, p);
    CommitValid(s, e, rank, top, p);
    CommitHolds(s, e, base, height, rank, p);
    TrimHolds(Committed(s, e), rounds, base, height, rank[e.wtxid := top], p);
  }
}
