/** What a block template takes from the pool, and in which order. */
module PoolSelection {
  import opened Feerate
  import opened PoolEviction
  import opened PoolSpec
  import opened Primitives
  import opened Reachability
  import opened Validation

  datatype Candidate = Candidate(id: Hash256, fee: int, weight: nat)

  // --- The ranking ---

  /** A higher rate first, ties to the lesser hash. */
  predicate RanksBefore(a: Candidate, b: Candidate) {
    var c := CompareRates(a.fee, a.weight, b.fee, b.weight);
    c > 0 || (c == 0 && a.id.Less(b.id))
  }

  lemma RanksTotal(a: Candidate, b: Candidate)
    ensures a.id == b.id || RanksBefore(a, b) || RanksBefore(b, a)
    ensures !(RanksBefore(a, b) && RanksBefore(b, a))
  {
    hide CompareRates;
    RatesAntisymmetric(a.fee, a.weight, b.fee, b.weight);
    assert a.id.value == b.id.value ==> a.id == b.id;
  }

  lemma RanksTransitive(a: Candidate, b: Candidate, c: Candidate)
    requires RanksBefore(a, b) && RanksBefore(b, c)
    ensures RanksBefore(a, c)
  {
    hide CompareRates;
    RatesAntisymmetric(a.fee, a.weight, b.fee, b.weight);
    RatesAntisymmetric(b.fee, b.weight, c.fee, c.weight);
    RatesAntisymmetric(a.fee, a.weight, c.fee, c.weight);
    RatesTransitive(c.fee, c.weight, b.fee, b.weight, a.fee, a.weight);
    if CompareRates(a.fee, a.weight, b.fee, b.weight) == 0 && CompareRates(b.fee, b.weight, c.fee, c.weight) == 0 {
      RatesTied(a.fee, a.weight, b.fee, b.weight, c.fee, c.weight);
    }
  }

  ghost predicate InOrder(ranked: seq<Candidate>) {
    forall i, j :: 0 <= i < j < |ranked| ==> RanksBefore(ranked[i], ranked[j])
  }

  /** Everything before the place belongs before the newcomer, and the newcomer before what is there. */
  lemma PlacedInOrder(ranked: seq<Candidate>, c: Candidate, k: nat)
    requires InOrder(ranked) && k <= |ranked| && (k > 0 ==> RanksBefore(ranked[k - 1], c))
    requires forall i :: 0 <= i < |ranked| ==> ranked[i].id != c.id
    requires k < |ranked| ==> !RanksBefore(ranked[k], c)
    ensures InOrder(ranked[..k] + [c] + ranked[k..])
  {
    hide RanksBefore;
    var r := ranked[..k] + [c] + ranked[k..];
    forall i | 0 <= i < k ensures RanksBefore(ranked[i], c) {
      if i < k - 1 {
        RanksTransitive(ranked[i], ranked[k - 1], c);
      }
    }
    forall j | k <= j < |ranked| ensures RanksBefore(c, ranked[j]) {
      RanksTotal(c, ranked[k]);
      if k < j {
        RanksTransitive(c, ranked[k], ranked[j]);
      }
    }
    forall i, j | 0 <= i < j < |r| ensures RanksBefore(r[i], r[j]) {
      assert r[i] == if i < k then ranked[i] else if i == k then c else ranked[i - 1];
      assert r[j] == if j < k then ranked[j] else if j == k then c else ranked[j - 1];
    }
  }

  /** The candidates are exactly the entries of the pool, each with its package's totals. */
  ghost predicate Describes(n: Nodes, among: set<Hash256>, ranked: seq<Candidate>) {
    && (forall i :: 0 <= i < |ranked| ==> ranked[i].id in among && DescribesOne(n, ranked[i]))
    && (forall i, j :: 0 <= i < j < |ranked| ==> ranked[i].id != ranked[j].id)
    && (forall w :: w in among ==> exists i :: 0 <= i < |ranked| && ranked[i].id == w)
  }

  ghost predicate DescribesOne(n: Nodes, c: Candidate) {
    c.fee == FeeOf(n, Package(n, c.id)) && c.weight == WeightOf(n, Package(n, c.id))
  }

  lemma DescribesMore(n: Nodes, among: set<Hash256>, ranked: seq<Candidate>, c: Candidate, k: nat)
    requires Describes(n, among, ranked) && DescribesOne(n, c) && c.id !in among && k <= |ranked|
    ensures Describes(n, among + {c.id}, ranked[..k] + [c] + ranked[k..])
  {
    hide DescribesOne;
    var r := ranked[..k] + [c] + ranked[k..];
    forall i | 0 <= i < |r| ensures r[i].id in among + {c.id} && DescribesOne(n, r[i]) {
      assert r[i] == if i < k then ranked[i] else if i == k then c else ranked[i - 1];
    }
    forall i, j | 0 <= i < j < |r| ensures r[i].id != r[j].id {
      assert r[i] == if i < k then ranked[i] else if i == k then c else ranked[i - 1];
      assert r[j] == if j < k then ranked[j] else if j == k then c else ranked[j - 1];
    }
    forall w | w in among + {c.id} ensures exists i :: 0 <= i < |r| && r[i].id == w {
      if w == c.id {
        assert r[k].id == w;
      } else {
        var i :| 0 <= i < |ranked| && ranked[i].id == w;
        assert r[if i < k then i else i + 1].id == w;
      }
    }
  }

  // --- Greedy selection by packages ---

  /** What a candidate still needs: itself and every ancestor not yet taken. */
  ghost function Needed(n: Nodes, id: Hash256, taken: set<Hash256>): set<Hash256> {
    Reach(Up(n), id) - taken
  }

  /** What is taken after considering these candidates in turn: each with its missing ancestors, whole, if
      it fits in the room left. */
  ghost function Taken(n: Nodes, ranked: seq<Candidate>, available: nat): set<Hash256> {
    if ranked == [] then {}
    else
      var before := Taken(n, ranked[..|ranked| - 1], available);
      var needed := Needed(n, ranked[|ranked| - 1].id, before);
      if WeightOf(n, before) + WeightOf(n, needed) > available then before else before + needed
  }

  lemma TakenMore(n: Nodes, ranked: seq<Candidate>, available: nat, k: nat)
    requires k < |ranked|
    ensures var before := Taken(n, ranked[..k], available);
            var needed := Needed(n, ranked[k].id, before);
            Taken(n, ranked[..k + 1], available)
              == if WeightOf(n, before) + WeightOf(n, needed) > available then before else before + needed
  {
    hide WeightOf, Needed;
    assert ranked[..k + 1][..k] == ranked[..k];
  }

  lemma {:induction false} TakenGrows(n: Nodes, ranked: seq<Candidate>, available: nat, k: nat)
    requires k <= |ranked|
    ensures Taken(n, ranked[..k], available) <= Taken(n, ranked, available)
    decreases |ranked| - k
  {
    hide WeightOf, Needed, Taken;
    if k < |ranked| {
      TakenMore(n, ranked, available, k);
      TakenGrows(n, ranked, available, k + 1);
    } else {
      assert ranked[..k] == ranked;
    }
  }

  lemma {:induction false} TakenStable(n: Nodes, ranked: seq<Candidate>, available: nat)
    requires Closed(Up(n))
    ensures Stable(Up(n), Taken(n, ranked, available)) && Taken(n, ranked, available) <= n.Keys
    decreases |ranked|
  {
    hide WeightOf, Reach, Closed;
    if ranked != [] {
      var k := |ranked| - 1;
      TakenStable(n, ranked[..k], available);
      NeededStable(n, ranked[k].id, Taken(n, ranked[..k], available));
    }
  }

  lemma NeededStable(n: Nodes, id: Hash256, taken: set<Hash256>)
    requires Closed(Up(n)) && Stable(Up(n), taken)
    ensures Stable(Up(n), taken + Needed(n, id, taken)) && Needed(n, id, taken) <= n.Keys
  {
    hide Reach;
    var u := Up(n);
    ReachIsStable(u, id);
    ReachKnown(u, id);
    forall a | a in taken + Needed(n, id, taken) && a in u ensures u[a] <= taken + Needed(n, id, taken) {
      if a !in taken {
        assert u[a] <= Reach(u, id);
      }
    }
  }

  lemma WeightAdds(n: Nodes, a: set<Hash256>, b: set<Hash256>)
    requires a !! b
    ensures WeightOf(n, a + b) == WeightOf(n, a) + WeightOf(n, b)
  {
    hide SumOver;
    var m := Weights(Only(n, a + b));
    SumSplit(m, b);
    assert m - b == Weights(Only(n, a));
    assert (map k | k in m && k in b :: m[k]) == Weights(Only(n, b));
  }

  lemma WeightOfNone(n: Nodes)
    ensures WeightOf(n, {}) == 0
  {
    assert Weights(Only(n, {})) == map[];
  }

  /** The room is never overdrawn. */
  lemma {:induction false} TakenFits(n: Nodes, ranked: seq<Candidate>, available: nat)
    ensures WeightOf(n, Taken(n, ranked, available)) <= available
    decreases |ranked|
  {
    hide WeightOf;
    if ranked == [] {
      WeightOfNone(n);
    } else {
      var k := |ranked| - 1;
      var before := Taken(n, ranked[..k], available);
      TakenFits(n, ranked[..k], available);
      WeightAdds(n, before, Needed(n, ranked[k].id, before));
    }
  }

  /** A candidate's package is in the template, whole, exactly when it fitted the room left when its turn
      came; one that is missing did not fit then. */
  lemma TakenIfItFits(n: Nodes, ranked: seq<Candidate>, available: nat, k: nat)
    requires Closed(Up(n)) && k < |ranked| && ranked[k].id in n
    ensures var before := Taken(n, ranked[..k], available);
            var fits := WeightOf(n, before) + WeightOf(n, Needed(n, ranked[k].id, before)) <= available;
            && (fits ==> Reach(Up(n), ranked[k].id) <= Taken(n, ranked, available))
            && (ranked[k].id !in Taken(n, ranked, available) ==> !fits)
            && (ranked[k].id in Taken(n, ranked[..k + 1], available) <==> fits)
  {
    hide WeightOf, Taken, Reach;
    var before := Taken(n, ranked[..k], available);
    TakenMore(n, ranked, available, k);
    TakenGrows(n, ranked, available, k + 1);
    ReachesSelf(Up(n), ranked[k].id);
    TakenStable(n, ranked[..k], available);
    TakenFits(n, ranked[..k], available);
    if ranked[k].id in before {
      ReachIsLeast(Up(n), ranked[k].id, before);
      assert Needed(n, ranked[k].id, before) == {};
      WeightOfNone(n);
    }
  }

  // --- The order of emission ---

  /** The entries listed are the ones taken, each once, none before an entry it is linked under. */
  ghost predicate Listed(n: Nodes, selected: seq<PoolEntry>, taken: set<Hash256>) {
    && (forall i :: 0 <= i < |selected| ==>
          selected[i].wtxid in taken && selected[i].wtxid in n && n[selected[i].wtxid].entry == selected[i])
    && (forall w :: w in taken ==> ListedBefore(selected, |selected|, w))
    && (forall i, j :: 0 <= i < j < |selected| ==> selected[i].wtxid != selected[j].wtxid)
    && (forall i, q :: 0 <= i < |selected| && q in n[selected[i].wtxid].parents ==> ListedBefore(selected, i, q))
  }

  ghost predicate ListedBefore(selected: seq<PoolEntry>, k: nat, w: Hash256)
    requires k <= |selected|
  {
    exists i :: 0 <= i < k && selected[i].wtxid == w
  }

  /** The entries a template lists. */
  function Ids(selected: seq<PoolEntry>): set<Hash256> {
    set i | 0 <= i < |selected| :: selected[i].wtxid
  }

  lemma ListedIds(n: Nodes, selected: seq<PoolEntry>, taken: set<Hash256>)
    requires Listed(n, selected, taken)
    ensures Ids(selected) == taken
  {
    forall w | w in taken ensures w in Ids(selected) {
      assert ListedBefore(selected, |selected|, w);
    }
  }

  lemma ListedNext(selected: seq<PoolEntry>, e: PoolEntry, k: nat, w: Hash256)
    requires k <= |selected|
    ensures ListedBefore(selected + [e], k, w) <==> ListedBefore(selected, k, w)
    ensures ListedBefore(selected + [e], |selected| + 1, w) <==> ListedBefore(selected, |selected|, w) || e.wtxid == w
  {
    if ListedBefore(selected, k, w) {
      var i :| 0 <= i < k && selected[i].wtxid == w;
      assert (selected + [e])[i].wtxid == w;
    }
    if ListedBefore(selected, |selected|, w) {
      var i :| 0 <= i < |selected| && selected[i].wtxid == w;
      assert (selected + [e])[i].wtxid == w;
    }
    assert (selected + [e])[|selected|].wtxid == e.wtxid;
  }

  lemma ListedMore(n: Nodes, selected: seq<PoolEntry>, taken: set<Hash256>, x: Hash256)
    requires Listed(n, selected, taken) && x in n && x !in taken && n[x].parents <= taken && n[x].entry.wtxid == x
    ensures Listed(n, selected + [n[x].entry], taken + {x})
  {
    hide ListedBefore;
    var e := n[x].entry;
    var r := selected + [e];
    forall w | w in taken + {x} ensures ListedBefore(r, |r|, w) {
      ListedNext(selected, e, |selected|, w);
    }
    forall i, q | 0 <= i < |r| && q in n[r[i].wtxid].parents ensures ListedBefore(r, i, q) {
      ListedNext(selected, e, i, q);
    }
  }

  /** Because links follow arrival order, some waiting entry has every parent already taken. */
  lemma {:induction false} ReadyExists(n: Nodes, rank: map<Hash256, nat>, waiting: set<Hash256>, taken: set<Hash256>)
    returns (x: Hash256)
    requires LinksValid(n) && Ranked(n, rank) && waiting != {} && waiting <= n.Keys
    requires forall w :: w in waiting ==> n[w].parents <= taken + waiting
    ensures x in waiting && n[x].parents <= taken
  {
    x := EarliestOf(rank, waiting);
    forall q | q in n[x].parents ensures q in taken {
      assert q in Up(n)[x] && Up(n)[x] <= Up(n).Keys;
      assert x in Down(n)[q] <==> q in Up(n)[x];
      if q in waiting {
        assert false;
      }
    }
  }

  function RankOf(rank: map<Hash256, nat>, w: Hash256): nat {
    if w in rank then rank[w] else 0
  }

  lemma {:induction false} EarliestOf(rank: map<Hash256, nat>, s: set<Hash256>) returns (x: Hash256)
    requires s != {}
    ensures x in s && forall w :: w in s ==> RankOf(rank, x) <= RankOf(rank, w)
    decreases s
  {
    var y :| y in s;
    if s == {y} {
      return y;
    }
    var z := EarliestOf(rank, s - {y});
    x := if RankOf(rank, y) <= RankOf(rank, z) then y else z;
  }

  /** One round of the emission finds its next entry. */
  lemma EmissionProgresses(n: Nodes, rank: map<Hash256, nat>, package: seq<Hash256>, taken: set<Hash256>)
    requires LinksValid(n) && Ranked(n, rank) && package != []
    requires forall w :: w in package ==> w in n && forall q :: q in n[w].parents ==> q in taken || q in package
    ensures exists i :: 0 <= i < |package| && n[package[i]].parents <= taken
  {
    var waiting := set w | w in package;
    assert package[0] in waiting;
    var x := ReadyExists(n, rank, waiting, taken);
    var i :| 0 <= i < |package| && package[i] == x;
  }

  // --- Steps of the walk ---

  /** The totals fit the registers they are compared in. */
  ghost predicate Registered(ranked: seq<Candidate>) {
    forall i :: 0 <= i < |ranked| ==> 0 <= ranked[i].fee <= INT64_MAX && ranked[i].weight < TWO64
  }

  lemma RankingStarts(n: Nodes)
    ensures Describes(n, {}, []) && InOrder([])
  {
  }

  lemma DescribedIds(n: Nodes, among: set<Hash256>, ranked: seq<Candidate>)
    requires Describes(n, among, ranked)
    ensures forall i :: 0 <= i < |ranked| ==> ranked[i].id in among
  {
  }

  lemma RanksUnfold(a: Candidate, b: Candidate)
    requires 0 <= a.fee <= INT64_MAX && a.weight < TWO64 && 0 <= b.fee <= INT64_MAX && b.weight < TWO64
    ensures var cmp := CompareFeerate(a.fee, a.weight, b.fee, b.weight);
            RanksBefore(a, b) <==> cmp > 0 || (cmp == 0 && a.id.Less(b.id))
  {
    hide CompareFeerate, CompareRates;
    CompareFeerateExact(a.fee, a.weight, b.fee, b.weight);
  }

  lemma StableParents(n: Nodes, s: set<Hash256>)
    requires Stable(Up(n), s)
    ensures forall w :: w in s && w in n ==> n[w].parents <= s
  {
    forall w | w in s && w in n ensures n[w].parents <= s {
      assert Up(n)[w] <= s;
    }
  }

  lemma EntryNamed(n: Nodes, x: Hash256, p: Params)
    requires EntriesOk(n, p) && x in n
    ensures n[x].entry.wtxid == x
  {
  }

  lemma DropOne(package: seq<Hash256>, i: nat)
    requires i < |package| && forall a, b :: 0 <= a < b < |package| ==> package[a] != package[b]
    ensures var rest := package[..i] + package[i + 1..];
            && (forall a, b :: 0 <= a < b < |rest| ==> rest[a] != rest[b])
            && (forall w :: w in rest <==> w in package && w != package[i])
  {
    var rest := package[..i] + package[i + 1..];
    forall w | w in package && w != package[i] ensures w in rest {
      var k :| 0 <= k < |package| && package[k] == w;
      assert rest[if k < i then k else k - 1] == w;
    }
  }

  lemma TakenNone(n: Nodes, ranked: seq<Candidate>, available: nat)
    ensures Taken(n, ranked[..0], available) == {} && Listed(n, [], {})
  {
  }

  lemma CandidateKnown(n: Nodes, among: set<Hash256>, ranked: seq<Candidate>, k: nat)
    requires Describes(n, among, ranked) && k < |ranked|
    ensures ranked[k].id in among
  {
  }

  /** One turn: nothing is needed by what is already taken, and what fits leaves the selection closed
      under ancestors. */
  lemma TakenTurn(n: Nodes, ranked: seq<Candidate>, available: nat, k: nat)
    requires LinksValid(n) && k < |ranked| && ranked[k].id in n
    ensures var before := Taken(n, ranked[..k], available);
            var needed := Reach(Up(n), ranked[k].id) - before;
            && Stable(Up(n), before + needed) && needed <= n.Keys
            && (ranked[k].id in before ==> Taken(n, ranked[..k + 1], available) == before)
            && (WeightOf(n, before) + WeightOf(n, needed) > available ==>
                  Taken(n, ranked[..k + 1], available) == before)
            && (WeightOf(n, before) + WeightOf(n, needed) <= available ==>
                  Taken(n, ranked[..k + 1], available) == before + needed)
  {
    hide WeightOf, Taken, Reach;
    var before := Taken(n, ranked[..k], available);
    TakenMore(n, ranked, available, k);
    TakenStable(n, ranked[..k], available);
    NeededStable(n, ranked[k].id, before);
    TakenIfItFits(n, ranked, available, k);
    if ranked[k].id in before {
      ReachIsLeast(Up(n), ranked[k].id, before);
      assert Needed(n, ranked[k].id, before) == {};
    }
  }
}
