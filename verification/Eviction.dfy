/** Which package leaves a full pool first, and what is left after a run of evictions. */
module PoolEviction {
  import opened Arith
  import opened Feerate
  import opened PoolSpec
  import opened Primitives
  import opened Reachability
  import opened Validation

  // --- Packages and their rates ---

  /** An entry together with all its descendants. */
  ghost function Package(n: Nodes, w: Hash256): set<Hash256> {
    Reach(Down(n), w)
  }

  lemma {:induction false} SumNotNegative(m: map<Hash256, int>)
    requires forall k :: k in m ==> 0 <= m[k]
    ensures SumOver(m) >= 0 && forall k :: k in m ==> SumOver(m) >= m[k]
    decreases |m|
  {
    hide SumOver;
    if m == map[] {
      SumOfNothing();
    }
    forall k | k in m ensures SumOver(m) >= m[k] {
      SumWithout(m, k);
      FewerKeys(m, k);
      SumNotNegative(m - {k});
    }
    if k :| k in m {
      assert SumOver(m) >= m[k];
    }
  }

  lemma FewerKeys(m: map<Hash256, int>, k: Hash256)
    requires k in m
    ensures |m - {k}| == |m| - 1
  {
    assert (m - {k}).Keys == m.Keys - {k};
  }

  lemma {:induction false} SumAtMost(m: map<Hash256, int>, top: nat)
    requires forall k :: k in m ==> m[k] <= top
    ensures SumOver(m) <= Times(|m|, top)
    decreases |m|
  {
    hide SumOver, Times;
    if k :| k in m {
      SumWithout(m, k);
      FewerKeys(m, k);
      SumAtMost(m - {k}, top);
      TimesSucc(|m| - 1, top);
    } else {
      assert m == map[];
      SumOfNothing();
      TimesSucc(0, top);
    }
  }

  function Times(a: int, b: int): int {
    a * b
  }

  lemma TimesSucc(a: int, b: int)
    ensures Times(0, b) == 0 && Times(a + 1, b) == Times(a, b) + b
  {
  }

  lemma WeightNotNegative(n: Nodes, s: set<Hash256>)
    ensures WeightOf(n, s) >= 0
  {
    hide SumOver;
    SumNotNegative(Weights(Only(n, s)));
  }

  /** The fee rate of one package against another's: negative, zero or positive. */
  ghost function ComparePackages(n: Nodes, w: Hash256, v: Hash256): int {
    WeightNotNegative(n, Package(n, w));
    WeightNotNegative(n, Package(n, v));
    CompareRates(FeeOf(n, Package(n, w)), WeightOf(n, Package(n, w)), FeeOf(n, Package(n, v)),
                 WeightOf(n, Package(n, v)))
  }

  /** `w` is evicted before `v`: its package pays a lower rate, or the same rate and the lesser hash. */
  ghost predicate GoesBefore(n: Nodes, w: Hash256, v: Hash256) {
    var c := ComparePackages(n, w, v);
    c < 0 || (c == 0 && w.Less(v))
  }

  lemma GoesBeforeTotal(n: Nodes, w: Hash256, v: Hash256)
    ensures w == v || GoesBefore(n, w, v) || GoesBefore(n, v, w)
    ensures !(GoesBefore(n, w, v) && GoesBefore(n, v, w))
  {
    hide FeeOf, WeightOf, Package, CompareRates;
    WeightNotNegative(n, Package(n, w));
    WeightNotNegative(n, Package(n, v));
    RatesAntisymmetric(FeeOf(n, Package(n, w)), WeightOf(n, Package(n, w)), FeeOf(n, Package(n, v)),
                       WeightOf(n, Package(n, v)));
    assert w.value == v.value ==> w == v;
  }

  lemma GoesBeforeTransitive(n: Nodes, u: Hash256, v: Hash256, w: Hash256)
    requires GoesBefore(n, u, v) && GoesBefore(n, v, w)
    ensures GoesBefore(n, u, w)
  {
    hide FeeOf, WeightOf, Package, CompareRates;
    WeightNotNegative(n, Package(n, u));
    WeightNotNegative(n, Package(n, v));
    WeightNotNegative(n, Package(n, w));
    RatesTransitive(FeeOf(n, Package(n, u)), WeightOf(n, Package(n, u)), FeeOf(n, Package(n, v)),
                    WeightOf(n, Package(n, v)),
                    FeeOf(n, Package(n, w)), WeightOf(n, Package(n, w)));
    if ComparePackages(n, u, v) == 0 && ComparePackages(n, v, w) == 0 {
      RatesTied(FeeOf(n, Package(n, u)), WeightOf(n, Package(n, u)), FeeOf(n, Package(n, v)),
                WeightOf(n, Package(n, v)),
                FeeOf(n, Package(n, w)), WeightOf(n, Package(n, w)));
    }
  }

  lemma RatesTied(feeA: int, weightA: nat, feeB: int, weightB: nat, feeC: int, weightC: nat)
    requires CompareRates(feeA, weightA, feeB, weightB) == 0 && CompareRates(feeB, weightB, feeC, weightC) == 0
    ensures CompareRates(feeA, weightA, feeC, weightC) == 0
  {
    hide CompareRates;
    RatesTransitive(feeA, weightA, feeB, weightB, feeC, weightC);
    RatesAntisymmetric(feeA, weightA, feeB, weightB);
    RatesAntisymmetric(feeB, weightB, feeC, weightC);
    RatesAntisymmetric(feeA, weightA, feeC, weightC);
    RatesTransitive(feeC, weightC, feeB, weightB, feeA, weightA);
  }

  /** The package a full pool gives up first. There is exactly one in any pool that is not empty. */
  ghost predicate IsCheapest(n: Nodes, w: Hash256) {
    w in n && forall v :: v in n && v != w ==> GoesBefore(n, w, v)
  }

  lemma CheapestIsUnique(n: Nodes, w: Hash256, v: Hash256)
    requires IsCheapest(n, w) && IsCheapest(n, v)
    ensures w == v
  {
    hide GoesBefore;
    GoesBeforeTotal(n, w, v);
  }

  lemma {:induction false} CheapestExists(n: Nodes, among: set<Hash256>) returns (w: Hash256)
    requires among != {} && among <= n.Keys
    ensures w in among && forall v :: v in among && v != w ==> GoesBefore(n, w, v)
    decreases among
  {
    hide GoesBefore;
    var x :| x in among;
    if among == {x} {
      return x;
    }
    var y := CheapestExists(n, among - {x});
    GoesBeforeTotal(n, x, y);
    w := if GoesBefore(n, x, y) then x else y;
    if w == x {
      forall v | v in among && v != x ensures GoesBefore(n, x, v) {
        if v != y {
          GoesBeforeTransitive(n, x, y, v);
        }
      }
    }
  }

  // --- The comparison fits the machine ---

  /** No sum of fees over this many entries leaves a 64-bit register. */
  lemma FeesFit(n: Nodes, s: set<Hash256>, p: Params)
    requires EntriesOk(n, p) && |s| <= MAX_REPLACEMENT_EVICTIONS
    ensures 0 <= FeeOf(n, s) <= INT64_MAX && 0 <= WeightOf(n, s) < TWO64
    ensures s * n.Keys != {} ==> WeightOf(n, s) > 0
  {
    hide SumOver;
    var o := Only(n, s);
    SubsetSize(o.Keys, s);
    assert |Fees(o)| == |o.Keys| && |Weights(o)| == |o.Keys| by {
      assert Fees(o).Keys == o.Keys && Weights(o).Keys == o.Keys;
    }
    SumNotNegative(Fees(o));
    SumNotNegative(Weights(o));
    SumAtMost(Fees(o), MAX_MONEY);
    SumAtMost(Weights(o), MAX_MEMPOOL_WEIGHT);
    MulMono(MAX_MONEY, |o.Keys|, MAX_REPLACEMENT_EVICTIONS);
    MulMono(MAX_MEMPOOL_WEIGHT, |o.Keys|, MAX_REPLACEMENT_EVICTIONS);
    if w :| w in s * n.Keys {
      assert w in Weights(o);
    }
  }

  lemma PackageFits(n: Nodes, w: Hash256, p: Params)
    requires EntriesOk(n, p) && WithinLimits(n) && w in n
    ensures 0 <= FeeOf(n, Package(n, w)) <= INT64_MAX && 0 < WeightOf(n, Package(n, w)) < TWO64
  {
    hide Reach, FeeOf, WeightOf, EntriesOk;
    FeesFit(n, Package(n, w), p);
    ReachesSelf(Down(n), w);
    assert w in Package(n, w) * n.Keys;
  }

  // --- A run of evictions ---

  /** The pool after giving up these packages in turn. */
  ghost function After(s: Pool, rounds: seq<Hash256>): Pool {
    if rounds == [] then s
    else
      var s1 := After(s, rounds[..|rounds| - 1]);
      Without(s1, Package(s1.nodes, rounds[|rounds| - 1]))
  }

  /** Every round was needed, and gave up the cheapest package of the pool it found. */
  ghost predicate TrimRun(s: Pool, rounds: seq<Hash256>, target: nat) {
    forall k :: 0 <= k < |rounds| ==>
      var n := After(s, rounds[..k]).nodes;
      SumOver(Weights(n)) > target && IsCheapest(n, rounds[k])
  }

  lemma TrimStep(s: Pool, rounds: seq<Hash256>, target: nat, w: Hash256)
    requires TrimRun(s, rounds, target)
    requires var n := After(s, rounds).nodes; SumOver(Weights(n)) > target && IsCheapest(n, w)
    ensures TrimRun(s, rounds + [w], target)
    ensures var s1 := After(s, rounds); After(s, rounds + [w]) == Without(s1, Package(s1.nodes, w))
  {
    hide SumOver, IsCheapest, After;
    AfterMore(s, rounds, w);
    forall k | 0 <= k < |rounds + [w]|
      ensures var n := After(s, (rounds + [w])[..k]).nodes;
              SumOver(Weights(n)) > target && IsCheapest(n, (rounds + [w])[k])
    {
      if k < |rounds| {
        assert (rounds + [w])[..k] == rounds[..k];
      } else {
        assert (rounds + [w])[..k] == rounds;
      }
    }
  }

  lemma AfterMore(s: Pool, rounds: seq<Hash256>, w: Hash256)
    ensures var s1 := After(s, rounds); After(s, rounds + [w]) == Without(s1, Package(s1.nodes, w))
  {
    assert (rounds + [w])[..|rounds|] == rounds;
  }

  /** Two trims of one pool to one weight are the same trim: nothing about it is left to chance. */
  lemma TrimIsDetermined(s: Pool, a: seq<Hash256>, b: seq<Hash256>, target: nat)
    requires TrimRun(s, a, target) && SumOver(Weights(After(s, a).nodes)) <= target
    requires TrimRun(s, b, target) && SumOver(Weights(After(s, b).nodes)) <= target
    ensures a == b
  {
    hide SumOver, IsCheapest, After, TrimRun;
    TrimStops(s, a, b, target);
    TrimStops(s, b, a, target);
    TrimAgrees(s, a, b, target, |a|);
    assert a[..|a|] == a && b[..|a|] == b;
  }

  /** A trim that reached its target is no shorter than any other. */
  lemma TrimStops(s: Pool, a: seq<Hash256>, b: seq<Hash256>, target: nat)
    requires TrimRun(s, a, target) && SumOver(Weights(After(s, a).nodes)) <= target
    requires TrimRun(s, b, target)
    ensures |b| <= |a|
  {
    hide SumOver, IsCheapest, After;
    TrimAgrees(s, a, b, target, if |a| <= |b| then |a| else |b|);
    assert a[..|a|] == a;
  }

  lemma {:induction false} TrimAgrees(s: Pool, a: seq<Hash256>, b: seq<Hash256>, target: nat, k: nat)
    requires TrimRun(s, a, target) && TrimRun(s, b, target) && k <= |a| && k <= |b|
    ensures a[..k] == b[..k]
  {
    hide SumOver, IsCheapest, After;
    if k > 0 {
      TrimAgrees(s, a, b, target, k - 1);
      CheapestIsUnique(After(s, a[..k - 1]).nodes, a[k - 1], b[k - 1]);
      assert a[..k] == a[..k - 1] + [a[k - 1]] && b[..k] == b[..k - 1] + [b[k - 1]];
    }
  }

  /** The best of the first `k`, carried one further. */
  ghost predicate CheapestOf(n: Nodes, ids: seq<Hash256>, w: Hash256) {
    w in ids && forall v :: v in ids && v != w ==> GoesBefore(n, w, v)
  }

  lemma CheapestFirst(n: Nodes, ids: seq<Hash256>)
    requires ids != []
    ensures CheapestOf(n, ids[..1], ids[0])
  {
    assert ids[..1] == [ids[0]];
  }

  lemma CheapestLast(n: Nodes, ids: seq<Hash256>, w: Hash256)
    requires CheapestOf(n, ids[..|ids|], w) && forall v :: v in ids <==> v in n
    ensures IsCheapest(n, w)
  {
    hide GoesBefore;
    assert ids[..|ids|] == ids;
  }

  lemma CheapestNext(n: Nodes, ids: seq<Hash256>, worst: Hash256, id: Hash256)
    requires CheapestOf(n, ids, worst) && id !in ids
    ensures GoesBefore(n, id, worst) ==> CheapestOf(n, ids + [id], id)
    ensures !GoesBefore(n, id, worst) ==> CheapestOf(n, ids + [id], worst)
  {
    hide GoesBefore;
    GoesBeforeTotal(n, id, worst);
    if GoesBefore(n, id, worst) {
      forall v | v in ids + [id] && v != id ensures GoesBefore(n, id, v) {
        if v != worst {
          GoesBeforeTransitive(n, id, worst, v);
        }
      }
    }
  }

  lemma WithoutCount(s: Pool, gone: set<Hash256>)
    requires gone <= s.nodes.Keys
    ensures |Without(s, gone).nodes| == |s.nodes| - |gone|
  {
    assert Without(s, gone).nodes.Keys == s.nodes.Keys - gone;
  }

  lemma PackageCount(s: Pool, w: Hash256)
    requires w in s.nodes
    ensures |Without(s, Package(s.nodes, w)).nodes| == |s.nodes| - |Package(s.nodes, w)| < |s.nodes|
  {
    hide Without;
    WithoutCount(s, Package(s.nodes, w));
    ReachesSelf(Down(s.nodes), w);
    assert Package(s.nodes, w) != {};
  }

  lemma CheapestIsIn(n: Nodes, w: Hash256)
    requires IsCheapest(n, w)
    ensures w in n
  {
  }

  lemma TrimStarts(s: Pool, target: nat)
    ensures TrimRun(s, [], target) && After(s, []) == s
  {
  }

  lemma GoesBeforeUnfolds(n: Nodes, w: Hash256, v: Hash256)
    ensures WeightOf(n, Package(n, w)) >= 0 && WeightOf(n, Package(n, v)) >= 0
    ensures var c := CompareRates(FeeOf(n, Package(n, w)), WeightOf(n, Package(n, w)),
                                  FeeOf(n, Package(n, v)), WeightOf(n, Package(n, v)));
            GoesBefore(n, w, v) <==> c < 0 || (c == 0 && w.Less(v))
  {
    WeightNotNegative(n, Package(n, w));
    WeightNotNegative(n, Package(n, v));
  }
}
