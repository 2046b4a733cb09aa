/** Walks in a finite directed graph, and the breadth-first search that collects them. */
module Reachability {
  import opened Primitives

  type Links = map<Hash256, set<Hash256>>

  /** Every link leads to a node of the graph. */
  ghost predicate Closed(l: Links) {
    forall a :: a in l ==> l[a] <= l.Keys
  }

  ghost predicate IsWalk(l: Links, w: seq<Hash256>) {
    && w != []
    && (forall i :: 0 <= i < |w| ==> w[i] in l)
    && (forall i {:trigger l[w[i]]} :: 0 <= i < |w| - 1 ==> w[i + 1] in l[w[i]])
  }

  ghost predicate Reaches(l: Links, a: Hash256, b: Hash256) {
    exists w :: IsWalk(l, w) && w[0] == a && w[|w| - 1] == b
  }

  /** Everything reachable from `a`, itself included. */
  ghost function Reach(l: Links, a: Hash256): set<Hash256> {
    set b | b in l && Reaches(l, a, b)
  }

  lemma ReachKnown(l: Links, a: Hash256)
    ensures Reach(l, a) <= l.Keys
  {
  }

  lemma ReachesSelf(l: Links, a: Hash256)
    requires a in l
    ensures Reaches(l, a, a) && a in Reach(l, a)
  {
    assert IsWalk(l, [a]);
  }

  lemma ReachesStep(l: Links, a: Hash256, b: Hash256, c: Hash256)
    requires Reaches(l, a, b) && b in l && c in l && c in l[b]
    ensures Reaches(l, a, c) && c in Reach(l, a)
  {
    var w :| IsWalk(l, w) && w[0] == a && w[|w| - 1] == b;
    var w' := w + [c];
    assert IsWalk(l, w') by {
      forall i | 0 <= i < |w'| - 1 ensures w'[i + 1] in l[w'[i]] {
        if i < |w| - 1 {
          assert w[i + 1] in l[w[i]];
        }
      }
    }
  }

  /** No link of the graph leads out of `s`. */
  ghost predicate Stable(l: Links, s: set<Hash256>) {
    forall a {:trigger l[a]} :: a in s && a in l ==> l[a] <= s
  }

  lemma {:induction false} WalkStays(l: Links, s: set<Hash256>, w: seq<Hash256>, i: nat)
    requires Stable(l, s) && IsWalk(l, w) && w[0] in s && i < |w|
    ensures w[i] in s
  {
    if i > 0 {
      WalkStays(l, s, w, i - 1);
      assert l[w[i - 1]] <= s;
    }
  }

  /** What is reachable is the least stable set holding the start. */
  lemma ReachIsLeast(l: Links, a: Hash256, s: set<Hash256>)
    requires Stable(l, s) && a in s
    ensures Reach(l, a) <= s
  {
    forall b | b in Reach(l, a) ensures b in s {
      var w :| IsWalk(l, w) && w[0] == a && w[|w| - 1] == b;
      WalkStays(l, s, w, |w| - 1);
    }
  }

  lemma ReachIsStable(l: Links, a: Hash256)
    requires Closed(l)
    ensures Stable(l, Reach(l, a))
  {
    forall b | b in Reach(l, a) && b in l ensures l[b] <= Reach(l, a) {
      forall c | c in l[b] ensures c in Reach(l, a) {
        ReachesStep(l, a, b, c);
      }
    }
  }

  /** The walk either stays put or starts with a link. */
  lemma ReachUnfolds(l: Links, a: Hash256, b: Hash256) returns (c: Hash256)
    requires b in Reach(l, a) && b != a
    ensures a in l && c in l && c in l[a] && b in Reach(l, c)
  {
    var w :| IsWalk(l, w) && w[0] == a && w[|w| - 1] == b;
    c := w[1];
    assert w[1] in l[w[0]];
    var w' := w[1..];
    assert IsWalk(l, w') by {
      forall i | 0 <= i < |w'| - 1 ensures w'[i + 1] in l[w'[i]] {
        assert w[i + 2] in l[w[i + 1]];
      }
    }
    assert w'[0] == c && w'[|w'| - 1] == b;
  }

  // --- The reversed graph ---

  /** `up` holds the links of `down`, read the other way. */
  ghost predicate Mirrored(down: Links, up: Links) {
    && down.Keys == up.Keys
    && (forall a, b :: a in down && b in down ==> (b in down[a] <==> a in up[b]))
  }

  lemma {:induction false} WalkReversed(down: Links, up: Links, w: seq<Hash256>)
    requires Mirrored(down, up) && IsWalk(down, w)
    ensures Reaches(up, w[|w| - 1], w[0])
    decreases |w|
  {
    if |w| == 1 {
      ReachesSelf(up, w[0]);
    } else {
      var w' := w[1..];
      assert IsWalk(down, w') by {
        forall i | 0 <= i < |w'| - 1 ensures w'[i + 1] in down[w'[i]] {
          assert w[i + 2] in down[w[i + 1]];
        }
      }
      WalkReversed(down, up, w');
      assert w[1] in down[w[0]];
      ReachesStep(up, w[|w| - 1], w[1], w[0]);
    }
  }

  lemma MirroredReach(down: Links, up: Links, a: Hash256, b: Hash256)
    requires Mirrored(down, up)
    ensures b in Reach(down, a) <==> a in Reach(up, b)
  {
    if b in Reach(down, a) {
      var w :| IsWalk(down, w) && w[0] == a && w[|w| - 1] == b;
      WalkReversed(down, up, w);
    }
    if a in Reach(up, b) {
      var w :| IsWalk(up, w) && w[0] == b && w[|w| - 1] == a;
      WalkReversed(up, down, w);
    }
  }

  // --- Taking nodes away ---

  ghost function Minus(l: Links, gone: set<Hash256>): Links {
    map a | a in l && a !in gone :: l[a] - gone
  }

  /** Removal never makes anything newly reachable. */
  lemma MinusShrinks(l: Links, gone: set<Hash256>, a: Hash256)
    ensures Reach(Minus(l, gone), a) <= Reach(l, a) - gone
  {
    var l' := Minus(l, gone);
    forall b | b in Reach(l', a) ensures b in Reach(l, a) - gone {
      var w :| IsWalk(l', w) && w[0] == a && w[|w| - 1] == b;
      assert IsWalk(l, w) by {
        forall i | 0 <= i < |w| - 1 ensures w[i + 1] in l[w[i]] {
          assert w[i + 1] in l'[w[i]];
        }
      }
    }
  }

  /** More links reach no less. */
  lemma MoreReaches(l: Links, l': Links, a: Hash256)
    requires forall b :: b in l ==> b in l' && l[b] <= l'[b]
    ensures Reach(l, a) <= Reach(l', a)
  {
    forall b | b in Reach(l, a) ensures b in Reach(l', a) {
      var w :| IsWalk(l, w) && w[0] == a && w[|w| - 1] == b;
      assert IsWalk(l', w) by {
        forall i | 0 <= i < |w| - 1 ensures w[i + 1] in l'[w[i]] {
          assert w[i + 1] in l[w[i]];
        }
      }
    }
  }

  /** If what is removed is stable, everything else stays exactly as reachable as it was. */
  lemma MinusStable(l: Links, gone: set<Hash256>, a: Hash256)
    requires Closed(l) && Stable(l, gone) && a in l && a !in gone
    ensures Reach(Minus(l, gone), a) == Reach(l, a) - gone
  {
    var l' := Minus(l, gone);
    MinusShrinks(l, gone, a);
    ReachesSelf(l', a);
    assert Closed(l');
    ReachIsStable(l', a);
    var s := Reach(l', a) + gone;
    assert Stable(l, s) by {
      forall b | b in s && b in l ensures l[b] <= s {
        if b !in gone {
          assert l'[b] <= Reach(l', a);
        }
      }
    }
    ReachIsLeast(l, a, s);
  }

  // --- The search ---

  /** Collects what is reachable from `start`, one frontier entry at a time. */
  method BreadthFirst(l: Links, start: Hash256) returns (reached: set<Hash256>)
    requires Closed(l)
    ensures reached == if start in l then Reach(l, start) else {}
  {
    hide Reach, Closed, Stable;
    if start !in l {
      return {};
    }
    reached := {start};
    var frontier := [start];
    ReachesSelf(l, start);
    StableStart(l, start);
    assert (set c | c in frontier) == {start};
    while frontier != []
      invariant start in reached && reached <= Reach(l, start)
      invariant forall c :: c in frontier ==> c in reached
      invariant StableBut(l, reached, set c | c in frontier)
      decreases |Reach(l, start)| - |reached|, |frontier|
    {
      var current := frontier[0];
      ghost var before, waiting := reached, set c | c in frontier;
      assert forall c :: c in frontier ==> c == current || c in frontier[1..];
      ReachKnown(l, start);
      var fresh' := l[current] - reached;
      var queued := ToSeq(fresh');
      frontier := frontier[1..] + queued;
      reached := reached + fresh';
      StableGrows(l, start, before, reached, waiting, (set c | c in frontier), current);
      SizeGrows(before, fresh', Reach(l, start));
    }
    assert (set c | c in frontier) == {};
    StableEnd(l, start, reached);
  }

  lemma StableStart(l: Links, start: Hash256)
    requires start in l
    ensures StableBut(l, {start}, {start})
  {
  }

  lemma SizeGrows(before: set<Hash256>, added: set<Hash256>, bound: set<Hash256>)
    requires before !! added && before + added <= bound
    ensures |before + added| == |before| + |added| && |before + added| <= |bound|
    ensures added != {} ==> |added| > 0
  {
    SubsetSize(before + added, bound);
  }

  /** The links of every node of `s` but those still waiting stay in `s`. */
  ghost predicate StableBut(l: Links, s: set<Hash256>, waiting: set<Hash256>) {
    forall a {:trigger l[a]} :: a in s && a !in waiting && a in l ==> l[a] <= s
  }

  lemma StableGrows(l: Links, start: Hash256, s: set<Hash256>, s': set<Hash256>,
                    waiting: set<Hash256>, waiting': set<Hash256>, current: Hash256)
    requires Closed(l) && current in s && current in l && s <= Reach(l, start) && StableBut(l, s, waiting)
    requires s' == s + (l[current] - s)
    requires waiting' >= (waiting - {current}) + (l[current] - s)
    ensures s' <= Reach(l, start) && StableBut(l, s', waiting')
  {
    forall c | c in l[current] ensures c in Reach(l, start) {
      ReachesStep(l, start, current, c);
    }
    forall a | a in s' && a !in waiting' && a in l ensures l[a] <= s' {
      if a != current {
        assert a in s && a !in waiting;
      }
    }
  }

  lemma StableEnd(l: Links, start: Hash256, s: set<Hash256>)
    requires start in s && s <= Reach(l, start) && StableBut(l, s, {})
    ensures s == Reach(l, start)
  {
    assert Stable(l, s);
    ReachIsLeast(l, start, s);
  }

  /** The elements of a set, each once, in some order. */
  method ToSeq(s: set<Hash256>) returns (r: seq<Hash256>)
    ensures |r| == |s| && (forall x :: x in r <==> x in s)
    ensures forall i, j :: 0 <= i < j < |r| ==> r[i] != r[j]
  {
    r := [];
    var rest := s;
    while rest != {}
      invariant rest <= s && |r| + |rest| == |s|
      invariant forall x :: x in r <==> x in s - rest
      invariant forall i, j :: 0 <= i < j < |r| ==> r[i] != r[j]
      decreases rest
    {
      var x :| x in rest;
      assert x !in r;
      r := r + [x];
      rest := rest - {x};
    }
  }
}
