/** The tree of known headers as a value: paths, the selection rule, and what ruling a block out
    does to it. An entry is named by its hash, which is also the key it is stored under. */
module IndexTree {
  import opened Primitives
  import opened Validation

  datatype BlockValidity = HeaderValid | BodyValid | FullyValid

  function Level(v: BlockValidity): nat {
    match v case HeaderValid => 0 case BodyValid => 1 case FullyValid => 2
  }

  datatype BlockFailure = NotFailed | Itself | Ancestor

  datatype Entry = Entry(
    header: BlockHeader,
    height: nat,
    totalWork: nat,
    parent: Option<Hash256>,
    validity: BlockValidity,
    failure: BlockFailure,
    sequence: nat)
  {
    predicate IsEligible() {
      failure == NotFailed
    }
  }

  type Tree = map<Hash256, Entry>

  const MAX_WORK: nat := 0x1_00000000_00000000_00000000_00000000_00000000_00000000_00000000_00000000 - 1

  /** Accumulated work saturates at 256 bits. */
  function AddWork(a: nat, b: nat): nat {
    if a + b > MAX_WORK then MAX_WORK else a + b
  }

  // --- Shape ---

  /** Every entry but the root has an earlier entry as its parent. */
  ghost predicate Linked(t: Tree, root: Hash256) {
    && root in t
    && t[root].parent == None
    && forall h {:trigger t[h].parent} :: h in t && h != root ==>
         && t[h].parent.Some?
         && t[h].parent.value in t
         && t[t[h].parent.value].sequence < t[h].sequence
  }

  /** The entries from the root up to `h`. */
  ghost function Path(t: Tree, root: Hash256, h: Hash256): (path: seq<Hash256>)
    requires Linked(t, root) && h in t
    ensures |path| > 0 && path[|path| - 1] == h
    ensures forall i :: 0 <= i < |path| ==> path[i] in t
    decreases t[h].sequence
  {
    if h == root then [h] else Path(t, root, t[h].parent.value) + [h]
  }

  ghost predicate Below(t: Tree, root: Hash256, ancestor: Hash256, h: Hash256)
    requires Linked(t, root) && h in t
  {
    ancestor in Path(t, root, h)
  }

  lemma {:induction false} PathPrefix(t: Tree, root: Hash256, h: Hash256, i: nat)
    requires Linked(t, root) && h in t && i < |Path(t, root, h)|
    ensures var path := Path(t, root, h);
            && path[i] in t && Path(t, root, path[i]) == path[..i + 1]
            && path[0] == root
            && t[path[i]].sequence <= t[h].sequence
            && (i > 0 ==> path[i] != root && t[path[i]].parent == Some(path[i - 1]))
    decreases t[h].sequence
  {
    var path := Path(t, root, h);
    if h != root {
      var up := t[h].parent.value;
      var rest := Path(t, root, up);
      assert path == rest + [h];
      if i < |rest| {
        PathPrefix(t, root, up, i);
      } else {
        PathPrefix(t, root, up, |rest| - 1);
        assert path[..i + 1] == path;
      }
    }
  }

  /** An entry appears on a path once, at the position its own path's length gives. */
  lemma PathPosition(t: Tree, root: Hash256, h: Hash256, a: Hash256)
    requires Linked(t, root) && h in t && Below(t, root, a, h)
    ensures a in t
    ensures |Path(t, root, a)| <= |Path(t, root, h)|
    ensures Path(t, root, h)[|Path(t, root, a)| - 1] == a
    ensures Path(t, root, h)[..|Path(t, root, a)|] == Path(t, root, a)
  {
    var i :| 0 <= i < |Path(t, root, h)| && Path(t, root, h)[i] == a;
    PathPrefix(t, root, h, i);
  }

  /** Two trees that agree on parents agree on paths. */
  lemma {:induction false} PathFrame(t: Tree, t': Tree, root: Hash256, h: Hash256)
    requires Linked(t, root) && Linked(t', root) && h in t
    requires forall k :: k in t ==> k in t' && t'[k].parent == t[k].parent
    ensures Path(t', root, h) == Path(t, root, h)
    decreases t[h].sequence
  {
    if h != root {
      PathFrame(t, t', root, t[h].parent.value);
    }
  }

  ghost predicate Heights(t: Tree, root: Hash256)
    requires Linked(t, root)
  {
    forall h {:trigger t[h].parent} :: h in t && h != root ==> t[h].height == t[t[h].parent.value].height + 1
  }

  lemma {:induction false} PathLength(t: Tree, root: Hash256, h: Hash256)
    requires Linked(t, root) && Heights(t, root) && h in t
    ensures t[h].height == t[root].height + |Path(t, root, h)| - 1
    decreases t[h].sequence
  {
    if h != root {
      PathLength(t, root, t[h].parent.value);
    }
  }

  // --- Selection ---

  predicate IsBetterTip(candidate: Entry, incumbent: Entry) {
    if !candidate.IsEligible() then false
    else if !incumbent.IsEligible() then true
    else if candidate.totalWork != incumbent.totalWork then candidate.totalWork > incumbent.totalWork
    else candidate.sequence < incumbent.sequence
  }

  ghost predicate UniqueSequences(t: Tree) {
    forall g, h :: g in t && h in t && t[g].sequence == t[h].sequence ==> g == h
  }

  /** The best header: none only when nothing is eligible, otherwise the one entry better than every
      other. */
  ghost predicate IsBest(t: Tree, best: Option<Hash256>) {
    match best
    case None => forall h :: h in t ==> !t[h].IsEligible()
    case Some(b) => b in t && t[b].IsEligible() && forall h :: h in t && h != b ==> IsBetterTip(t[b], t[h])
  }

  /** Better is a strict order, so there is at most one best header. */
  lemma BestIsUnique(t: Tree, a: Option<Hash256>, b: Option<Hash256>)
    requires IsBest(t, a) && IsBest(t, b)
    ensures a == b
  {
    if a.Some? && b.Some? {
      assert a.value != b.value ==> IsBetterTip(t[a.value], t[b.value]);
    }
  }

  lemma BetterIsTransitive(a: Entry, b: Entry, c: Entry)
    requires IsBetterTip(a, b) && IsBetterTip(b, c)
    ensures IsBetterTip(a, c)
  {
  }

  // --- Ruling out ---

  /** No eligible entry has an ineligible ancestor. */
  ghost predicate FailuresPropagated(t: Tree, root: Hash256)
    requires Linked(t, root)
  {
    forall h {:trigger t[h].parent} ::
      h in t && h != root && t[h].IsEligible() ==> t[t[h].parent.value].IsEligible()
  }

  lemma {:induction false} EligiblePath(t: Tree, root: Hash256, h: Hash256, a: Hash256)
    requires Linked(t, root) && FailuresPropagated(t, root) && h in t
    requires t[h].IsEligible() && Below(t, root, a, h)
    ensures a in t && t[a].IsEligible()
    decreases t[h].sequence
  {
    if a != h {
      EligiblePath(t, root, t[h].parent.value, a);
    }
  }

  ghost predicate Culprit(t: Tree, root: Hash256, a: Hash256, h: Hash256)
    requires Linked(t, root) && h in t
  {
    a in t && t[a].failure == Itself && Below(t, root, a, h)
  }

  /** Every ineligible entry has an ancestor, or is one, that a rule rejected for itself. */
  ghost predicate FailuresExplained(t: Tree, root: Hash256)
    requires Linked(t, root)
  {
    forall h :: h in t && !t[h].IsEligible() ==> exists a :: Culprit(t, root, a, h)
  }

  /** The entries that ruling `x` out marks: those still eligible in the subtree under it. */
  ghost function StillEligibleBelow(t: Tree, root: Hash256, x: Hash256): set<Hash256>
    requires Linked(t, root)
  {
    set h | h in t && t[h].IsEligible() && Below(t, root, x, h)
  }

  /** `t` with the entries in `marked` ruled out because of `x`. */
  function Mark(t: Tree, marked: set<Hash256>, x: Hash256): Tree {
    map h | h in t :: if h in marked then t[h].(failure := if h == x then Itself else Ancestor) else t[h]
  }

  ghost function RuledOut(t: Tree, root: Hash256, x: Hash256): Tree
    requires Linked(t, root)
  {
    Mark(t, StillEligibleBelow(t, root, x), x)
  }

  lemma MarkKeepsShape(t: Tree, root: Hash256, marked: set<Hash256>, x: Hash256)
    requires Linked(t, root)
    ensures Linked(Mark(t, marked, x), root)
    ensures Heights(t, root) ==> Heights(Mark(t, marked, x), root)
    ensures UniqueSequences(t) ==> UniqueSequences(Mark(t, marked, x))
    ensures forall h :: h in t ==> Path(Mark(t, marked, x), root, h) == Path(t, root, h)
  {
    var t' := Mark(t, marked, x);
    assert t'.Keys == t.Keys;
    assert forall h :: h in t ==> t'[h].parent == t[h].parent && t'[h].sequence == t[h].sequence
                                  && t'[h].height == t[h].height;
    if UniqueSequences(t) {
      forall g, h | g in t' && h in t' && t'[g].sequence == t'[h].sequence ensures g == h {
        assert t[g].sequence == t[h].sequence;
      }
    }
    forall h | h in t ensures Path(t', root, h) == Path(t, root, h) {
      PathFrame(t, t', root, h);
    }
  }

  /** Ruling a block out leaves no eligible entry with an ineligible ancestor. */
  lemma RuledOutPropagates(t: Tree, root: Hash256, x: Hash256)
    requires Linked(t, root) && FailuresPropagated(t, root)
    requires x in t
    ensures Linked(RuledOut(t, root, x), root)
    ensures FailuresPropagated(RuledOut(t, root, x), root)
  {
    var marked := StillEligibleBelow(t, root, x);
    MarkKeepsShape(t, root, marked, x);
    var t' := RuledOut(t, root, x);
    forall h | h in t' && h != root && t'[h].IsEligible() ensures t'[t'[h].parent.value].IsEligible() {
      var up := t[h].parent.value;
      assert t[h].IsEligible() && t[up].IsEligible();
      assert Path(t, root, h) == Path(t, root, up) + [h];
      assert up in marked ==> h in marked;
    }
  }

  lemma RuledOutCulprit(t: Tree, root: Hash256, x: Hash256, h: Hash256) returns (a: Hash256)
    requires Linked(t, root) && FailuresExplained(t, root)
    requires x in t && t[x].IsEligible()
    requires h in t && !RuledOut(t, root, x)[h].IsEligible()
    ensures Linked(RuledOut(t, root, x), root)
    ensures Culprit(RuledOut(t, root, x), root, a, h)
  {
    var marked := StillEligibleBelow(t, root, x);
    MarkKeepsShape(t, root, marked, x);
    if t[h].IsEligible() {
      a := x;
      assert Below(t, root, x, x);
      assert x in marked && h in marked;
    } else {
      a :| Culprit(t, root, a, h);
      assert a !in marked;
    }
  }

  lemma RuledOutExplained(t: Tree, root: Hash256, x: Hash256)
    requires Linked(t, root) && FailuresExplained(t, root)
    requires x in t && t[x].IsEligible()
    ensures Linked(RuledOut(t, root, x), root)
    ensures FailuresExplained(RuledOut(t, root, x), root)
  {
    var t' := RuledOut(t, root, x);
    MarkKeepsShape(t, root, StillEligibleBelow(t, root, x), x);
    forall h | h in t' && !t'[h].IsEligible() ensures exists a :: Culprit(t', root, a, h) {
      var a := RuledOutCulprit(t, root, x, h);
    }
  }

  predicate HasParentIn(e: Entry, s: set<Hash256>) {
    e.parent.Some? && e.parent.value in s
  }

  /** Every eligible child of an entry in `s`, those waiting in `frontier` apart, is in `s`. */
  ghost predicate ClosedBut(t: Tree, s: set<Hash256>, frontier: set<Hash256>) {
    forall c {:trigger c in s} :: c in t && t[c].IsEligible() && HasParentIn(t[c], s - frontier) ==> c in s
  }

  /** A set grown from `x` by eligible children holds every eligible entry below `x`: skipping a child
      that had already failed skips nothing, because nothing under it is eligible. */
  lemma {:induction false} ClosureReaches(t: Tree, root: Hash256, x: Hash256, s: set<Hash256>, h: Hash256)
    requires Linked(t, root) && FailuresPropagated(t, root)
    requires x in s && ClosedBut(t, s, {})
    requires h in t && t[h].IsEligible() && Below(t, root, x, h)
    ensures h in s
    decreases t[h].sequence
  {
    if h != x {
      var up := t[h].parent.value;
      ClosureReaches(t, root, x, s, up);
      assert up in s - {};
    }
  }

  lemma ClosureStart(t: Tree, root: Hash256, x: Hash256)
    requires Linked(t, root) && x in t && t[x].IsEligible()
    ensures {x} <= StillEligibleBelow(t, root, x) && ClosedBut(t, {x}, {x})
  {
    assert Path(t, root, x)[|Path(t, root, x)| - 1] == x;
  }

  lemma ClosureEnd(t: Tree, root: Hash256, x: Hash256, s: set<Hash256>)
    requires Linked(t, root) && FailuresPropagated(t, root)
    requires x in s && s <= StillEligibleBelow(t, root, x) && ClosedBut(t, s, {})
    ensures s == StillEligibleBelow(t, root, x)
  {
    forall h | h in StillEligibleBelow(t, root, x) ensures h in s {
      ClosureReaches(t, root, x, s, h);
    }
  }

  /** Growing the set by the eligible children of an entry taken off the frontier. */
  lemma ClosureStep(t: Tree, root: Hash256, x: Hash256, s: set<Hash256>, s': set<Hash256>,
                    frontier: set<Hash256>, frontier': set<Hash256>, current: Hash256)
    requires Linked(t, root) && current in s && s <= StillEligibleBelow(t, root, x) && s <= s'
    requires forall c :: c in s' - s ==> c in t && t[c].IsEligible() && t[c].parent == Some(current)
    requires forall c :: c in t && t[c].IsEligible() && t[c].parent == Some(current) ==> c in s'
    requires ClosedBut(t, s, frontier)
    requires frontier' >= (frontier - {current}) + (s' - s)
    ensures s' <= StillEligibleBelow(t, root, x) && ClosedBut(t, s', frontier')
  {
    forall c | c in s' - s ensures c in StillEligibleBelow(t, root, x) {
      assert c != root;
      assert Path(t, root, c) == Path(t, root, current) + [c];
    }
    forall c | c in t && t[c].IsEligible() && HasParentIn(t[c], s' - frontier') ensures c in s' {
      if t[c].parent.value != current {
        assert t[c].parent.value in s - frontier;
        assert c in s;
      }
    }
  }

  lemma NothingLeftToRuleOut(t: Tree, root: Hash256, x: Hash256)
    requires Linked(t, root) && FailuresPropagated(t, root) && x in t && !t[x].IsEligible()
    ensures StillEligibleBelow(t, root, x) == {} && RuledOut(t, root, x) == t
  {
    forall h | h in t && t[h].IsEligible() ensures !Below(t, root, x, h) {
      if Below(t, root, x, h) {
        EligiblePath(t, root, h, x);
      }
    }
  }
}
