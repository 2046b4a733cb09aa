/** Planning the move from one tip to another. */
module ChainSwitch {
  import opened IndexTree
  import opened Primitives

  datatype Plan = Plan(forkPoint: Option<Hash256>, disconnect: seq<Hash256>, connect: seq<Hash256>)

  function Reversed(s: seq<Hash256>): (r: seq<Hash256>)
    ensures |r| == |s|
  {
    if s == [] then [] else Reversed(s[1..]) + [s[0]]
  }

  lemma ReversedStep(s: seq<Hash256>, i: nat)
    requires 0 < i <= |s|
    ensures Reversed(s[i - 1..]) == Reversed(s[i..]) + [s[i - 1]]
  {
    assert s[i - 1..][1..] == s[i..];
  }

  lemma {:induction false} ReversedAt(s: seq<Hash256>, i: nat)
    requires i < |s|
    ensures Reversed(s)[i] == s[|s| - 1 - i]
  {
    if i < |s| - 1 {
      ReversedAt(s[1..], i);
    }
  }

  lemma ReversedNothing(s: seq<Hash256>)
    ensures Reversed(s[|s|..]) == []
  {
  }

  lemma ReversedTwice(s: seq<Hash256>)
    ensures Reversed(Reversed(s)) == s
  {
    forall i | 0 <= i < |s| ensures Reversed(Reversed(s))[i] == s[i] {
      ReversedAt(Reversed(s), i);
      ReversedAt(s, |s| - 1 - i);
    }
  }

  /** An entry shared by two paths sits at the same position in both. */
  lemma SharedPosition(t: Tree, root: Hash256, x: Hash256, y: Hash256, i: nat, j: nat)
    requires Linked(t, root) && x in t && y in t
    requires i < |Path(t, root, x)| && j < |Path(t, root, y)| && Path(t, root, x)[i] == Path(t, root, y)[j]
    ensures i == j && Path(t, root, x)[..i + 1] == Path(t, root, y)[..j + 1]
  {
    PathPrefix(t, root, x, i);
    PathPrefix(t, root, y, j);
  }

  /** What a plan between two entries of one tree must be: the paths share their first `k` entries and
      nothing after, the fork point is the last one shared, and the plan holds what remains of each. */
  ghost predicate IsPlan(a: seq<Hash256>, b: seq<Hash256>, plan: Plan, k: nat) {
    && 0 < k <= |a| && k <= |b|
    && a[..k] == b[..k]
    && plan.forkPoint == Some(a[k - 1])
    && plan.disconnect == Reversed(a[k..])
    && plan.connect == b[k..]
    && (forall h :: h in a[k..] ==> h !in b)
    && (forall h :: h in b[k..] ==> h !in a)
  }

  /** Carrying a plan out turns the old path into the new one, and no common ancestor lies deeper than
      its fork point. */
  lemma PlanCarriedOut(t: Tree, root: Hash256, x: Hash256, y: Hash256, plan: Plan, k: nat)
    requires Linked(t, root) && x in t && y in t
    requires IsPlan(Path(t, root, x), Path(t, root, y), plan, k)
    ensures Path(t, root, x)[..|Path(t, root, x)| - |plan.disconnect|] + plan.connect == Path(t, root, y)
    ensures forall h :: Below(t, root, h, x) && Below(t, root, h, y) ==> Below(t, root, h, plan.forkPoint.value)
  {
    hide Reversed, Path;
    var a, b := Path(t, root, x), Path(t, root, y);
    PathPrefix(t, root, x, k - 1);
    SharedLiesBelow(a, b, k);
    PlanRejoins(a, b, plan, k);
  }

  lemma PlanRejoins(a: seq<Hash256>, b: seq<Hash256>, plan: Plan, k: nat)
    requires IsPlan(a, b, plan, k)
    ensures |plan.disconnect| == |a| - k && a[..k] + plan.connect == b
  {
    hide Reversed;
    assert b == b[..k] + b[k..];
  }

  lemma SharedLiesBelow(a: seq<Hash256>, b: seq<Hash256>, k: nat)
    requires k <= |a| && forall h :: h in a[k..] ==> h !in b
    ensures forall h :: h in a && h in b ==> h in a[..k]
  {
    assert a == a[..k] + a[k..];
  }

  /** Positions, heights and parents along a path, all at once. */
  ghost predicate Charted(t: Tree, path: seq<Hash256>, base: nat) {
    && (forall i :: 0 <= i < |path| ==> path[i] in t)
    && (forall i {:trigger t[path[i]]} :: 0 <= i < |path| ==>
          && t[path[i]].height == base + i
          && t[path[i]].parent == if i == 0 then None else Some(path[i - 1]))
  }

  lemma PathCharted(t: Tree, root: Hash256, h: Hash256)
    requires Linked(t, root) && Heights(t, root) && h in t
    ensures root in t && Charted(t, Path(t, root, h), t[root].height) && Path(t, root, h)[0] == root
  {
    var path := Path(t, root, h);
    forall i | 0 <= i < |path|
      ensures t[path[i]].height == t[root].height + i
      ensures t[path[i]].parent == if i == 0 then None else Some(path[i - 1])
    {
      PathPrefix(t, root, h, i);
      PathLength(t, root, path[i]);
    }
    PathPrefix(t, root, h, 0);
  }

  /** The cursor has `i` entries of the path at or below it. */
  predicate At(path: seq<Hash256>, cursor: Option<Hash256>, i: nat) {
    i <= |path| && cursor == if i == 0 then None else Some(path[i - 1])
  }

  /** A common suffix position rules out sharing: what lies past the other path's end, or differs from
      it at the same position, is not on it at all. */
  lemma Apart(t: Tree, root: Hash256, x: Hash256, y: Hash256, k: nat)
    requires Linked(t, root) && x in t && y in t
    requires var a, b := Path(t, root, x), Path(t, root, y);
             && 0 < k <= |a| && k <= |b| && a[k - 1] == b[k - 1]
             && Differ(a, b, k, if |a| < |b| then |a| else |b|)
    ensures var a, b := Path(t, root, x), Path(t, root, y);
            && a[..k] == b[..k]
            && (forall h :: h in a[k..] ==> h !in b)
            && (forall h :: h in b[k..] ==> h !in a)
  {
    var a, b := Path(t, root, x), Path(t, root, y);
    SharedPosition(t, root, x, y, k - 1, k - 1);
    forall i, j | 0 <= i < |a| && 0 <= j < |b| && a[i] == b[j] ensures i == j {
      SharedPosition(t, root, x, y, i, j);
    }
    hide Path, Linked;
  }

  method LowerOlder(t: Tree, ghost a: seq<Hash256>, ghost base: nat, from: Option<Hash256>, height: nat)
    returns (older: Option<Hash256>, disconnect: seq<Hash256>, ghost i: nat)
    requires Charted(t, a, base) && At(a, from, |a|) && height >= base
    ensures At(a, older, i) && disconnect == Reversed(a[i..])
    ensures i == if base + |a| > height + 1 then height + 1 - base else |a|
  {
    hide Reversed;
    assert Reversed(a[|a|..]) == [] by { ReversedNothing(a); }
    older, disconnect, i := from, [], |a|;
    while older.Some? && t[older.value].height > height
      invariant At(a, older, i) && disconnect == Reversed(a[i..])
      invariant i == |a| || base + i > height
      decreases i
    {
      ReversedStep(a, i);
      disconnect := disconnect + [older.value];
      older := t[older.value].parent;
      i := i - 1;
    }
  }

  method LowerNewer(t: Tree, ghost a: seq<Hash256>, ghost b: seq<Hash256>, ghost base: nat,
                    older: Option<Hash256>, to': Option<Hash256>, ghost i: nat)
    returns (newer: Option<Hash256>, connect: seq<Hash256>, ghost j: nat)
    requires Charted(t, a, base) && Charted(t, b, base) && At(a, older, i) && At(b, to', |b|) && i <= |b|
    ensures At(b, newer, j) && connect == Reversed(b[j..]) && j == i
  {
    hide Reversed;
    assert Reversed(b[|b|..]) == [] by { ReversedNothing(b); }
    newer, connect, j := to', [], |b|;
    while newer.Some? && (older.None? || t[newer.value].height > t[older.value].height)
      invariant At(b, newer, j) && connect == Reversed(b[j..]) && j >= i
      decreases j
    {
      ReversedStep(b, j);
      connect := connect + [newer.value];
      newer := t[newer.value].parent;
      j := j - 1;
    }
  }

  /** The two paths hold different entries at every position from `k` up to `top`. */
  ghost predicate Differ(a: seq<Hash256>, b: seq<Hash256>, k: nat, top: nat) {
    forall q :: k <= q < top && q < |a| && q < |b| ==> a[q] != b[q]
  }

  lemma DifferStep(a: seq<Hash256>, b: seq<Hash256>, k: nat, top: nat)
    requires top <= |a| && top <= |b| && k <= top
    ensures Differ(a, b, top, top)
    ensures 0 < k && Differ(a, b, k, top) && a[k - 1] != b[k - 1] ==> Differ(a, b, k - 1, top)
  {
  }

  method StepTogether(t: Tree, ghost a: seq<Hash256>, ghost b: seq<Hash256>, ghost base: nat,
                      from: Option<Hash256>, to': Option<Hash256>, ghost top: nat,
                      disconnected: seq<Hash256>, connected: seq<Hash256>)
    returns (older: Option<Hash256>, newer: Option<Hash256>, disconnect: seq<Hash256>, connect: seq<Hash256>,
             ghost k: nat)
    requires Charted(t, a, base) && Charted(t, b, base) && At(a, from, top) && At(b, to', top)
    requires disconnected == Reversed(a[top..]) && connected == Reversed(b[top..])
    ensures k <= top && At(a, older, k) && At(b, newer, k) && older == newer
    ensures disconnect == Reversed(a[k..]) && connect == Reversed(b[k..])
    ensures Differ(a, b, k, top)
  {
    hide Reversed, Differ, Charted;
    assert Differ(a, b, top, top) by { DifferStep(a, b, top, top); }
    older, newer, disconnect, connect, k := from, to', disconnected, connected, top;
    while older.Some? && newer.Some? && older != newer
      invariant k <= top && At(a, older, k) && At(b, newer, k)
      invariant disconnect == Reversed(a[k..]) && connect == Reversed(b[k..])
      invariant Differ(a, b, k, top)
      decreases k
    {
      DifferStep(a, b, k, top);
      StepDown(t, a, base, k);
      StepDown(t, b, base, k);
      ReversedStep(a, k);
      ReversedStep(b, k);
      disconnect, connect := disconnect + [older.value], connect + [newer.value];
      older, newer := t[older.value].parent, t[newer.value].parent;
      k := k - 1;
    }
  }

  lemma StepDown(t: Tree, path: seq<Hash256>, base: nat, i: nat)
    requires Charted(t, path, base) && 0 < i <= |path|
    ensures path[i - 1] in t && At(path, t[path[i - 1]].parent, i - 1)
  {
  }

  lemma TopHeight(t: Tree, path: seq<Hash256>, base: nat)
    requires Charted(t, path, base) && path != []
    ensures path[|path| - 1] in t && t[path[|path| - 1]].height == base + |path| - 1
  {
  }

  /** Where the three walks end: both cursors `k` entries up their paths, which differ everywhere above. */
  ghost predicate Walked(a: seq<Hash256>, b: seq<Hash256>, plan: Plan, k: nat) {
    && At(a, plan.forkPoint, k) && At(b, plan.forkPoint, k)
    && plan.disconnect == Reversed(a[k..]) && plan.connect == b[k..]
    && Differ(a, b, k, if |a| < |b| then |a| else |b|)
  }

  /** The three walks one after another, over two charted paths. */
  method WalkBack(t: Tree, ghost a: seq<Hash256>, ghost b: seq<Hash256>, ghost base: nat,
                  from: Option<Hash256>, to': Hash256)
    returns (plan: Plan, ghost k: nat)
    requires Charted(t, a, base) && Charted(t, b, base)
    requires At(a, from, |a|) && b != [] && b[|b| - 1] == to'
    ensures Walked(a, b, plan, k)
  {
    hide Reversed, Differ, Charted;
    TopHeight(t, b, base);
    var older, disconnect, i := LowerOlder(t, a, base, from, t[to'].height);
    var newer, connect, _ := LowerNewer(t, a, b, base, older, Some(to'), i);
    older, newer, disconnect, connect, k := StepTogether(t, a, b, base, older, newer, i, disconnect, connect);
    ReversedTwice(b[k..]);
    plan := Plan(if older == newer then older else None, disconnect, Reversed(connect));
  }

  method PlanChainSwitch(t: Tree, ghost root: Hash256, from: Option<Hash256>, to': Option<Hash256>)
    returns (plan: Plan, ghost k: nat)
    requires Linked(t, root) && Heights(t, root)
    requires (from.Some? ==> from.value in t) && (to'.Some? ==> to'.value in t)
    ensures to'.None? ==> plan == Plan(None, [], [])
    ensures from.None? && to'.Some? ==> plan == Plan(None, [], Path(t, root, to'.value))
    ensures from.Some? && to'.Some? ==> IsPlan(Path(t, root, from.value), Path(t, root, to'.value), plan, k)
  {
    hide Path, Linked, Heights, Charted, Walked, IsPlan, At;
    if to'.None? {
      return Plan(None, [], []), 0;
    }
    PathCharted(t, root, to'.value);
    ghost var b, base := Path(t, root, to'.value), t[root].height;
    if from.None? {
      NothingCharted(t, base);
      plan, k := WalkBack(t, [], b, base, None, to'.value);
      PlanFromNothing(b, plan, k);
    } else {
      PathCharted(t, root, from.value);
      AtTop(Path(t, root, from.value));
      plan, k := WalkBack(t, Path(t, root, from.value), b, base, from, to'.value);
      WalkedIsPlan(t, root, from.value, to'.value, plan, k);
    }
  }

  lemma NothingCharted(t: Tree, base: nat)
    ensures Charted(t, [], base) && At([], None, 0)
  {
  }

  lemma AtTop(path: seq<Hash256>)
    requires path != []
    ensures At(path, Some(path[|path| - 1]), |path|)
  {
  }

  lemma PlanFromNothing(b: seq<Hash256>, plan: Plan, k: nat)
    requires Walked([], b, plan, k)
    ensures plan == Plan(None, [], b)
  {
  }

  lemma WalkedIsPlan(t: Tree, root: Hash256, x: Hash256, y: Hash256, plan: Plan, k: nat)
    requires Linked(t, root) && Heights(t, root) && x in t && y in t
    requires Walked(Path(t, root, x), Path(t, root, y), plan, k)
    ensures IsPlan(Path(t, root, x), Path(t, root, y), plan, k)
  {
    hide Path, Heights, Linked, Reversed, Differ;
    ForkExists(t, root, x, y, k);
    Apart(t, root, x, y, k);
  }

  /** Two paths of one tree share the root, so stepping both back never runs off the end. */
  lemma ForkExists(t: Tree, root: Hash256, x: Hash256, y: Hash256, k: nat)
    requires Linked(t, root) && Heights(t, root) && x in t && y in t
    requires var a, b := Path(t, root, x), Path(t, root, y); Differ(a, b, k, if |a| < |b| then |a| else |b|)
    ensures k > 0
  {
    PathCharted(t, root, x);
    PathCharted(t, root, y);
  }
}
