/** The commitment a header makes to its transactions. */
module Merkle {
  import opened Primitives

  /** The tagged hashes of leaves, of branches, and of the root, which also takes in how many leaves there are. */
  datatype Tags = Tags(
    leaf: Hash256 -> Hash256,
    branch: (Hash256, Hash256) -> Hash256,
    root: (nat, Hash256) -> Hash256)

  function Leaves(wtxids: seq<Hash256>, tags: Tags): (r: seq<Hash256>)
    ensures |r| == |wtxids|
  {
    seq(|wtxids|, i requires 0 <= i < |wtxids| => tags.leaf(wtxids[i]))
  }

  /** Neighbours joined two by two, one left over rising as it is. */
  function Joined(level: seq<Hash256>, tags: Tags): (r: seq<Hash256>)
    ensures |r| == (|level| + 1) / 2
  {
    if |level| <= 1 then level else [tags.branch(level[0], level[1])] + Joined(level[2..], tags)
  }

  function Top(level: seq<Hash256>, tags: Tags): Hash256
    requires level != []
    decreases |level|
  {
    if |level| == 1 then level[0] else Top(Joined(level, tags), tags)
  }

  function Root(wtxids: seq<Hash256>, tags: Tags): Option<Hash256> {
    if wtxids == [] then None else Some(tags.root(|wtxids|, Top(Leaves(wtxids, tags), tags)))
  }

  lemma JoinStep(level: seq<Hash256>, index: nat, tags: Tags)
    requires index + 1 < |level|
    ensures Joined(level[index..], tags)
         == [tags.branch(level[index], level[index + 1])] + Joined(level[index + 2..], tags)
  {
    assert level[index..][2..] == level[index + 2..];
  }

  lemma JoinEnd(level: seq<Hash256>, index: nat, tags: Tags)
    requires index <= |level| <= index + 1
    ensures Joined(level[index..], tags) == if index < |level| then [level[index]] else []
  {
  }

  method JoinLevel(level: seq<Hash256>, tags: Tags) returns (next: seq<Hash256>)
    ensures next == Joined(level, tags)
  {
    hide Joined;
    next := [];
    assert level[0..] == level;
    var index := 0;
    while index + 1 < |level|
      invariant index <= |level| && index % 2 == 0
      invariant next + Joined(level[index..], tags) == Joined(level, tags)
    {
      JoinStep(level, index, tags);
      next := next + [tags.branch(level[index], level[index + 1])];
      index := index + 2;
    }
    JoinEnd(level, index, tags);
    if |level| % 2 != 0 {
      next := next + [level[|level| - 1]];
    }
  }

  method ComputeMerkleRoot(wtxids: seq<Hash256>, tags: Tags) returns (root: Option<Hash256>)
    ensures root == Root(wtxids, tags)
  {
    if wtxids == [] {
      return None;
    }
    var level := Leaves(wtxids, tags);
    while |level| > 1
      invariant level != [] && Top(level, tags) == Top(Leaves(wtxids, tags), tags)
      decreases |level|
    {
      level := JoinLevel(level, tags);
    }
    return Some(tags.root(|wtxids|, level[0]));
  }

  // --- The root commits to the list ---

  /** Every hash on the way from this level to the top. */
  ghost function Computed(level: seq<Hash256>, tags: Tags): set<Hash256>
    decreases |level|
  {
    (set x | x in level) + if |level| <= 1 then {} else Computed(Joined(level, tags), tags)
  }

  ghost predicate BranchesApart(held: set<Hash256>, tags: Tags) {
    forall a, b, c, d :: a in held && b in held && c in held && d in held && tags.branch(a, b) == tags.branch(c, d) ==>
      a == c && b == d
  }

  /** No two hashes taken of the leaves, of the branches or of the roots of these two lists collide. */
  ghost predicate Apart(a: seq<Hash256>, b: seq<Hash256>, tags: Tags) {
    && (forall x, y :: x in a + b && y in a + b && tags.leaf(x) == tags.leaf(y) ==> x == y)
    && BranchesApart(Computed(Leaves(a, tags), tags) + Computed(Leaves(b, tags), tags), tags)
    && (a != [] && b != [] && Root(a, tags) == Root(b, tags) ==>
          |a| == |b| && Top(Leaves(a, tags), tags) == Top(Leaves(b, tags), tags))
  }

  lemma ApartEitherWay(a: seq<Hash256>, b: seq<Hash256>, tags: Tags)
    requires Apart(a, b, tags)
    ensures Apart(b, a, tags)
  {
    hide BranchesApart, Root;
    var x, y := Computed(Leaves(a, tags), tags), Computed(Leaves(b, tags), tags);
    assert x + y == y + x;
    assert forall h :: h in b + a ==> h in a + b;
  }

  lemma {:induction false} JoinedCommits(a: seq<Hash256>, b: seq<Hash256>, held: set<Hash256>, tags: Tags)
    requires BranchesApart(held, tags) && (forall x :: x in a || x in b ==> x in held)
    requires |a| == |b| && Joined(a, tags) == Joined(b, tags)
    ensures a == b
  {
    if |a| > 1 {
      assert Joined(a, tags)[0] == Joined(b, tags)[0];
      assert Joined(a, tags)[1..] == Joined(a[2..], tags) && Joined(b, tags)[1..] == Joined(b[2..], tags);
      JoinedCommits(a[2..], b[2..], held, tags);
      assert a == [a[0], a[1]] + a[2..] && b == [b[0], b[1]] + b[2..];
    }
  }

  lemma {:induction false} TopCommits(a: seq<Hash256>, b: seq<Hash256>, held: set<Hash256>, tags: Tags)
    requires BranchesApart(held, tags) && Computed(a, tags) + Computed(b, tags) <= held
    requires |a| == |b| > 0 && Top(a, tags) == Top(b, tags)
    ensures a == b
    decreases |a|
  {
    hide BranchesApart;
    if |a| > 1 {
      TopCommits(Joined(a, tags), Joined(b, tags), held, tags);
      forall x | x in a || x in b ensures x in held {
        assert x in a ==> x in Computed(a, tags);
        assert x in b ==> x in Computed(b, tags);
      }
      JoinedCommits(a, b, held, tags);
    }
  }

  /** Two lists whose hashes do not collide have one root if and only if they are one list: the count in the
      root fixes the shape of the tree, so a branch can pass neither for a leaf nor for a repeated one. */
  lemma RootCommits(a: seq<Hash256>, b: seq<Hash256>, tags: Tags)
    requires Apart(a, b, tags)
    ensures Root(a, tags) == Root(b, tags) <==> a == b
  {
    hide BranchesApart;
    if Root(a, tags) == Root(b, tags) && a != [] {
      var x, y := Leaves(a, tags), Leaves(b, tags);
      TopCommits(x, y, Computed(x, tags) + Computed(y, tags), tags);
      forall i | 0 <= i < |a| ensures a[i] == b[i] {
        assert x[i] == y[i] && a[i] in a + b && b[i] in a + b;
      }
    }
  }

  // --- The shape of the tree ---

  /** Split at an even place, a level is joined half by half. */
  lemma {:induction false} JoinedApart(a: seq<Hash256>, b: seq<Hash256>, tags: Tags)
    requires |a| % 2 == 0
    ensures Joined(a + b, tags) == Joined(a, tags) + Joined(b, tags)
  {
    if a == [] {
      assert a + b == b;
    } else {
      assert (a + b)[2..] == a[2..] + b && (a + b)[0] == a[0] && (a + b)[1] == a[1];
      JoinedApart(a[2..], b, tags);
    }
  }

  function TwoTo(k: nat): nat {
    if k == 0 then 1 else 2 * TwoTo(k - 1)
  }

  /** A level split after a full half, the rest no longer than it, has the branch of the two tops as its top. */
  lemma {:induction false} TopSplits(a: seq<Hash256>, b: seq<Hash256>, k: nat, tags: Tags)
    requires |a| == TwoTo(k) && 0 < |b| <= |a|
    ensures Top(a + b, tags) == tags.branch(Top(a, tags), Top(b, tags))
    decreases k
  {
    if k > 0 {
      JoinedApart(a, b, tags);
      TopSplits(Joined(a, tags), Joined(b, tags), k - 1, tags);
    } else {
      assert Joined(a + b, tags) == [tags.branch(a[0], b[0])];
    }
  }

  /** The root of one leaf is its own tagged hash under the root's; the tree of more is split after the largest
      full half of it, left before right. */
  lemma RootSplits(a: seq<Hash256>, b: seq<Hash256>, k: nat, tags: Tags)
    requires |a| == TwoTo(k) && 0 < |b| <= |a|
    ensures Root([a[0]], tags) == Some(tags.root(1, tags.leaf(a[0])))
    ensures Root(a + b, tags)
         == Some(tags.root(|a| + |b|, tags.branch(Top(Leaves(a, tags), tags), Top(Leaves(b, tags), tags))))
  {
    assert Leaves(a + b, tags) == Leaves(a, tags) + Leaves(b, tags);
    TopSplits(Leaves(a, tags), Leaves(b, tags), k, tags);
  }
}
