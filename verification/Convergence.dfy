/** Nodes that know the same headers and hold the same bodies end on chains of the same work, and without a tie
    on the same chain. */
module Convergence {
  import opened Agreement
  import opened ChainSpec
  import opened ChainStates
  import opened ConnectSpec
  import opened HeaderRules
  import opened IndexTree
  import opened Primitives
  import opened Validation

  function Last(chain: seq<Hash256>): Hash256
    requires chain != []
  {
    chain[|chain| - 1]
  }

  /** What an activation from `before` that reached its best header leaves, having refused these blocks. */
  ghost predicate Activated(before: Tree, n: Node, rejected: seq<RejectedBlock>, p: Params) {
    && Sound(n, p) && n.chain != [] && IsBest(n.t, Some(Last(n.chain)))
    && LostTo(before, n.t, p.hash(p.genesis), Hashes(rejected))
    && forall i :: 0 <= i < |rejected| ==> RightlyRefused(before, p.hash(p.genesis), rejected[i], n.blocks, p)
  }

  /** The same headers are known, and the same ones stand. */
  ghost predicate SameKnowledge(t: Tree, t': Tree) {
    t.Keys == t'.Keys && forall h :: h in t ==> (t[h].IsEligible() <==> t'[h].IsEligible())
  }

  /** A block on a chain that is in step connects where it stands. */
  lemma ConnectsWhereItStands(n: Node, i: nat, p: Params)
    requires Sound(n, p) && 1 <= i < |n.chain|
    ensures n.chain[i] in n.blocks && Replay(n.chain[..i], n.blocks, p).Some?
    ensures ConnectSpec.Connect(n.blocks[n.chain[i]], Replay(n.chain[..i], n.blocks, p).value, p).Ok?
    ensures Linked(n.t, p.hash(p.genesis)) && n.chain[i - 1] in n.t && n.chain[i] in n.t
    ensures n.chain[..i] == Path(n.t, p.hash(p.genesis), n.chain[i - 1])
    ensures n.t[n.chain[i]].parent == Some(n.chain[i - 1])
  {
    hide IndexInvariant, StoreKeyed, StoreSound, TreeAdmitted, Replay, ConnectSpec.Connect, Path, HashCommits;
    assert UndoAt(n.chain, i, n.blocks, n.undos, p);
    PathPrefix(n.t, p.hash(p.genesis), Last(n.chain), i - 1);
    PathPrefix(n.t, p.hash(p.genesis), Last(n.chain), i);
    assert n.chain[..i - 1 + 1] == n.chain[..i];
  }

  /** What one node has connected, another that holds the same bodies never rightly refuses. */
  lemma NeverRefusedElsewhere(a: Node, b: Node, before: Tree, refused: set<Hash256>, r: RejectedBlock, p: Params)
    requires Sound(a, p) && Sound(b, p) && BodiesCommit(a.blocks, b.blocks, p) && a.t.Keys == b.t.Keys
    requires LostTo(before, b.t, p.hash(p.genesis), refused)
    requires RightlyRefused(before, p.hash(p.genesis), r, b.blocks, p)
    ensures r.hash !in a.chain
  {
    hide Sound, BodiesCommit, Replay, ConnectSpec.Connect, Path, Linked, LostTo, Stored;
    var root := p.hash(p.genesis);
    forall i | 0 <= i < |a.chain| ensures a.chain[i] != r.hash {
      SoundTogether(a, b, p);
      ParentsCarry(before, b.t, root, refused, r.hash);
      if i == 0 {
        RootHasNoParent(a, b, before, refused, p);
      } else {
        ConnectsSoNotRefused(a, b, before, refused, r, i, p);
      }
    }
  }

  lemma ParentsCarry(before: Tree, t: Tree, root: Hash256, refused: set<Hash256>, h: Hash256)
    requires LostTo(before, t, root, refused) && h in before
    ensures h in t && t[h].parent == before[h].parent
    ensures before[h].parent.Some? && before[h].parent.value in before ==> before[h].parent.value in t
  {
  }

  lemma RootHasNoParent(a: Node, b: Node, before: Tree, refused: set<Hash256>, p: Params)
    requires Sound(a, p) && Sound(b, p) && LostTo(before, b.t, p.hash(p.genesis), refused)
    ensures a.chain != [] && a.chain[0] == p.hash(p.genesis)
    ensures a.chain[0] in before ==> before[a.chain[0]].parent == None
  {
    hide IndexInvariant, StoreKeyed, StoreSound, TreeAdmitted, InStep, Path, HashCommits;
    PathPrefix(a.t, p.hash(p.genesis), Last(a.chain), 0);
  }

  lemma ConnectsSoNotRefused(a: Node, b: Node, before: Tree, refused: set<Hash256>, r: RejectedBlock, i: nat, p: Params)
    requires Sound(a, p) && Sound(b, p) && BodiesCommit(a.blocks, b.blocks, p) && a.t.Keys == b.t.Keys
    requires LostTo(before, b.t, p.hash(p.genesis), refused)
    requires RightlyRefused(before, p.hash(p.genesis), r, b.blocks, p) && 1 <= i < |a.chain|
    ensures a.chain[i] != r.hash
  {
    hide Sound, BodiesCommit, Replay, ConnectSpec.Connect, Path, Linked, LostTo, Stored;
    var root := p.hash(p.genesis);
    SoundTogether(a, b, p);
    ConnectsWhereItStands(a, i, p);
    if a.chain[i] == r.hash {
      SameBody(a.t, a.blocks, b.t, b.blocks, r.hash, p);
      SameParent(a, b, before, refused, r.hash, a.chain[i - 1], p);
      SameReplay(a.chain[..i], a.t, a.blocks, b.t, b.blocks, p);
    }
  }

  /** The tree before, and both trees after, agree on the path to the parent of a block all three know. */
  lemma SameParent(a: Node, b: Node, before: Tree, refused: set<Hash256>, h: Hash256, q: Hash256, p: Params)
    requires Sound(a, p) && Sound(b, p) && a.t.Keys == b.t.Keys && LostTo(before, b.t, p.hash(p.genesis), refused)
    requires h in a.t && h in before && a.t[h].parent == Some(q) && q in a.t
    ensures Linked(before, p.hash(p.genesis)) && q in before && before[h].parent == Some(q)
    ensures Linked(a.t, p.hash(p.genesis)) && Path(before, p.hash(p.genesis), q) == Path(a.t, p.hash(p.genesis), q)
  {
    hide InStep, StoreKeyed, StoreSound, TreeAdmitted, Path, Judged, Heights, Arrivals, FailuresPropagated;
    hide FailuresExplained, OnTree;
    var root := p.hash(p.genesis);
    SameHeader(a, b, h, p);
    SoundTogether(a, b, p);
    PathFrame(before, b.t, root, q);
  }

  lemma SameHeader(a: Node, b: Node, h: Hash256, p: Params)
    requires Sound(a, p) && Sound(b, p) && h in a.t && h in b.t
    ensures a.t[h].header == b.t[h].header && a.t[h].parent == b.t[h].parent
  {
    hide InStep, StoreKeyed, StoreSound, Path, Judged, Heights, Arrivals, FailuresPropagated, FailuresExplained, OnTree;
    assert p.hash(a.t[h].header) == p.hash(b.t[h].header);
  }

  /** So the tip one node reached still stands at the other. */
  lemma TipStandsElsewhere(a0: Tree, a: Node, ra: seq<RejectedBlock>, b0: Tree, b: Node, rb: seq<RejectedBlock>,
                           p: Params)
    requires Activated(a0, a, ra, p) && Activated(b0, b, rb, p) && SameKnowledge(a0, b0)
    requires BodiesCommit(a.blocks, b.blocks, p)
    ensures Last(a.chain) in a.t && Last(a.chain) in b.t && a.t.Keys == b.t.Keys
    ensures a.t[Last(a.chain)].IsEligible() && b.t[Last(a.chain)].IsEligible()
  {
    hide Sound, BodiesCommit, RightlyRefused, Path, Linked, IsBetterTip, Replay;
    var root, tip := p.hash(p.genesis), Last(a.chain);
    forall h | h in Path(b0, root, tip) ensures h !in Hashes(rb) {
      TipPath(a, b, b0, Hashes(rb), p);
      forall i | 0 <= i < |rb| ensures rb[i].hash !in a.chain {
        NeverRefusedElsewhere(a, b, b0, Hashes(rb), rb[i], p);
      }
    }
    assert Spared(b0, root, tip, Hashes(rb));
  }

  lemma TipPath(a: Node, b: Node, before: Tree, refused: set<Hash256>, p: Params)
    requires Sound(a, p) && Sound(b, p) && a.t.Keys == b.t.Keys && LostTo(before, b.t, p.hash(p.genesis), refused)
    requires a.chain != [] && Last(a.chain) in before
    ensures Linked(before, p.hash(p.genesis)) && Path(before, p.hash(p.genesis), Last(a.chain)) == a.chain
  {
    hide IndexInvariant, StoreKeyed, StoreSound, TreeAdmitted, InStep, Path, HashCommits;
    SoundTogether(a, b, p);
    PathFrame(before, b.t, p.hash(p.genesis), Last(a.chain));
  }

  /** Whatever each refused on the way, two nodes that knew the same headers, had the same ones standing and held
      the same bodies reach tips with the same total work. */
  lemma TipsTie(a0: Tree, a: Node, ra: seq<RejectedBlock>, b0: Tree, b: Node, rb: seq<RejectedBlock>, p: Params)
    requires Activated(a0, a, ra, p) && Activated(b0, b, rb, p) && SameKnowledge(a0, b0)
    requires BodiesCommit(a.blocks, b.blocks, p)
    ensures Last(a.chain) in a.t && Last(b.chain) in a.t && Last(a.chain) in b.t && Last(b.chain) in b.t
    ensures a.t[Last(a.chain)].totalWork == a.t[Last(b.chain)].totalWork == b.t[Last(b.chain)].totalWork
    ensures a.t[Last(a.chain)].IsEligible() && a.t[Last(b.chain)].IsEligible()
  {
    hide Sound, BodiesCommit, RightlyRefused, LostTo, Path, Linked, Stored;
    TipStandsElsewhere(a0, a, ra, b0, b, rb, p);
    CommitEitherWay(a.blocks, b.blocks, p);
    TipStandsElsewhere(b0, b, rb, a0, a, ra, p);
    SoundTogether(a, b, p);
  }

  /** And if no two standing entries tie, they are on one chain with one set of coins. */
  lemma NodesConverge(a0: Tree, a: Node, ra: seq<RejectedBlock>, b0: Tree, b: Node, rb: seq<RejectedBlock>, p: Params)
    requires Activated(a0, a, ra, p) && Activated(b0, b, rb, p) && SameKnowledge(a0, b0)
    requires BodiesCommit(a.blocks, b.blocks, p)
    requires forall g, h :: g in a.t && h in a.t && a.t[g].IsEligible() && a.t[h].IsEligible() && g != h ==>
               a.t[g].totalWork != a.t[h].totalWork
    ensures b.chain == a.chain && b.view == a.view
  {
    hide Sound, BodiesCommit, RightlyRefused, LostTo, Path, Linked;
    TipsTie(a0, a, ra, b0, b, rb, p);
    NodesAgree(a, b, p);
  }
}
