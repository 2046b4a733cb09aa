/** Two nodes on one tip are on one chain and hold one set of coins. */
module Agreement {
  import opened ChainSpec
  import opened ConnectSpec
  import opened HeaderRules
  import opened IndexTree
  import Merkle
  import opened Primitives
  import opened Validation

  /** A node between two calls, as a value. */
  datatype Node = Node(t: Tree, order: seq<Hash256>, chain: seq<Hash256>, view: CoinSet, blocks: Bodies, undos: Undos)

  ghost predicate Sound(n: Node, p: Params) {
    Consistent(n.t, n.order, n.chain, n.view, n.blocks, n.undos, p)
  }

  /** No collision ties one hash to two bodies among what the two nodes hold. */
  ghost predicate BodiesCommit(blocks: Bodies, blocks': Bodies, p: Params) {
    && HashCommits(p) && WtxidCommits(p)
    && forall h :: h in blocks && h in blocks' ==>
         Merkle.Apart(Wtxids(blocks[h].transactions, p), Wtxids(blocks'[h].transactions, p), p.merkle)
  }

  lemma CommitEitherWay(blocks: Bodies, blocks': Bodies, p: Params)
    requires BodiesCommit(blocks, blocks', p)
    ensures BodiesCommit(blocks', blocks, p)
  {
    hide Merkle.Apart;
    forall h | h in blocks && h in blocks'
      ensures Merkle.Apart(Wtxids(blocks'[h].transactions, p), Wtxids(blocks[h].transactions, p), p.merkle)
    {
      Merkle.ApartEitherWay(Wtxids(blocks[h].transactions, p), Wtxids(blocks'[h].transactions, p), p.merkle);
    }
  }

  /** Whatever order headers arrived in, one header has one history and one total of work behind it. */
  lemma {:induction false} SameAncestry(t: Tree, order: seq<Hash256>, t': Tree, order': seq<Hash256>, h: Hash256,
                                        p: Params)
    requires IndexInvariant(t, p.hash(p.genesis), order, p) && IndexInvariant(t', p.hash(p.genesis), order', p)
    requires HashCommits(p) && TreeAdmitted(t, p) && TreeAdmitted(t', p) && h in t && h in t'
    ensures Path(t', p.hash(p.genesis), h) == Path(t, p.hash(p.genesis), h) && t'[h].totalWork == t[h].totalWork
    decreases t[h].sequence
  {
    hide Judged, Arrivals, FailuresPropagated, FailuresExplained, Heights, AddWork;
    if h != p.hash(p.genesis) {
      assert p.hash(t[h].header) == p.hash(t'[h].header);
      SameAncestry(t, order, t', order', t[h].parent.value, p);
    }
  }

  /** The bodies of both nodes passed on their own. */
  ghost predicate Stored(t: Tree, blocks: Bodies, t': Tree, blocks': Bodies, p: Params) {
    StoreKeyed(t, blocks, p) && StoreSound(blocks, p) && StoreKeyed(t', blocks', p) && StoreSound(blocks', p)
  }

  /** One hash has one body. */
  lemma SameBody(t: Tree, blocks: Bodies, t': Tree, blocks': Bodies, h: Hash256, p: Params)
    requires Stored(t, blocks, t', blocks', p) && BodiesCommit(blocks, blocks', p) && h in blocks && h in blocks'
    ensures blocks'[h] == blocks[h]
  {
    hide BlockVerdict, Merkle.Apart;
    HeaderCommits(blocks[h], blocks'[h], p);
  }

  lemma {:induction false} SameReplay(chain: seq<Hash256>, t: Tree, blocks: Bodies, t': Tree, blocks': Bodies,
                                      p: Params)
    requires Stored(t, blocks, t', blocks', p) && BodiesCommit(blocks, blocks', p)
    requires Replay(chain, blocks, p).Some? && Replay(chain, blocks', p).Some?
    ensures Replay(chain, blocks', p) == Replay(chain, blocks, p)
  {
    hide Stored, BodiesCommit, Connect;
    if |chain| > 1 {
      var n := |chain| - 1;
      SameReplay(chain[..n], t, blocks, t', blocks', p);
      SameBody(t, blocks, t', blocks', chain[n], p);
    }
  }

  /** What two sound nodes have to do with one another. */
  lemma SoundTogether(a: Node, b: Node, p: Params)
    requires Sound(a, p) && Sound(b, p)
    ensures Stored(a.t, a.blocks, b.t, b.blocks, p) && a.chain != [] && b.chain != []
    ensures forall h :: h in a.t && h in b.t ==>
              && Linked(a.t, p.hash(p.genesis)) && Linked(b.t, p.hash(p.genesis))
              && Path(b.t, p.hash(p.genesis), h) == Path(a.t, p.hash(p.genesis), h)
              && b.t[h].totalWork == a.t[h].totalWork
  {
    hide IndexInvariant, StoreKeyed, StoreSound, TreeAdmitted, Path, InStep, HashCommits, Linked;
    forall h | h in a.t && h in b.t
      ensures Linked(a.t, p.hash(p.genesis)) && Linked(b.t, p.hash(p.genesis))
      ensures Path(b.t, p.hash(p.genesis), h) == Path(a.t, p.hash(p.genesis), h)
      ensures b.t[h].totalWork == a.t[h].totalWork
    {
      SameAncestry(a.t, a.order, b.t, b.order, h, p);
    }
  }

  /** Whatever either was offered, in whatever order, and however often it switched branches, two nodes with the
      same tip have the same chain, the same coins, and the same undo record for every block of it. */
  lemma NodesAgree(a: Node, b: Node, p: Params)
    requires Sound(a, p) && Sound(b, p) && BodiesCommit(a.blocks, b.blocks, p)
    requires a.chain != [] && b.chain != [] && a.chain[|a.chain| - 1] == b.chain[|b.chain| - 1]
    ensures b.chain == a.chain && b.view == a.view
    ensures forall i :: 1 <= i < |a.chain| ==>
              var h := a.chain[i]; h in a.undos && h in b.undos && b.undos[h] == a.undos[h]
  {
    hide IndexInvariant, StoreKeyed, StoreSound, Path, Replay, Connect, BodiesCommit, UndosMatch, Stored;
    SoundTogether(a, b, p);
    SameReplay(a.chain, a.t, a.blocks, b.t, b.blocks, p);
    forall i | 1 <= i < |a.chain|
      ensures var h := a.chain[i]; h in a.undos && h in b.undos && b.undos[h] == a.undos[h]
    {
      SameUndo(a.chain, i, a, b, p);
    }
  }

  lemma SameUndo(chain: seq<Hash256>, i: nat, a: Node, b: Node, p: Params)
    requires Stored(a.t, a.blocks, b.t, b.blocks, p) && BodiesCommit(a.blocks, b.blocks, p) && 1 <= i < |chain|
    requires UndosMatch(chain, a.blocks, a.undos, p) && UndosMatch(chain, b.blocks, b.undos, p)
    ensures var h := chain[i]; h in a.undos && h in b.undos && b.undos[h] == a.undos[h]
  {
    hide Stored, Replay, Connect, BodiesCommit;
    assert UndoAt(chain, i, a.blocks, a.undos, p) && UndoAt(chain, i, b.blocks, b.undos, p);
    SameReplay(chain[..i], a.t, a.blocks, b.t, b.blocks, p);
    SameBody(a.t, a.blocks, b.t, b.blocks, chain[i], p);
  }
}
