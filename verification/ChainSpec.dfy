/** What a chain state is: the active chain, the coins as of its tip, and the bodies and undo records
    that let it move. */
module ChainSpec {
  import opened ConnectSpec
  import opened HeaderRules
  import opened IndexTree
  import opened Issuance
  import Supply
  import opened Primitives
  import opened Validation

  type Bodies = map<Hash256, Block>
  type Undos = map<Hash256, BlockUndo>

  // --- Replay ---

  /** The coins left by connecting the chain's blocks, in order, onto nothing. Genesis is seeded, not
      connected. */
  ghost function Replay(chain: seq<Hash256>, blocks: Bodies, p: Params): Option<CoinSet> {
    if |chain| <= 1 then Some(map[])
    else
      var n := |chain| - 1;
      match Replay(chain[..n], blocks, p)
      case None => None
      case Some(v) =>
        if chain[n] in blocks && Connect(blocks[chain[n]], v, p).Ok?
        then Some(Connect(blocks[chain[n]], v, p).value.view)
        else None
  }

  /** The body and undo record of the `i`th active block are stored, and the record is the one that
      connecting the body there produces. */
  ghost predicate UndoAt(chain: seq<Hash256>, i: nat, blocks: Bodies, undos: Undos, p: Params)
    requires i < |chain|
  {
    && chain[i] in blocks
    && chain[i] in undos
    && Replay(chain[..i], blocks, p).Some?
    && Connect(blocks[chain[i]], Replay(chain[..i], blocks, p).value, p).Ok?
    && Connect(blocks[chain[i]], Replay(chain[..i], blocks, p).value, p).value.undo == undos[chain[i]]
  }

  ghost predicate UndosMatch(chain: seq<Hash256>, blocks: Bodies, undos: Undos, p: Params) {
    forall i {:trigger chain[i]} :: 1 <= i < |chain| ==> UndoAt(chain, i, blocks, undos, p)
  }

  /** Coins, bodies and undo records agree with the chain of hashes. */
  ghost predicate InStep(chain: seq<Hash256>, view: CoinSet, blocks: Bodies, undos: Undos, p: Params) {
    && chain != []
    && Replay(chain, blocks, p) == Some(view)
    && UndosMatch(chain, blocks, undos, p)
  }

  /** The tip can always be reversed, and reversing it gives the coins of the shorter chain. */
  lemma InStepPop(chain: seq<Hash256>, view: CoinSet, blocks: Bodies, undos: Undos, p: Params)
    requires InStep(chain, view, blocks, undos, p) && |chain| > 1
    ensures var n := |chain| - 1;
            && chain[n] in blocks && chain[n] in undos
            && var r := Disconnect(blocks[chain[n]], undos[chain[n]], view, p);
               r.Ok? && InStep(chain[..n], r.value, blocks, undos, p)
  {
    hide Connect, Disconnect;
    var n := |chain| - 1;
    InStepShorter(chain, view, blocks, undos, p);
    DisconnectInvertsConnect(blocks[chain[n]], Replay(chain[..n], blocks, p).value, p);
  }

  /** Without its tip the chain is in step with what its blocks replay to, and the tip is what was connected to that. */
  lemma InStepShorter(chain: seq<Hash256>, view: CoinSet, blocks: Bodies, undos: Undos, p: Params)
    requires InStep(chain, view, blocks, undos, p) && |chain| > 1
    ensures var n := |chain| - 1;
            && chain[n] in blocks && chain[n] in undos && Replay(chain[..n], blocks, p).Some?
            && var before := Replay(chain[..n], blocks, p).value;
               && InStep(chain[..n], before, blocks, undos, p) && Connect(blocks[chain[n]], before, p).Ok?
               && Connect(blocks[chain[n]], before, p).value.view == view
               && Connect(blocks[chain[n]], before, p).value.undo == undos[chain[n]]
  {
    hide Connect;
    var n := |chain| - 1;
    TipReplays(chain, view, blocks, undos, p);
    forall i | 1 <= i < n ensures UndoAt(chain[..n], i, blocks, undos, p) {
      UndoShorter(chain, n, i, blocks, undos, p);
    }
  }

  lemma TipReplays(chain: seq<Hash256>, view: CoinSet, blocks: Bodies, undos: Undos, p: Params)
    requires InStep(chain, view, blocks, undos, p) && |chain| > 1
    ensures UndoAt(chain, |chain| - 1, blocks, undos, p)
    ensures var n := |chain| - 1; Connect(blocks[chain[n]], Replay(chain[..n], blocks, p).value, p).value.view == view
  {
    hide Connect;
    assert chain[|chain| - 1] in chain;
  }

  lemma UndoShorter(chain: seq<Hash256>, n: nat, i: nat, blocks: Bodies, undos: Undos, p: Params)
    requires 1 <= i < n <= |chain| && UndosMatch(chain, blocks, undos, p)
    ensures UndoAt(chain[..n], i, blocks, undos, p)
  {
    hide Connect, Replay;
    assert chain[i] == chain[..n][i];
    assert UndoAt(chain, i, blocks, undos, p);
    assert chain[..n][..i] == chain[..i];
  }

  /** A block that connects onto the tip extends the chain in step. */
  lemma InStepPush(chain: seq<Hash256>, view: CoinSet, blocks: Bodies, undos: Undos, h: Hash256, p: Params)
    requires InStep(chain, view, blocks, undos, p)
    requires h in blocks && h !in chain && Connect(blocks[h], view, p).Ok?
    ensures var c := Connect(blocks[h], view, p).value;
            InStep(chain + [h], c.view, blocks, undos[h := c.undo], p)
  {
    hide Connect;
    var c := Connect(blocks[h], view, p).value;
    var chain', undos' := chain + [h], undos[h := c.undo];
    assert chain'[..|chain|] == chain;
    forall i | 1 <= i < |chain'| ensures UndoAt(chain', i, blocks, undos', p) {
      if i < |chain| {
        assert chain'[..i] == chain[..i] && chain'[i] == chain[i];
        assert UndoAt(chain, i, blocks, undos, p);
      }
    }
  }

  lemma {:induction false} ReplayFrame(chain: seq<Hash256>, blocks: Bodies, blocks': Bodies, p: Params)
    requires Replay(chain, blocks, p).Some?
    requires forall h :: h in blocks ==> h in blocks' && blocks'[h] == blocks[h]
    ensures Replay(chain, blocks', p) == Replay(chain, blocks, p)
  {
    hide Connect;
    if |chain| > 1 {
      ReplayFrame(chain[..|chain| - 1], blocks, blocks', p);
    }
  }

  /** Storing another body changes nothing about the chain. */
  lemma InStepFrame(chain: seq<Hash256>, view: CoinSet, blocks: Bodies, blocks': Bodies, undos: Undos, p: Params)
    requires InStep(chain, view, blocks, undos, p)
    requires forall h :: h in blocks ==> h in blocks' && blocks'[h] == blocks[h]
    ensures InStep(chain, view, blocks', undos, p)
  {
    hide Connect;
    ReplayFrame(chain, blocks, blocks', p);
    forall i | 1 <= i < |chain| ensures UndoAt(chain, i, blocks', undos, p) {
      assert UndoAt(chain, i, blocks, undos, p);
      ReplayFrame(chain[..i], blocks, blocks', p);
    }
  }

  // --- The chain in its tree ---

  /** The active chain is the path from genesis to its tip, and unless genesis itself was ruled out
      nothing on it is. */
  ghost predicate OnTree(t: Tree, root: Hash256, chain: seq<Hash256>) {
    && Linked(t, root)
    && chain != []
    && chain[|chain| - 1] in t
    && chain == Path(t, root, chain[|chain| - 1])
    && (t[root].IsEligible() ==> t[chain[|chain| - 1]].IsEligible())
  }

  /** Bodies are stored under their own header's hash, for headers the tree knows. */
  ghost predicate StoreKeyed(t: Tree, blocks: Bodies, p: Params) {
    forall h :: h in blocks ==> h in t && p.hash(blocks[h].header) == h
  }

  /** Every stored body was admitted and passed the rules a block meets or breaks on its own. */
  ghost predicate StoreSound(blocks: Bodies, p: Params) {
    forall h :: h in blocks ==> BlockVerdict(blocks[h], p).Accepted? && AdmitsBlock(blocks[h], p)
  }

  ghost predicate TreeAdmitted(t: Tree, p: Params) {
    forall h :: h in t ==> p.admitsHeader(t[h].header)
  }

  ghost predicate ChainInvariant(t: Tree, chain: seq<Hash256>, view: CoinSet, blocks: Bodies, undos: Undos, p: Params) {
    && OnTree(t, p.hash(p.genesis), chain)
    && StoreKeyed(t, blocks, p)
    && StoreSound(blocks, p)
    && TreeAdmitted(t, p)
    && InStep(chain, view, blocks, undos, p)
  }

  /** A node between any two calls, header hashes being their own. */
  ghost predicate Consistent(t: Tree, order: seq<Hash256>, chain: seq<Hash256>, view: CoinSet, blocks: Bodies,
                             undos: Undos, p: Params)
  {
    && IndexInvariant(t, p.hash(p.genesis), order, p) && p.genesis.height == 0 && HashCommits(p)
    && ChainInvariant(t, chain, view, blocks, undos, p)
  }

  lemma OnTreePop(t: Tree, root: Hash256, chain: seq<Hash256>)
    requires OnTree(t, root, chain) && |chain| > 1 && FailuresPropagated(t, root)
    ensures OnTree(t, root, chain[..|chain| - 1])
    ensures t[chain[|chain| - 1]].parent == Some(chain[|chain| - 2])
  {
    var n := |chain| - 1;
    PathPrefix(t, root, chain[n], n);
    PathPrefix(t, root, chain[n], n - 1);
    assert chain[..n - 1 + 1] == chain[..n];
  }

  lemma OnTreePush(t: Tree, root: Hash256, chain: seq<Hash256>, h: Hash256)
    requires OnTree(t, root, chain) && h in t && h != root && t[h].parent == Some(chain[|chain| - 1])
    requires t[h].IsEligible()
    ensures OnTree(t, root, chain + [h]) && h !in chain
  {
    if h in chain {
      PathPosition(t, root, chain[|chain| - 1], h);
    }
  }

  lemma OnTreeFrame(t: Tree, t': Tree, root: Hash256, chain: seq<Hash256>)
    requires OnTree(t, root, chain) && Linked(t', root) && Carries(t, t')
    requires t'[root].IsEligible() ==> t[root].IsEligible()
    requires t'[root].IsEligible() && t[chain[|chain| - 1]].IsEligible() ==> t'[chain[|chain| - 1]].IsEligible()
    ensures OnTree(t', root, chain)
  {
    PathFrame(t, t', root, chain[|chain| - 1]);
  }

  /** Ruling out a block off the chain, or genesis, leaves the chain on its tree. */
  lemma OnTreeRuledOut(t: Tree, root: Hash256, chain: seq<Hash256>, x: Hash256)
    requires OnTree(t, root, chain) && x in t && (x == root || x !in chain)
    ensures OnTree(RuledOut(t, root, x), root, chain)
  {
    var marked := StillEligibleBelow(t, root, x);
    MarkKeepsShape(t, root, marked, x);
    MarkCarries(t, marked, x);
    var tip := chain[|chain| - 1];
    assert x !in chain ==> tip !in marked;
    if x == root && t[root].IsEligible() {
      assert root in marked by { assert Path(t, root, root) == [root]; }
    }
    OnTreeFrame(t, RuledOut(t, root, x), root, chain);
  }

  // --- Supply ---

  /** What one more block adds to the unspent total is at most its scheduled reward. */
  lemma SupplyStep(chain: seq<Hash256>, view: CoinSet, blocks: Bodies, undos: Undos, p: Params)
    requires InStep(chain, view, blocks, undos, p) && |chain| > 1
    ensures var n := |chain| - 1;
            && chain[n] in blocks && Replay(chain[..n], blocks, p).Some?
            && var before := Replay(chain[..n], blocks, p).value;
               InStep(chain[..n], before, blocks, undos, p)
               && Supply.Total(view) <= Supply.Total(before) + Reward(blocks[chain[n]].header.height, p.schedule)
  {
    hide Connect, InStep, Replay;
    var n := |chain| - 1;
    InStepShorter(chain, view, blocks, undos, p);
    Supply.ConnectConserves(blocks[chain[n]], Replay(chain[..n], blocks, p).value, p);
  }

  lemma HeightIsPosition(t: Tree, order: seq<Hash256>, h: Hash256, p: Params)
    requires IndexInvariant(t, p.hash(p.genesis), order, p) && p.genesis.height == 0 && h in t
    ensures Linked(t, p.hash(p.genesis)) && t[h].height == |Path(t, p.hash(p.genesis), h)| - 1
  {
    hide Path, Judged, Arrivals, FailuresExplained, FailuresPropagated;
    PathLength(t, p.hash(p.genesis), h);
  }

  /** The body under the tip's hash carries the tip's height, hashes of headers being their own. */
  lemma TipHeight(t: Tree, chain: seq<Hash256>, blocks: Bodies, order: seq<Hash256>, p: Params)
    requires OnTree(t, p.hash(p.genesis), chain) && StoreKeyed(t, blocks, p) && |chain| > 1
    requires IndexInvariant(t, p.hash(p.genesis), order, p) && p.genesis.height == 0
    requires HashCommits(p) && StoreSound(blocks, p) && TreeAdmitted(t, p)
    ensures OnTree(t, p.hash(p.genesis), chain[..|chain| - 1])
    ensures var h := chain[|chain| - 1]; h in blocks ==> blocks[h].header.height == |chain| - 1
  {
    hide Path, Judged, FailuresExplained, BlockVerdict;
    var root, n := p.hash(p.genesis), |chain| - 1;
    OnTreePop(t, root, chain);
    HeightIsPosition(t, order, chain[n], p);
    if chain[n] in blocks {
      assert blocks[chain[n]].header == t[chain[n]].header;
    }
  }

  /** At every point of every run the unspent total is at most the rewards scheduled for the heights
      connected so far, and so at most everything the schedule will ever emit. */
  lemma {:induction false} SupplyWithinSchedule(t: Tree, order: seq<Hash256>, chain: seq<Hash256>, view: CoinSet,
                                                blocks: Bodies, undos: Undos, p: Params)
    requires Consistent(t, order, chain, view, blocks, undos, p)
    ensures Supply.Total(view) <= Scheduled(|chain|, p.schedule) <= Total(p.schedule)
    decreases |chain|
  {
    hide OnTree, InStep, Replay, StoreKeyed, StoreSound, TreeAdmitted, IndexInvariant, Reward, Total, Supply.Total;
    ScheduledWithinTotal(|chain|, p.schedule);
    if |chain| > 1 {
      var n := |chain| - 1;
      TipHeight(t, chain, blocks, order, p);
      SupplyStep(chain, view, blocks, undos, p);
      SupplyWithinSchedule(t, order, chain[..n], Replay(chain[..n], blocks, p).value, blocks, undos, p);
    } else {
      NothingYet(chain, view, blocks, undos, p);
    }
  }

  lemma NothingYet(chain: seq<Hash256>, view: CoinSet, blocks: Bodies, undos: Undos, p: Params)
    requires InStep(chain, view, blocks, undos, p) && |chain| <= 1
    ensures Supply.Total(view) == 0 <= Scheduled(|chain|, p.schedule)
  {
  }

  // --- Standing: what selection can see ---

  ghost function Eligible(t: Tree): set<Hash256> {
    set h | h in t && t[h].IsEligible()
  }

  /** The eligible entries that would be a better tip. */
  ghost function Better(t: Tree, tip: Entry): set<Hash256> {
    set h | h in t && IsBetterTip(t[h], tip)
  }

  /** Only recorded validity differs, which selection never reads. */
  ghost predicate SameStanding(t: Tree, t': Tree) {
    Carries(t, t') && t.Keys == t'.Keys && forall h :: h in t ==> t'[h].failure == t[h].failure
  }

  /** None of the refused blocks is on the way to `h`. */
  ghost predicate Spared(t: Tree, root: Hash256, h: Hash256, refused: set<Hash256>)
    requires Linked(t, root) && h in t
  {
    forall a :: a in Path(t, root, h) ==> a !in refused
  }

  /** From `t` to `t'` exactly the entries with a refused block on their path stopped being eligible. */
  ghost predicate LostTo(t: Tree, t': Tree, root: Hash256, refused: set<Hash256>) {
    && Linked(t, root) && Carries(t, t') && t.Keys == t'.Keys
    && forall h :: h in t ==> (t'[h].IsEligible() <==> t[h].IsEligible() && Spared(t, root, h, refused))
  }

  lemma SameStandingFacts(t: Tree, t': Tree, tip: Hash256)
    requires SameStanding(t, t') && tip in t
    ensures Eligible(t') == Eligible(t) && Better(t', t'[tip]) == Better(t, t[tip])
  {
  }

  lemma RaisedStanding(t: Tree, h: Hash256, v: BlockValidity)
    ensures SameStanding(t, Raised(t, h, v))
  {
  }

  lemma StandingLosesNothing(t: Tree, t': Tree, root: Hash256)
    requires SameStanding(t, t') && Linked(t, root)
    ensures LostTo(t, t', root, {})
  {
    hide Path;
  }

  lemma RuledOutLoses(t: Tree, root: Hash256, x: Hash256)
    requires Linked(t, root)
    ensures LostTo(t, RuledOut(t, root, x), root, {x})
  {
    hide Path, RuledOut;
    RuledOutMeans(t, root, x);
  }

  lemma StandingChains(t: Tree, t1: Tree, t2: Tree)
    requires SameStanding(t, t1) && SameStanding(t1, t2)
    ensures SameStanding(t, t2)
  {
    forall h | h in t ensures t2[h] == t[h].(validity := t2[h].validity, failure := t2[h].failure) {
      assert h in t1;
    }
  }

  /** Losses add up. */
  lemma LossesChain(t: Tree, t1: Tree, t2: Tree, root: Hash256, a: set<Hash256>, b: set<Hash256>)
    requires LostTo(t, t1, root, a) && LostTo(t1, t2, root, b)
    ensures LostTo(t, t2, root, a + b)
  {
    hide Path;
    forall h | h in t ensures t2[h] == t[h].(validity := t2[h].validity, failure := t2[h].failure) {
      assert h in t1;
    }
    forall h | h in t ensures t2[h].IsEligible() <==> t[h].IsEligible() && Spared(t, root, h, a + b) {
      assert h in t1;
      PathFrame(t, t1, root, h);
    }
  }

  /** A refused block that was eligible is one entry fewer. */
  lemma LossIsStrict(t: Tree, t': Tree, root: Hash256, refused: set<Hash256>, x: Hash256)
    requires LostTo(t, t', root, refused) && x in refused && x in t && t[x].IsEligible()
    ensures Eligible(t') < Eligible(t)
  {
    hide Path;
    assert x in Path(t, root, x);
    assert x in Eligible(t) && x !in Eligible(t');
  }

  /** Unless genesis is refused it keeps its standing. */
  lemma GenesisKeepsStanding(t: Tree, t': Tree, root: Hash256, refused: set<Hash256>)
    requires LostTo(t, t', root, refused) && root !in refused
    ensures root in t && root in t' && (t'[root].IsEligible() <==> t[root].IsEligible())
  {
    assert Path(t, root, root) == [root];
  }

  /** The active chain stands or falls with genesis. */
  lemma StandsWithGenesis(t: Tree, root: Hash256, chain: seq<Hash256>)
    requires OnTree(t, root, chain) && FailuresPropagated(t, root)
    ensures root in t && ((forall h :: h in chain ==> h in t && t[h].IsEligible()) <==> t[root].IsEligible())
  {
    hide Path;
    var tip := chain[|chain| - 1];
    PathPrefix(t, root, tip, 0);
    if t[root].IsEligible() {
      forall h | h in chain ensures h in t && t[h].IsEligible() {
        EligiblePath(t, root, tip, h);
      }
    }
  }

  /** A better tip leaves strictly fewer entries better still. */
  lemma BetterShrinks(t: Tree, old': Hash256, new': Hash256)
    requires old' in t && new' in t && IsBetterTip(t[new'], t[old'])
    ensures Better(t, t[new']) < Better(t, t[old'])
  {
    forall h | h in Better(t, t[new']) ensures h in Better(t, t[old']) {
      BetterIsTransitive(t[h], t[new'], t[old']);
    }
    assert new' in Better(t, t[old']) && new' !in Better(t, t[new']);
  }
}
