/** The chain the node is on, and the steps that move it. */
module ChainStates {
  import opened ChainSpec
  import opened ChainSwitch
  import opened Coins
  import opened Connect
  import opened ConnectSpec
  import opened HeaderRules
  import History
  import opened Index
  import opened IndexTree
  import opened Primitives
  import opened Validation

  class BlockStore {
    var blocks: Bodies
    var undos: Undos

    constructor ()
      ensures blocks == map[] && undos == map[]
    {
      blocks, undos := map[], map[];
    }
  }

  datatype ActivationError = BlockBodyUnavailable | UndoRecordUnavailable | RevertRejected | ChainOutOfStep

  datatype ConnectOutcome = Extended | Refused(error: ValidationError)

  datatype RejectedBlock = RejectedBlock(hash: Hash256, error: ValidationError)

  datatype Summary = Summary(
    tip: Hash256,
    connected: nat,
    disconnected: nat,
    rejected: seq<RejectedBlock>,
    reachedBestHeader: bool)

  datatype Pass = Stuck | Moved(disconnected: nat, connected: nat, rejected: Option<RejectedBlock>)

  /** Some block on the way to `target` has not arrived. */
  ghost predicate BodyMissing(t: Tree, root: Hash256, target: Hash256, blocks: Bodies) {
    Linked(t, root) && target in t && exists h :: h in Path(t, root, target) && h != root && h !in blocks
  }

  /** As far along the path as bodies have arrived without a gap. */
  ghost predicate BodiesReach(path: seq<Hash256>, blocks: Bodies, i: int) {
    && 0 <= i < |path| && (forall j :: 1 <= j <= i ==> path[j] in blocks)
    && (i + 1 < |path| ==> path[i + 1] !in blocks)
  }

  /** Reverted from `a` was what the path does not share, and active now is the start of that path, at least as
      far as the two share it. */
  ghost predicate Followed(a: seq<Hash256>, b: seq<Hash256>, path: seq<Hash256>, reverted: nat) {
    && reverted < |a| <= reverted + |b| && |b| <= |path| && b == path[..|b|]
    && a[..|a| - reverted] == path[..|a| - reverted] && forall h :: h in a[|a| - reverted..] ==> h !in path
  }

  /** The furthest entry towards `target` that the stored bodies reach is no better than `tip`. */
  ghost predicate NothingNearer(t: Tree, root: Hash256, target: Hash256, tip: Hash256, blocks: Bodies) {
    && Linked(t, root) && target in t && tip in t
    && forall i :: BodiesReach(Path(t, root, target), blocks, i) ==> !IsBetterTip(t[Path(t, root, target)[i]], t[tip])
  }

  /** The block breaks a rule when connected to the coins that replaying the chain up to its parent leaves. */
  ghost predicate BreaksRule(before: seq<Hash256>, h: Hash256, error: ValidationError, blocks: Bodies, p: Params) {
    && h in blocks && Replay(before, blocks, p).Some?
    && ConnectSpec.Connect(blocks[h], Replay(before, blocks, p).value, p) == Err(error)
  }

  /** The block was eligible, and breaks the rule named on the chain that leads from genesis to its parent. */
  ghost predicate RightlyRefused(t: Tree, root: Hash256, r: RejectedBlock, blocks: Bodies, p: Params) {
    && Linked(t, root) && r.hash in t && t[r.hash].IsEligible() && t[r.hash].parent.Some? && t[r.hash].parent.value in t
    && BreaksRule(Path(t, root, t[r.hash].parent.value), r.hash, r.error, blocks, p)
  }

  /** What was refused late in a run was eligible, and broke the same rule on the same chain, at its start. */
  lemma RefusalCarries(t: Tree, t': Tree, root: Hash256, refused: set<Hash256>, r: RejectedBlock, blocks: Bodies,
                       p: Params)
    requires LostTo(t, t', root, refused) && RightlyRefused(t', root, r, blocks, p)
    ensures RightlyRefused(t, root, r, blocks, p)
  {
    hide BreaksRule, Path;
    assert t'[r.hash].parent == t[r.hash].parent;
    PathFrame(t, t', root, t[r.hash].parent.value);
  }

  function Hashes(rejected: seq<RejectedBlock>): set<Hash256> {
    set i | 0 <= i < |rejected| :: rejected[i].hash
  }

  // --- What accepting a block does, as a function of the state ---

  datatype Accepting = Accepting(tree: Tree, blocks: Bodies, result: Result<Hash256, HeaderError>)

  ghost predicate Numbered(t: Tree, sequence: nat) {
    forall h :: h in t ==> t[h].sequence < sequence
  }

  /** The tree once the header has been offered to it. */
  ghost function AfterHeader(t: Tree, header: BlockHeader, sequence: nat, now: int, p: Params): (t': Tree)
    requires Linked(t, p.hash(p.genesis)) && Numbered(t, sequence)
    ensures Linked(t', p.hash(p.genesis))
    ensures forall h :: h in t ==> h in t' && t'[h] == t[h]
    ensures HeaderVerdict(t, p.hash(p.genesis), header, now, p).Ok? ==> p.hash(header) in t'
  {
    NewHeaderLinks(t, header, sequence, now, p);
    if HeaderVerdict(t, p.hash(p.genesis), header, now, p).Ok? && p.hash(header) !in t
    then WithHeader(t, header, sequence, p)
    else t
  }

  lemma NewHeaderLinks(t: Tree, header: BlockHeader, sequence: nat, now: int, p: Params)
    requires Linked(t, p.hash(p.genesis)) && Numbered(t, sequence)
    ensures HeaderVerdict(t, p.hash(p.genesis), header, now, p).Ok? && p.hash(header) !in t ==>
              var t' := WithHeader(t, header, sequence, p);
              Linked(t', p.hash(p.genesis)) && p.hash(header) in t' && forall h :: h in t ==> h in t' && t'[h] == t[h]
  {
    hide ContextVerdict, Path;
    if HeaderVerdict(t, p.hash(p.genesis), header, now, p).Ok? && p.hash(header) !in t {
      var root, q, t' := p.hash(p.genesis), header.prevBlock, WithHeader(t, header, sequence, p);
      assert q in t && t[q].sequence < sequence;
      forall h | h in t' && h != root
        ensures t'[h].parent.Some? && t'[h].parent.value in t' && t'[t'[h].parent.value].sequence < t'[h].sequence
      {
        if h in t {
          assert t[h].parent.Some?;
        }
      }
    }
  }

  /** Offering a body: its header first, then every rule that needs no chain, then the store. */
  ghost function AcceptOutcome(t: Tree, blocks: Bodies, block: Block, sequence: nat, now: int, p: Params): Accepting
    requires Linked(t, p.hash(p.genesis)) && Numbered(t, sequence)
  {
    var root, h := p.hash(p.genesis), p.hash(block.header);
    var t1 := AfterHeader(t, block.header, sequence, now, p);
    match HeaderVerdict(t, root, block.header, now, p)
    case Err(e) => Accepting(t1, blocks, Err(e))
    case Ok(_) =>
      if !t1[h].IsEligible() then Accepting(t1, blocks, Err(NotPlaced(AlreadyRuledOut)))
      else if h in blocks then Accepting(t1, blocks, Ok(h))
      else
        match BlockVerdict(block, p)
        case Rejected(e) => Accepting(RuledOut(t1, root, h), blocks, Err(Rule(e)))
        case Accepted => Accepting(Raised(t1, h, BodyValid), blocks[h := block], Ok(h))
  }

  /** The one offer that can rule out a block of the active chain: genesis is seeded rather than
      stored, so a body under its header is judged, and refused, like any other. */
  ghost predicate RulesOutGenesis(t: Tree, blocks: Bodies, block: Block, p: Params) {
    var root := p.hash(p.genesis);
    && p.hash(block.header) == root && root in t && t[root].IsEligible() && root !in blocks
    && BlockVerdict(block, p).Rejected?
  }

  class ChainState {
    const index: BlockIndex
    const coins: CoinsCache
    const store: BlockStore
    const p: Params
    /** Whether a sink makes each tip durable. It changes nothing the state can see. */
    const persistent: bool
    var chain: seq<Hash256>

    ghost predicate Valid()
      reads this, index, coins, store
    {
      && coins.base == null && coins.Stacked()
      && p.genesis.height == 0
      && index.Valid(p)
      && ChainInvariant(index.entries, chain, coins.View(), store.blocks, store.undos, p)
    }

    function Tip(): Hash256
      requires chain != []
      reads this
    {
      chain[|chain| - 1]
    }

    /** An index of genesis alone, and nothing stored. */
    ghost predicate StartsEmpty()
      reads this, index, coins, store
    {
      && index.Valid(p) && index.entries == map[p.hash(p.genesis) := GenesisEntry(p)]
      && p.genesis.height == 0 && p.admitsHeader(p.genesis)
      && coins.base == null && coins.Stacked() && coins.View() == map[] && store.blocks == map[]
    }

    /** Genesis applied, nothing else: its only output is unspendable, so it leaves no coins. */
    constructor (index: BlockIndex, coins: CoinsCache, store: BlockStore, p: Params, persistent: bool)
      requires index.genesis == p.hash(p.genesis)
      ensures chain == [p.hash(p.genesis)] && this.persistent == persistent
      ensures this.index == index && this.coins == coins && this.store == store && this.p == p
      ensures StartsEmpty() ==> Valid()
    {
      this.index, this.coins, this.store, this.p, this.persistent := index, coins, store, p, persistent;
      chain := [index.genesis];
    }

    /** The coins and records are those of the chain that leads to `tip`. */
    ghost predicate HoldsCoinsOf(tip: Hash256)
      requires coins.base == null && coins.Stacked()
      reads index, coins, store
    {
      var t, root := index.entries, p.hash(p.genesis);
      Linked(t, root) && tip in t
      && ChainInvariant(t, Path(t, root, tip), coins.View(), store.blocks, store.undos, p)
    }

    /** The active chain restored as the path up to `tip`, applying nothing: the coins are already the
        ones of that tip. */
    method ResumeAt(tip: Hash256)
      requires coins.base == null && coins.Stacked() && HoldsCoinsOf(tip)
      requires index.Valid(p) && p.genesis.height == 0
      modifies this
      ensures Valid() && Linked(index.entries, p.hash(p.genesis)) && tip in index.entries
      ensures chain == Path(index.entries, p.hash(p.genesis), tip)
    {
      hide ChainInvariant, ValidIndex, Path, Reversed;
      ghost var path := Path(index.entries, p.hash(p.genesis), tip);
      ghost var above := |path|;
      ReversedNothing(path);
      var upwards: seq<Hash256> := [];
      var walk := Some(tip);
      while walk.Some?
        invariant 0 <= above <= |path| && walk == if above == 0 then None else Some(path[above - 1])
        invariant upwards == Reversed(path[above..])
        decreases above
      {
        PathPrefix(index.entries, p.hash(p.genesis), tip, above - 1);
        ReversedStep(path, above);
        upwards := upwards + [walk.value];
        walk := index.entries[walk.value].parent;
        above := above - 1;
      }
      assert path[0..] == path;
      ReversedTwice(path);
      chain := Reversed(upwards);
    }

    ghost predicate ActiveEligible()
      reads this, index
    {
      forall h :: h in chain ==> h in index.entries && index.entries[h].IsEligible()
    }

    method AcceptHeader(header: BlockHeader, now: int) returns (r: Result<Hash256, HeaderError>)
      requires Valid() && p.admitsHeader(header)
      modifies index
      ensures Valid()
      ensures Linked(old(index.entries), p.hash(p.genesis)) && Numbered(old(index.entries), old(index.nextSequence))
      ensures index.entries == AfterHeader(old(index.entries), header, old(index.nextSequence), now, p)
      ensures var v := HeaderVerdict(old(index.entries), p.hash(p.genesis), header, now, p);
              r == if v.Ok? && !index.entries[p.hash(header)].IsEligible() then Err(NotPlaced(AlreadyRuledOut)) else v
      ensures ActiveEligible() <==> old(ActiveEligible())
    {
      hide ChainInvariant, ValidIndex, HeaderVerdict, AfterHeader, Path, Linked, Numbered;
      r := AddToIndex(header, now);
      if r.Ok? && !index.entries[r.value].IsEligible() {
        return Err(NotPlaced(AlreadyRuledOut));
      }
    }

    /** Adding a header leaves the chain, its coins and its records as they were. */
    method AddToIndex(header: BlockHeader, now: int) returns (r: Result<Hash256, HeaderError>)
      requires Valid() && p.admitsHeader(header)
      modifies index
      ensures Valid()
      ensures Linked(old(index.entries), p.hash(p.genesis)) && Numbered(old(index.entries), old(index.nextSequence))
      ensures index.entries == AfterHeader(old(index.entries), header, old(index.nextSequence), now, p)
      ensures r == HeaderVerdict(old(index.entries), p.hash(p.genesis), header, now, p)
      ensures r.Ok? ==> r.value == p.hash(header) && r.value in index.entries
      ensures p.hash(header) in old(index.entries) ==> r.Ok?
      ensures ActiveEligible() <==> old(ActiveEligible())
    {
      hide ChainInvariant, ValidIndex, HeaderVerdict, AfterHeader, Path, Linked, Numbered, WithHeader;
      ghost var t, n := index.entries, index.nextSequence;
      IndexIsNumbered();
      OfferedHeader(t, header, n, now, p);
      r := index.AddHeader(header, now, p);
      IndexIsLinked();
      AddedLeavesChain(t, index.entries, chain, coins.View(), store.blocks, store.undos, p);
    }

    method AcceptBlock(block: Block, now: int) returns (r: Result<Hash256, HeaderError>)
      requires Valid() && AdmitsBlock(block, p)
      modifies index, store
      ensures Valid()
      ensures Linked(old(index.entries), p.hash(p.genesis)) && Numbered(old(index.entries), old(index.nextSequence))
      ensures Accepting(index.entries, store.blocks, r)
           == AcceptOutcome(old(index.entries), old(store.blocks), block, old(index.nextSequence), now, p)
      ensures store.undos == old(store.undos)
      ensures ActiveEligible()
         <==> old(ActiveEligible()) && !RulesOutGenesis(old(index.entries), old(store.blocks), block, p)
    {
      hide ChainInvariant, ValidIndex, HeaderVerdict, RuledOut, Raised, Numbered, BlockVerdict;
      ActiveAreKnown(index.entries, chain, coins.View(), store.blocks, store.undos, p);
      r := AddToIndex(block.header, now);
      if r.Err? {
        return;
      }
      if !index.entries[r.value].IsEligible() {
        return Err(NotPlaced(AlreadyRuledOut));
      }
      if r.value in store.blocks {
        return;
      }
      r := JudgeBody(block);
    }

    /** Every rule that needs no chain, so that nothing structurally invalid is ever stored. */
    method JudgeBody(block: Block) returns (r: Result<Hash256, HeaderError>)
      requires Valid() && AdmitsBlock(block, p) && Linked(index.entries, p.hash(p.genesis))
      requires var h := p.hash(block.header);
               h in index.entries && index.entries[h].IsEligible() && h !in store.blocks
      modifies index, store
      ensures Valid() && store.undos == old(store.undos)
      ensures var h := p.hash(block.header);
              match BlockVerdict(block, p)
              case Rejected(e) => r == Err(Rule(e)) && store.blocks == old(store.blocks)
                                  && index.entries == RuledOut(old(index.entries), p.hash(p.genesis), h)
              case Accepted => r == Ok(h) && store.blocks == old(store.blocks)[h := block]
                               && index.entries == Raised(old(index.entries), h, BodyValid)
      ensures ActiveEligible()
         <==> old(ActiveEligible()) && !(BlockVerdict(block, p).Rejected? && p.hash(block.header) == p.hash(p.genesis))
    {
      hide ChainInvariant, ValidIndex, RuledOut, Raised, BlockVerdict;
      var h := p.hash(block.header);
      ghost var t := index.entries;
      var sound := CheckBlock(block, p);
      if sound.Rejected? {
        ActiveHaveBodies(t, chain, coins.View(), store.blocks, store.undos, p);
        RulingLeavesChain(t, chain, coins.View(), store.blocks, store.undos, h, p);
        ActiveAreKnown(t, chain, coins.View(), store.blocks, store.undos, p);
        var _ := index.RecordFailure(h, p);
        return Err(Rule(sound.error));
      }
      RaisedCarries(t, h, BodyValid);
      ActiveAreKnown(t, chain, coins.View(), store.blocks, store.undos, p);
      store.blocks := store.blocks[h := block];
      index.RecordValidity(h, BodyValid, p);
      assert Linked(index.entries, p.hash(p.genesis)) by { IndexIsLinked(); }
      StoringLeavesChain(t, chain, coins.View(), old(store.blocks), store.undos, block, BodyValid, p);
      return Ok(h);
    }

    // --- One block at a time ---

    /** Makes the current tip durable, if there is anywhere to. The view does not change. */
    method CommitCurrentTip()
      requires coins.base == null && coins.Stacked()
      modifies coins
      ensures coins.View() == old(coins.View())
    {
      if persistent {
        coins.Commit();
      }
    }

    /** Reverses the current tip. On a state in step the storage faults it guards against cannot
        arise; only genesis cannot be reversed. */
    method DisconnectTip() returns (r: Result<(), ActivationError>)
      requires Valid()
      modifies this, coins
      ensures Valid()
      ensures if |old(chain)| == 1 then r == Err(ChainOutOfStep) && chain == old(chain)
              else r == Ok(()) && chain == old(chain)[..|old(chain)| - 1]
      ensures ActiveEligible() <==> old(ActiveEligible())
    {
      hide ChainInvariant, ValidIndex, Disconnect;
      TipIsKnown();
      ActiveStands();
      var h := Tip();
      PopLeavesChain(index.entries, index.order, chain, coins.View(), store.blocks, store.undos,
                     p) by { IndexIsSound(); }
      if index.entries[h].parent == None {
        return Err(ChainOutOfStep);
      }
      if h !in store.blocks {
        assert false;
        return Err(BlockBodyUnavailable);
      }
      if h !in store.undos {
        assert false;
        return Err(UndoRecordUnavailable);
      }
      var reversed := DisconnectBlock(store.blocks[h], store.undos[h], coins, p);
      if reversed.Err? {
        assert false;
        return Err(RevertRejected);
      }
      chain := chain[..|chain| - 1];
      CommitCurrentTip();
      ActiveStands();
      return Ok(());
    }

    /** Applies one block, which must extend the current tip. A refusal rules it out and leaves the
        coins alone. */
    method ConnectTip(h: Hash256) returns (r: Result<ConnectOutcome, ActivationError>)
      requires Valid() && h in index.entries && index.entries[h].IsEligible()
      modifies this, index, coins, store
      ensures Valid() && store.blocks == old(store.blocks)
      ensures var child := old(index.entries)[h].parent == Some(old(Tip()));
              && (!child ==> r == Err(ChainOutOfStep))
              && (child && h !in store.blocks ==> r == Err(BlockBodyUnavailable))
              && (child && h in store.blocks ==> r.Ok?)
      ensures match r
              case Err(_) => chain == old(chain) && index.entries == old(index.entries)
              case Ok(Extended) => chain == old(chain) + [h] && SameStanding(old(index.entries), index.entries)
                                   && h in index.entries && index.entries[h].validity == FullyValid
              case Ok(Refused(e)) => chain == old(chain)
                                     && LostTo(old(index.entries), index.entries, p.hash(p.genesis), {h})
                                     && RightlyRefused(old(index.entries), p.hash(p.genesis), RejectedBlock(h, e),
                                                       store.blocks, p)
      ensures ActiveEligible() <==> old(ActiveEligible())
    {
      hide ChainInvariant, ValidIndex, SameStanding, LostTo, ConnectSpec.Connect, Replay, BreaksRule, Path, Linked;
      hide BlockVerdict;
      TipIsKnown();
      ActiveStands();
      TipIsPath(index.entries, chain, coins.View(), store.blocks, store.undos, p);
      CoinsAreReplayed(index.entries, chain, coins.View(), store.blocks, store.undos, p);
      if index.entries[h].parent != Some(Tip()) {
        return Err(ChainOutOfStep);
      }
      if h !in store.blocks {
        return Err(BlockBodyUnavailable);
      }
      ghost var t := index.entries;
      var block := store.blocks[h];
      SameStandingReflexive(t);
      if Level(index.entries[h].validity) < Level(BodyValid) {
        var sound := CheckBlock(block, p);
        if sound.Rejected? {
          var error := sound.error;
          assert false by { StoredBodyPasses(t, chain, coins.View(), store.blocks, store.undos, h, p); }
          return Ok(Refused(error));
        }
        Raise(h, BodyValid, t);
      }
      var applied := ConnectBlock(block, coins, p);
      if applied.Err? {
        BreaksOnCoins(chain, h, applied.error, old(coins.View()), store.blocks, p);
        Refuse(h, t);
        return Ok(Refused(applied.error));
      }
      StandingKeepsEntry(t, index.entries, h);
      PushLeavesChain(index.entries, chain, old(coins.View()), store.blocks, store.undos, h, p);
      Adopt(h, applied.value.undo, t);
      StandingKeepsEntry(t, index.entries, p.hash(p.genesis));
      return Ok(Extended);
    }

    /** Takes the block just connected as the new tip. */
    method Adopt(h: Hash256, undo: BlockUndo, ghost t: Tree)
      requires index.Valid(p) && coins.base == null && coins.Stacked() && p.genesis.height == 0
      requires SameStanding(t, index.entries) && h in t
      requires ChainInvariant(index.entries, chain + [h], coins.View(), store.blocks, store.undos[h := undo], p)
      modifies this, index, coins, store
      ensures Valid() && chain == old(chain) + [h] && store.blocks == old(store.blocks)
      ensures SameStanding(t, index.entries) && h in index.entries && index.entries[h].validity == FullyValid
      ensures p.hash(p.genesis) in index.entries
      ensures ActiveEligible() <==> index.entries[p.hash(p.genesis)].IsEligible()
    {
      hide ChainInvariant, ValidIndex, SameStanding;
      store.undos := store.undos[h := undo];
      chain := chain + [h];
      Raise(h, FullyValid, t);
      StandingKeepsEntry(t, index.entries, h);
      CommitCurrentTip();
      ActiveStands();
    }

    /** Raising a recorded level disturbs nothing. */
    method Raise(h: Hash256, v: BlockValidity, ghost t: Tree)
      requires Valid() && SameStanding(t, index.entries)
      modifies index
      ensures Valid() && SameStanding(t, index.entries) && (ActiveEligible() <==> old(ActiveEligible()))
      ensures h in index.entries ==> Level(index.entries[h].validity) >= Level(v)
    {
      hide InStep, ValidIndex, SameStanding, Raised, Path;
      ActiveStands();
      RaisedStanding(index.entries, h, v);
      StandingChains(t, index.entries, Raised(index.entries, h, v));
      StandingLeavesChain(index.entries, Raised(index.entries, h, v), index.order, chain, coins.View(), store.blocks,
                          store.undos, p)
        by { IndexIsSound(); }
      ghost var t1 := index.entries;
      index.RecordValidity(h, v, p);
      RaisedReaches(t1, h, v);
      ActiveStands();
      StandingKeepsEntry(t1, index.entries, p.hash(p.genesis));
    }

    /** Rules `h` out; it is not on the chain, so the chain keeps its standing. */
    method Refuse(h: Hash256, ghost t: Tree)
      requires Valid() && SameStanding(t, index.entries) && Linked(t, p.hash(p.genesis))
      requires h in t && t[h].IsEligible() && t[h].parent == Some(Tip())
      modifies index
      ensures Valid() && LostTo(t, index.entries, p.hash(p.genesis), {h})
      ensures ActiveEligible() <==> old(ActiveEligible())
    {
      hide ChainInvariant, ValidIndex, SameStanding, LostTo, RuledOut, Path, Linked;
      ghost var t1, root := index.entries, p.hash(p.genesis);
      TipIsKnown();
      ActiveStands();
      StandingKeepsEntry(t, t1, h);
      ChildOffChain(t1, chain, coins.View(), store.blocks, store.undos, h, p);
      RulingLeavesChain(t1, chain, coins.View(), store.blocks, store.undos, h, p);
      IndexIsLinked();
      RuledOutLoses(t1, root, h);
      StandingLosesNothing(t, t1, root);
      LossesChain(t, t1, RuledOut(t1, root, h), root, {}, {h});
      assert {} + {h} == {h};
      GenesisKeepsStanding(t1, RuledOut(t1, root, h), root, {h});
      var _ := index.RecordFailure(h, p);
      ActiveStands();
    }

    // --- Activation ---

    /** How far up the new branch the stored bodies reach. The walk stops at the first gap. */
    method CountReachable(connect: seq<Hash256>) returns (reachable: nat)
      ensures reachable <= |connect|
      ensures forall i :: 0 <= i < reachable ==> connect[i] in store.blocks
      ensures reachable < |connect| ==> connect[reachable] !in store.blocks
    {
      reachable := 0;
      while reachable < |connect| && connect[reachable] in store.blocks
        invariant reachable <= |connect|
        invariant forall i :: 0 <= i < reachable ==> connect[i] in store.blocks
      {
        reachable := reachable + 1;
      }
    }

    /** Reverses the planned blocks, each of which is the tip when its turn comes. */
    method RevertTo(disconnect: seq<Hash256>, ghost k: nat) returns (r: Result<(), ActivationError>)
      requires Valid() && 0 < k <= |chain| && disconnect == Reversed(chain[k..])
      modifies this, coins
      ensures Valid() && r == Ok(()) && chain == old(chain)[..k]
      ensures ActiveEligible() <==> old(ActiveEligible())
    {
      hide ChainInvariant, ValidIndex, Reversed;
      ghost var a := chain;
      assert a[..|a|] == a;
      for i := 0 to |disconnect|
        invariant Valid() && i <= |a| - k && chain == a[..|a| - i] && (ActiveEligible() <==> old(ActiveEligible()))
      {
        ReversedAt(a[k..], i);
        TipIsKnown();
        if disconnect[i] != Tip() {
          assert false;
          return Err(ChainOutOfStep);
        }
        var step := DisconnectTip();
        if step.Err? {
          assert false;
          return Err(ChainOutOfStep);
        }
        assert a[..|a| - i][..|a| - i - 1] == a[..|a| - (i + 1)];
      }
      return Ok(());
    }

    /** Applies the first `reachable` planned blocks, stopping at the first one a rule refuses. */
    method ApplyUpTo(connect: seq<Hash256>, reachable: nat, ghost target: Hash256)
      returns (r: Result<Option<RejectedBlock>, ActivationError>, count: nat)
      requires Valid() && reachable <= |connect|
      requires forall i :: 0 <= i < reachable ==> connect[i] in store.blocks
      requires target in index.entries && index.entries[target].IsEligible()
      requires Linked(index.entries, p.hash(p.genesis))
      requires chain + connect == Path(index.entries, p.hash(p.genesis), target)
      modifies this, index, coins, store
      ensures Valid() && store.blocks == old(store.blocks) && r.Ok?
      ensures count <= reachable && chain == old(chain) + connect[..count]
      ensures r.value.None? ==> SameStanding(old(index.entries), index.entries) && count == reachable
      ensures r.value.Some? ==> LostTo(old(index.entries), index.entries, p.hash(p.genesis), {r.value.value.hash})
                                && RightlyRefused(old(index.entries), p.hash(p.genesis), r.value.value, store.blocks, p)
      ensures ActiveEligible() <==> old(ActiveEligible())
    {
      hide ChainInvariant, ValidIndex, SameStanding, LostTo, RightlyRefused;
      hide Path, IndexInvariant, Linked;
      ghost var t, order, a := index.entries, index.order, chain;
      count := 0;
      SameStandingReflexive(t);
      IndexIsSound();
      TipIsKnown();
      while count < reachable
        invariant Valid() && count <= reachable && store.blocks == old(store.blocks)
        invariant SameStanding(t, index.entries) && chain == a + connect[..count]
        invariant ActiveEligible() <==> old(ActiveEligible())
      {
        var h := connect[count];
        NextOnPath(t, p.hash(p.genesis), order, target, a, connect, count, p);
        StandingKeepsEntry(t, index.entries, h);
        TipIsKnown();
        ghost var t1 := index.entries;
        var step := ConnectTip(h);
        if step.Err? {
          assert false;
          return Err(ChainOutOfStep), count;
        }
        if step.value.Refused? {
          RefusalSince(t, t1, index.entries, p.hash(p.genesis), RejectedBlock(h, step.value.error), store.blocks, p);
          return Ok(Some(RejectedBlock(h, step.value.error))), count;
        }
        StandingChains(t, t1, index.entries);
        assert connect[..count] + [h] == connect[..count + 1];
        count := count + 1;
      }
      return Ok(None), count;
    }

    /** Plans the switch and decides whether what is attainable is worth it. Changes nothing. */
    method Survey(target: Hash256)
      returns (r: Result<Option<(Plan, nat)>, ActivationError>, ghost k: nat)
      requires Valid() && chain != [] && index.bestHeader == Some(target) && target != Tip()
      ensures r.Ok? && Linked(index.entries, p.hash(p.genesis)) && target in index.entries
      ensures index.entries[target].IsEligible() && Tip() in index.entries
      ensures r.value.None? ==>
                && BodyMissing(index.entries, p.hash(p.genesis), target, store.blocks)
                && NothingNearer(index.entries, p.hash(p.genesis), target, Tip(), store.blocks)
      ensures r.value.Some? ==>
                var (plan, reachable) := r.value.value;
                && 0 < k <= |chain| && plan.disconnect == Reversed(chain[k..]) && reachable <= |plan.connect|
                && (forall i :: 0 <= i < reachable ==> plan.connect[i] in store.blocks)
                && chain[..k] + plan.connect == Path(index.entries, p.hash(p.genesis), target)
                && (forall h :: h in chain[k..] ==> h !in Path(index.entries, p.hash(p.genesis), target))
                && var attainable := (chain[..k] + plan.connect[..reachable])[k + reachable - 1];
                   attainable in index.entries && IsBetterTip(index.entries[attainable], index.entries[Tip()])
    {
      hide ChainInvariant, ValidIndex, Path, Reversed, IsPlan, Linked, Heights, IsBetterTip, BodyMissing, NothingNearer;
      ghost var root := p.hash(p.genesis);
      BestIsKnown(target);
      TipIsPath(index.entries, chain, coins.View(), store.blocks, store.undos, p);
      var plan;
      plan, k := PlanChainSwitch(index.entries, root, Some(Tip()), Some(target));
      ForkIsActive(index.entries, index.order, chain, target, plan, k, p) by { IndexIsSound(); }
      if plan.forkPoint.None? {
        assert false;
        return Err(ChainOutOfStep), k;
      }
      var fork := plan.forkPoint.value;
      if index.entries[fork].height >= |chain| || chain[index.entries[fork].height] != fork {
        assert false;
        return Err(ChainOutOfStep), k;
      }
      var reachable := CountReachable(plan.connect);
      var attainable := if reachable == 0 then fork else plan.connect[reachable - 1];
      AttainableFacts(index.entries, chain, target, plan, k, reachable, p);
      BetterOrMissing(index.entries, chain, target, plan, k, reachable, store.blocks, p) by { BestIsBest(target); }
      // Reverting to arrive at a tip no better than the one held would be a strict loss.
      if !IsBetterTip(index.entries[attainable], index.entries[Tip()]) {
        ActiveBodiesAt(index.entries, chain, coins.View(), store.blocks, store.undos, p);
        FurthestIsAttainable(index.entries, chain, target, plan, k, reachable, store.blocks, p);
        return Ok(None), k;
      }
      return Ok(Some((plan, reachable))), k;
    }

    /** One pass: plan, check that the switch is worth making, revert, apply. */
    method AttemptSwitch(target: Hash256) returns (r: Result<Pass, ActivationError>)
      requires Valid() && chain != [] && index.bestHeader == Some(target) && target != Tip()
      modifies this, index, coins, store
      ensures Valid() && store.blocks == old(store.blocks) && r.Ok? && chain != [] && old(Tip()) in old(index.entries)
      ensures r.value.Stuck? ==> chain == old(chain) && index.entries == old(index.entries)
                                 && index.bestHeader == old(index.bestHeader)
                                 && BodyMissing(index.entries, p.hash(p.genesis), target, store.blocks)
                                 && NothingNearer(index.entries, p.hash(p.genesis), target, Tip(), store.blocks)
      ensures r.value.Moved? ==>
                && |chain| + r.value.disconnected == |old(chain)| + r.value.connected
                && Linked(old(index.entries), p.hash(p.genesis)) && target in old(index.entries)
                && var path := Path(old(index.entries), p.hash(p.genesis), target);
                   Followed(old(chain), chain, path, r.value.disconnected)
      ensures r.value.Moved? && r.value.rejected.None? ==>
                SameStanding(old(index.entries), index.entries) && Tip() in old(index.entries)
                && IsBetterTip(old(index.entries)[Tip()], old(index.entries)[old(Tip())])
      ensures r.value.Moved? && r.value.rejected.Some? ==>
                && LostTo(old(index.entries), index.entries, p.hash(p.genesis), {r.value.rejected.value.hash})
                && RightlyRefused(old(index.entries), p.hash(p.genesis), r.value.rejected.value, store.blocks, p)
      ensures ActiveEligible() <==> old(ActiveEligible())
    {
      hide ChainInvariant, ValidIndex, SameStanding, LostTo, Path, Linked, Reversed, IsBetterTip, BodyMissing;
      hide RightlyRefused, NothingNearer, Followed;
      ghost var a := chain;
      var survey, k := Survey(target);
      if survey.Err? {
        assert false;
        return Err(ChainOutOfStep);
      }
      if survey.value.None? {
        return Ok(Stuck);
      }
      var (plan, reachable) := survey.value.value;
      var reverted := RevertTo(plan.disconnect, k);
      if reverted.Err? {
        assert false;
        return Err(ChainOutOfStep);
      }
      var applied, count := ApplyUpTo(plan.connect, reachable, target);
      FollowedUpTo(a, plan.connect, k, count);
      TipIsKnown();
      if applied.Err? {
        assert false;
        return Err(ChainOutOfStep);
      }
      return Ok(Moved(|plan.disconnect|, count, applied.value));
    }

    /** Moves the chain as far towards the best header as the stored bodies allow. On a state in step no
        activation error can arise, and the loop ends: each pass either rules out an entry or moves to a
        strictly better tip. */
    method ActivateBestChain() returns (r: Result<Summary, ActivationError>)
      requires Valid() && chain != []
      modifies this, index, coins, store
      ensures Valid() && store.blocks == old(store.blocks) && r.Ok? && chain != [] && r.value.tip == Tip()
      // Stopping on the best header means exactly that, and nothing else than a missing body, or genesis
      // ruled out, stops it anywhere else.
      ensures r.value.reachedBestHeader <==> index.bestHeader == Some(Tip())
      ensures !r.value.reachedBestHeader && index.bestHeader.Some? ==>
                && BodyMissing(index.entries, p.hash(p.genesis), index.bestHeader.value, store.blocks)
                && NothingNearer(index.entries, p.hash(p.genesis), index.bestHeader.value, Tip(), store.blocks)
      // Without a refusal the tip never gets worse, and nothing eligible stops being so.
      ensures old(Tip()) in old(index.entries)
      ensures r.value.rejected == [] ==>
                && SameStanding(old(index.entries), index.entries)
                && (Tip() == old(Tip()) ||
                    (Tip() in old(index.entries) && IsBetterTip(old(index.entries)[Tip()],
                                                                old(index.entries)[old(Tip())])))
      // Exactly what has a refused block on its path stopped being eligible, and every refusal is deserved.
      ensures LostTo(old(index.entries), index.entries, p.hash(p.genesis), Hashes(r.value.rejected))
      ensures forall i :: 0 <= i < |r.value.rejected| ==>
                RightlyRefused(old(index.entries), p.hash(p.genesis), r.value.rejected[i], store.blocks, p)
      ensures ActiveEligible() <==> old(ActiveEligible())
      // Holding every eligible body, it always gets there.
      ensures old(ActiveEligible()) && HoldsBodies(old(index.entries), p.hash(p.genesis), store.blocks) ==>
                r.value.reachedBestHeader
      ensures |chain| + r.value.disconnected == |old(chain)| + r.value.connected
    {
      hide ChainInvariant, ValidIndex, SameStanding, LostTo, Eligible, Better, IsBetterTip, BodyMissing, RightlyRefused;
      hide HoldsBodies, Hashes, NothingNearer, Followed;
      hide Linked, RunSoFar, Risen, Valid;
      TipIsKnown();
      ghost var t0, tip0 := index.entries, Tip();
      RunStarts(t0, tip0, store.blocks, p);
      var summary := Summary(Tip(), 0, 0, [], false);
      while true
        invariant Valid() && store.blocks == old(store.blocks) && chain != [] && Tip() in index.entries
        invariant RunSoFar(t0, index.entries, tip0, Tip(), summary.rejected, store.blocks, p)
        invariant ActiveEligible() <==> old(ActiveEligible())
        invariant |chain| + summary.disconnected == |old(chain)| + summary.connected && !summary.reachedBestHeader
        decreases Eligible(index.entries), Better(index.entries, index.entries[Tip()])
      {
        var target := index.bestHeader;
        RunMeans(t0, index.entries, tip0, Tip(), summary.rejected, store.blocks, p);
        if ActiveEligible() && HoldsBodies(t0, p.hash(p.genesis), store.blocks) {
          AllBodiesReach(t0, Hashes(summary.rejected));
        }
        if target == None || target == Some(Tip()) {
          return Ok(summary.(tip := Tip(), reachedBestHeader := target == Some(Tip())));
        }
        ghost var t1, tip1 := index.entries, Tip();
        TipIsKnown();
        var attempt := AttemptSwitch(target.value);
        TipIsKnown();
        if attempt.Err? {
          assert false;
          return Err(ChainOutOfStep);
        }
        if attempt.value.Stuck? {
          return Ok(summary.(tip := Tip()));
        }
        var pass := attempt.value;
        PassMakesProgress(t0, t1, index.entries, tip0, tip1, Tip(), summary.rejected, pass, store.blocks, p);
        summary := summary.(
          disconnected := summary.disconnected + pass.disconnected,
          connected := summary.connected + pass.connected,
          rejected := summary.rejected + if pass.rejected.Some? then [pass.rejected.value] else []);
      }
    }

    lemma TipIsKnown()
      requires Valid()
      ensures chain != [] && Tip() in index.entries && Linked(index.entries, p.hash(p.genesis))
    {
    }

    /** The active chain stands or falls with genesis. */
    lemma ActiveStands()
      requires Valid()
      ensures Linked(index.entries, p.hash(p.genesis)) && p.hash(p.genesis) in index.entries
      ensures ActiveEligible() <==> index.entries[p.hash(p.genesis)].IsEligible()
    {
      hide Path, InStep, Judged, Derived, FailuresExplained, Heights, Arrivals, ChildrenExact, IsBest, StoreKeyed;
      StandsWithGenesis(index.entries, p.hash(p.genesis), chain);
    }

    lemma BestIsKnown(target: Hash256)
      requires Valid() && index.bestHeader == Some(target)
      ensures Linked(index.entries, p.hash(p.genesis)) && Heights(index.entries, p.hash(p.genesis))
      ensures target in index.entries && index.entries[target].IsEligible()
    {
      hide Path, InStep, Judged, Derived, FailuresExplained, Arrivals, ChildrenExact, StoreKeyed, OnTree;
      hide FailuresPropagated;
    }

    /** The best header is better than a tip it is not. */
    lemma BestIsBest(target: Hash256)
      requires Valid() && chain != [] && index.bestHeader == Some(target) && target != Tip()
      ensures target in index.entries && Tip() in index.entries
      ensures IsBetterTip(index.entries[target], index.entries[Tip()])
    {
      hide Path, InStep, Judged, Derived, FailuresExplained, Arrivals, ChildrenExact, StoreKeyed, Heights;
      hide FailuresPropagated;
    }

    /** Whatever was refused since `t0`, if every body was in hand then none is missing now. */
    lemma AllBodiesReach(t0: Tree, refused: set<Hash256>)
      requires Valid() && LostTo(t0, index.entries, p.hash(p.genesis), refused)
      requires HoldsBodies(t0, p.hash(p.genesis), store.blocks) && ActiveEligible()
      ensures index.bestHeader.Some?
      ensures !BodyMissing(index.entries, p.hash(p.genesis), index.bestHeader.value, store.blocks)
    {
      hide ChainInvariant, BodyMissing;
      ActiveStands();
      HoldingAllBodies(index.entries, index.order, index.bestHeader, store.blocks, p);
    }

    lemma IndexIsSound()
      requires index.Valid(p)
      ensures IndexInvariant(index.entries, p.hash(p.genesis), index.order, p)
    {
    }

    lemma IndexIsNumbered()
      requires index.Valid(p)
      ensures Linked(index.entries, p.hash(p.genesis)) && Numbered(index.entries, index.nextSequence)
    {
      hide Judged, Derived, FailuresExplained, FailuresPropagated, Heights, ChildrenExact, IsBest, Path;
    }

    lemma IndexIsLinked()
      requires index.Valid(p)
      ensures Linked(index.entries, p.hash(p.genesis))
    {
    }
  }

  lemma ActiveAreKnown(t: Tree, chain: seq<Hash256>, view: CoinSet, blocks: Bodies, undos: Undos, p: Params)
    requires ChainInvariant(t, chain, view, blocks, undos, p)
    ensures p.hash(p.genesis) in chain
    ensures forall h :: h in chain ==> h in t
  {
    hide InStep;
    PathPrefix(t, p.hash(p.genesis), chain[|chain| - 1], 0);
  }

  lemma CoinsAreReplayed(t: Tree, chain: seq<Hash256>, view: CoinSet, blocks: Bodies, undos: Undos, p: Params)
    requires ChainInvariant(t, chain, view, blocks, undos, p)
    ensures chain != [] && Replay(chain, blocks, p) == Some(view)
  {
    hide Replay;
  }

  lemma TipIsPath(t: Tree, chain: seq<Hash256>, view: CoinSet, blocks: Bodies, undos: Undos, p: Params)
    requires ChainInvariant(t, chain, view, blocks, undos, p)
    ensures chain != [] && Linked(t, p.hash(p.genesis)) && chain[|chain| - 1] in t
    ensures chain == Path(t, p.hash(p.genesis), chain[|chain| - 1])
  {
    hide InStep;
  }

  /** Nothing is stored that does not pass on its own. */
  lemma StoredBodyPasses(t: Tree, chain: seq<Hash256>, view: CoinSet, blocks: Bodies, undos: Undos, h: Hash256,
                         p: Params)
    requires ChainInvariant(t, chain, view, blocks, undos, p) && h in blocks
    ensures BlockVerdict(blocks[h], p).Accepted?
  {
    hide OnTree, InStep, BlockVerdict;
  }

  lemma BreaksOnCoins(before: seq<Hash256>, h: Hash256, error: ValidationError, view: CoinSet, blocks: Bodies,
                      p: Params)
    requires h in blocks && Replay(before, blocks, p) == Some(view)
    requires ConnectSpec.Connect(blocks[h], view, p) == Err(error)
    ensures BreaksRule(before, h, error, blocks, p)
  {
    hide Replay, ConnectSpec.Connect;
  }

  /** A refusal on a tree of the same standing is a refusal on the tree itself. */
  lemma RefusalSince(t: Tree, t1: Tree, t2: Tree, root: Hash256, r: RejectedBlock, blocks: Bodies, p: Params)
    requires Linked(t, root) && SameStanding(t, t1) && LostTo(t1, t2, root, {r.hash})
    requires RightlyRefused(t1, root, r, blocks, p)
    ensures LostTo(t, t2, root, {r.hash}) && RightlyRefused(t, root, r, blocks, p)
  {
    hide SameStanding, LostTo, RightlyRefused;
    StandingLosesNothing(t, t1, root);
    LossesChain(t, t1, t2, root, {}, {r.hash});
    assert {} + {r.hash} == {r.hash};
    RefusalCarries(t, t1, root, {}, r, blocks, p);
  }

  lemma RunStarts(t: Tree, tip: Hash256, blocks: Bodies, p: Params)
    requires Linked(t, p.hash(p.genesis)) && tip in t
    ensures RunSoFar(t, t, tip, tip, [], blocks, p)
  {
    hide SameStanding, LostTo;
    assert Hashes([]) == {};
    SameStandingReflexive(t);
    StandingLosesNothing(t, t, p.hash(p.genesis));
  }

  /** Where a run has got to since it began at `t0` and `tip0`: what was refused, rightly, and what that
      cost; and if nothing was, how far the tip has risen. */
  ghost predicate RunSoFar(t0: Tree, t: Tree, tip0: Hash256, tip: Hash256, rejected: seq<RejectedBlock>, blocks: Bodies,
                           p: Params)
  {
    && LostTo(t0, t, p.hash(p.genesis), Hashes(rejected))
    && (rejected == [] ==> Risen(t0, t, tip0, tip))
    && (forall i :: 0 <= i < |rejected| ==> RightlyRefused(t0, p.hash(p.genesis), rejected[i], blocks, p))
  }

  lemma RunMeans(t0: Tree, t: Tree, tip0: Hash256, tip: Hash256, rejected: seq<RejectedBlock>, blocks: Bodies,
                 p: Params)
    requires RunSoFar(t0, t, tip0, tip, rejected, blocks, p)
    ensures LostTo(t0, t, p.hash(p.genesis), Hashes(rejected))
    ensures rejected == [] ==>
              SameStanding(t0, t) && tip0 in t0 && tip in t0 && (tip == tip0 || IsBetterTip(t0[tip], t0[tip0]))
    ensures forall i :: 0 <= i < |rejected| ==> RightlyRefused(t0, p.hash(p.genesis), rejected[i], blocks, p)
  {
    hide SameStanding, LostTo, RightlyRefused, IsBetterTip;
  }

  /** What offering a header does to the tree, case by case. */
  lemma OfferedHeader(t: Tree, header: BlockHeader, sequence: nat, now: int, p: Params)
    requires Linked(t, p.hash(p.genesis)) && Numbered(t, sequence)
    ensures var v := HeaderVerdict(t, p.hash(p.genesis), header, now, p);
            && AfterHeader(t, header, sequence, now, p)
               == (if v.Ok? && p.hash(header) !in t then WithHeader(t, header, sequence, p) else t)
            && (v.Ok? ==> v.value == p.hash(header))
            && (p.hash(header) in t ==> v.Ok?)
            && forall h :: h in WithHeader(t, header, sequence, p) && h !in t ==>
                 WithHeader(t, header, sequence, p)[h].header == header
  {
    hide Path, ContextVerdict;
  }

  lemma AddedLeavesChain(t: Tree, t': Tree, chain: seq<Hash256>, view: CoinSet, blocks: Bodies, undos: Undos, p: Params)
    requires ChainInvariant(t, chain, view, blocks, undos, p) && Linked(t', p.hash(p.genesis))
    requires forall h :: h in t ==> h in t' && t'[h] == t[h]
    requires forall h :: h in t' && h !in t ==> p.admitsHeader(t'[h].header)
    ensures ChainInvariant(t', chain, view, blocks, undos, p)
    ensures forall h :: h in chain ==> h in t && h in t' && t'[h] == t[h]
  {
    hide InStep, Path, StoreSound;
    ActiveAreKnown(t, chain, view, blocks, undos, p);
    OnTreeFrame(t, t', p.hash(p.genesis), chain);
  }

  lemma RulingLeavesChain(t: Tree, chain: seq<Hash256>, view: CoinSet, blocks: Bodies, undos: Undos, h: Hash256,
                          p: Params)
    requires ChainInvariant(t, chain, view, blocks, undos, p) && h in t && t[h].IsEligible()
    requires h == p.hash(p.genesis) || h !in chain
    ensures ChainInvariant(RuledOut(t, p.hash(p.genesis), h), chain, view, blocks, undos, p)
    ensures var t' := RuledOut(t, p.hash(p.genesis), h);
            forall g :: g in chain && g in t ==>
              g in t' && (t'[g].IsEligible() <==> t[g].IsEligible() && h != p.hash(p.genesis))
  {
    var root := p.hash(p.genesis);
    hide InStep;
    OnTreeRuledOut(t, root, chain, h);
    forall g | g in chain && g in t
      ensures g in StillEligibleBelow(t, root, h) <==> t[g].IsEligible() && h == root
    {
      PathPosition(t, root, chain[|chain| - 1], g);
      PathPrefix(t, root, g, 0);
      assert forall a :: a in Path(t, root, g) ==> a in chain;
    }
    MarkCarries(t, StillEligibleBelow(t, root, h), h);
  }

  /** Every active block but genesis has its body and its undo record stored. */
  lemma ActiveBodiesAt(t: Tree, chain: seq<Hash256>, view: CoinSet, blocks: Bodies, undos: Undos, p: Params)
    requires ChainInvariant(t, chain, view, blocks, undos, p)
    ensures forall i :: 1 <= i < |chain| ==> chain[i] in blocks
  {
    hide Replay, ConnectSpec.Connect, Path, StoreKeyed, StoreSound, OnTree;
    forall i | 1 <= i < |chain| ensures chain[i] in blocks {
      assert UndoAt(chain, i, blocks, undos, p);
    }
  }

  lemma ActiveHaveBodies(t: Tree, chain: seq<Hash256>, view: CoinSet, blocks: Bodies, undos: Undos, p: Params)
    requires ChainInvariant(t, chain, view, blocks, undos, p)
    ensures forall h :: h in chain && h != p.hash(p.genesis) ==> h in blocks && h in undos
  {
    hide Replay, ConnectSpec.Connect, Path, StoreKeyed;
    PathPrefix(t, p.hash(p.genesis), chain[|chain| - 1], 0);
    forall h | h in chain && h != chain[0] ensures h in blocks && h in undos {
      var i :| 0 <= i < |chain| && chain[i] == h;
      assert UndoAt(chain, i, blocks, undos, p);
    }
  }

  lemma StoringLeavesChain(t: Tree, chain: seq<Hash256>, view: CoinSet, blocks: Bodies, undos: Undos,
                           block: Block, v: BlockValidity, p: Params)
    requires ChainInvariant(t, chain, view, blocks, undos, p)
    requires p.hash(block.header) in t && p.hash(block.header) !in blocks
    requires BlockVerdict(block, p).Accepted? && AdmitsBlock(block, p)
    requires Linked(Raised(t, p.hash(block.header), v), p.hash(p.genesis))
    ensures ChainInvariant(Raised(t, p.hash(block.header), v), chain, view, blocks[p.hash(block.header) := block],
                           undos, p)
  {
    hide InStep, Path, BlockVerdict, StoreSound;
    var h := p.hash(block.header);
    RaisedCarries(t, h, v);
    OnTreeFrame(t, Raised(t, h, v), p.hash(p.genesis), chain);
    InStepFrame(chain, view, blocks, blocks[h := block], undos, p);
    StoringKeepsSound(blocks, block, p);
  }

  lemma StoringKeepsSound(blocks: Bodies, block: Block, p: Params)
    requires StoreSound(blocks, p) && BlockVerdict(block, p).Accepted? && AdmitsBlock(block, p)
    ensures StoreSound(blocks[p.hash(block.header) := block], p)
  {
    hide BlockVerdict, AdmitsBlock;
  }

  /** The tip has a parent, unless it is genesis; and then it reverses to the chain without it. */
  lemma PopLeavesChain(t: Tree, order: seq<Hash256>, chain: seq<Hash256>, view: CoinSet, blocks: Bodies, undos: Undos,
                       p: Params)
    requires IndexInvariant(t, p.hash(p.genesis), order, p) && ChainInvariant(t, chain, view, blocks, undos, p)
    ensures chain != [] && chain[|chain| - 1] in t && (t[chain[|chain| - 1]].parent == None <==> |chain| == 1)
    ensures |chain| > 1 ==>
              var n := |chain| - 1;
              && chain[n] in blocks && chain[n] in undos
              && var r := Disconnect(blocks[chain[n]], undos[chain[n]], view, p);
                 r.Ok? && ChainInvariant(t, chain[..n], r.value, blocks, undos, p)
  {
    hide InStep, Disconnect, Path, Judged, Derived, Heights, Arrivals, FailuresExplained;
    if |chain| > 1 {
      OnTreePop(t, p.hash(p.genesis), chain);
      InStepPop(chain, view, blocks, undos, p);
    } else {
      PathPrefix(t, p.hash(p.genesis), chain[0], 0);
    }
  }

  lemma RaisedReaches(t: Tree, h: Hash256, v: BlockValidity)
    ensures h in Raised(t, h, v) ==> Level(Raised(t, h, v)[h].validity) >= Level(v)
  {
  }

  lemma SameStandingReflexive(t: Tree)
    ensures SameStanding(t, t)
  {
  }

  lemma StandingLeavesChain(t: Tree, t': Tree, order: seq<Hash256>, chain: seq<Hash256>, view: CoinSet, blocks: Bodies,
                            undos: Undos, p: Params)
    requires ChainInvariant(t, chain, view, blocks, undos, p) && IndexInvariant(t, p.hash(p.genesis), order, p)
    requires SameStanding(t, t')
    ensures ChainInvariant(t', chain, view, blocks, undos, p)
  {
    hide InStep, Path, Judged, Derived, FailuresExplained, Heights, FailuresPropagated, Arrivals;
    RelabelKeeps(t, t', p.hash(p.genesis), order, p);
    OnTreeFrame(t, t', p.hash(p.genesis), chain);
  }

  lemma PushLeavesChain(t: Tree, chain: seq<Hash256>, view: CoinSet, blocks: Bodies, undos: Undos, h: Hash256,
                        p: Params)
    requires ChainInvariant(t, chain, view, blocks, undos, p)
    requires h in t && t[h].IsEligible() && t[h].parent == Some(chain[|chain| - 1])
    requires h in blocks && ConnectSpec.Connect(blocks[h], view, p).Ok?
    ensures var c := ConnectSpec.Connect(blocks[h], view, p).value;
            ChainInvariant(t, chain + [h], c.view, blocks, undos[h := c.undo], p)
  {
    hide InStep, Path, ConnectSpec.Connect;
    OnTreePush(t, p.hash(p.genesis), chain, h);
    InStepPush(chain, view, blocks, undos, h, p);
  }

  lemma StandingKeepsEntry(t: Tree, t': Tree, h: Hash256)
    requires SameStanding(t, t') && h in t
    ensures h in t' && t'[h].failure == t[h].failure && t'[h].parent == t[h].parent
  {
  }

  lemma ChildOffChain(t: Tree, chain: seq<Hash256>, view: CoinSet, blocks: Bodies, undos: Undos, h: Hash256, p: Params)
    requires ChainInvariant(t, chain, view, blocks, undos, p)
    requires h in t && t[h].IsEligible() && chain != [] && t[h].parent == Some(chain[|chain| - 1])
    ensures h !in chain
  {
    hide InStep, Path;
    OnTreePush(t, p.hash(p.genesis), chain, h);
  }

  /** The next planned block is eligible and its parent is the block before it. */
  lemma NextOnPath(t: Tree, root: Hash256, order: seq<Hash256>, target: Hash256, a: seq<Hash256>, connect: seq<Hash256>,
                   i: nat, p: Params)
    requires IndexInvariant(t, root, order, p) && target in t && t[target].IsEligible()
    requires a != [] && i < |connect| && a + connect == Path(t, root, target)
    ensures connect[i] in t && t[connect[i]].IsEligible()
    ensures var sofar := a + connect[..i]; t[connect[i]].parent == Some(sofar[|sofar| - 1])
  {
    hide Path, Judged, Derived, Heights, Arrivals, FailuresExplained;
    var path, n := Path(t, root, target), |a| + i;
    assert path[n] == connect[i] && path[n] in path;
    assert (a + connect[..i])[n - 1] == path[n - 1];
    PathPrefix(t, root, target, n);
    EligiblePath(t, root, target, path[n]);
  }

  lemma LinkedAndNumbered(t: Tree, order: seq<Hash256>, p: Params)
    requires IndexInvariant(t, p.hash(p.genesis), order, p)
    ensures Linked(t, p.hash(p.genesis)) && Heights(t, p.hash(p.genesis))
  {
  }

  lemma ForkIsActive(t: Tree, order: seq<Hash256>, chain: seq<Hash256>, target: Hash256, plan: Plan, k: nat, p: Params)
    requires IndexInvariant(t, p.hash(p.genesis), order, p) && p.genesis.height == 0 && target in t
    requires chain != [] && chain[|chain| - 1] in t && chain == Path(t, p.hash(p.genesis), chain[|chain| - 1])
    requires IsPlan(chain, Path(t, p.hash(p.genesis), target), plan, k)
    ensures 0 < k <= |chain| && plan.forkPoint == Some(chain[k - 1]) && plan.disconnect == Reversed(chain[k..])
    ensures chain[k - 1] in t && t[chain[k - 1]].height == k - 1
    ensures forall h :: h in chain[k..] ==> h !in Path(t, p.hash(p.genesis), target)
  {
    hide Path, IndexInvariant, Linked, Reversed;
    LinkedAndNumbered(t, order, p);
    PathPrefix(t, p.hash(p.genesis), chain[|chain| - 1], k - 1);
    HeightIsPosition(t, order, chain[k - 1], p);
  }

  /** What the plan leads to, in terms of the target's path. */
  lemma PlanLeads(chain: seq<Hash256>, path: seq<Hash256>, plan: Plan, k: nat)
    requires IsPlan(chain, path, plan, k)
    ensures 0 < k <= |chain| && k <= |path| && plan.connect == path[k..] && chain[..k] + plan.connect == path
    ensures plan.forkPoint == Some(path[k - 1])
  {
    hide Reversed;
    assert path == path[..k] + path[k..];
    assert path[k - 1] == path[..k][k - 1] == chain[..k][k - 1];
  }

  /** The attainable entry lies on the target's path. */
  lemma AttainableFacts(t: Tree, chain: seq<Hash256>, target: Hash256, plan: Plan, k: nat, reachable: nat, p: Params)
    requires Linked(t, p.hash(p.genesis)) && target in t
    requires IsPlan(chain, Path(t, p.hash(p.genesis), target), plan, k) && reachable <= |plan.connect|
    ensures var path := Path(t, p.hash(p.genesis), target);
            var attainable := if reachable == 0 then plan.forkPoint.value else plan.connect[reachable - 1];
            && attainable in t && k + reachable <= |path| && attainable == path[k + reachable - 1]
            && chain[..k] + plan.connect == path
            && (chain[..k] + plan.connect[..reachable])[k + reachable - 1] == attainable
  {
    hide Path, IsPlan;
    var path := Path(t, p.hash(p.genesis), target);
    PlanLeads(chain, path, plan, k);
    assert path[k + reachable - 1] in t;
  }

  lemma FollowedUpTo(a: seq<Hash256>, connect: seq<Hash256>, k: nat, count: nat)
    requires 0 < k <= |a| && count <= |connect| && forall h :: h in a[k..] ==> h !in a[..k] + connect
    ensures Followed(a, a[..k] + connect[..count], a[..k] + connect, |a| - k)
  {
  }

  /** What is attainable is better than the tip, unless some body on the way to the target is missing:
      with every body it is the target itself. */
  lemma BetterOrMissing(t: Tree, chain: seq<Hash256>, target: Hash256, plan: Plan, k: nat, reachable: nat,
                        blocks: Bodies, p: Params)
    requires Linked(t, p.hash(p.genesis)) && target in t && chain != [] && chain[|chain| - 1] in t
    requires IsPlan(chain, Path(t, p.hash(p.genesis), target), plan, k) && reachable <= |plan.connect|
    requires reachable < |plan.connect| ==> plan.connect[reachable] !in blocks
    requires IsBetterTip(t[target], t[chain[|chain| - 1]])
    ensures var attainable := if reachable == 0 then plan.forkPoint.value else plan.connect[reachable - 1];
            && attainable in t
            && (!IsBetterTip(t[attainable], t[chain[|chain| - 1]]) ==>
                  BodyMissing(t, p.hash(p.genesis), target, blocks))
  {
    hide Path, IsPlan, IsBetterTip;
    var root := p.hash(p.genesis);
    var path := Path(t, root, target);
    PlanLeads(chain, path, plan, k);
    AttainableFacts(t, chain, target, plan, k, reachable, p);
    if reachable < |plan.connect| {
      var h := plan.connect[reachable];
      assert h == path[k + reachable] && h in path;
      PathPrefix(t, root, target, k + reachable);
    } else {
      assert path[k + reachable - 1] == target;
    }
  }

  /** What the plan can attain is as far as the stored bodies reach towards the target: the shared part of the
      path is active, so its bodies are stored. */
  lemma FurthestIsAttainable(t: Tree, chain: seq<Hash256>, target: Hash256, plan: Plan, k: nat, reachable: nat,
                             blocks: Bodies, p: Params)
    requires Linked(t, p.hash(p.genesis)) && target in t && chain != [] && chain[|chain| - 1] in t
    requires IsPlan(chain, Path(t, p.hash(p.genesis), target), plan, k) && reachable <= |plan.connect|
    requires forall i :: 0 <= i < reachable ==> plan.connect[i] in blocks
    requires reachable < |plan.connect| ==> plan.connect[reachable] !in blocks
    requires forall i :: 1 <= i < |chain| ==> chain[i] in blocks
    requires var attainable := if reachable == 0 then plan.forkPoint.value else plan.connect[reachable - 1];
             attainable in t && !IsBetterTip(t[attainable], t[chain[|chain| - 1]])
    ensures NothingNearer(t, p.hash(p.genesis), target, chain[|chain| - 1], blocks)
  {
    hide Path, IsPlan, IsBetterTip;
    var path := Path(t, p.hash(p.genesis), target);
    PlanLeads(chain, path, plan, k);
    AttainableFacts(t, chain, target, plan, k, reachable, p);
    var furthest := k + reachable - 1;
    forall j | 1 <= j <= furthest ensures path[j] in blocks {
      assert path[j] == if j < k then chain[j] else plan.connect[j - k];
    }
    assert furthest + 1 < |path| ==> path[furthest + 1] == plan.connect[reachable];
    assert forall i :: BodiesReach(path, blocks, i) ==> i == furthest;
  }

  /** Nothing was ruled out since `t0`, and the tip is the one there was or a better one. */
  ghost predicate Risen(t0: Tree, t: Tree, tip0: Hash256, tip: Hash256) {
    && SameStanding(t0, t)
    && tip0 in t0 && tip in t0
    && (tip == tip0 || IsBetterTip(t0[tip], t0[tip0]))
  }

  /** The termination measure drops on every pass that does not return, and the run's summary facts
      carry over. */
  lemma PassMakesProgress(t0: Tree, t1: Tree, t2: Tree, tip0: Hash256, tip1: Hash256, tip2: Hash256,
                          rejected: seq<RejectedBlock>, pass: Pass, blocks: Bodies, p: Params)
    requires pass.Moved? && tip1 in t1 && tip2 in t2 && Linked(t1, p.hash(p.genesis))
    requires RunSoFar(t0, t1, tip0, tip1, rejected, blocks, p)
    requires pass.rejected.None? ==> SameStanding(t1, t2) && tip2 in t1 && IsBetterTip(t1[tip2], t1[tip1])
    requires pass.rejected.Some? ==> LostTo(t1, t2, p.hash(p.genesis), {pass.rejected.value.hash})
                                     && RightlyRefused(t1, p.hash(p.genesis), pass.rejected.value, blocks, p)
    ensures Eligible(t2) < Eligible(t1)
         || (Eligible(t2) == Eligible(t1) && Better(t2, t2[tip2]) < Better(t1, t1[tip1]))
    ensures RunSoFar(t0, t2, tip0, tip2, rejected + if pass.rejected.Some? then [pass.rejected.value] else [], blocks,
                     p)
  {
    hide SameStanding, LostTo, Eligible, Better, IsBetterTip, BreaksRule, Path;
    var root := p.hash(p.genesis);
    if pass.rejected.None? {
      SameStandingFacts(t1, t2, tip2);
      BetterShrinks(t1, tip1, tip2);
      StandingLosesNothing(t1, t2, root);
      LossesChain(t0, t1, t2, root, Hashes(rejected), {});
      assert Hashes(rejected) + {} == Hashes(rejected) && rejected + [] == rejected;
      if rejected == [] {
        RisenFurther(t0, t1, t2, tip0, tip1, tip2);
      }
    } else {
      var r := pass.rejected.value;
      LossIsStrict(t1, t2, root, {r.hash}, r.hash);
      LossesChain(t0, t1, t2, root, Hashes(rejected), {r.hash});
      HashesMore(rejected, r);
      RefusalCarries(t0, t1, root, Hashes(rejected), r, blocks, p);
    }
  }

  /** Nothing is ever refused for creating an outpoint that is still unspent: that rule never decides. */
  lemma RefusalIsForSpending(t: Tree, order: seq<Hash256>, r: RejectedBlock, blocks: Bodies, p: Params)
    requires IndexInvariant(t, p.hash(p.genesis), order, p) && p.genesis.height == 0 && HashCommits(p) && Numberable(p)
    requires StoreKeyed(t, blocks, p) && StoreSound(blocks, p) && TreeAdmitted(t, p) && AuthoriseOwnCodes(p)
    requires RightlyRefused(t, p.hash(p.genesis), r, blocks, p)
    ensures r.error != TxCreatesExistingOutpoint
  {
    hide IndexInvariant, StoreKeyed, StoreSound, HashCommits, Numberable, Replay, ConnectSpec.Connect, History.Recorded;
    hide History.IsNext, AuthoriseOwnCodes;
    var root, q := p.hash(p.genesis), t[r.hash].parent.value;
    var view := Replay(Path(t, root, q), blocks, p).value;
    History.PathRecorded(t, order, q, blocks, view, p);
    History.BodyIsNext(t, order, r.hash, blocks, p);
    RefusedIsChild(t, order, r.hash, p);
    History.ConnectNeverRecreates(History.Transactions(Path(t, root, q), blocks), view, blocks[r.hash],
                                  |Path(t, root, q)|, p);
  }

  lemma RefusedIsChild(t: Tree, order: seq<Hash256>, h: Hash256, p: Params)
    requires IndexInvariant(t, p.hash(p.genesis), order, p) && h in t && t[h].parent.Some? && t[h].parent.value in t
    ensures |Path(t, p.hash(p.genesis), h)| == |Path(t, p.hash(p.genesis), t[h].parent.value)| + 1
  {
    hide Judged, Derived, Arrivals, FailuresExplained, FailuresPropagated, Heights;
  }

  lemma HashesMore(rejected: seq<RejectedBlock>, r: RejectedBlock)
    ensures Hashes(rejected + [r]) == Hashes(rejected) + {r.hash}
  {
    var all := rejected + [r];
    forall i | 0 <= i < |rejected| ensures rejected[i].hash in Hashes(all) {
      assert all[i] == rejected[i];
    }
    assert all[|rejected|] == r;
  }

  lemma RisenFurther(t0: Tree, t1: Tree, t2: Tree, tip0: Hash256, tip1: Hash256, tip2: Hash256)
    requires Risen(t0, t1, tip0, tip1) && SameStanding(t1, t2) && tip1 in t1 && tip2 in t1
    requires IsBetterTip(t1[tip2], t1[tip1])
    ensures Risen(t0, t2, tip0, tip2)
  {
    hide SameStanding, IsBetterTip;
    StandingChains(t0, t1, t2);
    StandingKeepsOrder(t0, t1, tip2, tip1);
    if tip1 != tip0 {
      BetterIsTransitive(t0[tip2], t0[tip1], t0[tip0]);
    }
  }

  lemma StandingKeepsOrder(t: Tree, t': Tree, a: Hash256, b: Hash256)
    requires SameStanding(t, t') && a in t' && b in t'
    ensures a in t && b in t && (IsBetterTip(t[a], t[b]) <==> IsBetterTip(t'[a], t'[b]))
  {
  }

  /** Every eligible entry but genesis has its body stored. */
  ghost predicate HoldsBodies(t: Tree, root: Hash256, blocks: Bodies) {
    forall h :: h in t && t[h].IsEligible() && h != root ==> h in blocks
  }

  /** With every eligible body in hand, and genesis not ruled out, nothing is missing on the way to the
      best header. */
  lemma HoldingAllBodies(t: Tree, order: seq<Hash256>, best: Option<Hash256>, blocks: Bodies, p: Params)
    requires IndexInvariant(t, p.hash(p.genesis), order, p) && IsBest(t, best) && t[p.hash(p.genesis)].IsEligible()
    requires HoldsBodies(t, p.hash(p.genesis), blocks)
    ensures best.Some? && !BodyMissing(t, p.hash(p.genesis), best.value, blocks)
  {
    hide Path, Judged, Derived, Heights, Arrivals, FailuresExplained, FailuresPropagated;
    var root := p.hash(p.genesis);
    assert best.Some?;
    forall h | h in Path(t, root, best.value) && h != root ensures h in blocks {
      EligiblePath(t, root, best.value, h);
    }
  }

  /** That every active block is eligible is not something the code always keeps: a block with no
      transactions under the genesis header rules out genesis and with it the whole index, the active tip
      included. */
  lemma GenesisCanBeRuledOut(t: Tree, blocks: Bodies, sequence: nat, now: int, p: Params)
    requires Linked(t, p.hash(p.genesis)) && Numbered(t, sequence)
    requires t[p.hash(p.genesis)].IsEligible() && p.hash(p.genesis) !in blocks
    ensures var t' := AcceptOutcome(t, blocks, Block(p.genesis, []), sequence, now, p).tree;
            forall h :: h in t ==> h in t' && !t'[h].IsEligible()
  {
    hide Path, RuledOut;
    var root := p.hash(p.genesis);
    RuledOutMeans(t, root, root);
    forall h | h in t ensures root in Path(t, root, h) {
      PathPrefix(t, root, h, 0);
    }
  }
}
