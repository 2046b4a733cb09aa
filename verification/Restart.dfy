/** Starting again where a previous run stopped. */
module Restarts {
  import opened ChainSpec
  import opened ChainStates
  import opened Coins
  import opened HeaderRules
  import opened Index
  import opened IndexTree
  import opened LoadChains
  import opened Primitives
  import opened Validation

  /** The chain, its coins and its records fit the rebuilt index as they fitted the one it was written from. */
  lemma RebuiltInStep(t: Tree, t': Tree, order: seq<Hash256>, chain: seq<Hash256>, view: CoinSet, blocks: Bodies,
                      undos: Undos, p: Params)
    requires IndexInvariant(t', p.hash(p.genesis), order, p) && ChainInvariant(t, chain, view, blocks, undos, p)
    requires SameIndex(t, t')
    ensures chain != [] && chain[|chain| - 1] in t'
    ensures ChainInvariant(t', chain, view, blocks, undos, p)
    ensures chain == Path(t', p.hash(p.genesis), chain[|chain| - 1])
  {
    hide InStep, StoreSound, Path, Heights, Judged, Derived, Arrivals, FailuresExplained, FailuresPropagated;
    OnTreeFrame(t, t', p.hash(p.genesis), chain);
  }

  lemma LoadedIsSound(index: BlockIndex, p: Params)
    requires index.Valid(p)
    ensures IndexInvariant(index.entries, p.hash(p.genesis), index.order, p) && IsBest(index.entries, index.bestHeader)
    ensures index.genesis == p.hash(p.genesis)
  {
  }

  /** From a complete log and the coins of the committed tip, the node is back in the state it stopped in: the
      same index, the same best header, the same active chain, every invariant in force. Only a tip that had
      been ruled out with genesis is refused. */
  method Restart(log: seq<StoredHeader>, committed: Hash256, now: int, coins: CoinsCache, store: BlockStore, p: Params,
                 ghost t: Tree, ghost order: seq<Hash256>, ghost skip: nat, ghost best: Option<Hash256>,
                 ghost chain: seq<Hash256>)
    returns (r: Result<ChainState, DbError>)
    requires IndexInvariant(t, p.hash(p.genesis), order, p) && IsBest(t, best) && p.genesis.height == 0
    requires coins.base == null && coins.Stacked() && FitsInt64(now) && Describes(log, t, order, skip, p)
    requires ChainInvariant(t, chain, coins.View(), store.blocks, store.undos, p) && chain[|chain| - 1] == committed
    ensures committed in t
    ensures if !t[committed].IsEligible() then r == Err(CorruptRecord)
            else
              && r.Ok? && fresh(r.value) && r.value.coins == coins && r.value.store == store && r.value.p == p
              && r.value.Valid() && r.value.chain == chain
              && SameIndex(t, r.value.index.entries) && r.value.index.order == order && r.value.index.bestHeader == best
  {
    hide IndexInvariant, ChainInvariant, Describes, Rebuilt, SameIndex, IsBest, ValidIndex, Path;
    CompleteLogRebuilds(log, t, order, skip, now, p);
    CommittedIsKnown(t, chain, coins.View(), store.blocks, store.undos, Rebuilt(log, now, p).value.tree, p);
    var loaded := LoadChain(log, Some(committed), now, p);
    if loaded.Err? {
      return Err(loaded.error);
    }
    var index := loaded.value.index;
    LoadedIsSound(index, p);
    RebuiltInStep(t, index.entries, order, chain, coins.View(), store.blocks, store.undos, p);
    SameIndexSameBest(t, index.entries, best, index.bestHeader);
    var state := new ChainState(index, coins, store, p, true);
    RootIsLinked(index.entries, order, p);
    state.ResumeAt(loaded.value.tip);
    return Ok(state);
  }

  lemma RootIsLinked(t: Tree, order: seq<Hash256>, p: Params)
    requires IndexInvariant(t, p.hash(p.genesis), order, p)
    ensures Linked(t, p.hash(p.genesis))
  {
  }

  lemma CommittedIsKnown(t: Tree, chain: seq<Hash256>, view: CoinSet, blocks: Bodies, undos: Undos, t': Tree, p: Params)
    requires ChainInvariant(t, chain, view, blocks, undos, p) && SameIndex(t, t')
    ensures chain != [] && chain[|chain| - 1] in t && chain[|chain| - 1] in t'
    ensures t'[chain[|chain| - 1]].IsEligible() <==> t[chain[|chain| - 1]].IsEligible()
  {
    hide InStep, StoreSound, StoreKeyed, Path;
  }
}
