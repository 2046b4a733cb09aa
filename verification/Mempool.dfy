/** The mempool: unconfirmed transactions, the links between them, and everything that changes them. */
module Mempools {
  import opened Feerate
  import opened PoolAcceptance
  import opened PoolEviction
  import opened PoolFees
  import opened PoolMinable
  import opened PoolRemoval
  import opened PoolSelection
  import opened PoolSpec
  import opened Primitives
  import opened Reachability
  import opened Validation

  class Mempool {
    const p: Params
    var nodes: Nodes
    var spentBy: map<OutPoint, Hash256>
    var byTxid: map<Hash256, Hash256>
    var totalWeight: int
    var totalFees: int
    /** The order entries arrived in, which is why the links have no cycle. */
    ghost var rank: map<Hash256, nat>
    ghost var nextRank: nat

    ghost function State(): Pool
      reads this
    {
      Pool(nodes, spentBy, byTxid)
    }

    /** Links, indexes, limits and totals all agree. */
    ghost predicate Sound()
      reads this
    {
      && ValidPool(State(), rank, p)
      && RankBounded(nodes, rank, nextRank)
      && totalWeight == SumOver(Weights(nodes))
      && totalFees == SumOver(Fees(nodes))
    }

    /** Sound and within the cap: what holds between any two calls. */
    ghost predicate Valid()
      reads this
    {
      Sound() && totalWeight <= MAX_MEMPOOL_WEIGHT
    }

    constructor (p: Params)
      ensures Valid() && nodes == map[]
      ensures this.p == p
    {
      this.p := p;
      nodes, spentBy, byTxid := map[], map[], map[];
      totalWeight, totalFees := 0, 0;
      rank, nextRank := map[], 0;
      new;
      assert Weights(nodes) == map[] && Fees(nodes) == map[];
      SumOfNothing();
    }

    // --- The shape of the pool ---

    method DescendantsOf(w: Hash256) returns (reached: set<Hash256>)
      requires LinksValid(nodes)
      ensures reached == if w in nodes then Reach(Down(nodes), w) else {}
    {
      hide Reach;
      reached := BreadthFirst(Down(nodes), w);
    }

    method AncestorsOf(w: Hash256) returns (reached: set<Hash256>)
      requires LinksValid(nodes)
      ensures reached == if w in nodes then Reach(Up(nodes), w) else {}
    {
      hide Reach;
      reached := BreadthFirst(Up(nodes), w);
    }

    method SumEntries(s: set<Hash256>) returns (fee: int, weight: int)
      ensures fee == FeeOf(nodes, s) && weight == WeightOf(nodes, s)
    {
      hide SumOver;
      fee, weight := 0, 0;
      var rest := s;
      SumOfNothing();
      assert Fees(Only(nodes, {})) == map[] && Weights(Only(nodes, {})) == map[];
      ghost var done: set<Hash256> := {};
      while rest != {}
        invariant done == s - rest && rest <= s
        invariant fee == FeeOf(nodes, done) && weight == WeightOf(nodes, done)
        decreases rest
      {
        var x :| x in rest;
        SumOneMore(nodes, done, x);
        if x in nodes {
          fee, weight := fee + nodes[x].entry.fee, weight + nodes[x].entry.weight;
        }
        rest, done := rest - {x}, done + {x};
      }
      assert done == s;
    }

    /** The total fee and weight of an entry together with all its descendants. */
    method DescendantTotals(w: Hash256) returns (fee: int, weight: int)
      requires LinksValid(nodes)
      ensures var package := if w in nodes then Reach(Down(nodes), w) else {};
              fee == FeeOf(nodes, package) && weight == WeightOf(nodes, package)
    {
      hide SumOver, Reach;
      var reached := DescendantsOf(w);
      fee, weight := SumEntries(reached);
    }

    // --- Removal ---

    /** Unlinks one entry and drops it from every index: the single place an entry leaves the pool. */
    method Unlink(w: Hash256)
      requires Sound()
      modifies this
      ensures Sound() && totalWeight <= old(totalWeight) && State() == Without(old(State()), {w})
      ensures rank == old(rank) && nextRank == old(nextRank)
    {
      hide LinksValid, SpentByExact, ByTxidExact, WithinLimits, Ranked, Justified, EntriesOk, RankBounded;
      hide SumOver, Without, NodesWithout, Detach;
      ghost var s := State();
      WithoutValid(s, {w}, rank, p);
      BoundedWithout(nodes, {w}, rank, nextRank);
      if w !in nodes {
        WithoutAbsent(s, w);
        return;
      }
      SumsWithout(nodes, w);
      DetachIsExact(nodes, w);
      var doomed := nodes[w];
      StrikeFromNeighbours(w);
      DropFromIndexes(w, doomed.entry, s);
      totalWeight := totalWeight - doomed.entry.weight;
      totalFees := totalFees - doomed.entry.fee;
      nodes := nodes - {w};
      WithoutNodes(s, {w});
    }

    method StrikeFromNeighbours(w: Hash256)
      requires w in nodes
      modifies this`nodes
      ensures nodes == Detach(old(nodes), w, old(nodes)[w].parents, old(nodes)[w].children)
    {
      ghost var n0 := nodes;
      var ps, cs := nodes[w].parents, nodes[w].children;
      var rest := ps;
      while rest != {}
        invariant rest <= ps && nodes == Detach(n0, w, ps - rest, {})
        decreases rest
      {
        var q :| q in rest;
        if q in nodes {
          nodes := nodes[q := nodes[q].(children := nodes[q].children - {w})];
        }
        rest := rest - {q};
      }
      assert ps - {} == ps;
      rest := cs;
      while rest != {}
        invariant rest <= cs && nodes == Detach(n0, w, ps, cs - rest)
        decreases rest
      {
        var c :| c in rest;
        if c in nodes {
          nodes := nodes[c := nodes[c].(parents := nodes[c].parents - {w})];
        }
        rest := rest - {c};
      }
      assert cs - {} == cs;
    }

    method DropFromIndexes(w: Hash256, e: PoolEntry, ghost s: Pool)
      requires s.spentBy == spentBy && s.byTxid == byTxid && SpentByExact(s) && ByTxidExact(s)
      requires w in s.nodes && s.nodes[w].entry == e
      modifies this`spentBy, this`byTxid
      ensures spentBy == Without(s, {w}).spentBy && byTxid == Without(s, {w}).byTxid
    {
      hide SpentByExact;
      DropSpends(w, e, s);
      if e.txid in byTxid && byTxid[e.txid] == w {
        byTxid := byTxid - {e.txid};
      }
      assert byTxid == Without(s, {w}).byTxid by {
        forall t | t in s.byTxid && s.byTxid[t] == w ensures t == e.txid {
          assert s.nodes[w].entry.txid == t;
        }
        assert e.txid in s.byTxid && s.byTxid[e.txid] == w;
      }
    }

    /** An outpoint is only this entry's to give up if this entry is the one recorded as spending it. */
    method DropSpends(w: Hash256, e: PoolEntry, ghost s: Pool)
      requires s.spentBy == spentBy && SpentByExact(s) && w in s.nodes && s.nodes[w].entry == e
      modifies this`spentBy
      ensures spentBy == Without(s, {w}).spentBy
    {
      hide SpentByExact;
      for i := 0 to |e.tx.inputs|
        invariant spentBy == Dropped(s.spentBy, e.tx, i, w)
      {
        DroppedNext(s.spentBy, e.tx, i, w);
        var o := e.tx.inputs[i].outpoint;
        if o in spentBy && spentBy[o] == w {
          spentBy := spentBy - {o};
        }
      }
      DroppedAll(s, e, w);
    }

    method Remove(w: Hash256)
      requires Valid()
      modifies this
      ensures Valid() && State() == Without(old(State()), {w})
      ensures rank == old(rank) && nextRank == old(nextRank)
    {
      Unlink(w);
    }

    /** Unlinks a set of entries, in whatever order the set yields them. */
    method UnlinkAll(gone: set<Hash256>)
      requires Sound()
      modifies this
      ensures Sound() && totalWeight <= old(totalWeight) && State() == Without(old(State()), gone)
      ensures rank == old(rank) && nextRank == old(nextRank)
    {
      hide ValidPool, SumOver, Without;
      ghost var s := State();
      WithoutNothing(s);
      var rest := gone;
      ghost var done: set<Hash256> := {};
      while rest != {}
        invariant Sound() && totalWeight <= old(totalWeight) && rest <= gone && done == gone - rest
        invariant State() == Without(s, done)
        invariant rank == old(rank) && nextRank == old(nextRank)
        decreases rest
      {
        var x :| x in rest;
        Unlink(x);
        WithoutTwice(s, done, {x});
        rest, done := rest - {x}, done + {x};
      }
      assert done == gone;
    }

    /** Removes an entry and every descendant of it. */
    method RemoveRecursive(w: Hash256) returns (count: nat)
      requires Sound()
      modifies this
      ensures Sound() && totalWeight <= old(totalWeight) && (old(Valid()) ==> Valid()) && rank == old(rank)
      ensures nextRank == old(nextRank)
      ensures var gone := if w in old(nodes) then Reach(Down(old(nodes)), w) else {};
              State() == Without(old(State()), gone) && count == |gone|
    {
      hide SumOver, Without, Reach, WithinLimits, Ranked, Justified, EntriesOk, SpentByExact, ByTxidExact;
      var doomed := DescendantsOf(w);
      UnlinkAll(doomed);
      return |doomed|;
    }

    // --- After the chain moved ---

    method ResolveInputs(tx: Transaction, base: CoinSet, height: nat) returns (r: Option<seq<Coin>>)
      ensures r == Resolve(State(), base, tx.inputs, height)
    {
      var coins: seq<Coin> := [];
      for i := 0 to |tx.inputs|
        invariant Resolve(State(), base, tx.inputs[..i], height) == Some(coins)
      {
        assert tx.inputs[..i + 1][..i] == tx.inputs[..i];
        var o := tx.inputs[i].outpoint;
        if o in base {
          coins := coins + [base[o]];
          continue;
        }
        if o.txid !in byTxid || byTxid[o.txid] !in nodes || o.index >= |nodes[byTxid[o.txid]].entry.tx.outputs| {
          ResolvePrefixFails(State(), base, tx.inputs, i + 1, height);
          return None;
        }
        coins := coins + [Coin(nodes[byTxid[o.txid]].entry.tx.outputs[o.index], height, false)];
      }
      assert tx.inputs[..|tx.inputs|] == tx.inputs;
      return Some(coins);
    }

    /** Re-judges every entry against the chain as it now stands. When every name is linked, what goes is
        exactly what no longer holds and its descendants, whatever the order of the walk, and everything
        left holds against the pool as it is left. */
    method RemoveForReorg(base: CoinSet, height: nat) returns (removed: nat, ghost gone: set<Hash256>)
      requires Valid()
      modifies this
      ensures Valid() && rank == old(rank) && nextRank == old(nextRank)
      ensures State() == Without(old(State()), gone) && removed == |gone| && gone <= old(nodes).Keys
      ensures FullyLinked(old(nodes), base) ==>
                && gone == Fallen(old(State()), base, height, p)
                && forall w :: w in nodes ==> Holds(State(), base, nodes[w].entry.tx, height, p)
    {
      hide ValidPool, SumOver, Without, Reach, Holds, FullyLinked, RankBounded;
      ghost var s := State();
      var candidates := ToSeq(nodes.Keys);
      removed, gone := 0, {};
      WithoutNothing(s);
      SweepStarts(s, base, height, candidates, p);
      for i := 0 to |candidates|
        invariant Valid() && rank == old(rank) && nextRank == old(nextRank)
        invariant State() == Without(s, gone) && removed == |gone|
        invariant Swept(s, gone, base, height, candidates[..i], p)
      {
        var w := candidates[i];
        assert candidates[..i + 1] == candidates[..i] + [w];
        if w !in nodes {
          SweepSkips(s, gone, base, height, candidates[..i], w, p);
          continue;
        }
        var tx := nodes[w].entry.tx;
        var spent := ResolveInputs(tx, base, height);
        var holds := false;
        if spent.Some? {
          var fee := CheckTransactionInputs(tx, spent.value, height, p);
          holds := fee.Ok?;
        }
        HoldsUnfolds(State(), base, tx, height, p);
        SweepJudges(s, gone, base, height, candidates[..i], w, rank, p);
        if !holds {
          var count := RemoveRecursive(w);
          WithoutTwice(s, gone, Reach(Down(Without(s, gone).nodes), w));
          gone, removed := gone + Reach(Down(Without(s, gone).nodes), w), removed + count;
        }
      }
      assert candidates[..|candidates|] == candidates;
      SweepEnds(s, gone, base, height, candidates, rank, p);
    }

    /** Drops the entries the block confirms, one by one: their children stay. */
    method RemoveConfirmed(block: Block) returns (removed: nat, ghost gone: set<Hash256>)
      requires Valid()
      modifies this
      ensures Valid() && rank == old(rank) && nextRank == old(nextRank)
      ensures State() == Without(old(State()), gone) && removed == |gone| && gone <= old(nodes).Keys
      ensures gone == ConfirmedBy(old(State()), block, p)
    {
      hide ValidPool, SumOver, Without, RankBounded;
      ghost var s := State();
      removed, gone := 0, {};
      WithoutNothing(s);
      for i := 0 to |block.transactions|
        invariant Valid() && rank == old(rank) && nextRank == old(nextRank)
        invariant State() == Without(s, gone) && removed == |gone| && gone <= s.nodes.Keys
        invariant forall w :: w in s.nodes ==> (w in gone <==> ConfirmsBefore(block, i, s.nodes[w].entry, p))
      {
        var txid := p.txid(block.transactions[i]);
        ConfirmsNext(block, i, p);
        ByTxidAfter(s, gone, txid, rank, p);
        if txid !in byTxid {
          continue;
        }
        var w := byTxid[txid];
        Remove(w);
        WithoutTwice(s, gone, {w});
        removed, gone := removed + 1, gone + {w};
      }
    }

    /** Drops whatever spends one of these outpoints, with its descendants. */
    method RemoveSpenders(inputs: seq<TxInput>) returns (removed: nat, ghost gone: set<Hash256>)
      requires Valid()
      modifies this
      ensures Valid() && rank == old(rank) && nextRank == old(nextRank)
      ensures State() == Without(old(State()), gone) && removed == |gone| && gone <= old(nodes).Keys
      ensures Evicted(old(State()), gone, inputs, |inputs|)
    {
      hide ValidPool, SumOver, Without, Reach, RankBounded, Evicted;
      ghost var s := State();
      removed, gone := 0, {};
      WithoutNothing(s);
      EvictStart(s, inputs);
      for i := 0 to |inputs|
        invariant Valid() && rank == old(rank) && nextRank == old(nextRank)
        invariant State() == Without(s, gone) && removed == |gone| && Evicted(s, gone, inputs, i)
      {
        var o := inputs[i].outpoint;
        EvictStep(s, gone, inputs, i, rank, p);
        if o !in spentBy {
          continue;
        }
        var spender := spentBy[o];
        ghost var more := Reach(Down(nodes), spender);
        var count := RemoveRecursive(spender);
        WithoutTwice(s, gone, more);
        removed, gone := removed + count, gone + more;
      }
      EvictedKnown(s, gone, inputs, |inputs|);
    }

    /** Updates the pool for a block that was just connected. What goes is exactly what it confirmed, and of
        the rest what it made impossible with all that depends on it; what is left shares no txid with it
        and spends nothing it spent. */
    method RemoveForBlock(block: Block) returns (removed: nat)
      requires Valid()
      modifies this
      ensures Valid() && rank == old(rank) && nextRank == old(nextRank)
      ensures State() == Without(old(State()), ForBlock(old(State()), block, p))
      ensures removed == |ForBlock(old(State()), block, p)|
      ensures forall w :: w in nodes ==> !Confirms(block, nodes[w].entry, p) && !ConflictsWith(block, nodes[w].entry)
    {
      hide ValidPool, SumOver, Without, Reach, RankBounded, Confirms, ConflictsWith, Evicted, Clearing, ConfirmedBy;
      hide Undone;
      ghost var s := State();
      ghost var confirmed;
      removed, confirmed := RemoveConfirmed(block);
      ghost var s1, fallen := State(), {};
      ClearingStarts(s1, block);
      WithoutNothing(s1);
      for i := 0 to |block.transactions|
        invariant Valid() && rank == old(rank) && nextRank == old(nextRank)
        invariant State() == Without(s1, fallen) && removed == |confirmed| + |fallen| && Clearing(block, s1, fallen, i)
      {
        if block.transactions[i].IsCoinbase() {
          ClearingCoinbase(block, s1, fallen, i);
          continue;
        }
        var count, more := RemoveSpenders(block.transactions[i].inputs);
        ClearingMore(block, s1, fallen, more, i, rank, p) by { SoundAfter(s, confirmed, rank, p); }
        WithoutTwice(s1, fallen, more);
        removed, fallen := removed + count, fallen + more;
      }
      ClearingEnds(block, s1, fallen, rank, p) by { SoundAfter(s, confirmed, rank, p); }
      ForBlockIs(s, block, confirmed, fallen, p);
      WithoutTwice(s, confirmed, fallen);
    }

    /** The package a full pool gives up first: least exact fee rate, ties to the lesser hash. */
    method CheapestPackage() returns (worst: Hash256)
      requires Sound() && nodes != map[]
      ensures IsCheapest(nodes, worst)
    {
      hide SumOver, Reach, LinksValid, Ranked, Justified, SpentByExact, ByTxidExact, RankBounded, EntriesOk;
      hide WithinLimits;
      hide GoesBefore, CompareFeerate, CompareRates, FeeOf, WeightOf, Package, CheapestOf;
      var ids := ToSeq(nodes.Keys);
      assert ids != [] by {
        var w :| w in nodes;
        assert w in ids;
      }
      worst := ids[0];
      var worstFee, worstWeight := PackageTotals(worst);
      CheapestFirst(nodes, ids);
      for i := 1 to |ids|
        invariant worst in nodes && CheapestOf(nodes, ids[..i], worst)
        invariant worstFee == FeeOf(nodes, Package(nodes, worst))
        invariant worstWeight == WeightOf(nodes, Package(nodes, worst))
        invariant 0 <= worstFee <= INT64_MAX && 0 < worstWeight < TWO64
      {
        var id := ids[i];
        assert ids[..i + 1] == ids[..i] + [id];
        var fee, weight := PackageTotals(id);
        var cmp := CompareFeerate(fee, weight, worstFee, worstWeight);
        CompareFeerateExact(fee, weight, worstFee, worstWeight);
        GoesBeforeUnfolds(nodes, id, worst);
        CheapestNext(nodes, ids[..i], worst, id);
        if cmp < 0 || (cmp == 0 && id.Less(worst)) {
          worst, worstFee, worstWeight := id, fee, weight;
        }
      }
      CheapestLast(nodes, ids, worst);
    }

    /** A package's totals, which a 64-bit register holds. */
    method PackageTotals(w: Hash256) returns (fee: int, weight: int)
      requires ValidPool(State(), rank, p) && w in nodes
      ensures fee == FeeOf(nodes, Package(nodes, w)) && weight == WeightOf(nodes, Package(nodes, w))
      ensures 0 <= fee <= INT64_MAX && 0 < weight < TWO64
    {
      hide SumOver, Reach, LinksValid, Ranked, Justified, SpentByExact, ByTxidExact, EntriesOk, WithinLimits;
      fee, weight := DescendantTotals(w);
      PackageFits(nodes, w, p);
    }

    /** Gives up the cheapest package, again and again, until the pool is no heavier than `target`. */
    method Trim(target: nat) returns (evicted: nat, ghost rounds: seq<Hash256>)
      requires Sound()
      modifies this
      ensures Sound() && totalWeight <= old(totalWeight) && (old(Valid()) ==> Valid()) && rank == old(rank)
      ensures nextRank == old(nextRank)
      ensures TrimRun(old(State()), rounds, target) && State() == After(old(State()), rounds)
      ensures totalWeight <= target && evicted == |old(nodes)| - |nodes|
    {
      hide ValidPool, SumOver, Without, Reach, RankBounded, After, TrimRun, IsCheapest;
      ghost var s := State();
      evicted, rounds := 0, [];
      TrimStarts(s, target);
      while totalWeight > target && nodes != map[]
        invariant Sound() && totalWeight <= old(totalWeight) && rank == old(rank) && nextRank == old(nextRank)
        invariant TrimRun(s, rounds, target) && State() == After(s, rounds) && evicted == |s.nodes| - |nodes|
        decreases |nodes|
      {
        ghost var s1 := State();
        var worst := CheapestPackage();
        CheapestIsIn(nodes, worst);
        TrimStep(s, rounds, target, worst);
        PackageCount(s1, worst);
        var count := RemoveRecursive(worst);
        evicted, rounds := evicted + count, rounds + [worst];
      }
      if nodes == map[] {
        assert Weights(nodes) == map[];
        SumOfNothing();
      }
    }

    // --- Acceptance ---

    method DirectConflicts(tx: Transaction) returns (conflicts: set<Hash256>)
      ensures conflicts == Direct(State(), tx)
    {
      conflicts := {};
      for i := 0 to |tx.inputs|
        invariant conflicts == set j | 0 <= j < i && tx.inputs[j].outpoint in spentBy :: spentBy[tx.inputs[j].outpoint]
      {
        if tx.inputs[i].outpoint in spentBy {
          conflicts := conflicts + {spentBy[tx.inputs[i].outpoint]};
        }
      }
    }

    /** The entries, and everything that depends on them. */
    method AllBelow(roots: set<Hash256>) returns (reached: set<Hash256>)
      requires LinksValid(nodes) && roots <= nodes.Keys
      ensures reached == Below(nodes, roots)
    {
      hide Reach, LinksValid;
      reached := {};
      var rest := roots;
      ghost var done: set<Hash256> := {};
      while rest != {}
        invariant rest <= roots && done == roots - rest && reached == Below(nodes, done)
        decreases rest
      {
        var c :| c in rest;
        var more := DescendantsOf(c);
        rest, done, reached := rest - {c}, done + {c}, reached + more;
      }
      assert done == roots;
    }

    method AllAbove(roots: set<Hash256>) returns (reached: set<Hash256>)
      requires LinksValid(nodes) && roots <= nodes.Keys
      ensures reached == Above(nodes, roots)
    {
      hide Reach, LinksValid;
      reached := {};
      var rest := roots;
      ghost var done: set<Hash256> := {};
      while rest != {}
        invariant rest <= roots && done == roots - rest && reached == Above(nodes, done)
        decreases rest
      {
        var c :| c in rest;
        var more := AncestorsOf(c);
        rest, done, reached := rest - {c}, done + {c}, reached + more;
      }
      assert done == roots;
    }

    /** The consensus rules and the relay floor. */
    method ScreenArrival(tx: Transaction, spent: seq<Coin>, height: nat, now: int)
      returns (r: Result<PoolEntry, Rejection>)
      ensures r == Screen(State(), tx, spent, height, now, p)
    {
      hide ShapeVerdict, InputsVerdict;
      if tx.IsCoinbase() {
        return Err(Rejection(Coinbase, None));
      }
      var wtxid := p.wtxid(tx);
      if wtxid in nodes {
        return Err(Rejection(AlreadyPresent, None));
      }
      var shape := CheckTransaction(tx, p);
      if shape.Rejected? {
        return Err(Rejection(ConsensusRuleFailed, Some(shape.error)));
      }
      var fee := CheckTransactionInputs(tx, spent, height, p);
      if fee.Err? {
        return Err(Rejection(ConsensusRuleFailed, Some(fee.error)));
      }
      var weight := p.weight(tx);
      if weight == 0 {
        return Err(Rejection(ZeroWeight, None));
      }
      if weight > MAX_MEMPOOL_WEIGHT {
        return Err(Rejection(PoolFull, None));
      }
      if fee.value < weight * MIN_RELAY_FEERATE {
        return Err(Rejection(FeeBelowRelayMinimum, None));
      }
      return Ok(PoolEntry(tx, p.txid(tx), wtxid, fee.value, weight, now));
    }

    /** The replacement rules, on sums no 64-bit register overflows. */
    method WeighSwap(e: PoolEntry, direct: set<Hash256>, doomed: set<Hash256>) returns (r: Option<Rejection>)
      requires ValidPool(State(), rank, p) && EntryOk(e.wtxid, e, p)
      requires direct == Direct(State(), e.tx) && doomed == Doomed(State(), e.tx)
      ensures r == SwapRefusal(State(), e)
    {
      hide SumOver, Reach, LinksValid, Ranked, Justified, SpentByExact, ByTxidExact, EntriesOk, WithinLimits;
      hide CompareFeerate, CompareRates, FeeOf, WeightOf, Package, Direct, Below;
      DoomedStable(State(), e.tx);
      if |doomed| > MAX_REPLACEMENT_EVICTIONS {
        return Some(Rejection(ConflictsTooMany, None));
      }
      if doomed != {} {
        var rest := direct;
        while rest != {}
          invariant rest <= direct && forall c :: c in direct && c !in rest ==> Outbids(nodes, e, c)
          decreases rest
        {
          var c :| c in rest;
          var fee, weight := PackageTotals(c);
          CompareFeerateExact(e.fee, e.weight, fee, weight);
          if CompareFeerate(e.fee, e.weight, fee, weight) <= 0 {
            return Some(Rejection(ConflictFeerateTooLow, None));
          }
          rest := rest - {c};
        }
        var displaced, _ := SumEntries(doomed);
        if e.fee <= displaced {
          return Some(Rejection(ConflictFeeTooLow, None));
        }
      }
      return None;
    }

    method FindParents(tx: Transaction) returns (parents: set<Hash256>)
      ensures parents == ParentsOf(State(), tx)
    {
      parents := {};
      for i := 0 to |tx.inputs|
        invariant parents
               == set j | 0 <= j < i && tx.inputs[j].outpoint.txid in byTxid :: byTxid[tx.inputs[j].outpoint.txid]
      {
        if tx.inputs[i].outpoint.txid in byTxid {
          parents := parents + {byTxid[tx.inputs[i].outpoint.txid]};
        }
      }
    }

    /** The limits, counted against the pool as it will be. */
    method WeighPlace(tx: Transaction, parents: set<Hash256>, doomed: set<Hash256>) returns (r: Option<Rejection>)
      requires ValidPool(State(), rank, p)
      requires parents == ParentsOf(State(), tx) && doomed == Doomed(State(), tx)
      ensures r == PlaceRefusal(State(), tx)
    {
      hide SumOver, Reach, LinksValid, Ranked, Justified, SpentByExact, ByTxidExact, EntriesOk, WithinLimits;
      hide ParentsOf, Doomed, Above;
      if q :| q in parents && q in doomed {
        return Some(Rejection(MissingOrSpentInput, Some(TxInputMissingOrSpent)));
      }
      ParentsKnown(State(), tx);
      var above := AllAbove(parents);
      var ancestors := above - doomed;
      if |ancestors| > MAX_MEMPOOL_ANCESTORS {
        return Some(Rejection(TooManyAncestors, None));
      }
      AboveKnown(nodes, parents);
      var crowded := AnyCrowded(ancestors, doomed);
      return if crowded then Some(Rejection(TooManyDescendants, None)) else None;
    }

    /** Whether one of these entries would be left with too many descendants. */
    method AnyCrowded(ancestors: set<Hash256>, doomed: set<Hash256>) returns (crowded: bool)
      requires LinksValid(nodes) && ancestors <= nodes.Keys
      ensures crowded == exists a :: a in ancestors && Surviving(nodes, doomed, a) + 1 > MAX_MEMPOOL_DESCENDANTS
    {
      hide Reach, LinksValid;
      var rest := ancestors;
      while rest != {}
        invariant rest <= ancestors
        invariant forall a :: a in ancestors && a !in rest ==>
                    Surviving(nodes, doomed, a) + 1 <= MAX_MEMPOOL_DESCENDANTS
        decreases rest
      {
        var a :| a in rest;
        var below := DescendantsOf(a);
        if |below - doomed - {a}| + 1 > MAX_MEMPOOL_DESCENDANTS {
          return true;
        }
        rest := rest - {a};
      }
      return false;
    }

    /** Stores the entry, links it under its parents, and enters it in both indexes. */
    method Link(e: PoolEntry, parents: set<Hash256>)
      requires e.wtxid !in nodes && parents <= nodes.Keys
      modifies this
      ensures State() == With(old(State()), e.wtxid, e, parents)
      ensures totalWeight == old(totalWeight) + e.weight && totalFees == old(totalFees) + e.fee
      ensures rank == old(rank) && nextRank == old(nextRank)
    {
      hide Attach, NodesWith;
      ghost var s := State();
      var w := e.wtxid;
      nodes := nodes[w := Node(e, parents, {})];
      ghost var n0 := nodes;
      var rest := parents;
      AttachNone(n0, w);
      while rest != {}
        invariant rest <= parents && nodes == Attach(n0, w, parents - rest)
        invariant spentBy == s.spentBy && byTxid == s.byTxid && totalWeight == old(totalWeight)
        invariant totalFees == old(totalFees)
        invariant rank == old(rank) && nextRank == old(nextRank)
        decreases rest
      {
        var q :| q in rest;
        AttachMore(n0, w, parents - rest, q);
        nodes := nodes[q := nodes[q].(children := nodes[q].children + {w})];
        assert parents - (rest - {q}) == parents - rest + {q};
        rest := rest - {q};
      }
      assert parents - {} == parents;
      AttachAll(s.nodes, w, e, parents);
      EnterSpends(e);
      byTxid := byTxid[e.txid := w];
      totalWeight := totalWeight + e.weight;
      totalFees := totalFees + e.fee;
    }

    method EnterSpends(e: PoolEntry)
      modifies this`spentBy
      ensures spentBy == old(spentBy) + (map o | o in InputSet(e.tx) :: e.wtxid)
    {
      hide Entered, InputSet;
      EnteredNone(spentBy, e.tx, e.wtxid);
      for i := 0 to |e.tx.inputs|
        invariant spentBy == Entered(old(spentBy), e.tx, i, e.wtxid)
      {
        EnteredNext(old(spentBy), e.tx, i, e.wtxid);
        spentBy := spentBy[e.tx.inputs[i].outpoint := e.wtxid];
      }
      EnteredAll(old(spentBy), e.tx, e.wtxid);
    }

    /** Offers a transaction with the coins it spends. A refusal leaves the pool as it was. An arrival that
        is not refused displaces exactly what it conflicts with and what depends on that, and is linked under
        its in-pool parents; then the pool sheds its cheapest packages, the arrival among them, until it is
        within the cap. */
    method AcceptCoins(tx: Transaction, spent: seq<Coin>, height: nat, now: int)
      returns (r: Result<PoolEntry, Rejection>, ghost rounds: seq<Hash256>)
      requires Valid() && TxidCommits(p) && p.admits(tx)
      modifies this
      ensures Valid()
      ensures Refusal(old(State()), tx, spent, height, now, p).Some? ==>
                && r == Err(Refusal(old(State()), tx, spent, height, now, p).value)
                && State() == old(State()) && totalFees == old(totalFees)
      ensures Refusal(old(State()), tx, spent, height, now, p).None? ==>
                var e := Screen(old(State()), tx, spent, height, now, p).value;
                && TrimRun(Committed(old(State()), e), rounds, MAX_MEMPOOL_WEIGHT)
                && State() == After(Committed(old(State()), e), rounds)
                && rank == old(rank)[e.wtxid := old(nextRank)]
                && r == (if e.wtxid in nodes then Ok(e) else Err(Rejection(PoolFull, None)))
                && (rounds == [] ==> r == Ok(e) && totalFees > old(totalFees))
    {
      hide ValidPool, SumOver, Without, With, Reach, RankBounded, After, TrimRun, TxidCommits, EntryOk;
      hide Direct, Doomed, ParentsOf, SwapRefusal, PlaceRefusal, Screen;
      ghost var s, r0, k0 := State(), rank, nextRank;
      rounds := [];
      var screened := ScreenArrival(tx, spent, height, now);
      if screened.Err? {
        return Err(screened.error), [];
      }
      var e := screened.value;
      ScreenedOk(s, tx, spent, height, now, p);
      LinksOf(s, rank, p);
      var direct := DirectConflicts(tx);
      var doomed := AllBelow(direct);
      DoomedIsBelow(s, tx);
      var swap := WeighSwap(e, direct, doomed);
      if swap.Some? {
        return Err(swap.value), [];
      }
      var parents := FindParents(tx);
      var place := WeighPlace(tx, parents, doomed);
      if place.Some? {
        return Err(place.value), [];
      }
      CommitValid(s, e, r0, k0, p);
      CommitTotals(s, e, r0, p);
      UnlinkAll(doomed);
      Link(e, parents);
      rank, nextRank := rank[e.wtxid := nextRank], nextRank + 1;
      assert Sound();
      CommitHasEntry(s, e);
      TrimStarts(State(), MAX_MEMPOOL_WEIGHT);
      if totalWeight > MAX_MEMPOOL_WEIGHT {
        var _, shed := Trim(MAX_MEMPOOL_WEIGHT);
        rounds := shed;
        if e.wtxid !in nodes {
          return Err(Rejection(PoolFull, None)), rounds;
        }
      }
      return Ok(e), rounds;
    }

    /** Offers a transaction, looking its inputs up on the chain and in the pool. If every entry held
        against this chain before, every entry holds after, whatever was displaced or shed. */
    method Accept(tx: Transaction, base: CoinSet, height: nat, now: int)
      returns (r: Result<PoolEntry, Rejection>, ghost rounds: seq<Hash256>)
      requires Valid() && TxidCommits(p) && p.admits(tx)
      modifies this
      ensures Valid()
      ensures OfferRefusal(old(State()), tx, base, height, now, p).Some? ==>
                && r == Err(OfferRefusal(old(State()), tx, base, height, now, p).value)
                && State() == old(State()) && totalFees == old(totalFees)
      ensures OfferRefusal(old(State()), tx, base, height, now, p).None? ==>
                var e := Offered(old(State()), tx, base, height, now, p);
                && TrimRun(Committed(old(State()), e), rounds, MAX_MEMPOOL_WEIGHT)
                && State() == After(Committed(old(State()), e), rounds)
                && r == (if e.wtxid in nodes then Ok(e) else Err(Rejection(PoolFull, None)))
                && (rounds == [] ==> r == Ok(e) && totalFees > old(totalFees))
      ensures AllHold(old(State()), base, height, p) ==> AllHold(State(), base, height, p)
      ensures Genuine(base, p) && TrueFees(old(nodes), p) ==> TrueFees(nodes, p)
    {
      hide ValidPool, RankBounded, SumOver, AllHold, Resolve, ShapeVerdict, Refusal, TrimRun, After, Committed;
      hide TxidCommits;
      hide Genuine, TrueFees, Screen;
      ghost var s, r0, k0 := State(), rank, nextRank;
      rounds := [];
      if tx.IsCoinbase() {
        return Err(Rejection(Coinbase, None)), [];
      }
      var shape := CheckTransaction(tx, p);
      if shape.Rejected? {
        return Err(Rejection(ConsensusRuleFailed, Some(shape.error))), [];
      }
      var spent := ResolveInputs(tx, base, height);
      if spent.None? {
        return Err(Rejection(MissingOrSpentInput, Some(TxInputMissingOrSpent))), [];
      }
      r, rounds := AcceptCoins(tx, spent.value, height, now);
      if Refusal(s, tx, spent.value, height, now, p).None? {
        OfferKeeps(s, tx, spent.value, base, height, now, r0, k0, rounds, p);
      }
    }

    // --- Selection ---

    /** Where a candidate belongs among those already in order. */
    method PlaceFor(ranked: seq<Candidate>, c: Candidate) returns (k: nat)
      requires Registered(ranked + [c])
      ensures k <= |ranked| && (k > 0 ==> RanksBefore(ranked[k - 1], c))
      ensures (k < |ranked| ==> !RanksBefore(ranked[k], c))
    {
      hide RanksBefore, CompareFeerate;
      assert c == (ranked + [c])[|ranked|];
      k := 0;
      while k < |ranked|
        invariant k <= |ranked| && (k > 0 ==> RanksBefore(ranked[k - 1], c))
      {
        var d := ranked[k];
        assert d == (ranked + [c])[k];
        RanksUnfold(d, c);
        var cmp := CompareFeerate(d.fee, d.weight, c.fee, c.weight);
        if !(cmp > 0 || (cmp == 0 && d.id.Less(c.id))) {
          return;
        }
        k := k + 1;
      }
    }

    /** Every entry with its package's totals, best rate first. */
    method RankCandidates() returns (ranked: seq<Candidate>)
      requires Valid()
      ensures Describes(nodes, nodes.Keys, ranked) && InOrder(ranked)
    {
      hide SumOver, Reach, LinksValid, Ranked, Justified, SpentByExact, ByTxidExact, RankBounded, EntriesOk;
      hide WithinLimits;
      hide FeeOf, WeightOf, Package, Describes, InOrder, RanksBefore, CompareFeerate, CompareRates;
      ranked := [];
      var ids := ToSeq(nodes.Keys);
      ghost var done: set<Hash256> := {};
      RankingStarts(nodes);
      for i := 0 to |ids|
        invariant done == (set x | x in ids[..i]) && done <= nodes.Keys
        invariant Describes(nodes, done, ranked) && InOrder(ranked) && Registered(ranked)
      {
        var fee, weight := PackageTotals(ids[i]);
        var c := Candidate(ids[i], fee, weight);
        assert ids[..i + 1] == ids[..i] + [ids[i]];
        DescribedIds(nodes, done, ranked);
        var k := PlaceFor(ranked, c);
        PlacedInOrder(ranked, c, k);
        DescribesMore(nodes, done, ranked, c, k);
        ranked, done := ranked[..k] + [c] + ranked[k..], done + {ids[i]};
      }
      assert ids[..|ids|] == ids;
      assert done == nodes.Keys;
    }

    /** Lists a package parents-first. The walk never stalls: the links have no cycle. */
    method EmitPackage(needed: set<Hash256>, selected0: seq<PoolEntry>, included0: set<Hash256>, used0: int)
      returns (selected: seq<PoolEntry>, included: set<Hash256>, used: int)
      requires Valid() && needed !! included0 && needed <= nodes.Keys && used0 == WeightOf(nodes, included0)
      requires Stable(Up(nodes), included0 + needed) && Listed(nodes, selected0, included0)
      ensures included == included0 + needed && used == WeightOf(nodes, included)
      ensures Listed(nodes, selected, included)
    {
      hide SumOver, Reach, LinksValid, Ranked, Justified, SpentByExact, ByTxidExact, RankBounded, EntriesOk;
      hide WithinLimits;
      hide WeightOf, FeeOf, Listed, Stable;
      selected, included, used := selected0, included0, used0;
      var package := ToSeq(needed);
      while package != []
        invariant forall i, j :: 0 <= i < j < |package| ==> package[i] != package[j]
        invariant forall w :: w in package ==> w in needed && w !in included
        invariant forall w :: w in needed ==> w in package || w in included
        invariant included0 <= included <= included0 + needed
        invariant used == WeightOf(nodes, included) && Listed(nodes, selected, included)
        decreases |package|
      {
        StableParents(nodes, included0 + needed);
        EmissionProgresses(nodes, rank, package, included);
        var progressed := false;
        var i := 0;
        while i < |package| && !progressed
          invariant i <= |package|
          invariant progressed ==> i < |package| && nodes[package[i]].parents <= included
          invariant !progressed ==> forall j :: 0 <= j < i ==> !(nodes[package[j]].parents <= included)
          decreases |package| - i, !progressed
        {
          if nodes[package[i]].parents <= included {
            progressed := true;
          } else {
            i := i + 1;
          }
        }
        if !progressed {
          assert false;
          break;
        }
        var x := package[i];
        EntryNamed(nodes, x, p);
        SumOneMore(nodes, included, x);
        ListedMore(nodes, selected, included, x);
        selected, used := selected + [nodes[x].entry], used + nodes[x].entry.weight;
        included := included + {x};
        DropOne(package, i);
        package := package[..i] + package[i + 1..];
      }
      assert included == included0 + needed;
    }

    /** Entries for a block template: distinct, within the room given, each after every entry it is linked
        under, and exactly the packages that fitted when their turn came. */
    method GetTemplates(available: nat) returns (selected: seq<PoolEntry>, ghost ranked: seq<Candidate>)
      requires Valid()
      ensures Describes(nodes, nodes.Keys, ranked) && InOrder(ranked)
      ensures Listed(nodes, selected, Ids(selected)) && WeightOf(nodes, Ids(selected)) <= available
      ensures Ids(selected) == Taken(nodes, ranked, available)
    {
      hide SumOver, Reach, LinksValid, Ranked, Justified, SpentByExact, ByTxidExact, RankBounded, EntriesOk;
      hide WithinLimits;
      hide WeightOf, FeeOf, Listed, Stable, Taken, InOrder, Describes;
      var order := RankCandidates();
      ranked := order;
      selected := [];
      var included: set<Hash256> := {};
      var used := 0;
      WeightOfNone(nodes);
      TakenNone(nodes, order, available);
      for k := 0 to |order|
        invariant included == Taken(nodes, order[..k], available)
        invariant used == WeightOf(nodes, included) && Listed(nodes, selected, included)
      {
        var id := order[k].id;
        CandidateKnown(nodes, nodes.Keys, order, k);
        TakenTurn(nodes, order, available, k);
        if id in included {
          continue;
        }
        var ancestors := AncestorsOf(id);
        var needed := ancestors - included;
        var _, weight := SumEntries(needed);
        if used + weight > available {
          continue;
        }
        selected, included, used := EmitPackage(needed, selected, included, used);
      }
      assert order[..|order|] == order;
      TakenFits(nodes, order, available);
      ListedIds(nodes, selected, included);
    }
  }
}
