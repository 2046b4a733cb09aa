/** The header index: the tree held in tables, with the best tip kept beside it. */
module Index {
  import opened HeaderRules
  import opened IndexTree
  import opened Primitives
  import opened Validation

  class BlockIndex {
    const genesis: Hash256
    var entries: Tree
    var children: map<Hash256, seq<Hash256>>
    var bestHeader: Option<Hash256>
    var nextSequence: nat
    /** The hashes in the order they were first learned. */
    ghost var order: seq<Hash256>

    ghost predicate Valid(p: Params)
      reads this
    {
      && genesis == p.hash(p.genesis)
      && nextSequence == |order|
      && ValidIndex(entries, order, children, bestHeader, p)
    }

    constructor ForNetwork(p: Params)
      ensures Valid(p)
      ensures entries == map[p.hash(p.genesis) := GenesisEntry(p)] && order == [p.hash(p.genesis)]
      ensures bestHeader == Some(p.hash(p.genesis))
    {
      var h := p.hash(p.genesis);
      genesis := h;
      entries := map[h := GenesisEntry(p)];
      children := map[];
      bestHeader := Some(h);
      nextSequence := 1;
      order := [h];
    }

    method MedianTimePastAt(h: Hash256) returns (median: int)
      requires Linked(entries, genesis) && h in entries
      ensures median == Median(RecentTimes(entries, genesis, h))
    {
      hide Path, TimesFrom, Sort;
      ghost var path := Path(entries, genesis, h);
      TimesFromEnd(entries, path);
      ghost var above := |path|;
      var times: seq<int> := [];
      var walk := Some(h);
      // Oldest first throughout, which is the order the median is taken in.
      while walk.Some? && |times| < MEDIAN_TIME_SPAN
        invariant 0 <= above <= |path| && |times| == |path| - above <= MEDIAN_TIME_SPAN
        invariant walk == if above == 0 then None else Some(path[above - 1])
        invariant times == TimesFrom(entries, path, above)
        decreases above
      {
        PathPrefix(entries, genesis, h, above - 1);
        TimesFromStep(entries, path, above);
        times := [entries[walk.value].header.timestamp] + times;
        walk := entries[walk.value].parent;
        above := above - 1;
      }
      return Median(times);
    }

    /** Everything that can refuse a header, cheapest first. Changes nothing. */
    method Judge(header: BlockHeader, now: int, p: Params) returns (r: Result<Hash256, HeaderError>)
      requires Linked(entries, genesis)
      ensures r == HeaderVerdict(entries, genesis, header, now, p)
    {
      var h := p.hash(header);
      if h in entries {
        return Ok(h);
      }
      var sound := p.checkHeader(header);
      if sound.Rejected? {
        return Err(Rule(sound.error));
      }
      var q := header.prevBlock;
      if q !in entries {
        return Err(NotPlaced(UnknownPredecessor));
      }
      if !entries[q].IsEligible() {
        return Err(NotPlaced(PredecessorInvalid));
      }
      var median := MedianTimePastAt(q);
      var bits := p.expectedBits(entries[q].height, entries[q].header.timestamp, header.timestamp);
      var placed := ContextualCheckBlockHeader(header, q, entries[q].height, median, bits, now);
      return if placed.Rejected? then Err(Rule(placed.error)) else Ok(h);
    }

    method AddHeader(header: BlockHeader, now: int, p: Params) returns (r: Result<Hash256, HeaderError>)
      requires Valid(p)
      modifies this
      ensures Valid(p)
      ensures r == HeaderVerdict(old(entries), genesis, header, now, p)
      ensures var h := p.hash(header);
              if r.Ok? && h !in old(entries)
              then entries == WithHeader(old(entries), header, old(nextSequence), p)
                   && order == old(order) + [h]
              else entries == old(entries) && order == old(order) && bestHeader == old(bestHeader)
    {
      hide Heights, Derived, Judged, Arrivals, FailuresPropagated, FailuresExplained, ChildrenExact;
      hide ContextVerdict, BestWith, WithChild, Path, Linked;
      assert Linked(entries, genesis);
      r := Judge(header, now, p);
      var h := p.hash(header);
      if r.Err? || h in entries {
        return;
      }
      AddedKeepsIndex(entries, order, children, bestHeader, header, now, p);
      bestHeader := BestWith(entries, bestHeader, h, NewEntry(entries, header, nextSequence, p));
      entries := WithHeader(entries, header, nextSequence, p);
      children := WithChild(children, header.prevBlock, h);
      order := order + [h];
      nextSequence := nextSequence + 1;
    }

    method RecordValidity(h: Hash256, reached: BlockValidity, p: Params)
      requires Valid(p)
      modifies this`entries
      ensures Valid(p)
      ensures entries == Raised(old(entries), h, reached)
    {
      hide ValidIndex, Raised;
      RaisedKeepsIndex(entries, order, children, bestHeader, h, reached, p);
      entries := Raised(entries, h, reached);
    }

    /** Recomputes the best tip from scratch, visiting the table in whatever order it yields. */
    method RescanForBestHeader()
      requires UniqueSequences(entries)
      modifies this`bestHeader
      ensures IsBest(entries, bestHeader)
    {
      bestHeader := None;
      var pending := entries.Keys;
      ghost var seen: Tree := map[];
      while pending != {}
        invariant pending <= entries.Keys && seen == entries - pending
        invariant IsBest(seen, bestHeader)
        decreases pending
      {
        var h :| h in pending;
        BestAfterVisiting(seen, bestHeader, h, entries[h]);
        if entries[h].IsEligible() {
          if bestHeader == None || IsBetterTip(entries[h], entries[bestHeader.value]) {
            bestHeader := Some(h);
          }
        }
        seen, pending := seen[h := entries[h]], pending - {h};
      }
      assert seen == entries;
    }

    /** Marks the children of `current` that are still eligible, and queues them. */
    method MarkChildren(current: Hash256, x: Hash256, ghost t0: Tree, ghost marked: set<Hash256>,
                        frontier: seq<Hash256>)
      returns (frontier': seq<Hash256>, added: nat, ghost marked': set<Hash256>)
      requires ChildrenExact(children, t0) && entries == Mark(t0, marked, x)
      requires x in marked && marked <= t0.Keys && current in marked
      requires forall g :: g in marked ==> t0[g].IsEligible()
      modifies this`entries
      ensures entries == Mark(t0, marked', x) && marked <= marked' && |marked'| == |marked| + added
      ensures forall c :: c in marked' - marked ==> c in t0 && t0[c].IsEligible() && t0[c].parent == Some(current)
      ensures forall c :: c in t0 && t0[c].IsEligible() && t0[c].parent == Some(current) ==> c in marked'
      ensures forall c :: c in frontier' <==> c in frontier || c in marked' - marked
      ensures |frontier'| == |frontier| + added
    {
      frontier', added, marked' := frontier, 0, marked;
      var kids := if current in children then children[current] else [];
      for i := 0 to |kids|
        invariant entries == Mark(t0, marked', x) && marked <= marked' <= t0.Keys && |marked'| == |marked| + added
        invariant forall c :: c in marked' - marked ==> c in t0 && t0[c].IsEligible() && t0[c].parent == Some(current)
        invariant forall j :: 0 <= j < i && t0[kids[j]].IsEligible() ==> kids[j] in marked'
        invariant forall c :: c in frontier' <==> c in frontier || c in marked' - marked
        invariant |frontier'| == |frontier| + added
      {
        var c := kids[i];
        assert current in children && c in children[current];
        if entries[c].failure != NotFailed {
          continue;
        }
        entries := entries[c := entries[c].(failure := Ancestor)];
        marked' := marked' + {c};
        added := added + 1;
        frontier' := frontier' + [c];
      }
      forall c | c in t0 && t0[c].IsEligible() && t0[c].parent == Some(current) ensures c in marked' {
        assert current in children && c in children[current];
      }
    }

    method RecordFailure(x: Hash256, p: Params) returns (marked: nat)
      requires Valid(p)
      modifies this`entries, this`bestHeader
      ensures Valid(p)
      ensures x in old(entries) ==> entries == RuledOut(old(entries), genesis, x)
                                    && marked == |StillEligibleBelow(old(entries), genesis, x)|
      ensures x !in old(entries) || !old(entries)[x].IsEligible() ==> entries == old(entries) && marked == 0
    {
      hide ChildrenExact, IsBest, RuledOut, StillEligibleBelow, Heights, Derived, Judged, Arrivals, FailuresExplained;
      ghost var t0 := entries;
      if x !in entries || entries[x].failure != NotFailed {
        if x in entries {
          NothingLeftToRuleOut(t0, genesis, x);
        }
        return 0;
      }
      marked := MarkSubtree(x);
      UniqueAfterRuling(t0, order, children, bestHeader, x, p);
      RepairBest(t0, x);
      RuledOutKeepsIndex(t0, order, children, old(bestHeader), bestHeader, x, entries, p);
    }

    /** The incumbent is still best unless it was one of the entries just removed. */
    method RepairBest(ghost t0: Tree, ghost x: Hash256)
      requires Linked(t0, genesis) && IsBest(t0, bestHeader)
      requires entries == RuledOut(t0, genesis, x) && UniqueSequences(entries)
      modifies this`bestHeader
      ensures IsBest(entries, bestHeader)
    {
      if bestHeader == None || !entries[bestHeader.value].IsEligible() {
        RescanForBestHeader();
      } else {
        BestSurvivesMarking(t0, bestHeader, StillEligibleBelow(t0, genesis, x), x);
      }
    }

    /** Walks the subtree under `x` once, marking what is still eligible. */
    method MarkSubtree(x: Hash256) returns (count: nat)
      requires Linked(entries, genesis) && FailuresPropagated(entries, genesis) && ChildrenExact(children, entries)
      requires x in entries && entries[x].IsEligible()
      modifies this`entries
      ensures entries == RuledOut(old(entries), genesis, x)
      ensures count == |StillEligibleBelow(old(entries), genesis, x)|
    {
      hide Linked, FailuresPropagated, Path, ChildrenExact, ClosedBut;
      ghost var t0 := entries;
      ghost var goal := StillEligibleBelow(t0, genesis, x);
      ghost var marked := {x};
      entries := entries[x := entries[x].(failure := Itself)];
      count := 1;
      var frontier := [x];
      ClosureStart(t0, genesis, x);
      assert (set c | c in frontier) == {x};
      while frontier != []
        invariant x in marked && marked <= goal && entries == Mark(t0, marked, x) && count == |marked|
        invariant forall c :: c in frontier ==> c in marked
        invariant ClosedBut(t0, marked, set c | c in frontier)
        decreases |goal| - count, |frontier|
      {
        ghost var before, waiting := marked, set c | c in frontier;
        var current := frontier[|frontier| - 1];
        assert forall c :: c in frontier ==> c == current || c in frontier[..|frontier| - 1];
        var added;
        frontier, added, marked := MarkChildren(current, x, t0, marked, frontier[..|frontier| - 1]);
        count := count + added;
        ClosureStep(t0, genesis, x, before, marked, waiting, (set c | c in frontier), current);
        SubsetSize(marked, goal);
      }
      assert (set c | c in frontier) == {};
      ClosureEnd(t0, genesis, x, marked);
    }
  }
}
