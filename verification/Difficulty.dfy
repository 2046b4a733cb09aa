/** The difficulty arithmetic put to work in the header tree: which bits a header must carry, what it adds to
    its branch, and what that means for every tree of accepted headers. */
module Difficulty {
  import opened Arith
  import opened Asert
  import opened Digits
  import opened HeaderRules
  import opened IndexTree
  import opened Primitives
  import opened Targets
  import opened Validation
  import opened Works

  /** A network's difficulty parameters; the schedule is anchored at its genesis block. */
  datatype Network = Network(trivial: bool, minDifficultyBlocks: bool, limitBits: nat, genesisBits: nat, plan: Plan)

  // --- The work of an encoding ---

  ghost function BitsWork(bits: nat): nat {
    if exists t: nat :: Encodes(bits, t) then
      var t: nat :| Encodes(bits, t);
      WorkOf(t, SIZE)
    else 0
  }

  lemma BitsWorkIs(bits: nat, t: nat)
    requires Encodes(bits, t)
    ensures BitsWork(bits) == WorkOf(t, SIZE)
  {
    hide Encodes, WorkOf;
    var u: nat :| Encodes(bits, u) && BitsWork(bits) == WorkOf(u, SIZE);
    EncodingUnique(bits, bits, t, u);
  }

  /** An encoding no header may carry is no work at all. */
  method OfCompactTarget(bits: nat) returns (work: array<byte>)
    ensures fresh(work) && work.Length == SIZE && BigEndian(work[..]) == BitsWork(bits)
  {
    hide Encodes, BigEndian, WorkOf;
    var target := CompactToTarget(bits);
    if target.None? {
      work := new byte[SIZE](_ => 0);
      BigEndianZero(work[..]);
      return;
    }
    BitsWorkIs(bits, BigEndian(target.value[..]));
    work := OfTarget(target.value);
  }

  /** Every target that can be met takes at least one attempt, and an easier one takes no more. */
  lemma WorkIsPositive(t: nat, u: nat)
    requires 0 < t <= u < Limit()
    ensures 1 <= WorkOf(u, SIZE) <= WorkOf(t, SIZE) <= MAX_WORK
  {
    hide Pow;
    var top := Pow(256, SIZE);
    DivBetween(top, u + 1, 1, top + 1) by { MulAtLeast(top + 1, u + 1); }
    DivCross(top, u + 1, top, t + 1) by { MulMono(top, t + 1, u + 1); }
    TotalsSaturateAlike(top - 1, 1);
    DivBetween(top, t + 1, 1, top) by { MulMono(top, 2, t + 1); }
  }

  // --- The bits a header must carry ---

  ghost predicate Decodes(net: Network, limit: nat, anchor: nat) {
    Encodes(net.limitBits, limit) && Encodes(net.genesisBits, anchor)
  }

  ghost function AsertBits(net: Network, height: nat, time: int): nat {
    if exists limit: nat, anchor: nat :: Decodes(net, limit, anchor) then
      var limit: nat, anchor: nat :| Decodes(net, limit, anchor);
      Bits(if anchor > limit then limit else anchor, limit, height, time, net.plan)
    else net.limitBits
  }

  lemma AsertBitsIs(net: Network, limit: nat, anchor: nat, height: nat, time: int)
    requires Decodes(net, limit, anchor)
    ensures AsertBits(net, height, time)
         == Bits(if anchor > limit then limit else anchor, limit, height, time, net.plan)
  {
    hide Encodes, Bits;
    var l: nat, a: nat :| Decodes(net, l, a)
      && AsertBits(net, height, time) == Bits(if a > l then l else a, l, height, time, net.plan);
    assert Decodes(net, limit, anchor) && Decodes(net, l, a);
    EncodingUnique(net.limitBits, net.limitBits, limit, l);
    EncodingUnique(net.genesisBits, net.genesisBits, anchor, a);
  }

  ghost function Bits(a: nat, limit: nat, height: nat, time: int, plan: Plan): nat {
    var t := NextTarget(a, limit, height, time, plan);
    if t > 0 then Compact(t) else 0
  }

  /** The gap that lets a test network hand out its easiest target. */
  predicate LongGap(time: int, candidate: int, plan: Plan) {
    plan.spacing > 0 && time <= INT64_MAX - 2 * plan.spacing && candidate > time + 2 * plan.spacing
  }

  ghost function RequiredBits(net: Network, height: nat, time: int, candidate: int): nat {
    if net.trivial then net.limitBits
    else if net.minDifficultyBlocks && LongGap(time, candidate, net.plan) then net.limitBits
    else AsertBits(net, height, time)
  }

  method NextTargetBits(net: Network, height: nat, time: int, candidate: int) returns (bits: nat)
    requires FitsInt64(height) && FitsInt64(time)
    requires FitsInt64(net.plan.anchorTime) && FitsInt64(net.plan.spacing) && FitsInt64(net.plan.halfLife)
    ensures bits == RequiredBits(net, height, time, candidate)
  {
    hide Encodes, NextTarget, Compact;
    if net.trivial {
      return net.limitBits;
    }
    if net.minDifficultyBlocks && LongGap(time, candidate, net.plan) {
      return net.limitBits;
    }
    bits := AsertNextBits(net.genesisBits, height, time, net.limitBits, net.plan);
    if limit: nat, anchor: nat :| Decodes(net, limit, anchor) {
      AsertBitsIs(net, limit, anchor, height, time);
    } else {
      assert forall limit: nat, anchor: nat :: !Decodes(net, limit, anchor);
      NoneDecodes(net);
    }
  }

  lemma NoneDecodes(net: Network)
    requires forall limit: nat, anchor: nat :: !Decodes(net, limit, anchor)
    ensures (forall limit :: !Encodes(net.limitBits, limit)) || (forall anchor :: !Encodes(net.genesisBits, anchor))
  {
    hide Encodes;
    if limit :| Encodes(net.limitBits, limit) {
      forall anchor ensures !Encodes(net.genesisBits, anchor) {
        assert !Decodes(net, limit, anchor);
      }
    }
  }

  // --- Every tree of accepted headers ---

  /** The rules follow the network's difficulty: work and required bits are the ones computed above, and the
      genesis target is no easier than the floor. */
  ghost predicate Follows(p: Params, net: Network, limit: nat, anchor: nat) {
    && Decodes(net, limit, anchor) && anchor <= limit
    && p.genesis.targetBits == net.genesisBits && p.genesis.timestamp == net.plan.anchorTime
    && (forall bits: nat :: p.work(bits) == BitsWork(bits))
    && (forall height: nat, time: int, candidate: int ::
          p.expectedBits(height, time, candidate) == RequiredBits(net, height, time, candidate))
  }

  /** Whatever is required of a header, it is a canonical encoding of a target no easier than the floor. */
  lemma RequiredIsMeetable(net: Network, limit: nat, anchor: nat, height: nat, time: int, candidate: int)
    returns (t: nat)
    requires Decodes(net, limit, anchor) && anchor <= limit
    ensures Encodes(RequiredBits(net, height, time, candidate), t) && 0 < t <= limit
  {
    hide NextTarget, Compact, Round, Limit, Pow;
    if net.trivial || (net.minDifficultyBlocks && LongGap(time, candidate, net.plan)) {
      t := limit;
    } else {
      AsertBitsIs(net, limit, anchor, height, time);
      NextBitsDecode(anchor, limit, height, time, net.plan);
      t := Round(NextTarget(anchor, limit, height, time, net.plan));
    }
  }

  /** The header carries exactly the bits its parent and its own timestamp call for. */
  lemma CarriesRequired(t: Tree, order: seq<Hash256>, p: Params, net: Network, limit: nat, anchor: nat, h: Hash256)
    requires IndexInvariant(t, p.hash(p.genesis), order, p) && Follows(p, net, limit, anchor) && h in t
    requires h != p.hash(p.genesis)
    ensures var q := t[h].parent.value;
            && t[h].parent.Some? && q in t
            && t[h].header.targetBits == RequiredBits(net, t[q].height, t[q].header.timestamp, t[h].header.timestamp)
            && t[h].totalWork == AddWork(t[q].totalWork, BitsWork(t[h].header.targetBits))
  {
    hide Path, Heights, Arrivals, FailuresExplained, FailuresPropagated, RequiredBits, BitsWork, Median, RecentTimes;
    hide AddWork, Decodes;
    var q := t[h].parent.value;
    assert JudgedSound(t, p.hash(p.genesis), t[h].header, q, p);
  }

  /** Every header of every tree carries a canonical target, at least as hard as the floor, and adds at least
      one attempt to its branch: total work grows along every link until it saturates. */
  lemma EveryHeaderCounts(t: Tree, order: seq<Hash256>, p: Params, net: Network, limit: nat, anchor: nat, h: Hash256)
    returns (target: nat)
    requires IndexInvariant(t, p.hash(p.genesis), order, p) && Follows(p, net, limit, anchor) && h in t
    ensures Encodes(t[h].header.targetBits, target) && 0 < target <= limit
    ensures BitsWork(t[h].header.targetBits) == WorkOf(target, SIZE) >= 1
    ensures h != p.hash(p.genesis) ==>
              && t[h].parent.Some? && t[h].parent.value in t
              && (t[h].totalWork > t[t[h].parent.value].totalWork || t[h].totalWork == MAX_WORK)
  {
    hide Path, Heights, Judged, Arrivals, FailuresExplained, FailuresPropagated, RequiredBits, BitsWork, WorkOf;
    hide Compact, Round, Limit;
    if h == p.hash(p.genesis) {
      target := anchor;
    } else {
      var q := t[h].parent.value;
      CarriesRequired(t, order, p, net, limit, anchor, h);
      target := RequiredIsMeetable(net, limit, anchor, t[q].height, t[q].header.timestamp, t[h].header.timestamp);
    }
    BitsWorkIs(t[h].header.targetBits, target);
    WorkIsPositive(target, target);
  }

  /** So the best header has no eligible child: nothing eligible builds on it, short of saturation. */
  lemma BestIsLeaf(t: Tree, order: seq<Hash256>, p: Params, net: Network, limit: nat, anchor: nat, best: Hash256,
                   h: Hash256)
    requires IndexInvariant(t, p.hash(p.genesis), order, p) && Follows(p, net, limit, anchor)
    requires IsBest(t, Some(best)) && h in t && t[h].IsEligible() && t[h].parent == Some(best)
    ensures t[h].totalWork == MAX_WORK == t[best].totalWork
  {
    hide Path, Heights, Judged, Arrivals, FailuresExplained, FailuresPropagated, Follows, WorkOf, BitsWork, Encodes;
    var _ := EveryHeaderCounts(t, order, p, net, limit, anchor, h);
    WorkIsCapped(t, order, p, net, limit, anchor, best);
  }

  lemma WorkIsCapped(t: Tree, order: seq<Hash256>, p: Params, net: Network, limit: nat, anchor: nat, h: Hash256)
    requires IndexInvariant(t, p.hash(p.genesis), order, p) && Follows(p, net, limit, anchor) && h in t
    ensures t[h].totalWork <= MAX_WORK
  {
    hide Path, Heights, Judged, Arrivals, FailuresExplained, FailuresPropagated, BitsWork, RequiredBits, Decodes;
    GenesisWorkFits(net, limit, anchor);
  }

  /** The expected attempts behind a path, added up without a ceiling. */
  ghost function Attempts(t: Tree, path: seq<Hash256>): nat
    requires forall i :: 0 <= i < |path| ==> path[i] in t
  {
    if path == [] then 0
    else Attempts(t, path[..|path| - 1]) + BitsWork(t[path[|path| - 1]].header.targetBits)
  }

  /** Total work is what every block on the path was expected to take, cut off at 2^256 - 1. */
  lemma {:induction false} TotalWorkIsSum(t: Tree, order: seq<Hash256>, p: Params, net: Network, limit: nat,
                                          anchor: nat, h: Hash256)
    requires IndexInvariant(t, p.hash(p.genesis), order, p) && Follows(p, net, limit, anchor) && h in t
    ensures t[h].totalWork == AddWork(Attempts(t, Path(t, p.hash(p.genesis), h)), 0)
    decreases t[h].sequence
  {
    hide Heights, Judged, Arrivals, FailuresExplained, FailuresPropagated, BitsWork, Encodes;
    var root := p.hash(p.genesis);
    var path := Path(t, root, h);
    if h == root {
      assert path == [h] && path[..0] == [];
      GenesisWorkFits(net, limit, anchor);
    } else {
      var q := t[h].parent.value;
      TotalWorkIsSum(t, order, p, net, limit, anchor, q);
      assert path[..|path| - 1] == Path(t, root, q);
    }
  }

  lemma GenesisWorkFits(net: Network, limit: nat, anchor: nat)
    requires Decodes(net, limit, anchor)
    ensures BitsWork(net.genesisBits) <= MAX_WORK
  {
    hide WorkOf, BitsWork, Limit, Compact, Round;
    BitsWorkIs(net.genesisBits, anchor);
    WorkIsPositive(anchor, anchor);
  }

  // --- On schedule ---

  /** A child of a block that is exactly on schedule, at whatever height, must carry the genesis target's bits,
      unless the network asks for its easiest target. */
  lemma OnScheduleKeepsTarget(net: Network, limit: nat, anchor: nat, height: nat, candidate: int)
    requires Decodes(net, limit, anchor) && anchor <= limit && !net.trivial
    requires 0 < height <= COUNT_BOUND && 1 <= net.plan.spacing <= COUNT_BOUND
    requires var time := net.plan.anchorTime + net.plan.spacing * height;
             && -TIME_BOUND <= net.plan.anchorTime <= time <= TIME_BOUND
             && !(net.minDifficultyBlocks && candidate > time + 2 * net.plan.spacing)
    ensures RequiredBits(net, height, net.plan.anchorTime + net.plan.spacing * height, candidate) == net.genesisBits
  {
    hide Compact, Round, Limit, Factor, Pow;
    var time := net.plan.anchorTime + net.plan.spacing * height;
    AsertBitsIs(net, limit, anchor, height, time);
    WholeHalfLives(anchor, 0);
    PowZero(2);
    assert Deviation(height, time, net.plan) == 0;
  }

  /** A child of genesis carries the genesis target's bits whatever the times, unless the network asks for its
      easiest target. */
  lemma FirstKeepsTarget(net: Network, limit: nat, anchor: nat, time: int, candidate: int)
    requires Decodes(net, limit, anchor) && anchor <= limit && !net.trivial
    requires !(net.minDifficultyBlocks && LongGap(time, candidate, net.plan))
    ensures RequiredBits(net, 0, time, candidate) == net.genesisBits
  {
    hide Compact, Round;
    AsertBitsIs(net, limit, anchor, 0, time);
  }

  /** A test network asks for its easiest target once more than twice the spacing has passed, and only then does
      the schedule not decide. */
  lemma LongGapIsEasiest(net: Network, height: nat, time: int, candidate: int)
    requires !net.trivial && 0 < net.plan.spacing && FitsInt64(time + 2 * net.plan.spacing)
    ensures RequiredBits(net, height, time, candidate)
         == if net.minDifficultyBlocks && candidate > time + 2 * net.plan.spacing then net.limitBits
            else AsertBits(net, height, time)
  {
  }

  /** The work of a target is how many times its acceptable hashes fit into all there are, 2^256 of them. */
  lemma WorkMeans(bits: nat, t: nat)
    requires Encodes(bits, t)
    ensures BitsWork(bits) * (t + 1) <= Pow(256, 32) < (BitsWork(bits) + 1) * (t + 1)
  {
    hide Pow, Encodes;
    BitsWorkIs(bits, t);
    assert t > 0 by { EncodesSomething(bits, t); }
    DivBounds(Pow(256, SIZE), t + 1, Pow(256, SIZE) / (t + 1));
  }

  lemma EncodesSomething(bits: nat, t: nat)
    requires Encodes(bits, t)
    ensures t > 0
  {
  }
}
