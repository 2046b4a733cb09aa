/** Building the block a miner works on. */
module Assembler {
  import opened Assembly
  import opened BlockTemplate
  import opened ChainSpec
  import opened ConnectSpec
  import opened Difficulty
  import opened Digits
  import opened HeaderRules
  import opened Index
  import opened IndexTree
  import Issuance
  import opened Mempools
  import Merkle
  import opened PoolAcceptance
  import PoolEviction
  import opened PoolFees
  import opened PoolMinable
  import opened PoolSelection
  import opened PoolSpec
  import opened Primitives
  import Reachability
  import opened Targets
  import opened Validation

  datatype TemplateError =
    | CoinbaseDataTooLarge
    | HeightOverflow
    | MalformedTarget
    | NoMerkleRoot
    | HeaderRefused
    | RewardRefused

  datatype Template = Template(block: Block, fees: int, reward: int)

  /** After the median, and not before the clock. A median at the top of the range has nothing after it. */
  function Stamp(median: int, now: int): int {
    var earliest := if median < INT64_MAX then median + 1 else median;
    if now < earliest then earliest else now
  }

  /** The stamp is the least time that is not before the clock and is after the median. */
  lemma StampIsLeast(median: int, now: int, s: int)
    requires median < INT64_MAX
    ensures s >= Stamp(median, now) <==> s >= now && s > median
  {
  }

  /** The clock is so far behind the chain that nothing after the median is near enough to it. */
  predicate ClockTooFarBehind(median: int, now: int) {
    !FitsInt64(now + MAX_FUTURE_BLOCK_SECONDS) || median >= now + MAX_FUTURE_BLOCK_SECONDS
  }

  function HeaderOn(tip: Hash256, e: Entry, median: int, now: int, txs: seq<Transaction>, p: Params): BlockHeader
    requires txs != []
  {
    var stamp := Stamp(median, now);
    BlockHeader(1, e.height + 1, tip, Merkle.Root(Wtxids(txs, p), p.merkle).value, stamp,
                p.expectedBits(e.height, e.header.timestamp, stamp), 0)
  }

  /** The header passes every rule that places it, unless the clock is too far behind. */
  lemma HeaderIsPlaced(tip: Hash256, e: Entry, median: int, now: int, txs: seq<Transaction>, p: Params)
    requires txs != [] && e.height < UINT32_LIMIT - 1 && FitsInt64(now)
    ensures var header := HeaderOn(tip, e, median, now, txs, p);
            var bits := p.expectedBits(e.height, e.header.timestamp, header.timestamp);
            ContextualCheckBlockHeader(header, tip, e.height, median, bits, now).Accepted?
            <==> !ClockTooFarBehind(median, now)
  {
  }

  /** What is left for the template once the coinbase is in. */
  function Room(height: nat, payout: Lock, data: seq<byte>, p: Params): nat {
    var weight := p.weight(CoinbaseFor(height, Issuance.Reward(height, p.schedule), payout, data));
    if p.maxBlockWeight > weight then p.maxBlockWeight - weight else 0
  }

  /** Entries and not transactions, so that the fee of each is the one on record. */
  method TakeAll(selected: seq<PoolEntry>) returns (txs: seq<Transaction>, fees: int)
    ensures txs == TxsOf(selected) && fees == FeesOf(selected)
  {
    txs, fees := [], 0;
    for i := 0 to |selected|
      invariant txs == TxsOf(selected[..i]) && fees == FeesOf(selected[..i])
    {
      assert selected[..i + 1][..i] == selected[..i];
      txs, fees := txs + [selected[i].tx], fees + selected[i].fee;
    }
    assert selected[..|selected|] == selected;
  }

  /** The entries chosen are the ones greedy selection takes from the pool for the room, parents first. */
  ghost predicate Chosen(n: Nodes, selected: seq<PoolEntry>, ranked: seq<Candidate>, room: nat) {
    && PoolSelection.Describes(n, n.Keys, ranked) && InOrder(ranked)
    && Listed(n, selected, Ids(selected)) && Ids(selected) == Taken(n, ranked, room)
  }

  /** The coinbase, paid the reward and every fee, ahead of what the pool offers for the room it leaves. */
  method Assemble(height: nat, payout: Lock, data: seq<byte>, pool: Mempool?, p: Params)
    returns (txs: seq<Transaction>, fees: int, ghost selected: seq<PoolEntry>, ghost ranked: seq<Candidate>)
    requires pool != null ==> pool.Valid()
    ensures txs == Assembled(selected, height, payout, data, p) && fees == FeesOf(selected)
    ensures if pool == null then selected == []
            else Chosen(pool.nodes, selected, ranked, Room(height, payout, data, p))
  {
    hide Issuance.Reward, Listed, WeightOf, ValidPool, Reachability.Reach, Taken, InOrder, PoolSelection.Describes;
    var reward := Issuance.BlockReward(height, p.schedule);
    var coinbase := CoinbaseFor(height, reward, payout, data);
    txs, fees, selected, ranked := [], 0, [], [];
    if pool != null {
      var weight := p.weight(coinbase);
      var entries, order := pool.GetTemplates(if p.maxBlockWeight > weight then p.maxBlockWeight - weight else 0);
      selected, ranked := entries, order;
      txs, fees := TakeAll(entries);
    }
    txs := [coinbase.(outputs := [TxOutput(reward + fees, payout)])] + txs;
  }

  /** Placed on the tip and judged: the header by the rules that place it, the coinbase by the supply rule. */
  function Outcome(tip: Hash256, e: Entry, median: int, now: int, txs: seq<Transaction>, fees: int, p: Params)
    : Result<Template, TemplateError>
    requires txs != []
  {
    var block := Block(HeaderOn(tip, e, median, now, txs, p), txs);
    if ClockTooFarBehind(median, now) then Err(HeaderRefused)
    else if CoinbaseVerdict(block, fees, p).Rejected? then Err(RewardRefused)
    else Ok(Template(block, fees, SumOutputs(txs[0].outputs)))
  }

  method Place(tip: Hash256, e: Entry, median: int, now: int, txs: seq<Transaction>, fees: int, reward: int, p: Params)
    returns (r: Result<Template, TemplateError>)
    requires txs != [] && e.height < UINT32_LIMIT - 1 && FitsInt64(now) && reward == SumOutputs(txs[0].outputs)
    ensures r == Outcome(tip, e, median, now, txs, fees, p)
  {
    hide Merkle.Root, CoinbaseVerdict, SumOutputs;
    var stamp := Stamp(median, now);
    var bits := p.expectedBits(e.height, e.header.timestamp, stamp);
    var root := Merkle.ComputeMerkleRoot(Wtxids(txs, p), p.merkle);
    RootExists(txs, p);
    if root.None? {
      assert false;
      return Err(NoMerkleRoot);
    }
    var block := Block(BlockHeader(1, e.height + 1, tip, root.value, stamp, bits, 0), txs);
    HeaderIsPlaced(tip, e, median, now, txs, p);
    if ContextualCheckBlockHeader(block.header, tip, e.height, median, bits, now).Rejected? {
      return Err(HeaderRefused);
    }
    var paid := CheckCoinbaseAmount(block, fees, p);
    if paid.Rejected? {
      return Err(RewardRefused);
    }
    return Ok(Template(block, fees, reward));
  }

  /** The template, or the first reason there is none. The chain's own rules for targets never hand out an
      unusable one, and a block with a coinbase always has a root. */
  method BuildBlockTemplate(index: BlockIndex, tip: Hash256, payout: Lock, now: int, data: seq<byte>, pool: Mempool?,
                            p: Params, ghost net: Network, ghost limit: nat, ghost anchor: nat)
    returns (r: Result<Template, TemplateError>, ghost selected: seq<PoolEntry>, ghost ranked: seq<Candidate>)
    requires index.Valid(p) && tip in index.entries && index.entries[tip].height < UINT32_LIMIT && FitsInt64(now)
    requires Follows(p, net, limit, anchor) && (pool != null ==> pool.Valid())
    ensures Linked(index.entries, p.hash(p.genesis))
    ensures var e, median := index.entries[tip], Median(RecentTimes(index.entries, p.hash(p.genesis), tip));
            if |data| > p.limits.maxCoinbaseData then r == Err(CoinbaseDataTooLarge)
            else if e.height == UINT32_LIMIT - 1 then r == Err(HeightOverflow)
            else
              var txs := Assembled(selected, e.height + 1, payout, data, p);
              && r == Outcome(tip, e, median, now, txs, FeesOf(selected), p)
              && if pool == null then selected == []
                 else Chosen(pool.nodes, selected, ranked, Room(e.height + 1, payout, data, p))
  {
    hide ValidIndex, Linked, Median, RecentTimes, Follows, Encodes, ValidPool, Chosen, FeesOf, Outcome;
    hide Assembled, Room;
    selected, ranked := [], [];
    IsLinked(index, p);
    if |data| > p.limits.maxCoinbaseData {
      return Err(CoinbaseDataTooLarge), [], [];
    }
    var e := index.entries[tip];
    if e.height == UINT32_LIMIT - 1 {
      return Err(HeightOverflow), [], [];
    }
    TargetIsUsable(e, e.header.timestamp, p, net, limit, anchor);
    var target := CompactToTarget(p.expectedBits(e.height, e.header.timestamp, e.header.timestamp));
    if target.None? {
      assert false;
      return Err(MalformedTarget), [], [];
    }
    var txs, fees;
    txs, fees, selected, ranked := Assemble(e.height + 1, payout, data, pool, p);
    var median := index.MedianTimePastAt(tip);
    AssembledPays(selected, e.height + 1, payout, data, p);
    r := Place(tip, e, median, now, txs, fees, txs[0].outputs[0].amount, p);
  }

  lemma AssembledPays(selected: seq<PoolEntry>, height: nat, payout: Lock, data: seq<byte>, p: Params)
    ensures var txs := Assembled(selected, height, payout, data, p);
            txs != [] && txs[0].outputs != [] && SumOutputs(txs[0].outputs) == txs[0].outputs[0].amount
  {
    hide FeesOf, SumOutputs, Issuance.Reward;
    OneOutput(Issuance.Reward(height, p.schedule) + FeesOf(selected), payout);
  }

  lemma IsLinked(index: BlockIndex, p: Params)
    requires index.Valid(p)
    ensures Linked(index.entries, p.hash(p.genesis)) && index.genesis == p.hash(p.genesis)
  {
  }

  lemma RootExists(txs: seq<Transaction>, p: Params)
    requires txs != []
    ensures Merkle.Root(Wtxids(txs, p), p.merkle).Some?
  {
  }

  lemma TargetIsUsable(e: Entry, candidate: int, p: Params, net: Network, limit: nat, anchor: nat)
    requires Follows(p, net, limit, anchor)
    ensures exists t: nat :: Encodes(p.expectedBits(e.height, e.header.timestamp, candidate), t)
  {
    hide Encodes, RequiredBits, BitsWork;
    var t := RequiredIsMeetable(net, limit, anchor, e.height, e.header.timestamp, candidate);
  }

  // --- The block on its own ---

  lemma {:induction false} SpendersBefore(txs: seq<Transaction>, o: OutPoint)
    requires o in OutPoints(AllInputs(txs))
    ensures exists i :: 0 <= i < |txs| && !txs[i].IsCoinbase() && o in InputSet(txs[i])
  {
    var n := |txs| - 1;
    var earlier, all := AllInputs(txs[..n]), AllInputs(txs);
    var k :| 0 <= k < |all| && all[k].outpoint == o;
    if k < |earlier| {
      assert earlier[k] == all[k];
      SpendersBefore(txs[..n], o);
      var i :| 0 <= i < n && !txs[..n][i].IsCoinbase() && o in InputSet(txs[..n][i]);
      assert txs[i] == txs[..n][i];
    } else {
      assert all[k] == txs[n].inputs[k - |earlier|];
      OutpointSpent(txs[n], k - |earlier|);
    }
  }

  lemma DistinctTogether(a: seq<TxInput>, b: seq<TxInput>)
    requires DistinctInputs(a) && DistinctInputs(b) && OutPoints(a) !! OutPoints(b)
    ensures DistinctInputs(a + b)
  {
    forall i, j | 0 <= i < j < |a + b| ensures (a + b)[i].outpoint != (a + b)[j].outpoint {
      if i < |a| <= j {
        assert a[i].outpoint in OutPoints(a) && b[j - |a|].outpoint in OutPoints(b);
      }
    }
  }

  /** No outpoint is spent twice in the block. */
  lemma {:induction false} SpentOnce(s: Pool, selected: seq<PoolEntry>, taken: set<Hash256>, base: CoinSet, height: nat,
                                     rank: map<Hash256, nat>, p: Params, cb: Transaction, k: nat)
    requires GoodTemplate(s, selected, taken, base, height, rank, p) && k <= |selected| && cb.IsCoinbase()
    ensures DistinctInputs(AllInputs([cb] + TxsOf(selected)[..k]))
  {
    hide GoodTemplate, DistinctInputs, OutPoints;
    var all := TxsOf(selected);
    var txs := [cb] + all[..k];
    if k == 0 {
      assert txs[..0] == [] && AllInputs(txs) == [];
      assert DistinctInputs([]) by { NothingTwice(); }
    } else {
      var j := k - 1;
      assert txs[..k] == [cb] + all[..j] && txs[k] == selected[j].tx;
      SpentOnce(s, selected, taken, base, height, rank, p, cb, j);
      EntryFacts(s, selected, taken, base, height, rank, p, j);
      NotSpentBefore(s, selected, taken, base, height, rank, p, cb, j);
      DistinctTogether(AllInputs(txs[..k]), selected[j].tx.inputs);
    }
  }

  lemma NotSpentBefore(s: Pool, selected: seq<PoolEntry>, taken: set<Hash256>, base: CoinSet, height: nat,
                       rank: map<Hash256, nat>, p: Params, cb: Transaction, k: nat)
    requires GoodTemplate(s, selected, taken, base, height, rank, p) && k < |selected| && cb.IsCoinbase()
    ensures OutPoints(AllInputs([cb] + TxsOf(selected)[..k])) !! OutPoints(selected[k].tx.inputs)
  {
    hide GoodTemplate, AllInputs, OutPoints;
    var txs := [cb] + TxsOf(selected)[..k];
    forall o | o in OutPoints(AllInputs(txs)) ensures o !in OutPoints(selected[k].tx.inputs) {
      SpendersBefore(txs, o);
      var i :| 0 <= i < |txs| && !txs[i].IsCoinbase() && o in InputSet(txs[i]);
      EntriesApart(s, selected, taken, base, height, rank, p, i - 1, k);
    }
  }

  lemma NothingTwice()
    ensures DistinctInputs([])
  {
  }

  lemma {:induction false} WeighsAtLeast(txs: seq<Transaction>, p: Params)
    requires txs != []
    ensures TotalWeight(txs, p) >= p.weight(txs[0])
  {
    if |txs| > 1 {
      WeighsAtLeast(txs[..|txs| - 1], p);
    }
  }

  /** The two rules that block assembly does not see to. */
  function FitVerdict(txs: seq<Transaction>, p: Params): Verdict {
    if |txs| > p.maxTransactions then Rejected(BlockTooManyTransactions)
    else if BlockWeight(txs, p) > p.maxBlockWeight then Rejected(BlockWeightTooLarge)
    else Accepted
  }

  /** The coinbase the node builds is well formed if there is room for it. */
  lemma CoinbaseShape(height: nat, amount: int, payout: Lock, data: seq<byte>, p: Params)
    requires IsValidAmount(amount) && |data| <= p.limits.maxCoinbaseData
    requires p.limits.maxInputs >= 1 && p.limits.maxOutputs >= 1
    requires p.weight(CoinbaseFor(height, amount, payout, data)) <= p.maxBlockWeight
    ensures ShapeVerdict(CoinbaseFor(height, amount, payout, data), p).Accepted?
  {
    hide PayableOutputs, AmountsVerdict, DistinctInputs, NoNullInput, WitnessesVerdict;
    OneOutput(amount, payout);
    AmountsAreThePayable([TxOutput(amount, payout)]);
  }

  /** Once its header passes on its own, the block the node builds passes on its own if and only if it is
      within the block's count and weight. */
  lemma SolvedVerdict(s: Pool, selected: seq<PoolEntry>, taken: set<Hash256>, base: CoinSet, height: nat,
                      rank: map<Hash256, nat>, header: BlockHeader, payout: Lock, data: seq<byte>, p: Params)
    requires GoodTemplate(s, selected, taken, base, height, rank, p) && p.checkHeader(header).Accepted?
    requires |data| <= p.limits.maxCoinbaseData && p.limits.maxInputs >= 1 && p.limits.maxOutputs >= 1
    requires IsValidAmount(Issuance.Reward(height, p.schedule) + FeesOf(selected)) && header.height == height
    requires Merkle.Root(Wtxids(Assembled(selected, height, payout, data, p), p), p.merkle) == Some(header.merkleRoot)
    ensures var txs := Assembled(selected, height, payout, data, p);
            BlockVerdict(Block(header, txs), p) == FitVerdict(txs, p)
  {
    hide ValidPool, AllHold, Listed, SoundRules, BlockWeight, Merkle.Root, ShapeVerdict, ShapesVerdict, DistinctInputs;
    hide Issuance.Reward, FeesOf;
    hide Wtxids, AllInputs;
    var txs := Assembled(selected, height, payout, data, p);
    var cb := txs[0];
    forall i | 1 <= i < |txs| ensures !txs[i].IsCoinbase() && ShapeVerdict(txs[i], p).Accepted? {
      EntryFacts(s, selected, taken, base, height, rank, p, i - 1);
      EntryShape(s, selected, taken, rank, p, i - 1);
    }
    SpentOnce(s, selected, taken, base, height, rank, p, cb, |selected|);
    assert TxsOf(selected)[..|selected|] == TxsOf(selected);
    if BlockWeight(txs, p) <= p.maxBlockWeight {
      CoinbaseFits(txs, p);
      CoinbaseShape(height, Issuance.Reward(height, p.schedule) + FeesOf(selected), payout, data, p);
      ShapesAccepted(txs, p);
    }
  }

  lemma CoinbaseFits(txs: seq<Transaction>, p: Params)
    requires txs != [] && BlockWeight(txs, p) <= p.maxBlockWeight
    ensures p.weight(txs[0]) <= p.maxBlockWeight
  {
    WeighsAtLeast(txs, p);
  }

  lemma EntryShape(s: Pool, selected: seq<PoolEntry>, taken: set<Hash256>, rank: map<Hash256, nat>, p: Params, k: nat)
    requires ValidPool(s, rank, p) && Listed(s.nodes, selected, taken) && k < |selected|
    ensures ShapeVerdict(selected[k].tx, p).Accepted? && selected[k].weight == p.weight(selected[k].tx)
  {
    hide LinksValid, Ranked, Justified, WithinLimits, SpentByExact, ByTxidExact, ShapeVerdict;
    assert EntryOk(selected[k].wtxid, s.nodes[selected[k].wtxid].entry, p);
  }

  // --- The weight of the header is not provided for ---

  /** Amounts are written at one width, so raising one does not change the weight. */
  ghost predicate FixedWidthAmounts(p: Params) {
    forall height: nat, a: int, b: int, payout: Lock, data: seq<byte> ::
      p.weight(CoinbaseFor(height, a, payout, data)) == p.weight(CoinbaseFor(height, b, payout, data))
  }

  /** What the header and a count of this many transactions weigh. */
  function HeaderOverhead(count: nat): nat {
    (HEADER_SIZE + CompactSizeLen(count)) * WITNESS_SCALE_FACTOR
  }

  lemma {:induction false} ListedWeight(s: Pool, selected: seq<PoolEntry>, taken: set<Hash256>,
                                        rank: map<Hash256, nat>, p: Params, k: nat)
    requires ValidPool(s, rank, p) && Listed(s.nodes, selected, taken) && k <= |selected|
    ensures TotalWeight(TxsOf(selected)[..k], p) == WeightOf(s.nodes, Ids(selected[..k]))
  {
    hide ValidPool, WeightOf;
    var txs := TxsOf(selected);
    if k == 0 {
      WeightOfNone(s.nodes);
      assert Ids(selected[..0]) == {};
    } else {
      var j := k - 1;
      ListedWeight(s, selected, taken, rank, p, j);
      EntryShape(s, selected, taken, rank, p, j);
      assert txs[..k][..j] == txs[..j] && txs[..k][j] == selected[j].tx;
      assert TotalWeight(txs[..k], p) == TotalWeight(txs[..j], p) + selected[j].weight;
      IdsGrow(selected, k);
      WeightAdds(s.nodes, Ids(selected[..j]), {selected[j].wtxid});
      WeightOfOne(s.nodes, selected[j].wtxid);
    }
  }

  lemma IdsGrow(selected: seq<PoolEntry>, k: nat)
    requires 0 < k <= |selected| && forall i, j :: 0 <= i < j < |selected| ==> selected[i].wtxid != selected[j].wtxid
    ensures Ids(selected[..k]) == Ids(selected[..k - 1]) + {selected[k - 1].wtxid}
    ensures Ids(selected[..k - 1]) !! {selected[k - 1].wtxid}
  {
    forall i | 0 <= i < k - 1 ensures selected[i].wtxid in Ids(selected[..k - 1]) {
      assert selected[..k - 1][i] == selected[i];
    }
    assert selected[..k][k - 1] == selected[k - 1];
    forall w | w in Ids(selected[..k - 1]) ensures w in Ids(selected[..k]) {
      var i :| 0 <= i < k - 1 && selected[..k - 1][i].wtxid == w;
      assert selected[..k][i].wtxid == w;
    }
  }

  lemma WeightOfOne(n: Nodes, w: Hash256)
    requires w in n
    ensures WeightOf(n, {w}) == n[w].entry.weight
  {
    var m := Weights(Only(n, {w}));
    SumWithout(m, w);
    assert m - {w} == map[];
  }

  lemma {:induction false} WeightFromFirst(tx: Transaction, txs: seq<Transaction>, p: Params)
    ensures TotalWeight([tx] + txs, p) == p.weight(tx) + TotalWeight(txs, p)
  {
    if txs == [] {
      assert [tx] + txs == [tx] && [tx][..0] == [];
    } else {
      var n := |txs| - 1;
      WeightFromFirst(tx, txs[..n], p);
      assert ([tx] + txs)[..n + 1] == [tx] + txs[..n];
    }
  }

  /** The room a template is given is what the coinbase leaves of the limit, and the header and the count are
      not in it. So for any pool the block is within the limit if and only if what greedy selection takes from
      it leaves that much of the room unused: never if it fills the room or there is none, always if the whole
      pool would. */
  lemma RoomForgetsTheHeader(s: Pool, selected: seq<PoolEntry>, ranked: seq<Candidate>, height: nat,
                             rank: map<Hash256, nat>, payout: Lock, data: seq<byte>, p: Params)
    requires ValidPool(s, rank, p) && FixedWidthAmounts(p)
    requires Chosen(s.nodes, selected, ranked, Room(height, payout, data, p))
    ensures var txs, room := Assembled(selected, height, payout, data, p), Room(height, payout, data, p);
            var taken := Taken(s.nodes, ranked, room);
            && |txs| == |taken| + 1 && WeightOf(s.nodes, taken) <= room
            && (BlockWeight(txs, p) <= p.maxBlockWeight
                <==> WeightOf(s.nodes, taken) + HeaderOverhead(|taken| + 1) <= room)
            && (SumOver(Weights(s.nodes)) + HeaderOverhead(|s.nodes| + 1) <= room ==>
                  BlockWeight(txs, p) <= p.maxBlockWeight)
  {
    hide ValidPool, Listed, WeightOf, Issuance.Reward, FeesOf, TotalWeight, PoolSelection.Describes, InOrder, Taken;
    hide SumOver, Ids;
    var txs, reward := Assembled(selected, height, payout, data, p), Issuance.Reward(height, p.schedule);
    var room := Room(height, payout, data, p);
    var taken := Taken(s.nodes, ranked, room);
    TakenFits(s.nodes, ranked, room);
    ListedWeight(s, selected, taken, rank, p, |selected|);
    ListedCount(s.nodes, selected, taken);
    TakenWithinPool(s.nodes, taken);
    assert selected[..|selected|] == selected && TxsOf(selected)[..|selected|] == TxsOf(selected);
    WeightFromFirst(txs[0], TxsOf(selected), p);
    assert p.weight(txs[0]) == p.weight(CoinbaseFor(height, reward, payout, data));
  }

  /** Each entry taken is listed once. */
  lemma ListedCount(n: Nodes, selected: seq<PoolEntry>, taken: set<Hash256>)
    requires Listed(n, selected, taken)
    ensures |selected| == |taken| && taken <= n.Keys && Ids(selected) == taken
  {
    hide ListedBefore;
    ListedIds(n, selected, taken);
    IdsCount(selected, |selected|);
    assert selected[..|selected|] == selected;
  }

  lemma {:induction false} IdsCount(selected: seq<PoolEntry>, k: nat)
    requires k <= |selected| && forall i, j :: 0 <= i < j < |selected| ==> selected[i].wtxid != selected[j].wtxid
    ensures |Ids(selected[..k])| == k
  {
    hide Ids;
    if k > 0 {
      IdsCount(selected, k - 1);
      IdsGrow(selected, k);
    } else {
      assert Ids(selected[..0]) == {} by { NobodyListed(selected); }
    }
  }

  lemma NobodyListed(selected: seq<PoolEntry>)
    ensures Ids(selected[..0]) == {}
  {
  }

  /** Part of the pool weighs no less than nothing and no more than all of it, and counts no more. */
  lemma TakenWithinPool(n: Nodes, taken: set<Hash256>)
    requires taken <= n.Keys
    ensures 0 <= WeightOf(n, taken) <= SumOver(Weights(n)) && |taken| <= |n|
  {
    hide SumOver;
    SubsetSize(taken, n.Keys);
    assert |n.Keys| == |n|;
    PoolEviction.WeightNotNegative(n, taken);
    PoolEviction.WeightNotNegative(n, n.Keys - taken);
    WeightAdds(n, taken, n.Keys - taken);
    assert taken + (n.Keys - taken) == n.Keys;
    assert Only(n, n.Keys) == n;
  }

  /** The pool that holds one entry. */
  function Lone(e: PoolEntry): Pool {
    With(Pool(map[], map[], map[]), e.wtxid, e, {})
  }

  lemma LoneIsValid(e: PoolEntry, p: Params)
    requires EntryOk(e.wtxid, e, p)
    ensures ValidPool(Lone(e), map[e.wtxid := 0], p)
  {
    hide EntryOk, Reachability.Reach, With;
    var none, nobody := Pool(map[], map[], map[]), map[];
    assert ValidPool(none, nobody, p) && RankBounded(none.nodes, nobody, 0) && Vacant(none, e.wtxid, e);
    WithValid(none, e.wtxid, e, {}, {}, nobody, 0, p);
    assert nobody[e.wtxid := 0] == map[e.wtxid := 0];
  }

  /** Whatever order its one entry is ranked in, the pool gives it up to any room it fits. */
  lemma LoneIsTaken(e: PoolEntry, ranked: seq<Candidate>, available: nat)
    requires PoolSelection.Describes(Lone(e).nodes, Lone(e).nodes.Keys, ranked) && e.weight <= available
    ensures Taken(Lone(e).nodes, ranked, available) == {e.wtxid}
  {
    hide Reachability.Reach, WeightOf, DescribesOne;
    var n, w := Lone(e).nodes, e.wtxid;
    assert n == map[w := Node(e, {}, {})];
    assert w in n.Keys;
    var i :| 0 <= i < |ranked| && ranked[i].id == w;
    assert ranked[0].id in n.Keys;
    Reachability.ReachKnown(Up(n), w);
    Reachability.ReachesSelf(Up(n), w);
    assert Reachability.Reach(Up(n), w) == {w};
    assert ranked[..0] == [] && Taken(n, [], available) == {} && Needed(n, w, {}) == {w};
    WeightOfNone(n);
    WeightOfOne(n, w);
    assert Up(n)[w] == {};
    TakenIfItFits(n, ranked, available, 0);
    TakenStable(n, ranked, available);
  }

  /** So one transaction that weighs what the coinbase leaves is all it takes: the pool is valid, the template is
      that transaction, and the block is refused for its weight. */
  lemma LoneEntryOverfills(e: PoolEntry, selected: seq<PoolEntry>, ranked: seq<Candidate>, height: nat, payout: Lock,
                           data: seq<byte>, p: Params)
    requires EntryOk(e.wtxid, e, p) && FixedWidthAmounts(p) && p.maxTransactions >= 2
    requires e.weight == Room(height, payout, data, p)
    requires Chosen(Lone(e).nodes, selected, ranked, Room(height, payout, data, p))
    ensures ValidPool(Lone(e), map[e.wtxid := 0], p) && selected == [e]
    ensures FitVerdict(Assembled(selected, height, payout, data, p), p) == Rejected(BlockWeightTooLarge)
  {
    hide ValidPool, PoolSelection.Describes, Room, Assembled, Reachability.Reach, FixedWidthAmounts, WeightOf, InOrder;
    hide BlockWeight, Taken, SumOver;
    LoneIsValid(e, p);
    LoneIsTaken(e, ranked, Room(height, payout, data, p));
    ListedCount(Lone(e).nodes, selected, {e.wtxid});
    assert Lone(e).nodes == map[e.wtxid := Node(e, {}, {})];
    assert selected[0] == e;
    WeightOfOne(Lone(e).nodes, e.wtxid);
    RoomForgetsTheHeader(Lone(e), selected, ranked, height, map[e.wtxid := 0], payout, data, p);
  }

  // --- The whole promise ---

  /** What the node builds on its own tip. */
  ghost function BuiltHeader(t: Tree, root: Hash256, tip: Hash256, now: int, txs: seq<Transaction>, p: Params)
    : BlockHeader
    requires Linked(t, root) && tip in t && txs != []
  {
    HeaderOn(tip, t[tip], Median(RecentTimes(t, root, tip)), now, txs, p)
  }

  lemma TipFacts(t: Tree, order: seq<Hash256>, chain: seq<Hash256>, view: CoinSet, blocks: Bodies, undos: Undos,
                 p: Params)
    requires Consistent(t, order, chain, view, blocks, undos, p)
    ensures chain != [] && chain[|chain| - 1] in t && Linked(t, p.hash(p.genesis))
    ensures t[chain[|chain| - 1]].height == |chain| - 1
  {
    hide InStep, StoreKeyed, StoreSound, Path, IndexInvariant;
    HeightIsPosition(t, order, chain[|chain| - 1], p);
  }

  /** In every reachable state, over a pool whose every entry holds at the tip, building a block fails only for
      a clock too far behind; the reward is never refused. With any nonce that satisfies the header's own rules
      the block is placed by the index, passes on its own if and only if it is within count and weight, and
      connects. */
  lemma MinedBlockStands(t: Tree, order: seq<Hash256>, chain: seq<Hash256>, view: CoinSet, blocks: Bodies, undos: Undos,
                         s: Pool, selected: seq<PoolEntry>, taken: set<Hash256>, rank: map<Hash256, nat>, now: int,
                         payout: Lock, data: seq<byte>, nonce: nat, p: Params)
    requires Consistent(t, order, chain, view, blocks, undos, p) && Issuance.Total(p.schedule) <= MAX_MONEY
    requires GoodTemplate(s, selected, taken, view, |chain|, rank, p) && TrueFees(s.nodes, p)
    requires FitsInt64(now) && |chain| < UINT32_LIMIT && |data| <= p.limits.maxCoinbaseData
    requires p.limits.maxInputs >= 1 && p.limits.maxOutputs >= 1
    requires p.admits(Assembled(selected, |chain|, payout, data, p)[0])
    ensures chain != [] && chain[|chain| - 1] in t && Linked(t, p.hash(p.genesis))
    ensures var root, tip := p.hash(p.genesis), chain[|chain| - 1];
            var txs, median := Assembled(selected, |chain|, payout, data, p), Median(RecentTimes(t, root, tip));
            var header := BuiltHeader(t, root, tip, now, txs, p).(nonce := nonce);
            && Outcome(tip, t[tip], median, now, txs, FeesOf(selected), p)
               == (if ClockTooFarBehind(median, now) then Err(HeaderRefused)
                   else Ok(Template(Block(header.(nonce := 0), txs), FeesOf(selected), SumOutputs(txs[0].outputs))))
            && Connect(Block(header, txs), view, p).Ok?
            && (p.checkHeader(header).Accepted? ==>
                  && BlockVerdict(Block(header, txs), p) == FitVerdict(txs, p)
                  && (!ClockTooFarBehind(median, now) && t[tip].IsEligible() ==>
                        HeaderVerdict(t, root, header, now, p) == Ok(p.hash(header))))
  {
    hide Consistent, GoodTemplate, TrueFees, Issuance.Total, Median, RecentTimes, Path, Merkle.Root, Linked, FeesOf;
    hide Connect, BlockVerdict, FitVerdict, Issuance.Reward, SumOutputs, CoinbaseVerdict, Wtxids;
    TipFacts(t, order, chain, view, blocks, undos, p);
    var root, tip := p.hash(p.genesis), chain[|chain| - 1];
    var txs, median := Assembled(selected, |chain|, payout, data, p), Median(RecentTimes(t, root, tip));
    var header := BuiltHeader(t, root, tip, now, txs, p).(nonce := nonce);
    AssembledConnects(t, order, chain, view, blocks, undos, s, selected, taken, rank, header.(nonce := 0), payout, data,
                      p);
    AssembledConnects(t, order, chain, view, blocks, undos, s, selected, taken, rank, header, payout, data, p);
    RewardInRange(Block(header, txs), FeesOf(selected), p);
    HeaderIsPlaced(tip, t[tip], median, now, txs, p);
    RootExists(txs, p);
    if p.checkHeader(header).Accepted? {
      SolvedVerdict(s, selected, taken, view, |chain|, rank, header, payout, data, p);
    }
  }

  lemma RewardInRange(block: Block, fees: int, p: Params)
    requires CoinbaseVerdict(block, fees, p).Accepted? && block.transactions[0].outputs != []
    ensures IsValidAmount(block.transactions[0].outputs[0].amount)
  {
  }
}
