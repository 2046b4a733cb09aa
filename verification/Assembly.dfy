/** Block assembly: what the node mines is always a block the coins accept. */
module Assembly {
  import opened BlockTemplate
  import opened ChainSpec
  import opened ConnectSpec
  import opened History
  import opened IndexTree
  import Issuance
  import opened PoolAcceptance
  import opened PoolFees
  import opened PoolMinable
  import opened PoolSelection
  import opened PoolSpec
  import opened Primitives
  import opened Reachability
  import Supply
  import opened Validation

  // --- Nothing in the pool is on the chain ---

  /** An entry that shared a txid with the chain would spend what the chain has spent for good, so it would
      wait on an earlier entry that shares one too, and so on down. */
  lemma {:induction false} EntryIsNew(s: Pool, txs: seq<Transaction>, base: CoinSet, height: nat, next: nat,
                                      rank: map<Hash256, nat>, p: Params, w: Hash256)
    requires ValidPool(s, rank, p) && AllHold(s, base, height, p) && SoundRules(p) && Recorded(txs, base, next, p)
    requires w in s.nodes
    ensures !Issued(txs, s.nodes[w].entry.txid, p)
    decreases if w in rank then rank[w] else 0
  {
    hide ValidPool, AllHold, SoundRules, Unrepeated, AllProduced, ShapeVerdict, InputSet;
    var e := s.nodes[w].entry;
    if Issued(txs, e.txid, p) {
      var i :| 0 <= i < |txs| && p.txid(txs[i]) == e.txid;
      SameEffects(s, txs[i], rank, p, w);
      var o := e.tx.inputs[0].outpoint;
      OutpointSpent(txs[i], 0);
      assert o !in base && Issued(txs, o.txid, p);
      var q := EarlierParent(s, base, height, rank, p, w);
      EntryIsNew(s, txs, base, height, next, rank, p, q);
    }
  }

  lemma EarlierParent(s: Pool, base: CoinSet, height: nat, rank: map<Hash256, nat>, p: Params, w: Hash256)
    returns (q: Hash256)
    requires ValidPool(s, rank, p) && AllHold(s, base, height, p) && SoundRules(p) && w in s.nodes
    requires s.nodes[w].entry.tx.inputs != [] && s.nodes[w].entry.tx.inputs[0].outpoint !in base
    ensures q in s.nodes && s.nodes[q].entry.txid == s.nodes[w].entry.tx.inputs[0].outpoint.txid
    ensures q in rank && w in rank && rank[q] < rank[w]
  {
    hide LinksValid, Ranked, Justified, WithinLimits, SpentByExact, ByTxidExact, EntriesOk, AllHold, SoundRules;
    q := WaitsOnParent(s, base, w, height, p, 0);
    ParentIsEarlier(s.nodes, rank, w, q);
  }

  lemma ParentIsEarlier(n: Nodes, rank: map<Hash256, nat>, w: Hash256, q: Hash256)
    requires LinksValid(n) && Ranked(n, rank) && w in n && q in n[w].parents
    ensures q in rank && w in rank && rank[q] < rank[w]
  {
    assert Up(n)[w] <= Up(n).Keys;
    assert w in Down(n)[q] <==> q in Up(n)[w];
  }

  lemma SameEffects(s: Pool, tx: Transaction, rank: map<Hash256, nat>, p: Params, w: Hash256)
    requires ValidPool(s, rank, p) && SoundRules(p) && w in s.nodes && p.txid(tx) == s.nodes[w].entry.txid
    requires p.admits(tx)
    ensures tx.inputs == s.nodes[w].entry.tx.inputs != [] && !tx.IsCoinbase()
  {
    hide LinksValid, Justified, WithinLimits, SpentByExact, ByTxidExact, Ranked;
    assert EntryOk(w, s.nodes[w].entry, p);
  }

  lemma TemplateIsOffChain(s: Pool, selected: seq<PoolEntry>, taken: set<Hash256>, txs: seq<Transaction>, base: CoinSet,
                           height: nat, next: nat, rank: map<Hash256, nat>, p: Params)
    requires GoodTemplate(s, selected, taken, base, height, rank, p) && Recorded(txs, base, next, p)
    ensures OffChain(selected, base)
  {
    hide ValidPool, AllHold, SoundRules, Unrepeated, SpentForGood, WellFormed;
    forall i, o | 0 <= i < |selected| && o in base ensures selected[i].txid != o.txid {
      EntryIsNew(s, txs, base, height, next, rank, p, selected[i].wtxid);
      assert Produced(txs, o, base[o].output, p);
    }
  }

  // --- What the chain's history says of its coins ---

  lemma RecordedIsGenuine(txs: seq<Transaction>, view: CoinSet, next: nat, p: Params)
    requires Recorded(txs, view, next, p)
    ensures Genuine(view, p) && NoDebts(view)
  {
    hide Unrepeated, SpentForGood, ShapeVerdict;
    forall o | o in view ensures Names(o, view[o].output, p) && view[o].output.amount >= 0 {
      assert Produced(txs, o, view[o].output, p);
      var i :| 0 <= i < |txs| && IsOutput(txs[i], o, view[o].output, p);
      ShapePays(txs[i], p);
    }
  }

  lemma ShapePays(tx: Transaction, p: Params)
    requires ShapeVerdict(tx, p).Accepted?
    ensures PayableOutputs(tx.outputs)
  {
    AmountsAreThePayable(tx.outputs);
  }

  /** The coins of every reachable state: on record, and worth what is scheduled at most. */
  lemma CoinsOf(t: Tree, order: seq<Hash256>, chain: seq<Hash256>, view: CoinSet, blocks: Bodies, undos: Undos,
                p: Params)
    requires Consistent(t, order, chain, view, blocks, undos, p) && Numberable(p)
    ensures Recorded(Transactions(chain, blocks), view, |chain|, p) && Genuine(view, p) && NoDebts(view)
    ensures Supply.Total(view) <= Issuance.Scheduled(|chain|, p.schedule)
  {
    hide Consistent, Numberable, Recorded, Genuine, NoDebts;
    ChainRecorded(t, order, chain, view, blocks, undos, p);
    RecordedIsGenuine(Transactions(chain, blocks), view, |chain|, p);
    SupplyWithinSchedule(t, order, chain, view, blocks, undos, p);
  }

  // --- A template connects ---

  /** A block for the next height: a coinbase that carries it, then a template. */
  ghost predicate MadeFrom(block: Block, selected: seq<PoolEntry>, height: nat, p: Params) {
    && block.header.height == height && block.transactions != [] && block.transactions[1..] == TxsOf(selected)
    && var cb := block.transactions[0];
       cb.IsCoinbase() && cb.inputs[0].sequence == height && |cb.outputs| <= UINT32_LIMIT && p.admits(cb)
  }

  /** The coinbase's outpoints are new, and no entry's txid is in the way. */
  lemma CoinbaseEnters(s: Pool, selected: seq<PoolEntry>, taken: set<Hash256>, txs: seq<Transaction>, view: CoinSet,
                       cb: Transaction, height: nat, rank: map<Hash256, nat>, p: Params)
    requires GoodTemplate(s, selected, taken, view, height, rank, p) && Recorded(txs, view, height, p)
    requires cb.IsCoinbase() && cb.inputs[0].sequence == height && |cb.outputs| <= UINT32_LIMIT && p.admits(cb)
    ensures AddAll(view, p.txid(cb), cb.outputs, height, true).Some?
    ensures Opened(AddAll(view, p.txid(cb), cb.outputs, height, true).value, view, p.txid(cb), selected)
    ensures Opened(view, view, p.txid(cb), selected)
  {
    hide ValidPool, AllHold, Listed, Recorded, AddAll, Created, OffChain;
    CreatesNew(txs, view, height, cb, height, p);
    assert view - {} == view;
    TemplateIsOffChain(s, selected, taken, txs, view, height, height, rank, p);
    CoinbaseOpens(s, selected, taken, view, cb, height, rank, p);
  }

  /** In every reachable state, over a pool whose every entry holds there, a block made of a coinbase that
      carries the next height and a template connects if and only if the coinbase claims no more than the
      schedule and the template's fees allow. */
  lemma TemplateConnects(t: Tree, order: seq<Hash256>, chain: seq<Hash256>, view: CoinSet, blocks: Bodies, undos: Undos,
                         s: Pool, selected: seq<PoolEntry>, taken: set<Hash256>, rank: map<Hash256, nat>, block: Block,
                         p: Params)
    requires Consistent(t, order, chain, view, blocks, undos, p)
    requires GoodTemplate(s, selected, taken, view, |chain|, rank, p) && MadeFrom(block, selected, |chain|, p)
    ensures var fees := HeldFees(s, view, TxsOf(selected), |chain|, p);
            && (Connect(block, view, p).Ok? <==> CoinbaseVerdict(block, fees, p).Accepted?)
            && (Connect(block, view, p).Ok? ==> Connect(block, view, p).value.fees == fees)
  {
    hide Consistent, Recorded, ValidPool, AllHold, Listed, ApplyAll, HeldFees, AddAll, Opened, Issuance.Reward;
    hide Genuine, NoDebts, PayableOutputs;
    var cb, height := block.transactions[0], |chain|;
    CoinsOf(t, order, chain, view, blocks, undos, p);
    CoinbaseEnters(s, selected, taken, Transactions(chain, blocks), view, cb, height, rank, p);
    TemplateApplies(s, selected, taken, view, cb, height, rank, p, |selected|);
    assert TxsOf(selected)[..|selected|] == TxsOf(selected);
    assert block.transactions == [cb] + TxsOf(selected);
  }

  // --- The block the node builds ---

  function FeesOf(selected: seq<PoolEntry>): int {
    if selected == [] then 0 else FeesOf(selected[..|selected| - 1]) + selected[|selected| - 1].fee
  }

  lemma EntryFee(s: Pool, selected: seq<PoolEntry>, taken: set<Hash256>, base: CoinSet, height: nat,
                 rank: map<Hash256, nat>, p: Params, k: nat)
    requires GoodTemplate(s, selected, taken, base, height, rank, p) && k < |selected|
    requires Genuine(base, p) && TrueFees(s.nodes, p)
    ensures HeldFee(s, base, selected[k].tx, height, p) == selected[k].fee
  {
    hide LinksValid, Ranked, Justified, EntriesOk, SpentByExact, ByTxidExact, WithinLimits, Genuine, Resolve;
    hide InputsVerdict;
    hide FullyLinked, Pays;
    var e := selected[k];
    EntryFacts(s, selected, taken, base, height, rank, p, k);
    FeeIsPaid(s, base, e.tx, height, p);
    PaysOnce(e.tx, e.fee, HeldFee(s, base, e.tx, height, p), p);
  }

  /** The fees on record are the fees the rules find. */
  lemma {:induction false} FeesAreHeld(s: Pool, selected: seq<PoolEntry>, taken: set<Hash256>, base: CoinSet,
                                       height: nat, rank: map<Hash256, nat>, p: Params, k: nat)
    requires GoodTemplate(s, selected, taken, base, height, rank, p) && k <= |selected|
    requires Genuine(base, p) && TrueFees(s.nodes, p)
    ensures FeesOf(selected[..k]) == HeldFees(s, base, TxsOf(selected)[..k], height, p)
  {
    hide GoodTemplate, Genuine, TrueFees, HeldFee;
    if k > 0 {
      FeesAreHeld(s, selected, taken, base, height, rank, p, k - 1);
      EntryFee(s, selected, taken, base, height, rank, p, k - 1);
      var txs := TxsOf(selected);
      assert selected[..k][..k - 1] == selected[..k - 1] && txs[..k][..k - 1] == txs[..k - 1];
    }
  }

  function CoinbaseFor(height: nat, amount: int, payout: Lock, data: seq<byte>): Transaction {
    Transaction(1, [TxInput(OutPoint(ZERO_HASH, COINBASE_OUTPOINT_INDEX), height)], [TxOutput(amount, payout)], 0, [],
                data)
  }

  /** The transactions of the block the node builds: the reward and every fee to the payout, then the template. */
  function Assembled(selected: seq<PoolEntry>, height: nat, payout: Lock, data: seq<byte>, p: Params)
    : seq<Transaction>
  {
    [CoinbaseFor(height, Issuance.Reward(height, p.schedule) + FeesOf(selected), payout, data)] + TxsOf(selected)
  }

  /** The reward and the fees together are still money. */
  lemma RewardIsPayable(view: CoinSet, height: nat, fees: int, payout: Lock, p: Params)
    requires 0 <= fees <= Supply.Total(view) <= Issuance.Scheduled(height, p.schedule)
    requires Issuance.Total(p.schedule) <= MAX_MONEY
    ensures var amount := Issuance.Reward(height, p.schedule) + fees;
            IsValidAmount(fees) && 0 <= amount <= MAX_MONEY && PayableOutputs([TxOutput(amount, payout)])
            && SumOutputs([TxOutput(amount, payout)]) == amount
  {
    hide Supply.Total, Issuance.Reward, Issuance.Total, Issuance.Scheduled, PayableOutputs, SumOutputs;
    Issuance.ScheduledNext(height, p.schedule);
    Issuance.ScheduledWithinTotal(height + 1, p.schedule);
    OneOutput(Issuance.Reward(height, p.schedule) + fees, payout);
  }

  lemma OneOutput(amount: int, payout: Lock)
    ensures var outputs := [TxOutput(amount, payout)];
            SumOutputs(outputs) == amount && (PayableOutputs(outputs) <==> IsValidAmount(amount))
  {
    var outputs := [TxOutput(amount, payout)];
    assert outputs[..0] == [];
    assert outputs[0].amount == amount;
  }

  /** What the node builds on its own tip, from a pool whose every entry holds there, always pays its coinbase
      exactly what is permitted, and always connects. */
  lemma AssembledConnects(t: Tree, order: seq<Hash256>, chain: seq<Hash256>, view: CoinSet, blocks: Bodies,
                          undos: Undos, s: Pool, selected: seq<PoolEntry>, taken: set<Hash256>,
                          rank: map<Hash256, nat>, header: BlockHeader, payout: Lock, data: seq<byte>, p: Params)
    requires Consistent(t, order, chain, view, blocks, undos, p) && Issuance.Total(p.schedule) <= MAX_MONEY
    requires GoodTemplate(s, selected, taken, view, |chain|, rank, p) && TrueFees(s.nodes, p)
    requires header.height == |chain| && p.admits(Assembled(selected, |chain|, payout, data, p)[0])
    ensures var block, fees := Block(header, Assembled(selected, |chain|, payout, data, p)), FeesOf(selected);
            && CoinbaseVerdict(block, fees, p).Accepted? && SumOutputs(block.transactions[0].outputs) <= MAX_MONEY
            && Connect(block, view, p).Ok? && Connect(block, view, p).value.fees == fees
            && Supply.Unclaimed(block, fees, p) == 0
  {
    hide Consistent, Recorded, ValidPool, AllHold, Listed, HeldFees, Opened, Issuance.Reward, Issuance.Total;
    hide Supply.Total;
    hide Issuance.Scheduled, Genuine, NoDebts, TrueFees, Connect, PayableOutputs, SumOutputs, FeesOf;
    var height, fees := |chain|, FeesOf(selected);
    var block := Block(header, Assembled(selected, height, payout, data, p));
    assert block.transactions[1..] == TxsOf(selected);
    CoinsOf(t, order, chain, view, blocks, undos, p);
    FeesAreHeld(s, selected, taken, view, height, rank, p, |selected|);
    assert selected[..|selected|] == selected && TxsOf(selected)[..|selected|] == TxsOf(selected);
    CoinbaseEnters(s, selected, taken, Transactions(chain, blocks), view, block.transactions[0], height, rank, p);
    FeesWithinSupply(s, selected, taken, view, p.txid(block.transactions[0]), height, rank, p);
    RewardIsPayable(view, height, fees, payout, p);
    TemplateConnects(t, order, chain, view, blocks, undos, s, selected, taken, rank, block, p);
  }
}
