/** A template taken from a pool in good standing connects: the block it becomes passes every rule that
    looks at coins. */
module BlockTemplate {
  import opened ConnectSpec
  import opened Issuance
  import opened PoolAcceptance
  import opened PoolMinable
  import opened PoolSelection
  import opened PoolSpec
  import opened Primitives
  import opened Reachability
  import Supply
  import opened Validation

  // --- The set of coins after a run of spending transactions ---

  function ViewAfter(view: CoinSet, txs: seq<Transaction>, height: nat, p: Params): CoinSet {
    if txs == [] then view
    else
      var n := |txs| - 1;
      (ViewAfter(view, txs[..n], height, p) - InputSet(txs[n])) + Made(txs[n], height, p)
  }

  /** A coin that was there stays if nothing spends it and nothing is created in its place. */
  lemma {:induction false} StaysInView(view: CoinSet, txs: seq<Transaction>, height: nat, p: Params, o: OutPoint)
    requires o in view
    requires forall i :: 0 <= i < |txs| ==> o !in InputSet(txs[i]) && o !in Made(txs[i], height, p)
    ensures o in ViewAfter(view, txs, height, p) && ViewAfter(view, txs, height, p)[o] == view[o]
  {
    hide InputSet, Made;
    if txs != [] {
      StaysInView(view, txs[..|txs| - 1], height, p, o);
    }
  }

  /** A created coin stays if nothing later spends it and no other transaction shares its txid. */
  lemma {:induction false} EntersView(view: CoinSet, txs: seq<Transaction>, height: nat, p: Params, j: nat, o: OutPoint)
    requires j < |txs| && |txs[j].outputs| <= UINT32_LIMIT && o.txid == p.txid(txs[j]) && o.index < |txs[j].outputs|
    requires IsStored(txs[j].outputs[o.index]) && !txs[j].IsCoinbase()
    requires forall i :: 0 <= i < |txs| ==> o !in InputSet(txs[i]) && (i != j ==> p.txid(txs[i]) != o.txid)
    ensures var after := ViewAfter(view, txs, height, p);
            o in after && after[o] == Coin(txs[j].outputs[o.index], height, false)
  {
    hide InputSet, Created;
    var n := |txs| - 1;
    if j < n {
      CreatedUnder(p.txid(txs[n]), txs[n].outputs, height, txs[n].IsCoinbase());
      EntersView(view, txs[..n], height, p, j, o);
    } else {
      CreatedHas(p.txid(txs[n]), txs[n].outputs, height, false);
    }
  }

  lemma {:induction false} NotInView(view: CoinSet, txs: seq<Transaction>, height: nat, p: Params, o: OutPoint)
    requires o !in view && forall i :: 0 <= i < |txs| ==> p.txid(txs[i]) != o.txid
    ensures o !in ViewAfter(view, txs, height, p)
  {
    if txs != [] {
      var n := |txs| - 1;
      NotInView(view, txs[..n], height, p, o);
      CreatedUnder(p.txid(txs[n]), txs[n].outputs, height, txs[n].IsCoinbase());
    }
  }

  // --- Spending what is there ---

  lemma {:induction false} SpendsWhatIsThere(view: CoinSet, inputs: seq<TxInput>, coins: seq<Coin>)
    requires DistinctInputs(inputs) && |coins| == |inputs|
    requires forall i :: 0 <= i < |inputs| ==> inputs[i].outpoint in view && view[inputs[i].outpoint] == coins[i]
    ensures SpendAll(view, inputs) == Some(Spending(view - OutPoints(inputs), coins))
  {
    if inputs == [] {
      assert view - OutPoints(inputs) == view;
    } else {
      var n := |inputs| - 1;
      SpendsWhatIsThere(view, inputs[..n], coins[..n]);
      OutPointsGrow(inputs);
      assert inputs[n].outpoint !in OutPoints(inputs[..n]);
      assert (view - OutPoints(inputs[..n])) - {inputs[n].outpoint} == view - OutPoints(inputs);
      assert coins == coins[..n] + [coins[n]];
    }
  }

  lemma {:induction false} ResolveAt(s: Pool, base: CoinSet, inputs: seq<TxInput>, height: nat, i: nat)
    requires Resolve(s, base, inputs, height).Some? && i < |inputs|
    ensures ResolveOne(s, base, inputs[i].outpoint, height) == Some(Resolve(s, base, inputs, height).value[i])
    decreases |inputs|
  {
    if i < |inputs| - 1 {
      ResolveAt(s, base, inputs[..|inputs| - 1], height, i);
    }
  }

  // --- The template ---

  function TxsOf(selected: seq<PoolEntry>): seq<Transaction> {
    seq(|selected|, i requires 0 <= i < |selected| => selected[i].tx)
  }

  /** What is taken of the rules behind the parameters: an outpoint names one output, and a spend of one
      nothing can spend is refused. */
  ghost predicate SoundRules(p: Params) {
    && (forall tx: Transaction, outputs: seq<TxOutput>, i: nat ::
          p.authorise(tx, outputs).Accepted? && i < |outputs| ==> IsStored(outputs[i]))
    && Numberable(p)
  }

  /** The fee the rules find an entry pays, against the chain and the pool. */
  function HeldFee(s: Pool, base: CoinSet, tx: Transaction, height: nat, p: Params): int {
    match Resolve(s, base, tx.inputs, height)
    case None => 0
    case Some(spent) => match InputsVerdict(tx, spent, height, p) case Err(_) => 0 case Ok(fee) => fee
  }

  function HeldFees(s: Pool, base: CoinSet, txs: seq<Transaction>, height: nat, p: Params): int {
    if txs == [] then 0
    else HeldFees(s, base, txs[..|txs| - 1], height, p) + HeldFee(s, base, txs[|txs| - 1], height, p)
  }

  lemma {:induction false} HeldFeesGrow(s: Pool, base: CoinSet, txs: seq<Transaction>, height: nat, p: Params, k: nat)
    requires k <= |txs|
    ensures 0 <= HeldFees(s, base, txs[..k], height, p) <= HeldFees(s, base, txs, height, p)
    decreases |txs|
  {
    hide Resolve, InputsVerdict;
    if txs != [] {
      var n := |txs| - 1;
      HeldFeeNotNegative(s, base, txs[n], height, p);
      if k == |txs| {
        assert txs[..k] == txs;
        HeldFeesGrow(s, base, txs[..n], height, p, n);
      } else {
        HeldFeesGrow(s, base, txs[..n], height, p, k);
        assert txs[..n][..k] == txs[..k];
      }
    } else {
      assert txs[..k] == [];
    }
  }

  lemma HeldFeeNotNegative(s: Pool, base: CoinSet, tx: Transaction, height: nat, p: Params)
    ensures HeldFee(s, base, tx, height, p) >= 0
  {
    match Resolve(s, base, tx.inputs, height)
    case None =>
    case Some(spent) =>
      if InputsVerdict(tx, spent, height, p).Ok? {
        InputsConserve(tx, spent, height, p);
      }
  }

  /** What the template is drawn from: a valid pool in which every entry holds, listed in a valid order. */
  ghost predicate GoodTemplate(s: Pool, selected: seq<PoolEntry>, taken: set<Hash256>, base: CoinSet, height: nat,
                               rank: map<Hash256, nat>, p: Params)
  {
    && ValidPool(s, rank, p) && AllHold(s, base, height, p) && Listed(s.nodes, selected, taken) && SoundRules(p)
  }

  /** An entry of a template carries its own txid, spends something once each, and is no coinbase. */
  lemma EntryFacts(s: Pool, selected: seq<PoolEntry>, taken: set<Hash256>, base: CoinSet, height: nat,
                   rank: map<Hash256, nat>, p: Params, k: nat)
    requires GoodTemplate(s, selected, taken, base, height, rank, p) && k < |selected|
    ensures var e := selected[k];
            && e.wtxid in s.nodes && s.nodes[e.wtxid].entry == e
            && p.txid(e.tx) == e.txid && !e.tx.IsCoinbase() && p.admits(e.tx)
            && DistinctInputs(e.tx.inputs) && |e.tx.outputs| <= UINT32_LIMIT
  {
    hide AllHold, LinksValid, Ranked, Justified, WithinLimits, SpentByExact, ByTxidExact;
    assert EntryOk(selected[k].wtxid, s.nodes[selected[k].wtxid].entry, p);
  }

  /** Two entries of a template share neither a txid nor an outpoint they spend. */
  lemma EntriesApart(s: Pool, selected: seq<PoolEntry>, taken: set<Hash256>, base: CoinSet, height: nat,
                     rank: map<Hash256, nat>, p: Params, i: nat, j: nat)
    requires GoodTemplate(s, selected, taken, base, height, rank, p) && i < |selected| && j < |selected| && i != j
    ensures selected[i].txid != selected[j].txid && InputSet(selected[i].tx) !! InputSet(selected[j].tx)
    ensures p.txid(selected[i].tx) == selected[i].txid
  {
    hide LinksValid, Ranked, Justified, WithinLimits, AllHold, Spends, ShapeVerdict, SoundRules, EntriesOk;
    var v, w := selected[i].wtxid, selected[j].wtxid;
    assert v != w;
    EntryFacts(s, selected, taken, base, height, rank, p, i);
    assert s.byTxid[selected[i].txid] == v && s.byTxid[selected[j].txid] == w;
    forall o | o in InputSet(selected[i].tx) ensures o !in InputSet(selected[j].tx) {
      InputSetMeans(selected[i].tx, o);
      InputSetMeans(selected[j].tx, o);
      if Spends(selected[j].tx, o) {
        NoSharedOutpoint(s, v, w, o);
      }
    }
  }

  /** No entry's txid is on the chain. */
  ghost predicate OffChain(selected: seq<PoolEntry>, base: CoinSet) {
    forall i, o :: 0 <= i < |selected| && o in base ==> selected[i].txid != o.txid
  }

  /** The view once the coinbase is in: the chain's coins, and coins under a txid nothing else has. */
  ghost predicate Opened(view: CoinSet, base: CoinSet, coinbaseId: Hash256, selected: seq<PoolEntry>) {
    && (forall o :: o in base ==> o in view && view[o] == base[o])
    && (forall o :: o in view && o !in base ==> o.txid == coinbaseId)
    && (forall i :: 0 <= i < |selected| ==> selected[i].txid != coinbaseId)
    && OffChain(selected, base)
  }

  /** When an entry's turn comes, each coin it spends is there, and is the coin the pool judged it by. */
  lemma InputIsThere(s: Pool, selected: seq<PoolEntry>, taken: set<Hash256>, base: CoinSet, view: CoinSet, cb: Hash256,
                     height: nat, rank: map<Hash256, nat>, p: Params, k: nat, i: nat)
    requires GoodTemplate(s, selected, taken, base, height, rank, p) && Opened(view, base, cb, selected)
    requires k < |selected| && i < |selected[k].tx.inputs|
    ensures var after := ViewAfter(view, TxsOf(selected)[..k], height, p);
            var o := selected[k].tx.inputs[i].outpoint;
            o in after && Some(after[o]) == ResolveOne(s, base, o, height)
  {
    hide ViewAfter, GoodTemplate, ResolveOne, InputSet, Created, Resolve;
    var txs, tx, o := TxsOf(selected)[..k], selected[k].tx, selected[k].tx.inputs[i].outpoint;
    OutpointSpent(tx, i);
    forall m | 0 <= m < k ensures o !in InputSet(txs[m]) && p.txid(txs[m]) == selected[m].txid {
      EntriesApart(s, selected, taken, base, height, rank, p, m, k);
    }
    if o in base {
      forall m | 0 <= m < k ensures o !in Made(txs[m], height, p) {
        CreatedUnder(p.txid(txs[m]), txs[m].outputs, height, txs[m].IsCoinbase());
      }
      StaysInView(view, txs, height, p, o);
      ResolvesOnChain(s, base, o, height);
    } else {
      var j := ParentListed(s, selected, taken, base, height, rank, p, k, i);
      forall m | 0 <= m < k && m != j ensures p.txid(txs[m]) != o.txid {
        EntriesApart(s, selected, taken, base, height, rank, p, m, j);
      }
      EntryFacts(s, selected, taken, base, height, rank, p, j);
      EntersView(view, txs, height, p, j, o);
    }
  }

  lemma OutpointSpent(tx: Transaction, i: nat)
    requires i < |tx.inputs|
    ensures tx.inputs[i].outpoint in InputSet(tx)
  {
  }

  lemma ResolvesOnChain(s: Pool, base: CoinSet, o: OutPoint, height: nat)
    requires o in base
    ensures ResolveOne(s, base, o, height) == Some(base[o])
  {
  }

  /** An input the chain does not have is an output of an entry listed earlier, and one that can be spent. */
  lemma ParentListed(s: Pool, selected: seq<PoolEntry>, taken: set<Hash256>, base: CoinSet, height: nat,
                     rank: map<Hash256, nat>, p: Params, k: nat, i: nat) returns (j: nat)
    requires GoodTemplate(s, selected, taken, base, height, rank, p)
    requires k < |selected| && i < |selected[k].tx.inputs| && selected[k].tx.inputs[i].outpoint !in base
    ensures var o := selected[k].tx.inputs[i].outpoint;
            && j < k && o.txid == selected[j].txid == p.txid(selected[j].tx) && o.index < |selected[j].tx.outputs|
            && IsStored(selected[j].tx.outputs[o.index])
            && ResolveOne(s, base, o, height) == Some(Coin(selected[j].tx.outputs[o.index], height, false))
  {
    hide LinksValid, Ranked, Justified, WithinLimits, SpentByExact, ByTxidExact, EntriesOk, SoundRules, ResolveOne;
    var w, o := selected[k].wtxid, selected[k].tx.inputs[i].outpoint;
    EntryFacts(s, selected, taken, base, height, rank, p, k);
    var q := WaitsOnParent(s, base, w, height, p, i);
    assert ListedBefore(selected, k, q);
    j :| 0 <= j < k && selected[j].wtxid == q;
    EntryFacts(s, selected, taken, base, height, rank, p, j);
  }

  /** An entry that holds and has an input off the chain waits on a parent it is linked to, which has that
      output, and the output can be spent. */
  lemma WaitsOnParent(s: Pool, base: CoinSet, w: Hash256, height: nat, p: Params, i: nat) returns (q: Hash256)
    requires ByTxidExact(s) && AllHold(s, base, height, p) && SoundRules(p) && w in s.nodes
    requires i < |s.nodes[w].entry.tx.inputs| && s.nodes[w].entry.tx.inputs[i].outpoint !in base
    ensures var o := s.nodes[w].entry.tx.inputs[i].outpoint;
            && q in s.nodes && q in s.nodes[w].parents && s.nodes[q].entry.txid == o.txid
            && o.index < |s.nodes[q].entry.tx.outputs| && IsStored(s.nodes[q].entry.tx.outputs[o.index])
            && ResolveOne(s, base, o, height) == Some(Coin(s.nodes[q].entry.tx.outputs[o.index], height, false))
  {
    hide InputsVerdict, Resolve, SoundRules;
    var tx, o := s.nodes[w].entry.tx, s.nodes[w].entry.tx.inputs[i].outpoint;
    assert Holds(s, base, tx, height, p);
    var spent := Resolve(s, base, tx.inputs, height).value;
    ResolveAt(s, base, tx.inputs, height, i);
    q := s.byTxid[o.txid];
    assert s.nodes[q].entry.txid == o.txid;
    assert NamesUnconfirmed(tx, o.txid, base);
    SpentIsStored(tx, spent, height, p, i);
  }

  lemma SpentIsStored(tx: Transaction, spent: seq<Coin>, height: nat, p: Params, i: nat)
    requires SoundRules(p) && InputsVerdict(tx, spent, height, p).Ok? && i < |spent|
    ensures IsStored(spent[i].output)
  {
    assert p.authorise(tx, Outputs(spent)).Accepted?;
    assert IsStored(Outputs(spent)[i]);
  }

  /** The coins the pool judged the entry by, and what it found. */
  lemma EntryHolds(s: Pool, selected: seq<PoolEntry>, taken: set<Hash256>, base: CoinSet, height: nat,
                   rank: map<Hash256, nat>, p: Params, k: nat) returns (coins: seq<Coin>)
    requires GoodTemplate(s, selected, taken, base, height, rank, p) && k < |selected|
    ensures var tx := selected[k].tx;
            && Resolve(s, base, tx.inputs, height) == Some(coins) && |coins| == |tx.inputs|
            && InputsVerdict(tx, coins, height, p) == Ok(HeldFee(s, base, tx, height, p))
  {
    hide ValidPool, Resolve, InputsVerdict, SoundRules;
    EntryFacts(s, selected, taken, base, height, rank, p, k);
    var tx := selected[k].tx;
    assert Holds(s, base, s.nodes[selected[k].wtxid].entry.tx, height, p);
    coins := Resolve(s, base, tx.inputs, height).value;
  }

  /** What an entry creates is new to the view it meets. */
  lemma OutputsAreNew(s: Pool, selected: seq<PoolEntry>, taken: set<Hash256>, base: CoinSet, view: CoinSet, cb: Hash256,
                      height: nat, rank: map<Hash256, nat>, p: Params, k: nat)
    requires GoodTemplate(s, selected, taken, base, height, rank, p) && Opened(view, base, cb, selected)
    requires k < |selected|
    ensures var tx := selected[k].tx;
            && Distinct(p.txid(tx), tx.outputs, height, false)
            && Made(tx, height, p).Keys !! ViewAfter(view, TxsOf(selected)[..k], height, p).Keys
  {
    hide ViewAfter, GoodTemplate, Created, Distinct, InputSet;
    var tx, txs := selected[k].tx, TxsOf(selected)[..k];
    EntryFacts(s, selected, taken, base, height, rank, p, k);
    CreatedHas(p.txid(tx), tx.outputs, height, false);
    forall o | o in Made(tx, height, p) ensures o !in ViewAfter(view, txs, height, p) {
      forall m | 0 <= m < k ensures p.txid(selected[m].tx) != o.txid {
        EntriesApart(s, selected, taken, base, height, rank, p, m, k);
      }
      NotInView(view, txs, height, p, o);
    }
  }

  /** One entry's movement: its coins leave, the rules pass, its outputs enter. */
  lemma EntryMoves(s: Pool, selected: seq<PoolEntry>, taken: set<Hash256>, base: CoinSet, view: CoinSet, cb: Hash256,
                   height: nat, rank: map<Hash256, nat>, p: Params, k: nat) returns (coins: seq<Coin>)
    requires GoodTemplate(s, selected, taken, base, height, rank, p) && Opened(view, base, cb, selected)
    requires k < |selected|
    ensures var tx, prior := selected[k].tx, ViewAfter(view, TxsOf(selected)[..k], height, p);
            && SpendAll(prior, tx.inputs) == Some(Spending(prior - InputSet(tx), coins))
            && InputsVerdict(tx, coins, height, p) == Ok(HeldFee(s, base, tx, height, p))
            && AddAll(prior - InputSet(tx), p.txid(tx), tx.outputs, height, false)
               == Some((prior - InputSet(tx)) + Made(tx, height, p))
  {
    hide ViewAfter, Resolve, InputsVerdict, GoodTemplate, Opened, ResolveOne, Created, Distinct, AddAll;
    var tx, prior := selected[k].tx, ViewAfter(view, TxsOf(selected)[..k], height, p);
    EntryFacts(s, selected, taken, base, height, rank, p, k);
    coins := EntryHolds(s, selected, taken, base, height, rank, p, k);
    forall i | 0 <= i < |tx.inputs| ensures tx.inputs[i].outpoint in prior && prior[tx.inputs[i].outpoint] == coins[i] {
      InputIsThere(s, selected, taken, base, view, cb, height, rank, p, k, i);
      ResolveAt(s, base, tx.inputs, height, i);
    }
    SpendsWhatIsThere(prior, tx.inputs, coins);
    OutputsAreNew(s, selected, taken, base, view, cb, height, rank, p, k);
    AddAllMeans(prior - InputSet(tx), p.txid(tx), tx.outputs, height, false);
  }

  /** One entry applied, unless the fees leave the money range. */
  lemma EntryApplies(s: Pool, selected: seq<PoolEntry>, taken: set<Hash256>, base: CoinSet, view: CoinSet, cb: Hash256,
                     height: nat, rank: map<Hash256, nat>, p: Params, k: nat, prior: Progress)
    requires GoodTemplate(s, selected, taken, base, height, rank, p) && Opened(view, base, cb, selected)
    requires k < |selected|
    requires prior.view == ViewAfter(view, TxsOf(selected)[..k], height, p) && 0 <= prior.fees
    ensures var tx := selected[k].tx;
            var r, fees := ApplyOne(prior, tx, false, height, p), prior.fees + HeldFee(s, base, tx, height, p);
            && (r.Ok? <==> fees <= MAX_MONEY)
            && (r.Ok? ==> r.value.fees == fees && r.value.view == (prior.view - InputSet(tx)) + Made(tx, height, p))
  {
    hide ViewAfter, InputsVerdict, GoodTemplate, Opened, Created, AddAll, SpendAll, HeldFee;
    var _ := EntryMoves(s, selected, taken, base, view, cb, height, rank, p, k);
    HeldFeeNotNegative(s, base, selected[k].tx, height, p);
  }

  /** The list applies, entry after entry, each finding the coins the pool judged it by, exactly as long as
      the fees stay in the money range. */
  lemma {:induction false} TemplateApplies(s: Pool, selected: seq<PoolEntry>, taken: set<Hash256>, base: CoinSet,
                                           coinbase: Transaction, height: nat, rank: map<Hash256, nat>, p: Params,
                                           k: nat)
    requires GoodTemplate(s, selected, taken, base, height, rank, p) && k <= |selected|
    requires coinbase.IsCoinbase() && AddAll(base, p.txid(coinbase), coinbase.outputs, height, true).Some?
    requires Opened(AddAll(base, p.txid(coinbase), coinbase.outputs, height, true).value, base, p.txid(coinbase),
                    selected)
    ensures var view := AddAll(base, p.txid(coinbase), coinbase.outputs, height, true).value;
            var txs := TxsOf(selected)[..k];
            var r, fees := ApplyAll(base, [coinbase] + txs, height, p), HeldFees(s, base, txs, height, p);
            && (r.Ok? <==> fees <= MAX_MONEY)
            && (r.Ok? ==> r.value.view == ViewAfter(view, txs, height, p) && r.value.fees == fees)
    decreases k
  {
    hide GoodTemplate, Opened, ApplyOne, AddAll, HeldFee, Made, InputSet;
    var view, all := AddAll(base, p.txid(coinbase), coinbase.outputs, height, true).value, TxsOf(selected);
    if k == 0 {
      CoinbaseApplies(base, coinbase, height, p);
      assert [coinbase] + all[..0] == [coinbase];
    } else {
      var j := k - 1;
      TemplateApplies(s, selected, taken, base, coinbase, height, rank, p, j);
      var txs := [coinbase] + all[..k];
      assert txs[..k] == [coinbase] + all[..j] && txs[k] == all[j] && all[..k][..j] == all[..j];
      HeldFeesGrow(s, base, all[..k], height, p, j);
      EntryFacts(s, selected, taken, base, height, rank, p, j);
      if ApplyAll(base, [coinbase] + all[..j], height, p).Ok? {
        EntryApplies(s, selected, taken, base, view, p.txid(coinbase), height, rank, p, j,
                     ApplyAll(base, [coinbase] + all[..j], height, p).value);
      }
    }
  }

  lemma CoinbaseApplies(base: CoinSet, coinbase: Transaction, height: nat, p: Params)
    requires coinbase.IsCoinbase()
    ensures ApplyAll(base, [coinbase], height, p)
         == match AddAll(base, p.txid(coinbase), coinbase.outputs, height, true)
            case None => Err(TxCreatesExistingOutpoint)
            case Some(view) => Ok(Progress(view, [], 0))
  {
    hide AddAll;
    assert [coinbase][..0] == [];
  }

  /** The coinbase's coins come under a txid no entry has. */
  lemma CoinbaseOpens(s: Pool, selected: seq<PoolEntry>, taken: set<Hash256>, base: CoinSet, coinbase: Transaction,
                      height: nat, rank: map<Hash256, nat>, p: Params)
    requires GoodTemplate(s, selected, taken, base, height, rank, p) && coinbase.IsCoinbase()
    requires OffChain(selected, base) && p.admits(coinbase)
    requires AddAll(base, p.txid(coinbase), coinbase.outputs, height, true).Some?
    ensures Opened(AddAll(base, p.txid(coinbase), coinbase.outputs, height, true).value, base, p.txid(coinbase),
                   selected)
  {
    hide AddAll, Created, Distinct, ValidPool, AllHold, Listed;
    CreatedUnder(p.txid(coinbase), coinbase.outputs, height, true);
    AddAllMeans(base, p.txid(coinbase), coinbase.outputs, height, true);
    forall i | 0 <= i < |selected| ensures selected[i].txid != p.txid(coinbase) {
      EntryFacts(s, selected, taken, base, height, rank, p, i);
    }
  }

  // --- What a template can pay ---

  /** No coin is worth less than nothing. */
  ghost predicate NoDebts(view: CoinSet) {
    forall o :: o in view ==> view[o].output.amount >= 0
  }

  lemma {:induction false} TotalNotNegative(view: CoinSet)
    requires NoDebts(view)
    ensures Supply.Total(view) >= 0
    decreases |view|
  {
    if view != map[] {
      var o :| o in view && Supply.Total(view) == view[o].output.amount + Supply.Total(view - {o});
      TotalNotNegative(view - {o});
    }
  }

  /** Coins moved by a template's entries are paid out, burned or taken as fees, and stay worth something. */
  lemma {:induction false} TemplateConserves(s: Pool, selected: seq<PoolEntry>, taken: set<Hash256>, base: CoinSet,
                                             cb: Hash256, height: nat, rank: map<Hash256, nat>, p: Params, k: nat)
    requires GoodTemplate(s, selected, taken, base, height, rank, p) && Opened(base, base, cb, selected)
    requires k <= |selected| && NoDebts(base)
    ensures var txs := TxsOf(selected)[..k];
            var after := ViewAfter(base, txs, height, p);
            && Supply.Total(after) + Supply.Burned(txs) + HeldFees(s, base, txs, height, p) == Supply.Total(base)
            && NoDebts(after) && Supply.Burned(txs) >= 0
  {
    hide GoodTemplate, Opened, HeldFee, Made, InputSet, Supply.Total, NoDebts;
    var all := TxsOf(selected);
    if k > 0 {
      var j := k - 1;
      TemplateConserves(s, selected, taken, base, cb, height, rank, p, j);
      assert all[..k][..j] == all[..j] && all[..k][j] == selected[j].tx;
      EntryConserves(s, selected, taken, base, cb, height, rank, p, j);
    }
  }

  lemma EntryConserves(s: Pool, selected: seq<PoolEntry>, taken: set<Hash256>, base: CoinSet, cb: Hash256, height: nat,
                       rank: map<Hash256, nat>, p: Params, k: nat)
    requires GoodTemplate(s, selected, taken, base, height, rank, p) && Opened(base, base, cb, selected)
    requires k < |selected| && NoDebts(ViewAfter(base, TxsOf(selected)[..k], height, p))
    ensures var tx, prior := selected[k].tx, ViewAfter(base, TxsOf(selected)[..k], height, p);
            var after := (prior - InputSet(tx)) + Made(tx, height, p);
            && Supply.Total(after) + Supply.BurnedValue(tx.outputs) + HeldFee(s, base, tx, height, p)
               == Supply.Total(prior)
            && NoDebts(after) && Supply.BurnedValue(tx.outputs) >= 0
  {
    hide GoodTemplate, Opened, ViewAfter, AddAll, SpendAll, InputsVerdict, HeldFee, Supply.Total, Created;
    hide PayableOutputs;
    var tx, prior := selected[k].tx, ViewAfter(base, TxsOf(selected)[..k], height, p);
    EntryFacts(s, selected, taken, base, height, rank, p, k);
    var coins := EntryMoves(s, selected, taken, base, base, cb, height, rank, p, k);
    InputsConserve(tx, coins, height, p);
    Supply.SpendingTakes(prior, tx.inputs);
    Supply.AddingGives(prior - InputSet(tx), p.txid(tx), tx.outputs, height, false);
    Supply.StoredOrBurned(tx.outputs);
    MadeOwesNothing(tx, height, p);
  }

  lemma MadeOwesNothing(tx: Transaction, height: nat, p: Params)
    requires PayableOutputs(tx.outputs) && |tx.outputs| <= UINT32_LIMIT
    ensures NoDebts(Made(tx, height, p))
  {
    CreatedHas(p.txid(tx), tx.outputs, height, tx.IsCoinbase());
  }

  /** A template pays no more in fees than the chain has coins. */
  lemma FeesWithinSupply(s: Pool, selected: seq<PoolEntry>, taken: set<Hash256>, base: CoinSet, cb: Hash256,
                         height: nat, rank: map<Hash256, nat>, p: Params)
    requires GoodTemplate(s, selected, taken, base, height, rank, p) && Opened(base, base, cb, selected)
    requires NoDebts(base)
    ensures 0 <= HeldFees(s, base, TxsOf(selected), height, p) <= Supply.Total(base)
  {
    hide GoodTemplate, Opened, ViewAfter, HeldFees, NoDebts, Supply.Burned;
    var all := TxsOf(selected);
    assert all[..|selected|] == all;
    TemplateConserves(s, selected, taken, base, cb, height, rank, p, |selected|);
    TotalNotNegative(ViewAfter(base, all, height, p));
    HeldFeesGrow(s, base, all, height, p, |selected|);
  }
}
