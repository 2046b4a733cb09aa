/** The fee an entry was recorded with is the fee it pays, on whatever chain it is mined: what an outpoint is
    worth is fixed by its txid. */
module PoolFees {
  import opened PoolAcceptance
  import opened PoolEviction
  import opened PoolMinable
  import opened PoolRemoval
  import opened PoolSpec
  import opened Primitives
  import opened Validation

  /** The output an outpoint stands for, in the pool or on any chain. */
  ghost predicate Names(o: OutPoint, output: TxOutput, p: Params) {
    exists tx: Transaction :: IsOutput(tx, o, output, p)
  }

  /** The coins are what their outpoints name. */
  ghost predicate Genuine(view: CoinSet, p: Params) {
    forall o :: o in view ==> Names(o, view[o].output, p)
  }

  ghost predicate AllName(inputs: seq<TxInput>, outputs: seq<TxOutput>, p: Params) {
    |outputs| == |inputs| && forall i :: 0 <= i < |inputs| ==> Names(inputs[i].outpoint, outputs[i], p)
  }

  /** What the inputs are worth less what is paid out. */
  ghost predicate Pays(tx: Transaction, fee: int, p: Params) {
    exists outputs :: AllName(tx.inputs, outputs, p) && fee == SumOutputs(outputs) - SumOutputs(tx.outputs)
  }

  ghost predicate TrueFees(n: Nodes, p: Params) {
    forall w :: w in n ==> Pays(n[w].entry.tx, n[w].entry.fee, p)
  }

  /** A transaction pays one fee. */
  lemma PaysOnce(tx: Transaction, a: int, b: int, p: Params)
    requires Pays(tx, a, p) && Pays(tx, b, p) && TxidCommits(p)
    ensures a == b
  {
    hide Names;
    var x :| AllName(tx.inputs, x, p) && a == SumOutputs(x) - SumOutputs(tx.outputs);
    var y :| AllName(tx.inputs, y, p) && b == SumOutputs(y) - SumOutputs(tx.outputs);
    forall i | 0 <= i < |x| ensures x[i] == y[i] {
      NamesOne(tx.inputs[i].outpoint, x[i], y[i], p);
    }
    assert x == y;
  }

  lemma NamesOne(o: OutPoint, a: TxOutput, b: TxOutput, p: Params)
    requires Names(o, a, p) && Names(o, b, p) && TxidCommits(p)
    ensures a == b
  {
  }

  lemma ResolveOneNames(s: Pool, base: CoinSet, o: OutPoint, height: nat, p: Params)
    requires Genuine(base, p) && ByTxidExact(s) && EntriesOk(s.nodes, p) && ResolveOne(s, base, o, height).Some?
    ensures Names(o, ResolveOne(s, base, o, height).value.output, p)
  {
    hide ShapeVerdict;
    if o !in base {
      var w := s.byTxid[o.txid];
      assert EntryOk(w, s.nodes[w].entry, p);
      assert IsOutput(s.nodes[w].entry.tx, o, s.nodes[w].entry.tx.outputs[o.index], p);
    }
  }

  lemma {:induction false} ResolveNames(s: Pool, base: CoinSet, inputs: seq<TxInput>, height: nat, p: Params)
    requires Genuine(base, p) && ByTxidExact(s) && EntriesOk(s.nodes, p) && Resolve(s, base, inputs, height).Some?
    ensures AllName(inputs, Outputs(Resolve(s, base, inputs, height).value), p)
  {
    hide Genuine, ByTxidExact, EntriesOk, ResolveOne, Names;
    if inputs != [] {
      var n := |inputs| - 1;
      ResolveNames(s, base, inputs[..n], height, p);
      ResolveOneNames(s, base, inputs[n].outpoint, height, p);
      var coins := Resolve(s, base, inputs, height).value;
      assert Outputs(coins)[..n] == Outputs(coins[..n]);
      forall i | 0 <= i < n ensures Names(inputs[i].outpoint, Outputs(coins)[i], p) {
        assert inputs[..n][i] == inputs[i] && Outputs(coins)[i] == Outputs(coins[..n])[i];
      }
    }
  }

  /** What the rules find a transaction pays, against the chain and the pool, is what it pays. */
  lemma FeeIsPaid(s: Pool, base: CoinSet, tx: Transaction, height: nat, p: Params)
    requires Genuine(base, p) && ByTxidExact(s) && EntriesOk(s.nodes, p) && Holds(s, base, tx, height, p)
    ensures Pays(tx, InputsVerdict(tx, Resolve(s, base, tx.inputs, height).value, height, p).value, p)
  {
    hide Genuine, ByTxidExact, EntriesOk, Resolve, InputsVerdict, AllName;
    var spent := Resolve(s, base, tx.inputs, height).value;
    ResolveNames(s, base, tx.inputs, height, p);
    InputsConserve(tx, spent, height, p);
    SumCoinsIsSumOfOutputs(spent);
  }

  lemma {:induction false} AfterMembers(s: Pool, rounds: seq<Hash256>)
    ensures var n := After(s, rounds).nodes; forall w :: w in n ==> w in s.nodes && n[w].entry == s.nodes[w].entry
    decreases |rounds|
  {
    hide Without, Package;
    if rounds != [] {
      var k := |rounds| - 1;
      AfterMembers(s, rounds[..k]);
      var s1 := After(s, rounds[..k]);
      WithoutMembers(s1, Package(s1.nodes, rounds[k]));
    }
  }

  /** Fees stay true whatever leaves the pool, and an arrival judged by genuine coins is recorded with its own. */
  lemma OfferTrueFees(s: Pool, tx: Transaction, spent: seq<Coin>, base: CoinSet, height: nat, now: int,
                      rank: map<Hash256, nat>, rounds: seq<Hash256>, p: Params)
    requires ValidPool(s, rank, p) && TrueFees(s.nodes, p) && Genuine(base, p)
    requires Resolve(s, base, tx.inputs, height) == Some(spent) && Refusal(s, tx, spent, height, now, p).None?
    ensures TrueFees(After(Committed(s, Screen(s, tx, spent, height, now, p).value), rounds).nodes, p)
  {
    hide LinksValid, Ranked, Justified, EntriesOk, SpentByExact, ByTxidExact, WithinLimits, Genuine, Pays, Resolve;
    hide After, Without, SwapRefusal, PlaceRefusal, ShapeVerdict, Doomed, ParentsOf;
    var e := Screen(s, tx, spent, height, now, p).value;
    assert Holds(s, base, tx, height, p);
    FeeIsPaid(s, base, tx, height, p);
    WithoutMembers(s, Doomed(s, tx));
    WithEntries(Without(s, Doomed(s, tx)).nodes, e.wtxid, e, ParentsOf(s, tx));
    AfterMembers(Committed(s, e), rounds);
  }

  /** What an accepted offer keeps: that every entry holds, and that every fee is true. */
  lemma OfferKeeps(s: Pool, tx: Transaction, spent: seq<Coin>, base: CoinSet, height: nat, now: int,
                   rank: map<Hash256, nat>, top: nat, rounds: seq<Hash256>, p: Params)
    requires ValidPool(s, rank, p) && RankBounded(s.nodes, rank, top) && TxidCommits(p)
    requires Resolve(s, base, tx.inputs, height) == Some(spent) && Refusal(s, tx, spent, height, now, p).None?
    requires p.admits(tx)
    ensures var s' := After(Committed(s, Screen(s, tx, spent, height, now, p).value), rounds);
            && (AllHold(s, base, height, p) ==> AllHold(s', base, height, p))
            && (Genuine(base, p) && TrueFees(s.nodes, p) ==> TrueFees(s'.nodes, p))
  {
    hide ValidPool, RankBounded, TxidCommits, Resolve, Refusal, Screen, After, Committed, AllHold, Genuine, TrueFees;
    if AllHold(s, base, height, p) {
      OfferHolds(s, tx, spent, base, height, now, rank, top, rounds, p);
    }
    if Genuine(base, p) && TrueFees(s.nodes, p) {
      OfferTrueFees(s, tx, spent, base, height, now, rank, rounds, p);
    }
  }

  lemma WithoutTrueFees(s: Pool, gone: set<Hash256>, p: Params)
    requires TrueFees(s.nodes, p)
    ensures TrueFees(Without(s, gone).nodes, p)
  {
    hide Pays, Without;
    WithoutMembers(s, gone);
  }
}
