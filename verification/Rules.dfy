/** What each verdict accepts, in plain terms: counts, sums, heights and times. */
module Rules {
  import opened HeaderRules
  import opened IndexTree
  import Issuance
  import Merkle
  import opened Primitives
  import opened Validation

  /** Every amount and every total is between nothing and all there will ever be. */
  predicate Money(amounts: seq<int>) {
    (forall i :: 0 <= i < |amounts| ==> 0 <= amounts[i]) && Sum(amounts) <= 83_999_999_932_170_000
  }

  function Sum(amounts: seq<int>): int {
    if amounts == [] then 0 else amounts[0] + Sum(amounts[1..])
  }

  function Amounts(outputs: seq<TxOutput>): seq<int> {
    seq(|outputs|, i requires 0 <= i < |outputs| => outputs[i].amount)
  }

  function Worth(coins: seq<Coin>): seq<int> {
    seq(|coins|, i requires 0 <= i < |coins| => coins[i].output.amount)
  }

  lemma {:induction false} SumLast(amounts: seq<int>)
    requires amounts != []
    ensures var n := |amounts| - 1; Sum(amounts) == Sum(amounts[..n]) + amounts[n]
  {
    var n := |amounts| - 1;
    if n > 0 {
      SumLast(amounts[1..]);
      assert amounts[1..][..n - 1] == amounts[..n][1..];
    }
  }

  lemma {:induction false} SumsAgree(outputs: seq<TxOutput>)
    ensures SumOutputs(outputs) == Sum(Amounts(outputs))
  {
    if outputs != [] {
      var n := |outputs| - 1;
      SumsAgree(outputs[..n]);
      SumLast(Amounts(outputs));
      assert Amounts(outputs)[..n] == Amounts(outputs[..n]);
    }
  }

  lemma {:induction false} EachWithinSum(amounts: seq<int>, i: nat)
    requires i < |amounts| && forall j :: 0 <= j < |amounts| ==> 0 <= amounts[j]
    ensures 0 <= amounts[i] <= Sum(amounts)
  {
    if i > 0 {
      EachWithinSum(amounts[1..], i - 1);
    } else if |amounts| > 1 {
      EachWithinSum(amounts[1..], 0);
    }
  }

  lemma PayableMeans(outputs: seq<TxOutput>)
    ensures PayableOutputs(outputs) <==> Money(Amounts(outputs))
  {
    SumsAgree(outputs);
    var a := Amounts(outputs);
    if Money(a) {
      forall i | 0 <= i < |outputs| ensures IsValidAmount(outputs[i].amount) {
        EachWithinSum(a, i);
        assert a[i] == outputs[i].amount;
      }
    }
    if PayableOutputs(outputs) {
      assert forall i :: 0 <= i < |a| ==> a[i] == outputs[i].amount;
    }
  }

  lemma WorthIs(coins: seq<Coin>)
    ensures Worth(coins) == Amounts(Outputs(coins))
  {
  }

  // --- Transactions ---

  /** A transaction is well formed if and only if: it has inputs and outputs within the limits, paying out money;
      a coinbase, the one input of which names no output, has no witnesses and data within the limit, and anything
      else has no data, a witness that passes for each input, and inputs that all name outputs, each another; and
      it weighs no more than a block may. */
  lemma WellFormedMeans(tx: Transaction, p: Params)
    ensures ShapeVerdict(tx, p).Accepted?
       <==> && 1 <= |tx.inputs| <= p.limits.maxInputs && 1 <= |tx.outputs| <= p.limits.maxOutputs
            && Money(Amounts(tx.outputs)) && p.weight(tx) <= p.maxBlockWeight
            && if |tx.inputs| == 1 && tx.inputs[0].outpoint == OutPoint(Hash256(0), 0xFFFF_FFFF)
               then tx.witnesses == [] && |tx.coinbaseData| <= p.limits.maxCoinbaseData
               else
                 && tx.coinbaseData == [] && |tx.witnesses| == |tx.inputs|
                 && (forall i :: 0 <= i < |tx.inputs| ==> tx.inputs[i].outpoint != OutPoint(Hash256(0), 0xFFFF_FFFF))
                 && (forall i, j :: 0 <= i < j < |tx.inputs| ==> tx.inputs[i].outpoint != tx.inputs[j].outpoint)
                 && (forall i :: 0 <= i < |tx.witnesses| ==> p.checkWitness(tx.witnesses[i]).Accepted?)
  {
    hide Money, AmountsVerdict, PayableOutputs, WitnessesVerdict;
    AmountsAreThePayable(tx.outputs);
    PayableMeans(tx.outputs);
    WitnessesMean(tx.witnesses, p);
  }

  lemma {:induction false} WitnessesMean(witnesses: seq<Witness>, p: Params)
    ensures WitnessesVerdict(witnesses, p).Accepted?
       <==> forall i :: 0 <= i < |witnesses| ==> p.checkWitness(witnesses[i]).Accepted?
  {
    if witnesses != [] {
      WitnessesMean(witnesses[1..], p);
      assert forall i :: 1 <= i < |witnesses| ==> witnesses[i] == witnesses[1..][i - 1];
    }
  }

  /** A spend is allowed, paying `fee`, if and only if it is no coinbase, there is one coin for each input, every
      coin a coinbase made is deep enough, what is spent and what is paid out are money, the first exceeds the
      second by the fee, and the signatures are accepted. */
  lemma SpendMeans(tx: Transaction, spent: seq<Coin>, height: nat, fee: int, p: Params)
    ensures InputsVerdict(tx, spent, height, p) == Ok(fee)
       <==> && !tx.IsCoinbase() && |spent| == |tx.inputs|
            && (forall i :: 0 <= i < |spent| && spent[i].isCoinbase ==> spent[i].height + p.coinbaseMaturity <= height)
            && Money(Worth(spent)) && Money(Amounts(tx.outputs))
            && fee == Sum(Worth(spent)) - Sum(Amounts(tx.outputs)) >= 0
            && p.authorise(tx, Outputs(spent)).Accepted?
  {
    hide Money, PayableOutputs;
    PayableMeans(tx.outputs);
    PayableMeans(Outputs(spent));
    WorthIs(spent);
    SumsAgree(tx.outputs);
    SumsAgree(Outputs(spent));
    SumCoinsIsSumOfOutputs(spent);
    hide Sum, SumOutputs, SumCoins;
    assert AllMature(spent, height, p)
      <==> forall i :: 0 <= i < |spent| && spent[i].isCoinbase ==> spent[i].height + p.coinbaseMaturity <= height
    by {
      assert forall i :: 0 <= i < |spent| ==>
               (Mature(spent[i], height, p)
                <==> (spent[i].isCoinbase ==> spent[i].height + p.coinbaseMaturity <= height));
    }
  }

  // --- Blocks ---

  /** A coinbase is allowed if and only if the fees and what it pays out are money, and it pays out no more than the
      scheduled reward and the fees together. */
  lemma CoinbaseMeans(block: Block, fees: int, p: Params)
    requires block.transactions != [] && block.transactions[0].IsCoinbase()
    ensures var paid := Amounts(block.transactions[0].outputs);
            CoinbaseVerdict(block, fees, p).Accepted?
            <==> && 0 <= fees <= 83_999_999_932_170_000 && Money(paid)
                 && Sum(paid) <= Issuance.Reward(block.header.height, p.schedule) + fees <= INT64_MAX
  {
    hide Money, PayableOutputs, Sum, SumOutputs, Issuance.Reward;
    PayableMeans(block.transactions[0].outputs);
    SumsAgree(block.transactions[0].outputs);
  }

  function Weights(txs: seq<Transaction>, p: Params): seq<int> {
    seq(|txs|, i requires 0 <= i < |txs| => p.weight(txs[i]))
  }

  lemma {:induction false} WeightsSum(txs: seq<Transaction>, p: Params)
    ensures TotalWeight(txs, p) == Sum(Weights(txs, p))
  {
    if txs != [] {
      var n := |txs| - 1;
      WeightsSum(txs[..n], p);
      SumLast(Weights(txs, p));
      assert Weights(txs, p)[..n] == Weights(txs[..n], p);
    }
  }

  /** Input `a` of transaction `i` and input `b` of transaction `j` spend one outpoint. */
  ghost predicate SpendAlike(txs: seq<Transaction>, i: int, a: int, j: int, b: int) {
    && 0 <= i < |txs| && 0 <= j < |txs| && !txs[i].IsCoinbase() && !txs[j].IsCoinbase()
    && 0 <= a < |txs[i].inputs| && 0 <= b < |txs[j].inputs|
    && txs[i].inputs[a].outpoint == txs[j].inputs[b].outpoint
  }

  /** No two inputs of the block do. */
  ghost predicate SpendsOnce(txs: seq<Transaction>) {
    forall i, a, j, b :: SpendAlike(txs, i, a, j, b) ==> i == j && a == b
  }

  lemma {:induction false} SpendsOnceMeans(txs: seq<Transaction>)
    ensures DistinctInputs(AllInputs(txs)) <==> SpendsOnce(txs)
  {
    if txs == [] {
      assert AllInputs(txs) == [];
    } else {
      var n := |txs| - 1;
      SpendsOnceMeans(txs[..n]);
      OneMoreSpends(txs);
    }
  }

  /** The inputs so far are the inputs of the transactions so far. */
  lemma {:induction false} InputsAre(txs: seq<Transaction>, o: OutPoint)
    ensures o in OutPoints(AllInputs(txs))
       <==> exists i :: 0 <= i < |txs| && !txs[i].IsCoinbase() && o in InputSet(txs[i])
  {
    if txs != [] {
      var n := |txs| - 1;
      var more := if txs[n].IsCoinbase() then [] else txs[n].inputs;
      InputsAre(txs[..n], o);
      OutPointsOf(AllInputs(txs[..n]), more, o);
      assert forall i :: 0 <= i < n ==> txs[..n][i] == txs[i];
    }
  }

  lemma OutPointsOf(a: seq<TxInput>, b: seq<TxInput>, o: OutPoint)
    ensures o in OutPoints(a + b) <==> o in OutPoints(a) || o in OutPoints(b)
  {
    var all := a + b;
    assert forall i :: 0 <= i < |a| ==> all[i] == a[i];
    assert forall i :: 0 <= i < |b| ==> all[|a| + i] == b[i];
    if o in OutPoints(all) {
      var i :| 0 <= i < |all| && all[i].outpoint == o;
      assert if i < |a| then a[i].outpoint == o else b[i - |a|].outpoint == o;
    }
  }

  lemma DistinctSplits(a: seq<TxInput>, b: seq<TxInput>)
    ensures DistinctInputs(a + b) <==> DistinctInputs(a) && DistinctInputs(b) && OutPoints(a) !! OutPoints(b)
  {
    var all := a + b;
    assert forall i :: 0 <= i < |a| ==> all[i] == a[i];
    assert forall i :: 0 <= i < |b| ==> all[|a| + i] == b[i];
    if DistinctInputs(all) {
      forall o | o in OutPoints(a) ensures o !in OutPoints(b) {
        var i :| 0 <= i < |a| && a[i].outpoint == o;
      }
    }
    if DistinctInputs(a) && DistinctInputs(b) && OutPoints(a) !! OutPoints(b) {
      forall i, j | 0 <= i < j < |all| ensures all[i].outpoint != all[j].outpoint {
        if i < |a| <= j {
          assert a[i].outpoint in OutPoints(a) && b[j - |a|].outpoint in OutPoints(b);
        }
      }
    }
  }

  lemma OneMoreSpends(txs: seq<Transaction>)
    requires txs != [] && (DistinctInputs(AllInputs(txs[..|txs| - 1])) <==> SpendsOnce(txs[..|txs| - 1]))
    ensures DistinctInputs(AllInputs(txs)) <==> SpendsOnce(txs)
  {
    hide SpendsOnce, OutPoints, DistinctInputs;
    var n := |txs| - 1;
    var more := if txs[n].IsCoinbase() then [] else txs[n].inputs;
    DistinctSplits(AllInputs(txs[..n]), more);
    SpendsOnceSplits(txs, more);
  }

  lemma SpendsOnceSplits(txs: seq<Transaction>, more: seq<TxInput>)
    requires txs != [] && more == if txs[|txs| - 1].IsCoinbase() then [] else txs[|txs| - 1].inputs
    ensures var n := |txs| - 1;
            SpendsOnce(txs)
            <==> SpendsOnce(txs[..n]) && DistinctInputs(more) && OutPoints(AllInputs(txs[..n])) !! OutPoints(more)
  {
    var n := |txs| - 1;
    var sofar := txs[..n];
    forall o
      ensures o in OutPoints(AllInputs(sofar))
         <==> exists i :: 0 <= i < n && !txs[i].IsCoinbase() && o in InputSet(txs[i])
    {
      InputsAre(sofar, o);
      assert forall i :: 0 <= i < n ==> sofar[i] == txs[i];
    }
    if SpendsOnce(txs) {
      forall i, a, j, b | SpendAlike(sofar, i, a, j, b) ensures i == j && a == b {
        assert SpendAlike(txs, i, a, j, b);
      }
      forall a, b | 0 <= a < b < |more| ensures more[a].outpoint != more[b].outpoint {
        assert !SpendAlike(txs, n, a, n, b);
      }
      forall o | o in OutPoints(AllInputs(sofar)) ensures o !in OutPoints(more) {
        var i :| 0 <= i < n && !txs[i].IsCoinbase() && o in InputSet(txs[i]);
        var a :| 0 <= a < |txs[i].inputs| && txs[i].inputs[a].outpoint == o;
        forall b | 0 <= b < |more| ensures more[b].outpoint != o {
          assert !SpendAlike(txs, i, a, n, b);
        }
      }
    }
    if SpendsOnce(sofar) && DistinctInputs(more) && OutPoints(AllInputs(sofar)) !! OutPoints(more) {
      forall i, a, j, b | SpendAlike(txs, i, a, j, b) ensures i == j && a == b {
        var o := txs[i].inputs[a].outpoint;
        assert o in InputSet(txs[i]) && o in InputSet(txs[j]);
        if i < n && j < n {
          assert SpendAlike(sofar, i, a, j, b);
        }
      }
    }
  }

  /** A block passes on its own if and only if its header does, it has transactions within the count, the first and
      only the first is a coinbase, which carries the height, header and transactions weigh within the limit, the
      header commits to the transactions, every transaction is well formed, and no outpoint is spent twice. */
  lemma BlockMeans(block: Block, p: Params)
    ensures var txs := block.transactions;
            BlockVerdict(block, p).Accepted?
            <==> && p.checkHeader(block.header).Accepted? && 1 <= |txs| <= p.maxTransactions
                 && (forall i :: 0 <= i < |txs| ==> (txs[i].IsCoinbase() <==> i == 0))
                 && txs[0].inputs[0].sequence == block.header.height
                 && 4 * (92 + CompactSizeLen(|txs|)) + Sum(Weights(txs, p)) <= p.maxBlockWeight
                 && Merkle.Root(Wtxids(txs, p), p.merkle) == Some(block.header.merkleRoot)
                 && (forall i :: 0 <= i < |txs| ==> ShapeVerdict(txs[i], p).Accepted?) && SpendsOnce(txs)
  {
    hide ShapeVerdict, ShapesVerdict, Merkle.Root, SpendsOnce, DistinctInputs, AllInputs, TotalWeight, Sum;
    ShapesAccepted(block.transactions, p);
    SpendsOnceMeans(block.transactions);
    WeightsSum(block.transactions, p);
  }

  // --- Headers ---

  /** A header is placed under its parent if and only if it names it, is one higher, carries the bits asked for, is
      stamped after more than half of the last eleven headers, and is no more than an hour ahead of the clock. */
  lemma PlacedMeans(t: Tree, root: Hash256, header: BlockHeader, q: Hash256, now: int, p: Params)
    requires Linked(t, root) && q in t
    ensures var path := Path(t, root, q);
            var n := if |path| < 11 then |path| else 11;
            ContextVerdict(t, root, header, q, now, p).Accepted?
            <==> && header.prevBlock == q && header.height == t[q].height + 1 && t[q].height != 0xFFFF_FFFF
                 && header.targetBits == p.expectedBits(t[q].height, t[q].header.timestamp, header.timestamp)
                 && Earlier(t, path, |path| - n, header.timestamp) >= n / 2 + 1
                 && FitsInt64(now + 3600) && header.timestamp <= now + 3600
  {
    hide Path, Median, RecentTimes, Earlier;
    if header.prevBlock == q && header.height == t[q].height + 1 && t[q].height != UINT32_LIMIT - 1
       && header.targetBits == p.expectedBits(t[q].height, t[q].header.timestamp, header.timestamp) {
      TooOldMeans(t, root, header, q, now, p);
    }
  }

  // --- The best header ---

  /** A newcomer takes over if and only if there is more work behind it: on a tie the first seen keeps its place. */
  lemma FirstSeenKeepsPlace(t: Tree, b: Hash256, h: Hash256, e: Entry, best: Option<Hash256>)
    requires IsBest(t, Some(b)) && h !in t && e.IsEligible() && forall g :: g in t ==> t[g].sequence < e.sequence
    requires IsBest(t[h := e], best)
    ensures best == Some(if e.totalWork > t[b].totalWork then h else b)
  {
    var t' := t[h := e];
    var x := if e.totalWork > t[b].totalWork then h else b;
    assert IsBest(t', Some(x));
    BestIsUnique(t', best, Some(x));
  }
}
