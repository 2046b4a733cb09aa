/** Rebuilding the header index from the log a previous run left. */
module LoadChains {
  import opened HeaderRules
  import opened Index
  import opened IndexTree
  import opened Primitives
  import opened Validation

  datatype StoredHeader = StoredHeader(header: BlockHeader, validity: BlockValidity, failure: BlockFailure)

  datatype DbError = CorruptRecord | TipNotIndexed

  datatype LoadedChain = LoadedChain(index: BlockIndex, tip: Hash256, restored: nat)

  // --- The replay as a function of the log ---

  datatype Readmitted = Readmitted(tree: Tree, order: seq<Hash256>, restored: nat)

  /** Headers offered one by one in log order, as if a peer had sent them. */
  ghost function Readmit(log: seq<StoredHeader>, clock: int, p: Params): (r: Option<Readmitted>)
    ensures r.Some? ==> IndexInvariant(r.value.tree, p.hash(p.genesis), r.value.order, p)
  {
    var root := p.hash(p.genesis);
    if log == [] then
      FreshInvariant(p);
      Some(Readmitted(map[root := GenesisEntry(p)], [root], 0))
    else
      var n := |log| - 1;
      match Readmit(log[..n], clock, p)
      case None => None
      case Some(s) => if log[n].header == p.genesis then Some(s) else ReadmitOne(s, log[n], clock, p)
  }

  ghost function ReadmitOne(s: Readmitted, record: StoredHeader, clock: int, p: Params): (r: Option<Readmitted>)
    requires IndexInvariant(s.tree, p.hash(p.genesis), s.order, p)
    ensures r.Some? ==> IndexInvariant(r.value.tree, p.hash(p.genesis), r.value.order, p)
  {
    var root, h := p.hash(p.genesis), p.hash(record.header);
    if HeaderVerdict(s.tree, root, record.header, clock, p).Err? then None
    else if h in s.tree then
      RaisedKeeps(s.tree, s.order, h, record.validity, p);
      Some(Readmitted(Raised(s.tree, h, record.validity), s.order, s.restored + 1))
    else
      var t1, order1 := WithHeader(s.tree, record.header, |s.order|, p), s.order + [h];
      AddedKeepsInvariant(s.tree, root, s.order, record.header, clock, p);
      RaisedKeeps(t1, order1, h, record.validity, p);
      Some(Readmitted(Raised(t1, h, record.validity), order1, s.restored + 1))
  }

  lemma FreshInvariant(p: Params)
    ensures IndexInvariant(map[p.hash(p.genesis) := GenesisEntry(p)], p.hash(p.genesis), [p.hash(p.genesis)], p)
  {
  }

  lemma RaisedKeeps(t: Tree, order: seq<Hash256>, h: Hash256, v: BlockValidity, p: Params)
    requires IndexInvariant(t, p.hash(p.genesis), order, p)
    ensures IndexInvariant(Raised(t, h, v), p.hash(p.genesis), order, p)
  {
    hide IndexInvariant, Raised, Carries, Path;
    RaisedCarries(t, h, v);
    SameFailuresKeepInvariant(t, Raised(t, h, v), p.hash(p.genesis), order, p);
  }

  /** Then the blocks that failed by their own rules, in log order. */
  ghost function Recondemn(t: Tree, log: seq<StoredHeader>, order: seq<Hash256>, p: Params): (r: Option<Tree>)
    requires IndexInvariant(t, p.hash(p.genesis), order, p)
    ensures r.Some? ==> IndexInvariant(r.value, p.hash(p.genesis), order, p)
  {
    if log == [] then Some(t)
    else
      var n := |log| - 1;
      match Recondemn(t, log[..n], order, p)
      case None => None
      case Some(t1) =>
        var h := p.hash(log[n].header);
        if log[n].failure != Itself then Some(t1)
        else if h !in t1 then None
        else
          RuledOutKeepsAny(t1, order, h, p);
          Some(RuledOut(t1, p.hash(p.genesis), h))
  }

  lemma RuledOutKeepsAny(t: Tree, order: seq<Hash256>, h: Hash256, p: Params)
    requires IndexInvariant(t, p.hash(p.genesis), order, p) && h in t
    ensures IndexInvariant(RuledOut(t, p.hash(p.genesis), h), p.hash(p.genesis), order, p)
  {
    hide Path, Judged, Derived, Heights, Arrivals, FailuresExplained;
    if t[h].IsEligible() {
      RuledOutKeepsInvariant(t, p.hash(p.genesis), order, h, p);
    } else {
      NothingLeftToRuleOut(t, p.hash(p.genesis), h);
    }
  }

  // --- The clock ---

  function Latest(log: seq<StoredHeader>, now: int): int {
    if log == [] then now
    else
      var earlier := Latest(log[..|log| - 1], now);
      var stamp := log[|log| - 1].header.timestamp;
      if stamp > earlier then stamp else earlier
  }

  /** Advanced to the highest stored timestamp, and held below where the ceiling would overflow. */
  function ReplayClock(log: seq<StoredHeader>, now: int): int {
    var latest := Latest(log, now);
    if latest > INT64_MAX - MAX_FUTURE_BLOCK_SECONDS then INT64_MAX - MAX_FUTURE_BLOCK_SECONDS else latest
  }

  lemma {:induction false} LatestBounds(log: seq<StoredHeader>, now: int)
    ensures Latest(log, now) >= now
    ensures forall i :: 0 <= i < |log| ==> log[i].header.timestamp <= Latest(log, now)
  {
    if log != [] {
      LatestBounds(log[..|log| - 1], now);
    }
  }

  // --- A complete log rebuilds the index it was written from ---

  /** `log` holds a record for every entry of the index in arrival order, genesis perhaps apart (`skip`),
      and says of each whether it failed by its own rules. */
  ghost predicate Describes(log: seq<StoredHeader>, t: Tree, order: seq<Hash256>, skip: nat, p: Params) {
    && skip <= 1 && |log| + skip == |order|
    && (forall i :: 0 <= i < |order| ==> order[i] in t)
    && (forall i :: 0 <= i < |log| ==> log[i].header == t[order[i + skip]].header)
    && (forall i :: 0 <= i < |log| ==> (log[i].failure == Itself <==> t[order[i + skip]].failure == Itself))
    && (forall i :: 0 <= i < |log| ==> log[i].validity == t[order[i + skip]].validity)
    && (skip == 1 ==> t[order[0]].failure != Itself)
  }

  /** `s` holds the first `m` arrivals of `t`, each as it was but for recorded verdicts, and none failed. */
  ghost predicate Mirrors(s: Readmitted, t: Tree, order: seq<Hash256>, m: nat) {
    && 1 <= m <= |order|
    && s.order == order[..m] && s.restored == m - 1
    && (forall h :: h in s.tree <==> h in order[..m])
    && (forall h :: h in s.tree ==> h in t && s.tree[h] == t[h].(validity := s.tree[h].validity, failure := NotFailed))
    && (forall h :: h in s.tree && h != order[0] ==> s.tree[h].validity == t[h].validity)
  }

  lemma GenesisArrivesFirst(t: Tree, root: Hash256, order: seq<Hash256>)
    requires Linked(t, root) && Arrivals(t, order)
    ensures |order| > 0 && order[0] == root && t[root].sequence == 0
  {
    assert t[order[0]].sequence == 0;
    // Any parent would have arrived earlier still.
    var above := t[order[0]].parent;
    assert above.None?;
  }

  /** The next record is readmitted: every rule but the ceiling judges it as it did before, and the replay
      clock satisfies the ceiling. */
  lemma ReadmitNext(s: Readmitted, t: Tree, order: seq<Hash256>, m: nat, record: StoredHeader, clock: int, p: Params)
    requires IndexInvariant(t, p.hash(p.genesis), order, p) && m < |order|
    requires IndexInvariant(s.tree, p.hash(p.genesis), s.order, p) && Mirrors(s, t, order, m)
    requires record.header == t[order[m]].header && record.validity == t[order[m]].validity
    requires FitsInt64(clock + MAX_FUTURE_BLOCK_SECONDS) && record.header.timestamp <= clock + MAX_FUTURE_BLOCK_SECONDS
    ensures ReadmitOne(s, record, clock, p).Some?
    ensures Mirrors(ReadmitOne(s, record, clock, p).value, t, order, m + 1)
  {
    hide Path, Heights, Derived, Judged, Arrivals, FailuresPropagated, FailuresExplained, JudgedSound, ContextVerdict;
    var root, h := p.hash(p.genesis), order[m];
    NextArrival(t, order, m, p);
    var q := t[h].header.prevBlock;
    SameVerdict(s.tree, t, root, t[h].header, q, clock, p);
    MirrorsExtended(s, t, order, m, record, p);
  }

  /** What is known of the `m`th arrival, its parent having arrived before it. */
  lemma NextArrival(t: Tree, order: seq<Hash256>, m: nat, p: Params)
    requires IndexInvariant(t, p.hash(p.genesis), order, p) && 1 <= m < |order|
    ensures var h := order[m];
            && h in t && h !in order[..m]
            && var e := t[h];
               && p.hash(e.header) == h && e.parent == Some(e.header.prevBlock) && e.header.prevBlock in t
               && e.header.prevBlock in order[..m] && e.height == e.header.height && e.sequence == m
               && e.totalWork == AddWork(t[e.header.prevBlock].totalWork, p.work(e.header.targetBits))
               && JudgedSound(t, p.hash(p.genesis), e.header, e.header.prevBlock, p)
  {
    hide Path, JudgedSound;
    var root, h := p.hash(p.genesis), order[m];
    GenesisArrivesFirst(t, root, order);
    assert t[h].sequence == m && h != root;
    var q := t[h].parent.value;
    assert order[t[q].sequence] == q;
    forall i | 0 <= i < m ensures order[i] != h {
      assert t[order[i]].sequence == i;
    }
  }

  lemma SameVerdict(s: Tree, t: Tree, root: Hash256, header: BlockHeader, q: Hash256, clock: int, p: Params)
    requires Linked(s, root) && Linked(t, root) && q in s
    requires forall g :: g in s ==> g in t && s[g] == t[g].(validity := s[g].validity, failure := s[g].failure)
    requires JudgedSound(t, root, header, q, p)
    requires FitsInt64(clock + MAX_FUTURE_BLOCK_SECONDS) && header.timestamp <= clock + MAX_FUTURE_BLOCK_SECONDS
    ensures p.checkHeader(header).Accepted? && ContextVerdict(s, root, header, q, clock, p).Accepted?
  {
    hide Path;
    var arrival :| ContextVerdict(t, root, header, q, arrival, p).Accepted?;
    OnlyTheCeilingReadsTheClock(t, root, header, q, arrival, clock, p);
    RecentTimesFrame(s, t, root, q);
  }

  lemma MirrorsExtended(s: Readmitted, t: Tree, order: seq<Hash256>, m: nat, record: StoredHeader, p: Params)
    requires m < |order| && order[m] in t && Mirrors(s, t, order, m) && order[m] !in order[..m]
    requires var e := t[order[m]];
             && e.header == record.header && e.validity == record.validity
             && p.hash(e.header) == order[m] && e.parent == Some(e.header.prevBlock)
             && e.header.prevBlock in s.tree && e.height == e.header.height && e.sequence == m
             && e.totalWork == AddWork(t[e.header.prevBlock].totalWork, p.work(e.header.targetBits))
    ensures var h := order[m];
            var t1 := Raised(WithHeader(s.tree, record.header, |s.order|, p), h, record.validity);
            Mirrors(Readmitted(t1, s.order + [h], s.restored + 1), t, order, m + 1)
  {
    assert order[..m + 1] == order[..m] + [order[m]];
  }

  lemma ReadmitUnfold(log: seq<StoredHeader>, n: nat, clock: int, p: Params)
    requires 0 < n <= |log| && Readmit(log[..n - 1], clock, p).Some?
    ensures var s, record := Readmit(log[..n - 1], clock, p).value, log[n - 1];
            && IndexInvariant(s.tree, p.hash(p.genesis), s.order, p)
            && Readmit(log[..n], clock, p)
               == if record.header == p.genesis then Some(s) else ReadmitOne(s, record, clock, p)
  {
    hide IndexInvariant, ReadmitOne;
    assert log[..n][..n - 1] == log[..n - 1];
  }

  function Arrived(n: nat, skip: nat): nat {
    if n + skip == 0 then 1 else n + skip
  }

  /** Every prefix of a complete log rebuilds the arrivals it describes. */
  lemma {:induction false} ReadmitMirrors(log: seq<StoredHeader>, n: nat, t: Tree, order: seq<Hash256>, skip: nat,
                                          now: int, p: Params)
    requires IndexInvariant(t, p.hash(p.genesis), order, p) && Describes(log, t, order, skip, p)
    requires n <= |log| && FitsInt64(now)
    ensures var r := Readmit(log[..n], ReplayClock(log, now), p);
            r.Some? && Mirrors(r.value, t, order, Arrived(n, skip))
  {
    hide IndexInvariant, ReplayClock, ReadmitOne, Mirrors, GenesisEntry, Readmit, Path, JudgedSound;
    var root, clock := p.hash(p.genesis), ReplayClock(log, now);
    OrderFacts(t, order, p);
    if n == 0 {
      FreshReadmitted(log, clock, p);
      FreshMirrors(t, order, p);
    } else {
      ReadmitMirrors(log, n - 1, t, order, skip, now, p);
      ReadmitUnfold(log, n, clock, p);
      var s, record, m := Readmit(log[..n - 1], clock, p).value, log[n - 1], n - 1 + skip;
      if m > 0 {
        NextArrival(t, order, m, p);
        assert root in order[..m];
        CeilingSatisfied(log, n - 1, t, order, skip, now, p);
        ReadmitNext(s, t, order, m, record, clock, p);
      }
    }
  }

  lemma OrderFacts(t: Tree, order: seq<Hash256>, p: Params)
    requires IndexInvariant(t, p.hash(p.genesis), order, p)
    ensures |order| > 0 && order[0] == p.hash(p.genesis) && order[0] in t
    ensures t[order[0]].sequence == 0 && t[order[0]].header == p.genesis
  {
    hide Path, Judged, FailuresPropagated, FailuresExplained;
    GenesisArrivesFirst(t, p.hash(p.genesis), order);
  }

  lemma FreshReadmitted(log: seq<StoredHeader>, clock: int, p: Params)
    ensures var root := p.hash(p.genesis);
            Readmit(log[..0], clock, p) == Some(Readmitted(map[root := GenesisEntry(p)], [root], 0))
  {
  }

  lemma FreshMirrors(t: Tree, order: seq<Hash256>, p: Params)
    requires IndexInvariant(t, p.hash(p.genesis), order, p) && |order| > 0 && order[0] == p.hash(p.genesis)
    requires t[p.hash(p.genesis)].sequence == 0
    ensures var root := p.hash(p.genesis);
            Mirrors(Readmitted(map[root := GenesisEntry(p)], [root], 0), t, order, 1)
  {
    hide Path, Judged, FailuresPropagated, FailuresExplained;
    assert order[..1] == [p.hash(p.genesis)];
  }

  /** No stored header lies past the replay clock's ceiling, whatever the restart clock reads. */
  lemma CeilingSatisfied(log: seq<StoredHeader>, i: nat, t: Tree, order: seq<Hash256>, skip: nat, now: int, p: Params)
    requires IndexInvariant(t, p.hash(p.genesis), order, p) && Describes(log, t, order, skip, p)
    requires i < |log| && i + skip >= 1 && FitsInt64(now)
    ensures var clock := ReplayClock(log, now);
            FitsInt64(clock + MAX_FUTURE_BLOCK_SECONDS)
            && log[i].header.timestamp <= clock + MAX_FUTURE_BLOCK_SECONDS
  {
    hide Path, Latest, Heights, Derived, Judged, Arrivals, FailuresPropagated, FailuresExplained, JudgedSound;
    LatestBounds(log, now);
    NextArrival(t, order, i + skip, p);
    var e := t[order[i + skip]];
    JudgedFits(t, p.hash(p.genesis), e.header, e.header.prevBlock, p);
  }

  lemma JudgedFits(t: Tree, root: Hash256, header: BlockHeader, q: Hash256, p: Params)
    requires Linked(t, root) && q in t && JudgedSound(t, root, header, q, p)
    ensures header.timestamp <= INT64_MAX
  {
    hide Path, RecentTimes;
    var arrival :| ContextVerdict(t, root, header, q, arrival, p).Accepted?;
  }

  // --- Failures ---

  ghost predicate Condemned(log: seq<StoredHeader>, path: seq<Hash256>, p: Params) {
    exists i :: 0 <= i < |log| && log[i].failure == Itself && p.hash(log[i].header) in path
  }

  /** What the failure pass marks: exactly the entries with a condemned block on their path. */
  lemma {:induction false} RecondemnMeans(t: Tree, log: seq<StoredHeader>, order: seq<Hash256>, p: Params)
    requires IndexInvariant(t, p.hash(p.genesis), order, p)
    requires forall h :: h in t ==> t[h].IsEligible()
    requires forall i :: 0 <= i < |log| ==> p.hash(log[i].header) in t
    ensures Recondemn(t, log, order, p).Some?
    ensures var t' := Recondemn(t, log, order, p).value;
            && Carries(t, t') && t'.Keys == t.Keys && (forall h :: h in t ==> t'[h].validity == t[h].validity)
            && (forall h :: h in t ==> Path(t', p.hash(p.genesis), h) == Path(t, p.hash(p.genesis), h))
            && forall h :: h in t ==> (!t'[h].IsEligible() <==> Condemned(log, Path(t, p.hash(p.genesis), h), p))
  {
    hide Path, Heights, Judged, Derived, Arrivals, FailuresPropagated, FailuresExplained, RuledOut, Linked;
    if log != [] {
      var root, n := p.hash(p.genesis), |log| - 1;
      RecondemnMeans(t, log[..n], order, p);
      var t1 := Recondemn(t, log[..n], order, p).value;
      if log[n].failure == Itself {
        var x := p.hash(log[n].header);
        RuledOutMeans(t1, root, x);
        CarriesOn(t, t1, RuledOut(t1, root, x));
      }
      forall h | h in t
        ensures Condemned(log, Path(t, root, h), p)
           <==> Condemned(log[..n], Path(t, root, h), p)
                || (log[n].failure == Itself && p.hash(log[n].header) in Path(t, root, h))
      {
        CondemnedStep(log, Path(t, root, h), p);
      }
    }
  }

  lemma CondemnedStep(log: seq<StoredHeader>, path: seq<Hash256>, p: Params)
    requires log != []
    ensures Condemned(log, path, p)
       <==> Condemned(log[..|log| - 1], path, p)
            || (log[|log| - 1].failure == Itself && p.hash(log[|log| - 1].header) in path)
  {
    var n := |log| - 1;
    if Condemned(log[..n], path, p) {
      var i :| 0 <= i < n && log[..n][i].failure == Itself && p.hash(log[..n][i].header) in path;
      assert log[i].failure == Itself;
    }
    if Condemned(log, path, p) {
      var i :| 0 <= i < |log| && log[i].failure == Itself && p.hash(log[i].header) in path;
      assert i < n ==> log[..n][i] == log[i];
    }
  }

  lemma CarriesOn(t: Tree, t1: Tree, t2: Tree)
    requires Carries(t, t1) && Carries(t1, t2)
    ensures Carries(t, t2)
  {
    forall g | g in t ensures g in t2 && t2[g] == t[g].(validity := t2[g].validity, failure := t2[g].failure) {
      assert g in t1;
    }
  }

  // --- The theorem ---

  /** `t'` is the index `t` again: the same entries with the same parents, heights, works and sequence
      numbers, and the same ones eligible. Only a label may have moved between itself and ancestor. */
  ghost predicate SameIndex(t: Tree, t': Tree) {
    Carries(t, t') && t'.Keys == t.Keys && forall h :: h in t ==> (t'[h].IsEligible() <==> t[h].IsEligible())
  }

  ghost function Rebuilt(log: seq<StoredHeader>, now: int, p: Params): Option<Readmitted> {
    match Readmit(log, ReplayClock(log, now), p)
    case None => None
    case Some(s) =>
      match Recondemn(s.tree, log, s.order, p)
      case None => None
      case Some(t) => Some(s.(tree := t))
  }

  /** Replaying a complete log at any restart clock re-accepts every header and rebuilds the index. */
  lemma CompleteLogRebuilds(log: seq<StoredHeader>, t: Tree, order: seq<Hash256>, skip: nat, now: int, p: Params)
    requires IndexInvariant(t, p.hash(p.genesis), order, p) && Describes(log, t, order, skip, p) && FitsInt64(now)
    ensures Rebuilt(log, now, p).Some?
    ensures var s := Rebuilt(log, now, p).value;
            && SameIndex(t, s.tree) && s.order == order && s.restored == |order| - 1
            && forall h :: h in t && h != p.hash(p.genesis) ==> s.tree[h].validity == t[h].validity
  {
    hide Path, IndexInvariant, Mirrors, ReplayClock, Readmit, Recondemn, Condemned, Carries, Describes;
    assert log[..|log|] == log;
    assert Arrived(|log|, skip) == |order| by { LogLength(log, t, order, skip, p); }
    ReadmitMirrors(log, |log|, t, order, skip, now, p);
    var s := Readmit(log, ReplayClock(log, now), p).value;
    MirrorsWhole(s, t, order, p);
    forall i | 0 <= i < |log| ensures p.hash(log[i].header) in s.tree {
      RecordIsEntry(log, t, order, skip, i, p);
    }
    RecondemnMeans(s.tree, log, order, p);
    CarriesOn(t, s.tree, Recondemn(s.tree, log, order, p).value);
    forall h | h in t ensures Recondemn(s.tree, log, order, p).value[h].IsEligible() <==> t[h].IsEligible() {
      SamePath(t, s.tree, order, h, p);
      CondemnedIsIneligible(log, t, order, skip, h, p);
    }
  }

  lemma LogLength(log: seq<StoredHeader>, t: Tree, order: seq<Hash256>, skip: nat, p: Params)
    requires IndexInvariant(t, p.hash(p.genesis), order, p) && Describes(log, t, order, skip, p)
    ensures |order| > 0 && Arrived(|log|, skip) == |order|
  {
    hide IndexInvariant;
    OrderFacts(t, order, p);
  }

  lemma SamePath(t: Tree, t': Tree, order: seq<Hash256>, h: Hash256, p: Params)
    requires IndexInvariant(t, p.hash(p.genesis), order, p) && IndexInvariant(t', p.hash(p.genesis), order, p)
    requires Carries(t, t') && h in t
    ensures Path(t', p.hash(p.genesis), h) == Path(t, p.hash(p.genesis), h)
  {
    hide Path, Heights, Judged, Arrivals, Derived, FailuresPropagated, FailuresExplained;
    PathsFrame(t, t', p.hash(p.genesis));
  }

  lemma MirrorsWhole(s: Readmitted, t: Tree, order: seq<Hash256>, p: Params)
    requires IndexInvariant(t, p.hash(p.genesis), order, p) && Mirrors(s, t, order, |order|)
    ensures s.order == order && s.tree.Keys == t.Keys && Carries(t, s.tree)
    ensures s.restored == |order| - 1 && forall h :: h in s.tree ==> s.tree[h].IsEligible()
    ensures forall h :: h in t && h != p.hash(p.genesis) ==> s.tree[h].validity == t[h].validity
  {
    hide Path, Heights, Judged, Derived, FailuresPropagated, FailuresExplained;
    assert order[..|order|] == order;
    forall h | h in t ensures h in s.tree {
      assert order[t[h].sequence] == h;
    }
    assert s.tree.Keys == t.Keys;
  }

  /** The records that name an own failure are exactly the culprits of the original index. */
  lemma CondemnedIsIneligible(log: seq<StoredHeader>, t: Tree, order: seq<Hash256>, skip: nat, h: Hash256, p: Params)
    requires IndexInvariant(t, p.hash(p.genesis), order, p) && Describes(log, t, order, skip, p) && h in t
    ensures Condemned(log, Path(t, p.hash(p.genesis), h), p) <==> !t[h].IsEligible()
  {
    hide Path, Heights, Judged, Arrivals, Derived, Describes, FailuresPropagated;
    var root := p.hash(p.genesis);
    var path := Path(t, root, h);
    if Condemned(log, path, p) {
      var i :| 0 <= i < |log| && log[i].failure == Itself && p.hash(log[i].header) in path;
      RecordIsEntry(log, t, order, skip, i, p);
      if t[h].IsEligible() {
        EligiblePath(t, root, h, p.hash(log[i].header));
      }
    }
    if !t[h].IsEligible() {
      var a :| Culprit(t, root, a, h);
      var i := EntryHasRecord(log, t, order, skip, a, p);
      assert log[i].failure == Itself && p.hash(log[i].header) in path;
    }
  }

  lemma RecordIsEntry(log: seq<StoredHeader>, t: Tree, order: seq<Hash256>, skip: nat, i: nat, p: Params)
    requires IndexInvariant(t, p.hash(p.genesis), order, p) && Describes(log, t, order, skip, p) && i < |log|
    ensures var h := p.hash(log[i].header); h in t && (log[i].failure == Itself <==> t[h].failure == Itself)
  {
    hide Path, Heights, Judged, FailuresPropagated, FailuresExplained;
    assert order[i + skip] in t;
  }

  lemma EntryHasRecord(log: seq<StoredHeader>, t: Tree, order: seq<Hash256>, skip: nat, a: Hash256, p: Params)
    returns (i: nat)
    requires IndexInvariant(t, p.hash(p.genesis), order, p) && Describes(log, t, order, skip, p)
    requires a in t && t[a].failure == Itself
    ensures i < |log| && p.hash(log[i].header) == a && log[i].failure == Itself
  {
    hide IndexInvariant;
    ArrivedOnce(t, order, a, p);
    assert t[a].sequence >= skip;
    i := t[a].sequence - skip;
  }

  lemma ArrivedOnce(t: Tree, order: seq<Hash256>, a: Hash256, p: Params)
    requires IndexInvariant(t, p.hash(p.genesis), order, p) && a in t
    ensures t[a].sequence < |order| && order[t[a].sequence] == a && p.hash(t[a].header) == a
  {
    hide Path, Heights, Judged, FailuresPropagated, FailuresExplained;
  }

  /** The best header is found again. */
  lemma SameIndexSameBest(t: Tree, t': Tree, best: Option<Hash256>, best': Option<Hash256>)
    requires SameIndex(t, t') && IsBest(t, best) && IsBest(t', best')
    ensures best == best'
  {
    assert IsBest(t', best) by {
      if best.Some? {
        forall h | h in t' && h != best.value ensures IsBetterTip(t'[best.value], t'[h]) {
          assert h in t && IsBetterTip(t[best.value], t[h]);
        }
      } else {
        forall h | h in t' ensures !t'[h].IsEligible() {
          assert h in t;
        }
      }
    }
    BestIsUnique(t', best, best');
  }

  // --- The method ---

  lemma {:induction false} ReadmitPrefixFails(log: seq<StoredHeader>, k: nat, clock: int, p: Params)
    requires k <= |log| && Readmit(log[..k], clock, p).None?
    ensures Readmit(log, clock, p).None?
    decreases |log|
  {
    hide IndexInvariant, ReadmitOne;
    if k == |log| {
      assert log[..k] == log;
    } else {
      assert log[..|log| - 1][..k] == log[..k];
      ReadmitPrefixFails(log[..|log| - 1], k, clock, p);
    }
  }

  lemma {:induction false} RecondemnPrefixFails(t: Tree, log: seq<StoredHeader>, order: seq<Hash256>, k: nat, p: Params)
    requires IndexInvariant(t, p.hash(p.genesis), order, p)
    requires k <= |log| && Recondemn(t, log[..k], order, p).None?
    ensures Recondemn(t, log, order, p).None?
    decreases |log|
  {
    hide IndexInvariant, RuledOut;
    if k == |log| {
      assert log[..k] == log;
    } else {
      assert log[..|log| - 1][..k] == log[..k];
      RecondemnPrefixFails(t, log[..|log| - 1], order, k, p);
    }
  }

  method ReplayClockOf(log: seq<StoredHeader>, now: int) returns (clock: int)
    ensures clock == ReplayClock(log, now)
  {
    clock := now;
    for i := 0 to |log|
      invariant clock == Latest(log[..i], now)
    {
      assert log[..i + 1][..i] == log[..i];
      clock := if log[i].header.timestamp > clock then log[i].header.timestamp else clock;
    }
    assert log[..|log|] == log;
    clock := if clock > INT64_MAX - MAX_FUTURE_BLOCK_SECONDS then INT64_MAX - MAX_FUTURE_BLOCK_SECONDS else clock;
  }

  method ReadmitHeader(index: BlockIndex, record: StoredHeader, clock: int, ghost restored: nat, p: Params)
    returns (ok: bool)
    requires index.Valid(p) && IndexInvariant(index.entries, p.hash(p.genesis), index.order, p)
    modifies index
    ensures index.Valid(p)
    ensures match ReadmitOne(Readmitted(old(index.entries), old(index.order), restored), record, clock, p)
            case None => !ok
            case Some(s) => ok && s == Readmitted(index.entries, index.order, restored + 1)
  {
    hide ValidIndex, HeaderVerdict, WithHeader, Raised, Heights, Derived, Judged, Arrivals, FailuresPropagated;
    hide FailuresExplained;
    ghost var before := index.entries;
    var added := index.AddHeader(record.header, clock, p);
    if added.Err? {
      return false;
    }
    VerdictNames(before, index.genesis, record.header, clock, added.value, p);
    index.RecordValidity(added.value, record.validity, p);
    return true;
  }

  /** Headers first, in arrival order, each through the same gate a relayed header goes through. */
  method ReadmitHeaders(index: BlockIndex, log: seq<StoredHeader>, clock: int, p: Params)
    returns (ok: bool, restored: nat)
    requires index.Valid(p) && index.entries == map[p.hash(p.genesis) := GenesisEntry(p)]
    requires index.order == [p.hash(p.genesis)]
    modifies index
    ensures index.Valid(p)
    ensures match Readmit(log, clock, p)
            case None => !ok
            case Some(s) => ok && s == Readmitted(index.entries, index.order, restored)
  {
    hide ValidIndex, ReadmitOne, IndexInvariant, GenesisEntry;
    restored := 0;
    for i := 0 to |log|
      invariant index.Valid(p)
      invariant Readmit(log[..i], clock, p) == Some(Readmitted(index.entries, index.order, restored))
    {
      assert log[..i + 1][..i] == log[..i];
      if log[i].header == p.genesis {
        continue;
      }
      SoundSofar(log[..i], clock, p);
      var added := ReadmitHeader(index, log[i], clock, restored, p);
      if !added {
        ReadmitPrefixFails(log, i + 1, clock, p);
        return false, restored;
      }
      restored := restored + 1;
    }
    assert log[..|log|] == log;
    return true, restored;
  }

  lemma SoundSofar(log: seq<StoredHeader>, clock: int, p: Params)
    requires Readmit(log, clock, p).Some?
    ensures IndexInvariant(Readmit(log, clock, p).value.tree, p.hash(p.genesis), Readmit(log, clock, p).value.order, p)
  {
  }

  lemma VerdictNames(t: Tree, root: Hash256, header: BlockHeader, clock: int, h: Hash256, p: Params)
    requires Linked(t, root) && HeaderVerdict(t, root, header, clock, p) == Ok(h)
    ensures h == p.hash(header)
  {
  }

  method RecondemnBlocks(index: BlockIndex, log: seq<StoredHeader>, p: Params) returns (ok: bool)
    requires index.Valid(p) && IndexInvariant(index.entries, p.hash(p.genesis), index.order, p)
    modifies index`entries, index`bestHeader
    ensures index.Valid(p)
    ensures match Recondemn(old(index.entries), log, index.order, p)
            case None => !ok
            case Some(t) => ok && index.entries == t
  {
    hide ValidIndex, IndexInvariant, RuledOut, Path;
    ghost var t := index.entries;
    for i := 0 to |log|
      invariant index.Valid(p)
      invariant Recondemn(t, log[..i], index.order, p) == Some(index.entries)
    {
      assert log[..i + 1][..i] == log[..i];
      if log[i].failure != Itself {
        continue;
      }
      var h := p.hash(log[i].header);
      if h !in index.entries {
        RecondemnPrefixFails(t, log, index.order, i + 1, p);
        return false;
      }
      var _ := index.RecordFailure(h, p);
    }
    assert log[..|log|] == log;
    return true;
  }

  /** What the load answers, given what the replay rebuilt. */
  method LoadChain(log: seq<StoredHeader>, committed: Option<Hash256>, now: int, p: Params)
    returns (r: Result<LoadedChain, DbError>)
    ensures match Rebuilt(log, now, p)
            case None => r == Err(CorruptRecord)
            case Some(s) =>
              && (committed.Some? && committed.value !in s.tree ==> r == Err(TipNotIndexed))
              && (committed.Some? && committed.value in s.tree && !s.tree[committed.value].IsEligible() ==>
                    r == Err(CorruptRecord))
              && (committed.None? || (committed.value in s.tree && s.tree[committed.value].IsEligible()) ==>
                    && r.Ok? && fresh(r.value.index) && r.value.index.Valid(p)
                    && s == Readmitted(r.value.index.entries, r.value.index.order, r.value.restored)
                    && r.value.tip == if committed.Some? then committed.value else p.hash(p.genesis))
  {
    hide ValidIndex, IndexInvariant, Readmit, Recondemn, ReplayClock;
    var clock := ReplayClockOf(log, now);
    var index := new BlockIndex.ForNetwork(p);
    var ok, restored := ReadmitHeaders(index, log, clock, p);
    if !ok {
      return Err(CorruptRecord);
    }
    ok := RecondemnBlocks(index, log, p);
    if !ok {
      return Err(CorruptRecord);
    }
    if committed.None? {
      return Ok(LoadedChain(index, index.genesis, restored));
    }
    if committed.value !in index.entries {
      return Err(TipNotIndexed);
    }
    if !index.entries[committed.value].IsEligible() {
      return Err(CorruptRecord);
    }
    return Ok(LoadedChain(index, committed.value, restored));
  }
}
