/** What a header must satisfy to enter the tree. */
module HeaderRules {
  import opened IndexTree
  import opened Primitives
  import opened Validation

  const MEDIAN_TIME_SPAN: nat := 11
  const MAX_FUTURE_BLOCK_SECONDS: int := 3600

  // --- Median time past ---

  predicate Ascending(s: seq<int>) {
    forall i, j :: 0 <= i < j < |s| ==> s[i] <= s[j]
  }

  function Insert(x: int, sorted: seq<int>): (r: seq<int>)
    ensures |r| == |sorted| + 1 && multiset(r) == multiset(sorted) + multiset{x}
    ensures Ascending(sorted) ==> Ascending(r)
  {
    if sorted == [] then [x]
    else if x <= sorted[0] then [x] + sorted
    else
      var r := [sorted[0]] + Insert(x, sorted[1..]);
      InsertKeeps(x, sorted, Insert(x, sorted[1..]));
      r
  }

  lemma InsertKeeps(x: int, sorted: seq<int>, rest: seq<int>)
    requires sorted != [] && x > sorted[0]
    requires multiset(rest) == multiset(sorted[1..]) + multiset{x} && (Ascending(sorted[1..]) ==> Ascending(rest))
    ensures multiset([sorted[0]] + rest) == multiset(sorted) + multiset{x}
    ensures Ascending(sorted) ==> Ascending([sorted[0]] + rest)
  {
    assert sorted == [sorted[0]] + sorted[1..];
    if Ascending(sorted) {
      forall i | 0 <= i < |rest| ensures sorted[0] <= rest[i] {
        assert rest[i] in multiset(rest);
        assert rest[i] == x || rest[i] in sorted[1..];
      }
    }
  }

  /** The same times in ascending order. */
  function Sort(s: seq<int>): (r: seq<int>)
    ensures |r| == |s| && Ascending(r) && multiset(r) == multiset(s)
  {
    if s == [] then []
    else
      assert s == [s[0]] + s[1..];
      Insert(s[0], Sort(s[1..]))
  }

  function Median(times: seq<int>): int {
    if times == [] then INT64_MIN else Sort(times)[|times| / 2]
  }

  /** No more than half the times come before the median, and fewer than half after it. */
  lemma MedianIsMiddle(times: seq<int>)
    requires times != []
    ensures Median(times) in times
    ensures exists sorted: seq<int> :: multiset(sorted) == multiset(times) && Ascending(sorted)
                                       && |sorted| == |times| && sorted[|times| / 2] == Median(times)
  {
    var sorted := Sort(times);
    assert sorted[|times| / 2] in multiset(sorted);
  }

  function CountBelow(s: seq<int>, x: int): nat {
    if s == [] then 0 else (if s[0] < x then 1 else 0) + CountBelow(s[1..], x)
  }

  lemma {:induction false} CountInserted(y: int, s: seq<int>, x: int)
    ensures CountBelow(Insert(y, s), x) == CountBelow(s, x) + if y < x then 1 else 0
  {
    if s != [] && y > s[0] {
      CountInserted(y, s[1..], x);
      assert Insert(y, s)[1..] == Insert(y, s[1..]);
    } else {
      assert Insert(y, s)[1..] == s;
    }
  }

  lemma {:induction false} CountSorted(s: seq<int>, x: int)
    ensures CountBelow(Sort(s), x) == CountBelow(s, x)
  {
    if s != [] {
      CountSorted(s[1..], x);
      CountInserted(s[0], Sort(s[1..]), x);
    }
  }

  /** In ascending order the first so many are below, and no others. */
  lemma {:induction false} CountAscending(s: seq<int>, x: int, k: nat)
    requires Ascending(s) && k < |s|
    ensures s[k] < x <==> CountBelow(s, x) > k
  {
    if k > 0 {
      CountAscending(s[1..], x, k - 1);
      assert s[k] == s[1..][k - 1] && s[0] <= s[k];
    }
    if s[0] >= x {
      NoneBelow(s, x);
    }
  }

  lemma {:induction false} NoneBelow(s: seq<int>, x: int)
    requires forall i :: 0 <= i < |s| ==> s[i] >= x
    ensures CountBelow(s, x) == 0
  {
    if s != [] {
      NoneBelow(s[1..], x);
    }
  }

  /** The median is below `x` if and only if more than half the times are. */
  lemma MedianBelow(times: seq<int>, x: int)
    requires times != []
    ensures Median(times) < x <==> CountBelow(times, x) >= |times| / 2 + 1
  {
    CountSorted(times, x);
    CountAscending(Sort(times), x, |times| / 2);
  }

  /** The timestamps of the up-to-`MEDIAN_TIME_SPAN` blocks ending at `h`, newest last. */
  ghost function RecentTimes(t: Tree, root: Hash256, h: Hash256): seq<int>
    requires Linked(t, root) && h in t
  {
    var path := Path(t, root, h);
    var skipped := if |path| > MEDIAN_TIME_SPAN then |path| - MEDIAN_TIME_SPAN else 0;
    TimesFrom(t, path, skipped)
  }

  function TimesFrom(t: Tree, path: seq<Hash256>, skipped: nat): seq<int>
    requires skipped <= |path| && forall i :: 0 <= i < |path| ==> path[i] in t
  {
    seq(|path| - skipped, i requires 0 <= i < |path| - skipped => t[path[skipped + i]].header.timestamp)
  }

  lemma TimesFromEnd(t: Tree, path: seq<Hash256>)
    requires forall i :: 0 <= i < |path| ==> path[i] in t
    ensures TimesFrom(t, path, |path|) == []
  {
  }

  lemma TimesFromStep(t: Tree, path: seq<Hash256>, skipped: nat)
    requires 0 < skipped <= |path| && forall i :: 0 <= i < |path| ==> path[i] in t
    ensures TimesFrom(t, path, skipped - 1) == [t[path[skipped - 1]].header.timestamp] + TimesFrom(t, path, skipped)
  {
  }

  lemma RecentTimesFrame(t: Tree, t': Tree, root: Hash256, h: Hash256)
    requires Linked(t, root) && Linked(t', root) && h in t
    requires forall g :: g in t ==> g in t' && t'[g].parent == t[g].parent && t'[g].header == t[g].header
    ensures RecentTimes(t', root, h) == RecentTimes(t, root, h)
  {
    hide Path;
    PathFrame(t, t', root, h);
    TimesFrame(t, t', Path(t, root, h));
  }

  lemma TimesFrame(t: Tree, t': Tree, path: seq<Hash256>)
    requires forall i :: 0 <= i < |path| ==> path[i] in t && path[i] in t' && t'[path[i]].header == t[path[i]].header
    ensures forall k :: 0 <= k <= |path| ==> TimesFrom(t', path, k) == TimesFrom(t, path, k)
  {
  }

  // --- The contextual rules ---

  function ContextualCheckBlockHeader(header: BlockHeader, prevHash: Hash256, prevHeight: nat,
                                      medianTimePast: int, expectedBits: nat, now: int): Verdict
  {
    if header.prevBlock != prevHash then Rejected(HeaderWrongPrevBlock)
    else if prevHeight == UINT32_LIMIT - 1 || header.height != prevHeight + 1 then Rejected(HeaderWrongHeight)
    else if header.targetBits != expectedBits then Rejected(HeaderUnexpectedTarget)
    else if header.timestamp <= medianTimePast then Rejected(HeaderTimestampTooOld)
    else if !FitsInt64(now + MAX_FUTURE_BLOCK_SECONDS) || header.timestamp > now + MAX_FUTURE_BLOCK_SECONDS
    then Rejected(HeaderTimestampTooFarAhead)
    else Accepted
  }

  /** The verdict on a child of `q` when the clock reads `now`. */
  ghost function ContextVerdict(t: Tree, root: Hash256, header: BlockHeader, q: Hash256, now: int, p: Params): Verdict
    requires Linked(t, root) && q in t
  {
    ContextualCheckBlockHeader(header, q, t[q].height, Median(RecentTimes(t, root, q)),
                               p.expectedBits(t[q].height, t[q].header.timestamp, header.timestamp), now)
  }

  /** How many entries of the path, from position `from` on, are stamped before `stamp`. */
  ghost function Earlier(t: Tree, path: seq<Hash256>, from: nat, stamp: int): nat
    requires forall i :: 0 <= i < |path| ==> path[i] in t
    decreases |path| - from
  {
    if from >= |path| then 0
    else (if t[path[from]].header.timestamp < stamp then 1 else 0) + Earlier(t, path, from + 1, stamp)
  }

  lemma {:induction false} EarlierCounts(t: Tree, path: seq<Hash256>, from: nat, stamp: int)
    requires from <= |path| && forall i :: 0 <= i < |path| ==> path[i] in t
    ensures Earlier(t, path, from, stamp) == CountBelow(TimesFrom(t, path, from), stamp)
    decreases |path| - from
  {
    if from < |path| {
      EarlierCounts(t, path, from + 1, stamp);
      TimesFromStep(t, path, from + 1);
      var times := TimesFrom(t, path, from);
      assert times[0] == t[path[from]].header.timestamp && times[1..] == TimesFrom(t, path, from + 1);
    }
  }

  /** A header in its place with the right bits is too old if and only if it is not stamped after more than
      half of the last eleven headers before it, or of as many as there are. */
  lemma TooOldMeans(t: Tree, root: Hash256, header: BlockHeader, q: Hash256, now: int, p: Params)
    requires Linked(t, root) && q in t && header.prevBlock == q && header.height == t[q].height + 1
    requires t[q].height != UINT32_LIMIT - 1
    requires header.targetBits == p.expectedBits(t[q].height, t[q].header.timestamp, header.timestamp)
    ensures var path := Path(t, root, q);
            var n := if |path| < 11 then |path| else 11;
            ContextVerdict(t, root, header, q, now, p) == Rejected(HeaderTimestampTooOld)
            <==> Earlier(t, path, |path| - n, header.timestamp) < n / 2 + 1
  {
    hide Path, Median, TimesFrom, Earlier;
    var path := Path(t, root, q);
    var n := if |path| < 11 then |path| else 11;
    TimesLength(t, path, |path| - n);
    MedianBelow(TimesFrom(t, path, |path| - n), header.timestamp);
    EarlierCounts(t, path, |path| - n, header.timestamp);
  }

  lemma TimesLength(t: Tree, path: seq<Hash256>, skipped: nat)
    requires skipped <= |path| && forall i :: 0 <= i < |path| ==> path[i] in t
    ensures |TimesFrom(t, path, skipped)| == |path| - skipped
  {
  }

  /** Only the ceiling on the future reads the clock: a header some clock accepted is accepted by every
      clock far enough along. */
  lemma OnlyTheCeilingReadsTheClock(t: Tree, root: Hash256, header: BlockHeader, q: Hash256,
                                    arrival: int, now: int, p: Params)
    requires Linked(t, root) && q in t
    requires ContextVerdict(t, root, header, q, arrival, p).Accepted?
    requires FitsInt64(now + MAX_FUTURE_BLOCK_SECONDS) && header.timestamp <= now + MAX_FUTURE_BLOCK_SECONDS
    ensures ContextVerdict(t, root, header, q, now, p).Accepted?
  {
  }

  datatype IndexError = UnknownPredecessor | PredecessorInvalid | AlreadyRuledOut

  datatype HeaderError = Rule(error: ValidationError) | NotPlaced(reason: IndexError)

  ghost function HeaderVerdict(t: Tree, root: Hash256, header: BlockHeader, now: int, p: Params)
    : Result<Hash256, HeaderError>
    requires Linked(t, root)
  {
    var h, q := p.hash(header), header.prevBlock;
    if h in t then Ok(h)
    else if p.checkHeader(header).Rejected? then Err(Rule(p.checkHeader(header).error))
    else if q !in t then Err(NotPlaced(UnknownPredecessor))
    else if !t[q].IsEligible() then Err(NotPlaced(PredecessorInvalid))
    else
      match ContextVerdict(t, root, header, q, now, p)
      case Rejected(e) => Err(Rule(e))
      case Accepted => Ok(h)
  }

  function NewEntry(t: Tree, header: BlockHeader, sequence: nat, p: Params): Entry
    requires header.prevBlock in t
  {
    Entry(header, header.height, AddWork(t[header.prevBlock].totalWork, p.work(header.targetBits)),
          Some(header.prevBlock), HeaderValid, NotFailed, sequence)
  }

  /** `t` with an accepted header in it. */
  function WithHeader(t: Tree, header: BlockHeader, sequence: nat, p: Params): Tree {
    if header.prevBlock in t then t[p.hash(header) := NewEntry(t, header, sequence, p)] else t
  }

  function GenesisEntry(p: Params): Entry {
    Entry(p.genesis, p.genesis.height, p.work(p.genesis.targetBits), None, FullyValid, NotFailed, 0)
  }

  // --- What every index keeps ---

  /** Sequence numbers are arrival positions. */
  ghost predicate Arrivals(t: Tree, order: seq<Hash256>) {
    && (forall i :: 0 <= i < |order| ==> order[i] in t && t[order[i]].sequence == i)
    && (forall h :: h in t ==> t[h].sequence < |order| && order[t[h].sequence] == h)
  }

  /** Each entry is stored under its header's hash, copies the header's height, and adds its own work
      to its parent's. */
  ghost predicate Derived(t: Tree, root: Hash256, p: Params)
    requires Linked(t, root)
  {
    && t[root].header == p.genesis && t[root].totalWork == p.work(p.genesis.targetBits)
    && (forall h :: h in t ==> p.hash(t[h].header) == h && t[h].header.height == t[h].height)
    && (forall h {:trigger t[h].parent} :: h in t && h != root ==>
          && t[h].parent == Some(t[h].header.prevBlock)
          && t[h].totalWork == AddWork(t[t[h].parent.value].totalWork, p.work(t[h].header.targetBits)))
  }

  ghost predicate JudgedSound(t: Tree, root: Hash256, header: BlockHeader, q: Hash256, p: Params)
    requires Linked(t, root) && q in t
  {
    p.checkHeader(header).Accepted? && exists now :: ContextVerdict(t, root, header, q, now, p).Accepted?
  }

  /** Each header but genesis passed every rule when it arrived. */
  ghost predicate Judged(t: Tree, root: Hash256, p: Params)
    requires Linked(t, root)
  {
    forall h {:trigger t[h].parent} :: h in t && h != root ==>
      JudgedSound(t, root, t[h].header, t[h].parent.value, p)
  }

  ghost predicate IndexInvariant(t: Tree, root: Hash256, order: seq<Hash256>, p: Params) {
    && Linked(t, root)
    && Heights(t, root)
    && Derived(t, root, p)
    && Judged(t, root, p)
    && Arrivals(t, order)
    && FailuresPropagated(t, root)
    && FailuresExplained(t, root)
  }

  /** In every index a header is stamped after more than half of the eleven before it, or of as many as there
      are. */
  lemma NewerThanMost(t: Tree, root: Hash256, order: seq<Hash256>, h: Hash256, p: Params)
    requires IndexInvariant(t, root, order, p) && h in t && h != root
    ensures t[h].parent.Some? && t[h].parent.value in t
    ensures var path := Path(t, root, t[h].parent.value);
            var n := if |path| < 11 then |path| else 11;
            Earlier(t, path, |path| - n, t[h].header.timestamp) >= n / 2 + 1
  {
    hide Path, Heights, Derived, Arrivals, FailuresPropagated, FailuresExplained, Median, RecentTimes, Earlier;
    var header, q := t[h].header, t[h].parent.value;
    var now :| ContextVerdict(t, root, header, q, now, p).Accepted?;
    TooOldMeans(t, root, header, q, now, p);
  }

  /** `t'` holds every entry of `t`, with at most its recorded verdicts changed. */
  ghost predicate Carries(t: Tree, t': Tree) {
    forall g :: g in t ==> g in t' && t'[g] == t[g].(validity := t'[g].validity, failure := t'[g].failure)
  }

  lemma JudgedFrame(t: Tree, t': Tree, root: Hash256, p: Params)
    requires Linked(t, root) && Linked(t', root) && Carries(t, t') && Judged(t, root, p)
    ensures forall g :: g in t && g != root ==> JudgedSound(t', root, t'[g].header, t'[g].parent.value, p)
  {
    forall g | g in t && g != root ensures JudgedSound(t', root, t'[g].header, t'[g].parent.value, p) {
      JudgedSoundFrame(t, t', root, t[g].header, t[g].parent.value, p);
    }
  }

  lemma JudgedSoundFrame(t: Tree, t': Tree, root: Hash256, header: BlockHeader, q: Hash256, p: Params)
    requires Linked(t, root) && Linked(t', root) && q in t && Carries(t, t')
    requires JudgedSound(t, root, header, q, p)
    ensures JudgedSound(t', root, header, q, p)
  {
    var now :| ContextVerdict(t, root, header, q, now, p).Accepted?;
    RecentTimesFrame(t, t', root, q);
    assert ContextVerdict(t', root, header, q, now, p).Accepted?;
  }

  lemma PathsFrame(t: Tree, t': Tree, root: Hash256)
    requires Linked(t, root) && Linked(t', root) && Carries(t, t')
    ensures forall h :: h in t ==> Path(t', root, h) == Path(t, root, h)
  {
    forall h | h in t ensures Path(t', root, h) == Path(t, root, h) {
      PathFrame(t, t', root, h);
    }
  }

  /** Changing recorded verdicts alone disturbs nothing but the two facts about failure. */
  lemma RelabelKeeps(t: Tree, t': Tree, root: Hash256, order: seq<Hash256>, p: Params)
    requires IndexInvariant(t, root, order, p)
    requires Carries(t, t') && t.Keys == t'.Keys
    ensures Linked(t', root)
    ensures FailuresPropagated(t', root) && FailuresExplained(t', root) ==> IndexInvariant(t', root, order, p)
    ensures forall h :: h in t ==> Path(t', root, h) == Path(t, root, h)
  {
    assert Linked(t', root);
    PathsFrame(t, t', root);
    JudgedFrame(t, t', root, p);
    assert Heights(t', root) && Derived(t', root, p) && Arrivals(t', order);
  }

  /** A header that passes keeps the invariant, whatever the tree it enters. */
  lemma AddedKeepsInvariant(t: Tree, root: Hash256, order: seq<Hash256>, header: BlockHeader, now: int, p: Params)
    requires IndexInvariant(t, root, order, p)
    requires p.hash(header) !in t && HeaderVerdict(t, root, header, now, p).Ok?
    ensures IndexInvariant(WithHeader(t, header, |order|, p), root, order + [p.hash(header)], p)
  {
    hide Path, Median, RecentTimes;
    var h, q := p.hash(header), header.prevBlock;
    var t' := t[h := NewEntry(t, header, |order|, p)];
    AddedKeepsShape(t, root, order, header, now, p);
    assert ContextVerdict(t, root, header, q, now, p).Accepted?;
    JudgedSoundFrame(t, t', root, header, q, p);
    JudgedFrame(t, t', root, p);
    AddedKeepsFailures(t, root, order, h, NewEntry(t, header, |order|, p), p);
  }

  lemma AddedKeepsShape(t: Tree, root: Hash256, order: seq<Hash256>, header: BlockHeader, now: int, p: Params)
    requires IndexInvariant(t, root, order, p)
    requires p.hash(header) !in t && HeaderVerdict(t, root, header, now, p).Ok?
    ensures header.prevBlock in t && t[header.prevBlock].IsEligible()
    ensures var h, t' := p.hash(header), t[p.hash(header) := NewEntry(t, header, |order|, p)];
            Linked(t', root) && Heights(t', root) && Derived(t', root, p) && Arrivals(t', order + [h])
  {
    hide Path, Median, RecentTimes, Judged, FailuresExplained, FailuresPropagated, AddWork, Linked, Heights, Arrivals;
    hide Derived;
    AddedLinks(t, root, order, p.hash(header), NewEntry(t, header, |order|, p));
    AddedArrives(t, order, p.hash(header), NewEntry(t, header, |order|, p));
    AddedDerives(t, root, header, |order|, p);
  }

  lemma AddedLinks(t: Tree, root: Hash256, order: seq<Hash256>, h: Hash256, e: Entry)
    requires Linked(t, root) && Heights(t, root) && Arrivals(t, order) && h !in t && e.parent.Some?
    requires e.parent.value in t
    requires e.sequence == |order| && e.height == t[e.parent.value].height + 1
    ensures Linked(t[h := e], root) && Heights(t[h := e], root)
  {
    var t' := t[h := e];
    assert t[e.parent.value].sequence < |order|;
    forall g | g in t' && g != root
      ensures t'[g].parent.Some? && t'[g].parent.value in t' && t'[t'[g].parent.value].sequence < t'[g].sequence
              && t'[g].height == t'[t'[g].parent.value].height + 1
    {
      if g != h {
        assert t[g].parent.Some?;
      }
    }
  }

  lemma AddedArrives(t: Tree, order: seq<Hash256>, h: Hash256, e: Entry)
    requires Arrivals(t, order) && h !in t && e.sequence == |order|
    ensures Arrivals(t[h := e], order + [h])
  {
    var t', order' := t[h := e], order + [h];
    forall g | g in t' ensures t'[g].sequence < |order'| && order'[t'[g].sequence] == g {
      if g != h {
        assert t[g].sequence < |order| && order[t[g].sequence] == g;
      }
    }
    forall i | 0 <= i < |order'| ensures order'[i] in t' && t'[order'[i]].sequence == i {
      if i < |order| {
        assert order'[i] == order[i] && t[order[i]].sequence == i;
      }
    }
  }

  lemma AddedDerives(t: Tree, root: Hash256, header: BlockHeader, sequence: nat, p: Params)
    requires Linked(t, root) && Derived(t, root, p) && p.hash(header) !in t && header.prevBlock in t
    requires Linked(t[p.hash(header) := NewEntry(t, header, sequence, p)], root)
    ensures Derived(t[p.hash(header) := NewEntry(t, header, sequence, p)], root, p)
  {
    hide AddWork;
    var h, t' := p.hash(header), t[p.hash(header) := NewEntry(t, header, sequence, p)];
    forall g | g in t' && g != root
      ensures t'[g].parent == Some(t'[g].header.prevBlock)
              && t'[g].totalWork == AddWork(t'[t'[g].parent.value].totalWork, p.work(t'[g].header.targetBits))
    {
      if g != h {
        assert t[g].parent == Some(t[g].header.prevBlock) && t[g].parent.value in t;
      }
    }
  }

  lemma AddedKeepsFailures(t: Tree, root: Hash256, order: seq<Hash256>, h: Hash256, e: Entry, p: Params)
    requires IndexInvariant(t, root, order, p) && h !in t && Linked(t[h := e], root)
    requires e.IsEligible() && e.parent.Some? && e.parent.value in t && t[e.parent.value].IsEligible()
    ensures FailuresPropagated(t[h := e], root) && FailuresExplained(t[h := e], root)
  {
    FailuresExplainedFrame(t, t[h := e], root);
  }

  lemma FailuresExplainedFrame(t: Tree, t': Tree, root: Hash256)
    requires Linked(t, root) && Linked(t', root) && Carries(t, t') && FailuresExplained(t, root)
    requires forall g :: g in t' ==> if g in t then t'[g].failure == t[g].failure else t'[g].IsEligible()
    ensures FailuresExplained(t', root)
  {
    PathsFrame(t, t', root);
    forall g | g in t' && !t'[g].IsEligible() ensures exists a :: Culprit(t', root, a, g) {
      var a :| Culprit(t, root, a, g);
      assert Culprit(t', root, a, g);
    }
  }

  lemma RuledOutKeepsInvariant(t: Tree, root: Hash256, order: seq<Hash256>, x: Hash256, p: Params)
    requires IndexInvariant(t, root, order, p) && x in t && t[x].IsEligible()
    ensures IndexInvariant(RuledOut(t, root, x), root, order, p)
  {
    RelabelKeeps(t, RuledOut(t, root, x), root, order, p);
    RuledOutPropagates(t, root, x);
    RuledOutExplained(t, root, x);
  }

  /** `t` with one entry's recorded validity raised, never lowered. */
  function Raised(t: Tree, h: Hash256, reached: BlockValidity): Tree {
    if h in t && Level(reached) > Level(t[h].validity) then t[h := t[h].(validity := reached)] else t
  }

  lemma RaisedCarries(t: Tree, x: Hash256, v: BlockValidity)
    ensures Carries(t, Raised(t, x, v)) && t.Keys == Raised(t, x, v).Keys
    ensures forall h :: h in t ==> Raised(t, x, v)[h].failure == t[h].failure
  {
  }

  lemma SameFailuresKeepInvariant(t: Tree, t': Tree, root: Hash256, order: seq<Hash256>, p: Params)
    requires IndexInvariant(t, root, order, p)
    requires Carries(t, t') && t.Keys == t'.Keys && forall h :: h in t ==> t'[h].failure == t[h].failure
    ensures IndexInvariant(t', root, order, p)
    ensures forall h :: h in t ==> Path(t', root, h) == Path(t, root, h)
  {
    hide Path, Heights, Derived, Judged, Arrivals, FailuresExplained;
    RelabelKeeps(t, t', root, order, p);
    FailuresExplainedFrame(t, t', root);
  }

  // --- Children and the best tip ---

  /** The children table holds exactly the parent links, read the other way. */
  ghost predicate ChildrenExact(children: map<Hash256, seq<Hash256>>, t: Tree) {
    forall h, c :: (h in children && c in children[h]) <==> (c in t && t[c].parent == Some(h))
  }

  function WithChild(children: map<Hash256, seq<Hash256>>, q: Hash256, h: Hash256): map<Hash256, seq<Hash256>> {
    children[q := (if q in children then children[q] else []) + [h]]
  }

  lemma WithChildExact(children: map<Hash256, seq<Hash256>>, t: Tree, h: Hash256, e: Entry)
    requires ChildrenExact(children, t) && h !in t && e.parent.Some?
    ensures ChildrenExact(WithChild(children, e.parent.value, h), t[h := e])
  {
    var q := e.parent.value;
    var children', t' := WithChild(children, q, h), t[h := e];
    forall g, c ensures (g in children' && c in children'[g]) <==> (c in t' && t'[c].parent == Some(g)) {
      assert (g in children && c in children[g]) <==> (c in t && t[c].parent == Some(g));
      assert h !in (if g in children then children[g] else []);
    }
  }

  lemma RelabelKeepsChildren(children: map<Hash256, seq<Hash256>>, t: Tree, t': Tree)
    requires ChildrenExact(children, t) && Carries(t, t') && t.Keys == t'.Keys
    ensures ChildrenExact(children, t')
  {
    forall g, c ensures (g in children && c in children[g]) <==> (c in t' && t'[c].parent == Some(g)) {
      assert c in t ==> t'[c].parent == t[c].parent;
    }
  }

  lemma RelabelKeepsBest(t: Tree, t': Tree, best: Option<Hash256>)
    requires IsBest(t, best) && Carries(t, t') && t.Keys == t'.Keys
    requires forall g :: g in t ==> t'[g].failure == t[g].failure
    ensures IsBest(t', best)
  {
  }

  /** Adding an entry can only raise the best tip, and one comparison decides it. */
  lemma BestAfterAdding(t: Tree, best: Option<Hash256>, h: Hash256, e: Entry)
    requires IsBest(t, best) && h !in t && e.IsEligible()
    requires forall g :: g in t ==> t[g].sequence < e.sequence
    ensures IsBest(t[h := e], BestWith(t, best, h, e))
  {
    BestAfterVisiting(t, best, h, e);
  }

  /** One comparison with the incumbent is enough to take any one more entry into account. */
  lemma BestAfterVisiting(t: Tree, best: Option<Hash256>, h: Hash256, e: Entry)
    requires IsBest(t, best) && h !in t
    requires forall g :: g in t ==> t[g].sequence != e.sequence
    ensures IsBest(t[h := e], if e.IsEligible() then BestWith(t, best, h, e) else best)
  {
  }

  // --- The whole index ---

  /** Everything an index keeps, over every run of its operations. */
  ghost predicate ValidIndex(t: Tree, order: seq<Hash256>, children: map<Hash256, seq<Hash256>>,
                             best: Option<Hash256>, p: Params)
  {
    && IndexInvariant(t, p.hash(p.genesis), order, p)
    && ChildrenExact(children, t)
    && IsBest(t, best)
  }

  function BestWith(t: Tree, best: Option<Hash256>, h: Hash256, e: Entry): Option<Hash256>
    requires best.Some? ==> best.value in t
  {
    if best == None || IsBetterTip(e, t[best.value]) then Some(h) else best
  }

  lemma AddedKeepsIndex(t: Tree, order: seq<Hash256>, children: map<Hash256, seq<Hash256>>,
                        best: Option<Hash256>, header: BlockHeader, now: int, p: Params)
    requires ValidIndex(t, order, children, best, p)
    requires p.hash(header) !in t && HeaderVerdict(t, p.hash(p.genesis), header, now, p).Ok?
    ensures var h, e := p.hash(header), NewEntry(t, header, |order|, p);
            ValidIndex(WithHeader(t, header, |order|, p), order + [h],
                       WithChild(children, header.prevBlock, h), BestWith(t, best, h, e), p)
  {
    var h, e := p.hash(header), NewEntry(t, header, |order|, p);
    AddedKeepsInvariant(t, p.hash(p.genesis), order, header, now, p);
    WithChildExact(children, t, h, e);
    BestAfterAdding(t, best, h, e);
  }

  lemma RaisedKeepsIndex(t: Tree, order: seq<Hash256>, children: map<Hash256, seq<Hash256>>,
                         best: Option<Hash256>, h: Hash256, reached: BlockValidity, p: Params)
    requires ValidIndex(t, order, children, best, p)
    ensures ValidIndex(Raised(t, h, reached), order, children, best, p)
  {
    hide IndexInvariant, ChildrenExact, IsBest, Raised, Carries, Path;
    RaisedCarries(t, h, reached);
    SameFailuresKeepInvariant(t, Raised(t, h, reached), p.hash(p.genesis), order, p);
    RelabelKeepsChildren(children, t, Raised(t, h, reached));
    RelabelKeepsBest(t, Raised(t, h, reached), best);
  }

  lemma RuledOutKeepsIndex(t: Tree, order: seq<Hash256>, children: map<Hash256, seq<Hash256>>,
                           best: Option<Hash256>, best': Option<Hash256>, x: Hash256, t': Tree, p: Params)
    requires ValidIndex(t, order, children, best, p) && x in t && t[x].IsEligible()
    requires t' == RuledOut(t, p.hash(p.genesis), x) && IsBest(t', best')
    ensures ValidIndex(t', order, children, best', p)
  {
    hide ChildrenExact, IsBest, Path, Carries, Mark, StillEligibleBelow;
    var root := p.hash(p.genesis);
    RuledOutKeepsInvariant(t, root, order, x, p);
    MarkCarries(t, StillEligibleBelow(t, root, x), x);
    RelabelKeepsChildren(children, t, t');
  }

  lemma MarkCarries(t: Tree, marked: set<Hash256>, x: Hash256)
    ensures Carries(t, Mark(t, marked, x)) && t.Keys == Mark(t, marked, x).Keys
  {
  }

  /** Ruling out `x` costs exactly the entries with `x` on their path their eligibility. */
  lemma RuledOutMeans(t: Tree, root: Hash256, x: Hash256)
    requires Linked(t, root)
    ensures var t' := RuledOut(t, root, x);
            && Carries(t, t') && t'.Keys == t.Keys && Linked(t', root)
            && (forall h :: h in t ==> t'[h].validity == t[h].validity)
            && (forall h :: h in t ==> Path(t', root, h) == Path(t, root, h))
            && forall h :: h in t ==> (!t'[h].IsEligible() <==> !t[h].IsEligible() || x in Path(t, root, h))
  {
    hide Path;
    MarkKeepsShape(t, root, StillEligibleBelow(t, root, x), x);
    MarkCarries(t, StillEligibleBelow(t, root, x), x);
  }

  lemma UniqueAfterRuling(t: Tree, order: seq<Hash256>, children: map<Hash256, seq<Hash256>>,
                          best: Option<Hash256>, x: Hash256, p: Params)
    requires ValidIndex(t, order, children, best, p)
    ensures UniqueSequences(RuledOut(t, p.hash(p.genesis), x))
  {
    MarkKeepsShape(t, p.hash(p.genesis), StillEligibleBelow(t, p.hash(p.genesis), x), x);
  }

  /** Marking only removes candidates, so an incumbent that is still eligible is still best. */
  lemma BestSurvivesMarking(t: Tree, best: Option<Hash256>, marked: set<Hash256>, x: Hash256)
    requires IsBest(t, best)
    requires best.Some? ==> Mark(t, marked, x)[best.value].IsEligible()
    ensures IsBest(Mark(t, marked, x), best)
  {
  }
}
