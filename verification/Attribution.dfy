/**
 Host output is attributed after the run to the tests whose half-open execution windows contain it,
 and merged by time into their own captured output.
 */
module Attribution {
  import opened Multisets
  import opened Outcomes

  datatype Captured =
    | Stdout(timestamp: nat, line: string)
    | Stderr(timestamp: nat, line: string)
    | Host(timestamp: nat, line: string)

  datatype TestResult = TestResult(outcome: string, captured: seq<Captured>)

  datatype LogRecord = LogRecord(elapsed: nat, line: string)

  datatype Window = Window(start: nat, end: nat)

  predicate Contains(w: Window, t: nat) {
    t >= w.start && t < w.end
  }

  // ---------- The stable sort of captured output ----------

  /** Puts `c` before everything that is not earlier. */
  function Insert(c: Captured, s: seq<Captured>): seq<Captured> {
    if s == [] || c.timestamp <= s[0].timestamp then [c] + s else [s[0]] + Insert(c, s[1..])
  }

  function StableSort(s: seq<Captured>): seq<Captured> {
    if s == [] then [] else Insert(s[0], StableSort(s[1..]))
  }

  ghost predicate InOrder(s: seq<Captured>) {
    forall i, j :: 0 <= i <= j < |s| ==> s[i].timestamp <= s[j].timestamp
  }

  /** The lines captured at time `t`, in their order. */
  function AtTime(s: seq<Captured>, t: nat): seq<Captured> {
    if s == [] then [] else (if s[0].timestamp == t then [s[0]] else []) + AtTime(s[1..], t)
  }

  lemma {:induction false} InsertKeepsOrder(c: Captured, s: seq<Captured>)
    requires InOrder(s)
    ensures InOrder(Insert(c, s)) && |Insert(c, s)| == |s| + 1
    ensures Insert(c, s)[0].timestamp ==
            if s == [] || c.timestamp <= s[0].timestamp then c.timestamp else s[0].timestamp
  {
    if s != [] && c.timestamp > s[0].timestamp {
      var rest := Insert(c, s[1..]);
      InsertKeepsOrder(c, s[1..]);
      assert |s| > 1 ==> s[0].timestamp <= s[1].timestamp && s[1] == s[1..][0];
      var r := Insert(c, s);
      assert r == [s[0]] + rest && s[0].timestamp <= rest[0].timestamp;
      forall i, j | 0 <= i <= j < |r| ensures r[i].timestamp <= r[j].timestamp {
        assert j > 0 ==> rest[0].timestamp <= rest[j - 1].timestamp;
      }
    }
  }

  lemma {:induction false} NothingEarlier(s: seq<Captured>, t: nat)
    requires InOrder(s) && (s != [] ==> t < s[0].timestamp)
    ensures AtTime(s, t) == []
  {
    if s != [] {
      assert |s| > 1 ==> s[0].timestamp <= s[1].timestamp && s[1] == s[1..][0];
      NothingEarlier(s[1..], t);
    }
  }

  lemma {:induction false} AtTimeOf(c: Captured, s: seq<Captured>, t: nat)
    ensures AtTime([c] + s, t) == if c.timestamp == t then [c] + AtTime(s, t) else AtTime(s, t)
  {
    assert ([c] + s)[1..] == s;
  }

  lemma {:induction false} InsertGoesFirst(c: Captured, s: seq<Captured>, t: nat)
    ensures AtTime(Insert(c, s), t) == if c.timestamp == t then [c] + AtTime(s, t) else AtTime(s, t)
  {
    hide AtTime;
    if s == [] || c.timestamp <= s[0].timestamp {
      AtTimeOf(c, s, t);
    } else {
      InsertGoesFirst(c, s[1..], t);
      AtTimeOf(s[0], Insert(c, s[1..]), t);
      AtTimeOf(s[0], s[1..], t);
      assert s == [s[0]] + s[1..];
    }
  }

  /** Sorted by time, and at each time the same lines in the same order as before. */
  lemma {:induction false} StableSortSorts(s: seq<Captured>, t: nat)
    ensures InOrder(StableSort(s)) && |StableSort(s)| == |s|
    ensures AtTime(StableSort(s), t) == AtTime(s, t)
  {
    if s != [] {
      StableSortSorts(s[1..], t);
      InsertKeepsOrder(s[0], StableSort(s[1..]));
      InsertGoesFirst(s[0], StableSort(s[1..]), t);
    }
  }

  lemma {:induction false} InsertKeepsLines(c: Captured, s: seq<Captured>)
    ensures multiset(Insert(c, s)) == multiset(s) + multiset{c}
  {
    if s != [] && c.timestamp > s[0].timestamp {
      InsertKeepsLines(c, s[1..]);
      assert s == [s[0]] + s[1..];
    }
  }

  lemma {:induction false} StableSortKeepsLines(s: seq<Captured>)
    ensures multiset(StableSort(s)) == multiset(s)
  {
    if s != [] {
      StableSortKeepsLines(s[1..]);
      InsertKeepsLines(s[0], StableSort(s[1..]));
      assert s == [s[0]] + s[1..];
    }
  }

  lemma {:induction false} FirstIsAtItsTime(s: seq<Captured>)
    requires s != []
    ensures AtTime(s, s[0].timestamp) != [] && AtTime(s, s[0].timestamp)[0] == s[0]
  {
  }

  lemma {:induction false} TimesOccur(s: seq<Captured>, t: nat)
    requires AtTime(s, t) != [] && InOrder(s)
    ensures s[0].timestamp <= t
  {
    if t < s[0].timestamp {
      NothingEarlier(s, t);
    }
  }

  lemma {:induction false} NeitherIsEmptyAlone(a: seq<Captured>, b: seq<Captured>)
    requires a != [] && forall t: nat :: AtTime(a, t) == AtTime(b, t)
    ensures b != []
  {
    FirstIsAtItsTime(a);
    assert AtTime(b, a[0].timestamp) != [];
  }

  /** These two properties leave no other outcome: whatever has them is the stable sort. */
  lemma {:induction false} OnlyOneStableOrder(a: seq<Captured>, b: seq<Captured>)
    requires InOrder(a) && InOrder(b)
    requires forall t: nat :: AtTime(a, t) == AtTime(b, t)
    ensures a == b
    decreases |a| + |b|
  {
    if a != [] {
      NeitherIsEmptyAlone(a, b);
      FirstIsAtItsTime(a);
      FirstIsAtItsTime(b);
      assert AtTime(b, a[0].timestamp) != [] && AtTime(a, b[0].timestamp) != [];
      TimesOccur(b, a[0].timestamp);
      TimesOccur(a, b[0].timestamp);
      assert a[0] == b[0];
      forall t: nat ensures AtTime(a[1..], t) == AtTime(b[1..], t) {
        assert AtTime(a, t) == AtTime(b, t);
        assert AtTime(a[1..], t) == if a[0].timestamp == t then AtTime(a, t)[1..] else AtTime(a, t);
        assert AtTime(b[1..], t) == if b[0].timestamp == t then AtTime(b, t)[1..] else AtTime(b, t);
      }
      OnlyOneStableOrder(a[1..], b[1..]);
      assert a == [a[0]] + a[1..] && b == [b[0]] + b[1..];
    } else if b != [] {
      NeitherIsEmptyAlone(b, a);
    }
  }

  lemma {:induction false} NothingAtAnyTime(t: nat)
    ensures AtTime([], t) == []
  {
  }

  lemma {:induction false} AtTimeConcat(a: seq<Captured>, b: seq<Captured>, t: nat)
    ensures AtTime(a + b, t) == AtTime(a, t) + AtTime(b, t)
  {
    hide AtTime;
    if a == [] {
      assert a + b == b;
      NothingAtAnyTime(t);
    } else {
      AtTimeConcat(a[1..], b, t);
      AtTimeOf(a[0], a[1..], t);
      AtTimeOf(a[0], a[1..] + b, t);
      assert [a[0]] + a[1..] == a && [a[0]] + (a[1..] + b) == a + b;
    }
  }

  // ---------- Attribution ----------

  /** The wall-clock time of a record; one past the end of time counts as the epoch itself. */
  function RecordToCapture(epoch: nat, lastTime: nat, r: LogRecord): Captured {
    Host(if epoch + r.elapsed <= lastTime then epoch + r.elapsed else epoch, r.line)
  }

  function Additions(epoch: nat, lastTime: nat, records: seq<LogRecord>, w: Window): seq<Captured> {
    if records == [] then []
    else
      (if Contains(w, records[0].elapsed) then [RecordToCapture(epoch, lastTime, records[0])] else [])
      + Additions(epoch, lastTime, records[1..], w)
  }

  function Merged(r: TestResult, additions: seq<Captured>): TestResult {
    if additions == [] then r else r.(captured := StableSort(r.captured + additions))
  }

  /** What the windows naming test `i` make of its result, in turn. */
  function Attributed(
        epoch: nat, lastTime: nat, records: seq<LogRecord>, windows: seq<(nat, Window)>, i: nat, r: TestResult):
    TestResult
  {
    if windows == [] then r
    else
      var last := windows[|windows| - 1];
      var before := Attributed(epoch, lastTime, records, windows[..|windows| - 1], i, r);
      if last.0 == i then Merged(before, Additions(epoch, lastTime, records, last.1)) else before
  }

  lemma {:induction false} NoRecordsNoChange(
        epoch: nat, lastTime: nat, windows: seq<(nat, Window)>, i: nat, r: TestResult)
    ensures Attributed(epoch, lastTime, [], windows, i, r) == r
  {
    if windows != [] {
      NoRecordsNoChange(epoch, lastTime, windows[..|windows| - 1], i, r);
    }
  }

  method CollectAdditions(
        epoch: nat, lastTime: nat, records: seq<LogRecord>, w: Window) returns (additions: seq<Captured>)
    ensures additions == Additions(epoch, lastTime, records, w)
  {
    additions := [];
    for k := 0 to |records|
      invariant Additions(epoch, lastTime, records, w) == additions + Additions(epoch, lastTime, records[k..], w)
    {
      assert records[k..][1..] == records[k + 1..];
      if Contains(w, records[k].elapsed) {
        additions := additions + [RecordToCapture(epoch, lastTime, records[k])];
      }
    }
  }

  method AttributeRecordsToTests(epoch: nat, lastTime: nat, records: seq<LogRecord>, windows: seq<(nat, Window)>,
                                 results: array<TestResult>)
    modifies results
    ensures forall i :: 0 <= i < results.Length ==>
              results[i] == Attributed(epoch, lastTime, records, windows, i, old(results[i]))
  {
    hide Additions, StableSort;
    if records == [] || windows == [] {
      forall i | 0 <= i < results.Length
        ensures results[i] == Attributed(epoch, lastTime, records, windows, i, results[i])
      {
        NoRecordsNoChange(epoch, lastTime, windows, i, results[i]);
      }
      return;
    }
    ghost var was := results[..];
    for k := 0 to |windows|
      invariant forall i :: 0 <= i < results.Length ==>
                  results[i] == Attributed(epoch, lastTime, records, windows[..k], i, was[i])
    {
      assert windows[..k + 1][..k] == windows[..k];
      var (testIdx, win) := windows[k];
      var additions := CollectAdditions(epoch, lastTime, records, win);
      if additions == [] || testIdx >= results.Length {
        continue;
      }
      var merged := results[testIdx].captured;
      merged := merged + additions;
      merged := StableSort(merged);
      results[testIdx] := results[testIdx].(captured := merged);
    }
    assert windows[..|windows|] == windows;
  }

  // ---------- Conservation ----------

  /** The window list the runner passes: one window per result, at its index. */
  function Enumerated(windows: seq<Window>): (r: seq<(nat, Window)>)
    ensures |r| == |windows| && forall i :: 0 <= i < |windows| ==> r[i] == (i, windows[i])
  {
    seq(|windows|, i requires 0 <= i < |windows| => (i, windows[i]))
  }

  lemma {:induction false} OneWindowEach(
        epoch: nat, lastTime: nat, records: seq<LogRecord>, windows: seq<Window>, n: nat, i: nat, r: TestResult)
    requires n <= |windows|
    ensures Attributed(epoch, lastTime, records, Enumerated(windows)[..n], i, r)
         == if i < n then Merged(r, Additions(epoch, lastTime, records, windows[i])) else r
    decreases n
  {
    hide Additions, Merged;
    if n > 0 {
      assert Enumerated(windows)[..n][..n - 1] == Enumerated(windows)[..n - 1];
      OneWindowEach(epoch, lastTime, records, windows, n - 1, i, r);
    }
  }

  /** The positions of the records with `start <= elapsed < end`. */
  ghost function InsideAt(records: seq<LogRecord>, w: Window, from: nat): seq<nat>
    requires from <= |records|
    decreases |records| - from
  {
    if from == |records| then []
    else (if w.start <= records[from].elapsed < w.end then [from] else []) + InsideAt(records, w, from + 1)
  }

  lemma {:induction false} InsideAtIs(records: seq<LogRecord>, w: Window, from: nat)
    requires from <= |records|
    ensures var at := InsideAt(records, w, from);
            && (forall k :: 0 <= k < |at| ==> from <= at[k] < |records| && w.start <= records[at[k]].elapsed < w.end)
            && (forall k, m :: 0 <= k < m < |at| ==> at[k] < at[m])
            && (forall i :: from <= i < |records| && w.start <= records[i].elapsed < w.end ==> i in at)
    decreases |records| - from
  {
    if from < |records| {
      InsideAtIs(records, w, from + 1);
    }
  }

  /** A host line with the record's text, at the epoch plus its time; past the end of time, at the epoch. */
  ghost predicate IsHostLine(epoch: nat, lastTime: nat, r: LogRecord, c: Captured) {
    && c.Host? && c.line == r.line
    && (epoch + r.elapsed <= lastTime ==> c.timestamp == epoch + r.elapsed)
    && (epoch + r.elapsed > lastTime ==> c.timestamp == epoch)
  }

  lemma {:induction false} AdditionsFrom(
        epoch: nat, lastTime: nat, records: seq<LogRecord>, w: Window, from: nat)
    requires from <= |records|
    ensures forall k :: 0 <= k < |InsideAt(records, w, from)| ==> InsideAt(records, w, from)[k] < |records|
    ensures var at := InsideAt(records, w, from); var additions := Additions(epoch, lastTime, records[from..], w);
            && |additions| == |at|
            && forall k :: 0 <= k < |at| ==> IsHostLine(epoch, lastTime, records[at[k]], additions[k])
    decreases |records| - from
  {
    hide IsHostLine, RecordToCapture, Contains;
    if from < |records| {
      var first := records[from];
      assert records[from..][0] == first && records[from..][1..] == records[from + 1..];
      AdditionsFrom(epoch, lastTime, records, w, from + 1);
      InsideExactlyIf(epoch, lastTime, first, w);
    }
  }

  /**
   What is added are exactly the records with `start <= elapsed < end`, each of them once and in log
   order, as host lines.
   */
  lemma {:induction false} AdditionsAreTheRecordsInside(
        epoch: nat, lastTime: nat, records: seq<LogRecord>, w: Window) returns (at: seq<nat>)
    ensures forall k :: 0 <= k < |at| ==> at[k] < |records| && w.start <= records[at[k]].elapsed < w.end
    ensures forall k, m :: 0 <= k < m < |at| ==> at[k] < at[m]
    ensures forall i :: 0 <= i < |records| && w.start <= records[i].elapsed < w.end ==> i in at
    ensures var additions := Additions(epoch, lastTime, records, w);
            && |additions| == |at|
            && forall k :: 0 <= k < |at| ==> IsHostLine(epoch, lastTime, records[at[k]], additions[k])
  {
    hide IsHostLine, Additions, InsideAt;
    at := InsideAt(records, w, 0);
    InsideAtIs(records, w, 0);
    AdditionsFrom(epoch, lastTime, records, w, 0);
    assert records[0..] == records;
  }

  lemma {:induction false} InsideExactlyIf(epoch: nat, lastTime: nat, r: LogRecord, w: Window)
    ensures Contains(w, r.elapsed) <==> w.start <= r.elapsed < w.end
    ensures IsHostLine(epoch, lastTime, r, RecordToCapture(epoch, lastTime, r))
  {
  }

  /**
   Each test ends with its own lines plus exactly the records inside its window. A test without such
   records is untouched; otherwise its output is sorted by time, and among lines of one time its own
   come first, each group in its previous order.
   */
  lemma {:induction false} AttributionConserves(
        epoch: nat, lastTime: nat, records: seq<LogRecord>, windows: seq<Window>, i: nat, r: TestResult, t: nat)
    requires i < |windows|
    ensures var r' := Attributed(epoch, lastTime, records, Enumerated(windows), i, r);
            var additions := Additions(epoch, lastTime, records, windows[i]);
            && r'.outcome == r.outcome
            && (additions == [] ==> r' == r)
            && multiset(r'.captured) == multiset(r.captured) + multiset(additions)
            && AtTime(r'.captured, t) == AtTime(r.captured, t) + AtTime(additions, t)
            && (additions != [] ==> InOrder(r'.captured))
  {
    var additions := Additions(epoch, lastTime, records, windows[i]);
    OneWindowEach(epoch, lastTime, records, windows, |windows|, i, r);
    assert Enumerated(windows)[..|windows|] == Enumerated(windows);
    StableSortSorts(r.captured + additions, t);
    StableSortKeepsLines(r.captured + additions);
    AtTimeConcat(r.captured, additions, t);
  }

  // ---------- Results and windows stay aligned ----------

  datatype Job = Job(test: string, result: TestResult, window: Window)

  datatype Phase = Idle | Finished(job: Job) | HasResults(job: Job) | HasBoth(job: Job) | Half(job: Job)
                  | Full(job: Job) | Releasing

  /** The two shared vectors of the async runner, each behind its own lock, and the order of the pushes. */
  datatype Shared = Shared(results: seq<(string, TestResult)>, windows: seq<Window>, pushed: seq<Job>,
                           resultsLock: Option<nat>, windowsLock: Option<nat>, threads: seq<Phase>)

  datatype Action = Finish(thread: nat, job: Job) | LockResults(thread: nat) | LockWindows(thread: nat)
                  | PushResult(thread: nat) | PushWindow(thread: nat) | UnlockWindows(thread: nat)
                  | UnlockResults(thread: nat)

  function Go(s: Shared, k: nat, p: Phase): Shared
    requires k < |s.threads|
  {
    s.(threads := s.threads[k := p])
  }

  function Step(s: Shared, a: Action): Option<Shared> {
    var k := a.thread;
    if k >= |s.threads| then None
    else
      match (a, s.threads[k])
      case (Finish(_, job), Idle) => Some(Go(s, k, Finished(job)))
      case (LockResults(_), Finished(job)) =>
        if s.resultsLock.Some? then None else Some(Go(s, k, HasResults(job)).(resultsLock := Some(k)))
      case (LockWindows(_), HasResults(job)) =>
        if s.windowsLock.Some? then None else Some(Go(s, k, HasBoth(job)).(windowsLock := Some(k)))
      case (PushResult(_), HasBoth(job)) =>
        Some(Go(s, k, Half(job)).(results := s.results + [(job.test, job.result)], pushed := s.pushed + [job]))
      case (PushWindow(_), Half(job)) => Some(Go(s, k, Full(job)).(windows := s.windows + [job.window]))
      case (UnlockWindows(_), Full(_)) => Some(Go(s, k, Releasing).(windowsLock := None))
      case (UnlockResults(_), Releasing) => Some(Go(s, k, Idle).(resultsLock := None))
      case _ => None
  }

  ghost predicate Next(s: Shared, s': Shared) {
    exists a :: Step(s, a) == Some(s')
  }

  ghost predicate IsRun(threads: nat, run: seq<Shared>) {
    && run != [] && run[0] == Shared([], [], [], None, None, seq(threads, _ => Idle))
    && forall i :: 0 < i < |run| ==> Next(run[i - 1], run[i])
  }

  ghost predicate HoldsResults(p: Phase) {
    p.HasResults? || p.HasBoth? || p.Half? || p.Full? || p.Releasing?
  }

  ghost predicate HoldsWindows(p: Phase) {
    p.HasBoth? || p.Half? || p.Full?
  }

  ghost predicate Exclusive(s: Shared) {
    && (s.resultsLock.Some? ==> s.resultsLock.value < |s.threads|)
    && (s.windowsLock.Some? ==> s.windowsLock.value < |s.threads|)
    && forall k :: 0 <= k < |s.threads| ==>
         && (HoldsResults(s.threads[k]) <==> s.resultsLock == Some(k))
         && (HoldsWindows(s.threads[k]) <==> s.windowsLock == Some(k))
  }

  /** Somebody has pushed its result and not yet its window. */
  ghost predicate MidPush(s: Shared) {
    && s.resultsLock.Some? && s.resultsLock.value < |s.threads| && s.threads[s.resultsLock.value].Half?
    && s.pushed != [] && s.pushed[|s.pushed| - 1] == s.threads[s.resultsLock.value].job
  }

  ghost predicate Aligned(s: Shared) {
    && |s.results| == |s.pushed|
    && |s.windows| == (if MidPush(s) then |s.pushed| - 1 else |s.pushed|)
    && (forall i :: 0 <= i < |s.results| ==> s.results[i] == (s.pushed[i].test, s.pushed[i].result))
    && (forall i :: 0 <= i < |s.windows| ==> s.windows[i] == s.pushed[i].window)
    && (forall k :: 0 <= k < |s.threads| && s.threads[k].Half? ==> MidPush(s))
  }

  lemma {:induction false} StepKeepsExclusive(s: Shared, a: Action)
    requires Exclusive(s) && Step(s, a).Some?
    ensures Exclusive(Step(s, a).value)
  {
  }

  lemma {:induction false} StepKeepsAligned(s: Shared, a: Action)
    requires Exclusive(s) && Aligned(s) && Step(s, a).Some?
    ensures Aligned(Step(s, a).value)
  {
  }

  /**
   In every interleaving of the runner threads the two vectors hold the pushed jobs in one common
   order, except that the thread holding both locks may be between its two pushes.
   */
  lemma {:induction false} VectorsStayAligned(threads: nat, run: seq<Shared>)
    requires IsRun(threads, run)
    ensures var s := run[|run| - 1];
            && Exclusive(s) && Aligned(s)
            && (s.resultsLock.None? || s.windowsLock.None? ==> |s.results| == |s.windows|)
  {
    for i := 1 to |run|
      invariant Exclusive(run[i - 1]) && Aligned(run[i - 1])
    {
      assert Next(run[i - 1], run[i]);
      var a :| Step(run[i - 1], a) == Some(run[i]);
      StepKeepsExclusive(run[i - 1], a);
      StepKeepsAligned(run[i - 1], a);
    }
  }

  /** The job a thread has finished and not yet pushed. */
  ghost function Carried(p: Phase): multiset<Job> {
    match p
    case Finished(job) => multiset{job}
    case HasResults(job) => multiset{job}
    case HasBoth(job) => multiset{job}
    case _ => multiset{}
  }

  ghost function AllCarried(threads: seq<Phase>): multiset<Job> {
    if threads == [] then multiset{} else AllCarried(threads[..|threads| - 1]) + Carried(threads[|threads| - 1])
  }

  lemma {:induction false} CarriedUpdate(threads: seq<Phase>, k: nat, p: Phase)
    requires k < |threads|
    ensures AllCarried(threads[k := p]) + Carried(threads[k]) == AllCarried(threads) + Carried(p)
  {
    hide Carried;
    var last := |threads| - 1;
    var updated := threads[k := p];
    assert |updated| == |threads|;
    if k < last {
      CarriedUpdate(threads[..last], k, p);
      assert updated[..last] == threads[..last][k := p] && updated[last] == threads[last];
      assert threads[..last][k] == threads[k];
      ExchangeBeside(AllCarried(updated[..last]), Carried(threads[k]), AllCarried(threads[..last]), Carried(p),
                     Carried(threads[last]));
    } else {
      assert updated[..last] == threads[..last];
    }
  }

  lemma {:induction false} NothingCarried(threads: seq<Phase>)
    requires forall k :: 0 <= k < |threads| ==> threads[k].Idle?
    ensures AllCarried(threads) == multiset{}
  {
    if threads != [] {
      NothingCarried(threads[..|threads| - 1]);
    }
  }

  /** The jobs that the threads have finished, in the order of the steps. */
  ghost function FinishedBy(actions: seq<Action>): seq<Job> {
    if actions == [] then []
    else
      var last := actions[|actions| - 1];
      FinishedBy(actions[..|actions| - 1]) + if last.Finish? then [last.job] else []
  }

  ghost predicate IsTrace(threads: nat, run: seq<Shared>, actions: seq<Action>) {
    && |run| == |actions| + 1 && run[0] == Shared([], [], [], None, None, seq(threads, _ => Idle))
    && forall i :: 0 <= i < |actions| ==> Step(run[i], actions[i]) == Some(run[i + 1])
  }

  lemma {:induction false} MoverKeepsItsJob(s: Shared, a: Action) returns (now: seq<Job>)
    requires Step(s, a).Some?
    ensures var s', k := Step(s, a).value, a.thread;
            && k < |s.threads| && |s'.threads| == |s.threads| && s'.threads == s.threads[k := s'.threads[k]]
            && s'.pushed == s.pushed + now
            && multiset(now) + Carried(s'.threads[k]) ==
               (if a.Finish? then multiset{a.job} else multiset{}) + Carried(s.threads[k])
  {
    now := if a.PushResult? then [s.threads[a.thread].job] else [];
    assert s.pushed + [] == s.pushed;
  }

  lemma {:induction false} StepKeepsJobs(s: Shared, a: Action)
    requires Step(s, a).Some?
    ensures var s' := Step(s, a).value;
            multiset(s'.pushed) + AllCarried(s'.threads) ==
            multiset(s.pushed) + AllCarried(s.threads) + if a.Finish? then multiset{a.job} else multiset{}
  {
    hide AllCarried, Carried, Step;
    var now := MoverKeepsItsJob(s, a);
    var s' := Step(s, a).value;
    var p, p' := Carried(s.threads[a.thread]), Carried(s'.threads[a.thread]);
    CarriedUpdate(s.threads, a.thread, s'.threads[a.thread]);
    var f := if a.Finish? then multiset{a.job} else multiset{};
    ExchangeBeside(multiset(now), p', f, p, multiset(s.pushed));
    assert multiset(s'.pushed) == multiset(now) + multiset(s.pushed);
    assert f + multiset(s.pushed) == multiset(s.pushed) + f;
    Cancelled(AllCarried(s'.threads), p, AllCarried(s.threads), p', multiset(s.pushed), multiset(s'.pushed), f);
  }

  /**
   No job is lost or pushed twice: at all times those pushed, in the common order of both vectors, and
   those their threads still carry are the finished ones.
   */
  lemma {:induction false} EveryFinishedJobIsPushedOnce(threads: nat, run: seq<Shared>, actions: seq<Action>)
    requires IsTrace(threads, run, actions)
    ensures var s := run[|run| - 1]; multiset(s.pushed) + AllCarried(s.threads) == multiset(FinishedBy(actions))
  {
    hide Step, AllCarried;
    NothingCarried(run[0].threads);
    for n := 0 to |actions|
      invariant multiset(run[n].pushed) + AllCarried(run[n].threads) == multiset(FinishedBy(actions[..n]))
    {
      assert Step(run[n], actions[n]) == Some(run[n + 1]);
      StepKeepsJobs(run[n], actions[n]);
      assert actions[..n + 1][..n] == actions[..n];
    }
    assert actions[..|actions|] == actions;
  }

  /** Both locks are always taken in the same order, so the threads never wait for each other in a circle. */
  lemma {:induction false} PushingNeverBlocks(s: Shared, k: nat) returns (a: Action)
    requires Exclusive(s) && k < |s.threads| && !s.threads[k].Idle?
    ensures Step(s, a).Some? && !a.Finish?
  {
    var d: nat := if s.resultsLock.Some? then s.resultsLock.value else k;
    match s.threads[d]
    case HasResults(_) => a := LockWindows(d);
    case HasBoth(_) => a := PushResult(d);
    case Half(_) => a := PushWindow(d);
    case Full(_) => a := UnlockWindows(d);
    case Releasing => a := UnlockResults(d);
    case _ => a := LockResults(d);
  }
}
