/**
 N parent threads pick tests from one shared execution. Every worker process holds its own copy
 of the same plan and finds the test it is asked to run by scanning forwards and discarding
 whatever does not match. Nothing discarded is ever looked at again, so a worker can serve its
 requests only if they arrive in scan order.

 They do, in every interleaving, exactly when no sequential suite can be left half way and come
 back to by a thread that has moved past it.
 */
module Scheduler {
  import opened Outcomes
  import opened Suites

  /**
   Positions refer to the plan. `queue` holds what is still to be picked, `running[t]` the test
   thread `t` has picked and not finished, `picks[t]` everything thread `t` has picked, in order.
   */
  datatype Sched = Sched(queue: seq<nat>, running: seq<Option<nat>>, picks: seq<seq<nat>>)

  ghost predicate Within(plan: seq<Entry>, queue: seq<nat>) {
    forall i :: 0 <= i < |queue| ==> queue[i] < |plan|
  }

  ghost function At(plan: seq<Entry>, queue: seq<nat>): (r: seq<Entry>)
    requires Within(plan, queue)
    ensures |r| == |queue| && forall i :: 0 <= i < |r| ==> r[i] == plan[queue[i]]
  {
    seq(|queue|, i requires 0 <= i < |queue| => plan[queue[i]])
  }

  ghost predicate Shaped(plan: seq<Entry>, n: nat, s: Sched) {
    && |s.running| == |s.picks| == n
    && Within(plan, s.queue)
    && (forall t :: 0 <= t < n && s.running[t].Some? ==> s.running[t].value < |plan|)
    && (forall t :: 0 <= t < n ==> Within(plan, s.picks[t]))
  }

  ghost function Held(plan: seq<Entry>, running: seq<Option<nat>>): set<nat>
    requires forall t :: 0 <= t < |running| && running[t].Some? ==> running[t].value < |plan|
  {
    set t | 0 <= t < |running| && running[t].Some? && plan[running[t].value].lock.Some?
      :: plan[running[t].value].lock.value
  }

  function Range(a: nat, b: nat): (r: seq<nat>)
    ensures |r| == if a <= b then b - a else 0
    ensures forall i :: 0 <= i < |r| ==> r[i] == a + i
  {
    if a <= b then seq(b - a, i requires 0 <= i < b - a => a + i) else []
  }

  ghost function Start(plan: seq<Entry>, n: nat): Sched {
    Sched(Range(0, |plan|), seq(n, _ => None), seq(n, _ => []))
  }

  /** `pick_next` by thread `t`, taking the queue element at `k`. */
  ghost predicate PickStep(plan: seq<Entry>, n: nat, s: Sched, s': Sched, t: nat) {
    && t < n && Shaped(plan, n, s) && s.running[t].None?
    && var k := FirstFree(At(plan, s.queue), Held(plan, s.running));
       && k < |s.queue|
       && s' == Sched(Without(s.queue, k),
                      s.running[t := Some(s.queue[k])],
                      s.picks[t := s.picks[t] + [s.queue[k]]])
  }

  /** The picked test is over; dropping it releases its lock. */
  ghost predicate FinishStep(plan: seq<Entry>, n: nat, s: Sched, s': Sched, t: nat) {
    t < n && Shaped(plan, n, s) && s.running[t].Some? && s' == s.(running := s.running[t := None])
  }

  ghost predicate Next(plan: seq<Entry>, n: nat, s: Sched, s': Sched) {
    exists t :: PickStep(plan, n, s, s', t) || FinishStep(plan, n, s, s', t)
  }

  ghost predicate IsRun(plan: seq<Entry>, n: nat, run: seq<Sched>) {
    && run != [] && run[0] == Start(plan, n)
    && forall i :: 0 < i < |run| ==> Next(plan, n, run[i - 1], run[i])
  }

  ghost predicate Reachable(plan: seq<Entry>, n: nat, s: Sched) {
    exists run :: IsRun(plan, n, run) && run[|run| - 1] == s
  }

  lemma {:induction false} StartIsReachable(plan: seq<Entry>, n: nat)
    ensures Reachable(plan, n, Start(plan, n))
  {
    assert IsRun(plan, n, [Start(plan, n)]);
  }

  lemma {:induction false} StepIsReachable(plan: seq<Entry>, n: nat, s: Sched, s': Sched)
    requires Reachable(plan, n, s) && Next(plan, n, s, s')
    ensures Reachable(plan, n, s')
  {
    var run :| IsRun(plan, n, run) && run[|run| - 1] == s;
    assert IsRun(plan, n, run + [s']);
  }

  // ---------- What every run keeps ----------

  ghost function Flat<T>(lists: seq<seq<T>>): seq<T> {
    if lists == [] then [] else lists[0] + Flat(lists[1..])
  }

  lemma {:induction false} FlatAppend<T>(lists: seq<seq<T>>, t: nat, x: T)
    requires t < |lists|
    ensures multiset(Flat(lists[t := lists[t] + [x]])) == multiset(Flat(lists)) + multiset{x}
  {
    var lists' := lists[t := lists[t] + [x]];
    if t == 0 {
      assert lists'[1..] == lists[1..];
    } else {
      assert lists'[1..] == lists[1..][t - 1 := lists[1..][t - 1] + [x]];
      FlatAppend(lists[1..], t - 1, x);
    }
  }

  lemma {:induction false} FlatOfEmpties<T>(lists: seq<seq<T>>)
    requires forall i :: 0 <= i < |lists| ==> lists[i] == []
    ensures Flat(lists) == []
  {
    if lists != [] {
      FlatOfEmpties(lists[1..]);
    }
  }

  ghost predicate Increasing(s: seq<nat>) {
    forall i, j :: 0 <= i < j < |s| ==> s[i] < s[j]
  }

  /** Every test of the plan is either still queued or picked, once, by one thread. */
  ghost predicate Conserved(plan: seq<Entry>, s: Sched) {
    multiset(s.queue) + multiset(Flat(s.picks)) == multiset(Range(0, |plan|))
  }

  /** Two tests that share a sequential lock are never running at the same time. */
  ghost predicate Exclusive(plan: seq<Entry>, n: nat, s: Sched)
    requires Shaped(plan, n, s)
  {
    forall t, u :: 0 <= t < n && 0 <= u < n && t != u && s.running[t].Some? && s.running[u].Some?
      && plan[s.running[t].value].lock.Some?
      ==> plan[s.running[t].value].lock != plan[s.running[u].value].lock
  }

  /** Within one sequential suite tests are picked in scan order. */
  ghost predicate SuiteOrdered(plan: seq<Entry>, n: nat, s: Sched)
    requires Shaped(plan, n, s)
  {
    forall t, i, j :: 0 <= t < n && 0 <= i < |s.picks[t]| && 0 <= j < |s.queue|
      && plan[s.picks[t][i]].lock.Some? && plan[s.picks[t][i]].lock == plan[s.queue[j]].lock
      ==> s.picks[t][i] < s.queue[j]
  }

  ghost predicate RunningIsLast(n: nat, s: Sched)
    requires |s.running| == |s.picks| == n
  {
    forall t :: 0 <= t < n && s.running[t].Some? ==>
      s.picks[t] != [] && s.picks[t][|s.picks[t]| - 1] == s.running[t].value
  }

  ghost predicate Invariant(plan: seq<Entry>, n: nat, s: Sched) {
    && Shaped(plan, n, s)
    && Increasing(s.queue)
    && Conserved(plan, s)
    && Exclusive(plan, n, s)
    && SuiteOrdered(plan, n, s)
    && RunningIsLast(n, s)
  }

  lemma {:induction false} StartKeepsInvariant(plan: seq<Entry>, n: nat)
    ensures Invariant(plan, n, Start(plan, n))
  {
    FlatOfEmpties(Start(plan, n).picks);
  }

  lemma {:induction false} WithoutIsRemoval<T>(s: seq<T>, k: nat)
    requires k < |s|
    ensures multiset(s) == multiset(Without(s, k)) + multiset{s[k]}
  {
    assert s == s[..k] + [s[k]] + s[k + 1..];
  }

  lemma {:induction false} HeldBy(plan: seq<Entry>, running: seq<Option<nat>>, t: nat)
    requires forall u :: 0 <= u < |running| && running[u].Some? ==> running[u].value < |plan|
    requires t < |running| && running[t].Some? && plan[running[t].value].lock.Some?
    ensures plan[running[t].value].lock.value in Held(plan, running)
  {
  }

  lemma {:induction false} PickKeepsConservation(plan: seq<Entry>, n: nat, s: Sched, s': Sched, t: nat)
    requires Conserved(plan, s) && PickStep(plan, n, s, s', t)
    ensures Conserved(plan, s')
  {
    var k := FirstFree(At(plan, s.queue), Held(plan, s.running));
    WithoutIsRemoval(s.queue, k);
    FlatAppend(s.picks, t, s.queue[k]);
  }

  lemma {:induction false} PickKeepsSuiteOrder(
        plan: seq<Entry>, n: nat, s: Sched, s': Sched, t: nat, u: nat, i: nat, j: nat)
    requires Shaped(plan, n, s) && Increasing(s.queue) && SuiteOrdered(plan, n, s) && PickStep(plan, n, s, s', t)
    requires u < n && i < |s'.picks[u]| && j < |s'.queue| && s'.picks[u][i] < |plan| && s'.queue[j] < |plan|
    requires plan[s'.picks[u][i]].lock.Some? && plan[s'.picks[u][i]].lock == plan[s'.queue[j]].lock
    ensures s'.picks[u][i] < s'.queue[j]
  {
    var held := Held(plan, s.running);
    var k := FirstFree(At(plan, s.queue), held);
    var j0 := if j < k then j else j + 1;
    assert s'.queue[j] == s.queue[j0];
    if u == t && i == |s.picks[t]| {
      var es := At(plan, s.queue);
      assert es[j0] == plan[s'.queue[j]] && es[k] == plan[s'.picks[u][i]];
      assert Free(es[j0], held);
    } else {
      assert s'.picks[u][i] == s.picks[u][i];
    }
  }

  lemma {:induction false} PickKeepsShape(plan: seq<Entry>, n: nat, s: Sched, s': Sched, t: nat)
    requires Shaped(plan, n, s) && Increasing(s.queue) && PickStep(plan, n, s, s', t)
    ensures Shaped(plan, n, s') && Increasing(s'.queue)
  {
  }

  lemma {:induction false} PickKeepsOrder(plan: seq<Entry>, n: nat, s: Sched, s': Sched, t: nat)
    requires Shaped(plan, n, s) && Increasing(s.queue) && SuiteOrdered(plan, n, s) && PickStep(plan, n, s, s', t)
    ensures Shaped(plan, n, s') && Increasing(s'.queue) && SuiteOrdered(plan, n, s')
  {
    PickKeepsShape(plan, n, s, s', t);
    forall u, i, j | 0 <= u < n && 0 <= i < |s'.picks[u]| && 0 <= j < |s'.queue|
      && plan[s'.picks[u][i]].lock.Some? && plan[s'.picks[u][i]].lock == plan[s'.queue[j]].lock
      ensures s'.picks[u][i] < s'.queue[j]
    {
      PickKeepsSuiteOrder(plan, n, s, s', t, u, i, j);
    }
  }

  lemma {:induction false} PickKeepsExclusion(plan: seq<Entry>, n: nat, s: Sched, s': Sched, t: nat)
    requires Invariant(plan, n, s) && PickStep(plan, n, s, s', t) && Shaped(plan, n, s')
    ensures Exclusive(plan, n, s') && RunningIsLast(n, s')
  {
    var k := FirstFree(At(plan, s.queue), Held(plan, s.running));
    forall u | 0 <= u < n && u != t && s.running[u].Some? && plan[s.running[u].value].lock.Some?
      ensures plan[s.running[u].value].lock != plan[s.queue[k]].lock
    {
      HeldBy(plan, s.running, u);
      assert Free(At(plan, s.queue)[k], Held(plan, s.running));
    }
  }

  lemma {:induction false} StepKeepsInvariant(plan: seq<Entry>, n: nat, s: Sched, s': Sched)
    requires Invariant(plan, n, s) && Next(plan, n, s, s')
    ensures Invariant(plan, n, s')
  {
    var t :| PickStep(plan, n, s, s', t) || FinishStep(plan, n, s, s', t);
    if PickStep(plan, n, s, s', t) {
      PickKeepsConservation(plan, n, s, s', t);
      PickKeepsOrder(plan, n, s, s', t);
      PickKeepsExclusion(plan, n, s, s', t);
    }
  }

  /**
   In every reachable state each test of the plan is queued or picked exactly once, and tests of
   one sequential suite run one at a time and in scan order.
   */
  lemma {:induction false} EveryRunIsSound(plan: seq<Entry>, n: nat, s: Sched)
    requires Reachable(plan, n, s)
    ensures Invariant(plan, n, s)
  {
    var run :| IsRun(plan, n, run) && run[|run| - 1] == s;
    StartKeepsInvariant(plan, n);
    for i := 1 to |run|
      invariant Invariant(plan, n, run[i - 1])
    {
      StepKeepsInvariant(plan, n, run[i - 1], run[i]);
    }
  }

  // ---------- The worker's scan ----------

  /** Where the scan stops when it looks for `key` from position `from` on. */
  function Scan(plan: seq<Entry>, from: nat, key: TestKey): (k: nat)
    requires from <= |plan|
    ensures from <= k <= |plan|
    ensures k < |plan| ==> plan[k].test.key == key
    ensures forall i :: from <= i < k ==> plan[i].test.key != key
    decreases |plan| - from
  {
    if from == |plan| || plan[from].test.key == key then from else Scan(plan, from + 1, key)
  }

  /** The positions a worker runs for a list of requests, up to the first request it cannot find. */
  function Scanned(plan: seq<Entry>, from: nat, keys: seq<TestKey>): (r: seq<nat>)
    requires from <= |plan|
    ensures |r| <= |keys|
    decreases |keys|
  {
    if keys == [] then []
    else
      var k := Scan(plan, from, keys[0]);
      if k == |plan| then [] else [k] + Scanned(plan, k + 1, keys[1..])
  }

  /** Every request is found before the worker's copy of the plan is exhausted. */
  ghost predicate Served(plan: seq<Entry>, from: nat, keys: seq<TestKey>)
    requires from <= |plan|
  {
    |Scanned(plan, from, keys)| == |keys|
  }

  function KeysAt(plan: seq<Entry>, ps: seq<nat>): (r: seq<TestKey>)
    requires forall i :: 0 <= i < |ps| ==> ps[i] < |plan|
    ensures |r| == |ps| && forall i :: 0 <= i < |r| ==> r[i] == plan[ps[i]].test.key
  {
    seq(|ps|, i requires 0 <= i < |ps| => plan[ps[i]].test.key)
  }

  lemma {:induction false} KeysAtTail(plan: seq<Entry>, ps: seq<nat>)
    requires Within(plan, ps) && ps != []
    ensures Within(plan, ps[1..]) && KeysAt(plan, ps)[1..] == KeysAt(plan, ps[1..])
    ensures KeysAt(plan, ps)[0] == plan[ps[0]].test.key
  {
  }

  /** Requests that come in scan order are always found, even when names repeat. */
  lemma {:induction false} InOrderIsServed(plan: seq<Entry>, from: nat, ps: seq<nat>)
    requires from <= |plan| && Within(plan, ps) && Increasing(ps)
    requires ps != [] ==> from <= ps[0]
    ensures Served(plan, from, KeysAt(plan, ps))
    decreases |ps|
  {
    if ps != [] {
      var k := Scan(plan, from, plan[ps[0]].test.key);
      KeysAtTail(plan, ps);
      InOrderIsServed(plan, k + 1, ps[1..]);
    }
  }

  ghost predicate DistinctKeys(plan: seq<Entry>) {
    forall i, j :: 0 <= i < j < |plan| ==> plan[i].test.key != plan[j].test.key
  }

  lemma {:induction false} FirstServed(plan: seq<Entry>, from: nat, ps: seq<nat>)
    requires from <= |plan| && Within(plan, ps) && DistinctKeys(plan) && ps != []
    requires Served(plan, from, KeysAt(plan, ps))
    ensures from <= ps[0] && Within(plan, ps[1..]) && Served(plan, ps[0] + 1, KeysAt(plan, ps[1..]))
  {
    KeysAtTail(plan, ps);
    var k := Scan(plan, from, plan[ps[0]].test.key);
    assert k == ps[0];
  }

  /** With distinct names, requests that are found must have come in scan order. */
  lemma {:induction false} ServedIsInOrder(plan: seq<Entry>, from: nat, ps: seq<nat>, i: nat, j: nat)
    requires from <= |plan| && Within(plan, ps) && DistinctKeys(plan)
    requires Served(plan, from, KeysAt(plan, ps))
    requires i < j < |ps|
    ensures from <= ps[i] < ps[j]
    decreases |ps|
  {
    hide Served, KeysAt, DistinctKeys;
    FirstServed(plan, from, ps);
    if i > 0 {
      ServedIsInOrder(plan, ps[0] + 1, ps[1..], i - 1, j - 1);
    } else if j > 1 {
      ServedIsInOrder(plan, ps[0] + 1, ps[1..], 0, j - 1);
      FirstServed(plan, ps[0] + 1, ps[1..]);
    } else {
      FirstServed(plan, ps[0] + 1, ps[1..]);
    }
  }

  lemma {:induction false} ScannedEnds(plan: seq<Entry>, cursor: nat, keys: seq<TestKey>)
    requires cursor <= |plan| && (cursor == |plan| || keys == [])
    ensures Scanned(plan, cursor, keys) == []
  {
  }

  lemma {:induction false} ScannedStep(plan: seq<Entry>, cursor: nat, keys: seq<TestKey>)
    requires cursor < |plan| && keys != []
    ensures Scanned(plan, cursor, keys) ==
            if plan[cursor].test.key == keys[0] then [cursor] + Scanned(plan, cursor + 1, keys[1..])
            else Scanned(plan, cursor + 1, keys)
  {
  }

  /**
   The worker process: it waits for a request, then picks and discards tests of its own copy of
   the plan until one matches. `ran` is what it executes. It leaves the loop when its copy is
   exhausted, answered or not, and stops when there are no more requests.
   */
  method WorkerLoop(plan: seq<Entry>, requests: seq<TestKey>) returns (ran: seq<nat>)
    ensures ran == Scanned(plan, 0, requests)
    ensures |ran| == |requests| <==> Served(plan, 0, requests)
  {
    hide Scanned;
    ran := [];
    var cursor, received := 0, 0;
    var expected: Option<TestKey> := None;
    ghost var pending := requests;
    while cursor < |plan|
      invariant 0 <= cursor <= |plan| && 0 <= received <= |requests|
      invariant expected.Some? ==> pending != [] && expected.value == pending[0] && pending[1..] == requests[received..]
      invariant expected.None? ==> pending == requests[received..]
      invariant Scanned(plan, 0, requests) == ran + Scanned(plan, cursor, pending)
    {
      if expected.None? {
        if received == |requests| {
          ScannedEnds(plan, cursor, pending);
          return;
        }
        expected := Some(requests[received]);
        received := received + 1;
      }
      ScannedStep(plan, cursor, pending);
      var next := plan[cursor];
      cursor := cursor + 1;
      if next.test.key == expected.value {
        expected := None;
        ran := ran + [cursor - 1];
        pending := pending[1..];
      }
    }
    ScannedEnds(plan, cursor, pending);
  }

  // ---------- When skipping is safe ----------

  /** The requests thread `t` sends to its worker: the tests it picks, minus the ignored ones. */
  function Asked(plan: seq<Entry>, ps: seq<nat>): (r: seq<nat>)
    requires forall i :: 0 <= i < |ps| ==> ps[i] < |plan|
    ensures forall i :: 0 <= i < |r| ==> r[i] in ps && r[i] < |plan| && !plan[r[i]].test.ignored
  {
    if ps == [] then []
    else
      var last := |ps| - 1;
      Asked(plan, ps[..last]) + if plan[ps[last]].test.ignored then [] else [ps[last]]
  }

  /** Every request sent so far is found by the worker it was sent to. */
  ghost predicate NothingLost(plan: seq<Entry>, n: nat, s: Sched) {
    && Shaped(plan, n, s)
    && forall t :: 0 <= t < n ==> Served(plan, 0, KeysAt(plan, Asked(plan, s.picks[t])))
  }

  /**
   A sequential suite that can be overtaken: while one of its tests runs, another thread can pick
   something behind the suite, and then come back for a test the suite still has.
   */
  ghost predicate Overtakes(plan: seq<Entry>, i: nat, j: nat, k: nat) {
    && i < j < k < |plan|
    && plan[i].lock.Some? && plan[i].lock == plan[j].lock && plan[k].lock != plan[i].lock
    && !plan[j].test.ignored && !plan[k].test.ignored
  }

  /** Something a caller can read off the plan and the thread count before the run. */
  ghost predicate SafePlan(plan: seq<Entry>, n: nat) {
    n <= 1 || forall i, j, k :: !Overtakes(plan, i, j, k)
  }

  /** Whatever has been requested lies before whatever may still be requested. */
  ghost predicate InScanOrder(plan: seq<Entry>, n: nat, s: Sched)
    requires Shaped(plan, n, s)
  {
    && (forall t :: 0 <= t < n ==> Increasing(Asked(plan, s.picks[t])))
    && (forall t, i, j :: 0 <= t < n && 0 <= i < |s.picks[t]| && 0 <= j < |s.queue|
          && !plan[s.picks[t][i]].test.ignored && !plan[s.queue[j]].test.ignored
          ==> s.picks[t][i] < s.queue[j])
  }

  lemma {:induction false} AskedSnoc(plan: seq<Entry>, ps: seq<nat>, p: nat)
    requires Within(plan, ps) && p < |plan|
    ensures Asked(plan, ps + [p]) == Asked(plan, ps) + if plan[p].test.ignored then [] else [p]
  {
    assert (ps + [p])[..|ps|] == ps;
  }

  /** A safe plan never offers a thread something behind a test it would still have to run. */
  lemma {:induction false} SafePickIsInOrder(plan: seq<Entry>, n: nat, s: Sched, s': Sched, t: nat, j: nat)
    requires Invariant(plan, n, s) && SafePlan(plan, n) && PickStep(plan, n, s, s', t)
    requires j < FirstFree(At(plan, s.queue), Held(plan, s.running))
    requires !plan[s.queue[j]].test.ignored
    ensures plan[s.queue[FirstFree(At(plan, s.queue), Held(plan, s.running))]].test.ignored
  {
    var held := Held(plan, s.running);
    var k := FirstFree(At(plan, s.queue), held);
    assert !Free(At(plan, s.queue)[j], held);
    var u :| 0 <= u < n && s.running[u].Some? && plan[s.running[u].value].lock == plan[s.queue[j]].lock;
    var r := s.running[u].value;
    assert s.picks[u][|s.picks[u]| - 1] == r;
    assert r < s.queue[j] < s.queue[k];
    HeldBy(plan, s.running, u);
    assert Free(At(plan, s.queue)[k], held);
    assert !Overtakes(plan, r, s.queue[j], s.queue[k]);
  }

  lemma {:induction false} AppendAsked(plan: seq<Entry>, ps: seq<nat>, p: nat)
    requires Within(plan, ps) && p < |plan| && Increasing(Asked(plan, ps))
    requires !plan[p].test.ignored ==> forall i :: 0 <= i < |ps| && !plan[ps[i]].test.ignored ==> ps[i] < p
    ensures Within(plan, ps + [p]) && Increasing(Asked(plan, ps + [p]))
  {
    AskedSnoc(plan, ps, p);
    if !plan[p].test.ignored {
      forall i | 0 <= i < |Asked(plan, ps)| ensures Asked(plan, ps)[i] < p {
        assert Asked(plan, ps)[i] in ps;
      }
    }
  }

  lemma {:induction false} SafePickKeepsPositions(
        plan: seq<Entry>, n: nat, s: Sched, s': Sched, t: nat, u: nat, i: nat, j: nat)
    requires Invariant(plan, n, s) && SafePlan(plan, n) && InScanOrder(plan, n, s)
    requires Shaped(plan, n, s) && Increasing(s.queue) && PickStep(plan, n, s, s', t)
    requires u < n && i < |s'.picks[u]| && j < |s'.queue| && s'.picks[u][i] < |plan| && s'.queue[j] < |plan|
    requires !plan[s'.picks[u][i]].test.ignored && !plan[s'.queue[j]].test.ignored
    ensures s'.picks[u][i] < s'.queue[j]
  {
    hide Invariant, SafePlan;
    var k := FirstFree(At(plan, s.queue), Held(plan, s.running));
    var j0 := if j < k then j else j + 1;
    assert s'.queue[j] == s.queue[j0];
    if u == t && i == |s.picks[t]| {
      if j < k {
        SafePickIsInOrder(plan, n, s, s', t, j);
      }
    } else {
      assert s'.picks[u][i] == s.picks[u][i];
    }
  }

  lemma {:induction false} SafePickKeepsScanOrder(plan: seq<Entry>, n: nat, s: Sched, s': Sched, t: nat)
    requires Invariant(plan, n, s) && SafePlan(plan, n) && InScanOrder(plan, n, s)
    requires Increasing(s.queue) && PickStep(plan, n, s, s', t) && Shaped(plan, n, s')
    ensures InScanOrder(plan, n, s')
  {
    hide Invariant, SafePlan;
    var k := FirstFree(At(plan, s.queue), Held(plan, s.running));
    AppendAsked(plan, s.picks[t], s.queue[k]);
    forall u, i, j | 0 <= u < n && 0 <= i < |s'.picks[u]| && 0 <= j < |s'.queue|
      && !plan[s'.picks[u][i]].test.ignored && !plan[s'.queue[j]].test.ignored
      ensures s'.picks[u][i] < s'.queue[j]
    {
      SafePickKeepsPositions(plan, n, s, s', t, u, i, j);
    }
  }

  lemma {:induction false} SafeStepKeepsScanOrder(plan: seq<Entry>, n: nat, s: Sched, s': Sched)
    requires Invariant(plan, n, s) && SafePlan(plan, n) && InScanOrder(plan, n, s) && Next(plan, n, s, s')
    ensures Invariant(plan, n, s') && InScanOrder(plan, n, s')
  {
    StepKeepsInvariant(plan, n, s, s');
    var t :| PickStep(plan, n, s, s', t) || FinishStep(plan, n, s, s', t);
    if PickStep(plan, n, s, s', t) {
      SafePickKeepsScanOrder(plan, n, s, s', t);
    }
  }

  lemma {:induction false} SafeRunsStayInScanOrder(plan: seq<Entry>, n: nat, s: Sched)
    requires Reachable(plan, n, s) && SafePlan(plan, n)
    ensures Invariant(plan, n, s) && InScanOrder(plan, n, s)
  {
    var run :| IsRun(plan, n, run) && run[|run| - 1] == s;
    StartKeepsInvariant(plan, n);
    for i := 1 to |run|
      invariant Invariant(plan, n, run[i - 1]) && InScanOrder(plan, n, run[i - 1])
    {
      SafeStepKeepsScanOrder(plan, n, run[i - 1], run[i]);
    }
  }

  /** On a safe plan no interleaving of the threads ever loses a test, even when names repeat. */
  lemma {:induction false} SafePlansLoseNothing(plan: seq<Entry>, n: nat, s: Sched)
    requires Reachable(plan, n, s) && SafePlan(plan, n)
    ensures NothingLost(plan, n, s)
  {
    SafeRunsStayInScanOrder(plan, n, s);
    forall t | 0 <= t < n ensures Served(plan, 0, KeysAt(plan, Asked(plan, s.picks[t]))) {
      InOrderIsServed(plan, 0, Asked(plan, s.picks[t]));
    }
  }

  // ---------- When skipping is not safe ----------

  ghost function Picked(s: Sched, t: nat, k: nat): Sched
    requires t < |s.running| == |s.picks| && k < |s.queue|
  {
    Sched(Without(s.queue, k), s.running[t := Some(s.queue[k])], s.picks[t := s.picks[t] + [s.queue[k]]])
  }

  ghost function Finished(s: Sched, t: nat): Sched
    requires t < |s.running|
  {
    s.(running := s.running[t := None])
  }

  lemma {:induction false} PickReaches(plan: seq<Entry>, n: nat, s: Sched, t: nat, k: nat)
    requires Reachable(plan, n, s) && Shaped(plan, n, s) && t < n && s.running[t].None? && k < |s.queue|
    requires Free(plan[s.queue[k]], Held(plan, s.running))
    requires forall i :: 0 <= i < k ==> !Free(plan[s.queue[i]], Held(plan, s.running))
    ensures Reachable(plan, n, Picked(s, t, k)) && Shaped(plan, n, Picked(s, t, k))
  {
    FirstFreeUnique(At(plan, s.queue), Held(plan, s.running), k);
    assert PickStep(plan, n, s, Picked(s, t, k), t);
    StepIsReachable(plan, n, s, Picked(s, t, k));
  }

  lemma {:induction false} FinishReaches(plan: seq<Entry>, n: nat, s: Sched, t: nat)
    requires Reachable(plan, n, s) && Shaped(plan, n, s) && t < n && s.running[t].Some?
    ensures Reachable(plan, n, Finished(s, t))
  {
    assert FinishStep(plan, n, s, Finished(s, t), t);
    StepIsReachable(plan, n, s, Finished(s, t));
  }

  /** One whole turn of an idle thread: pick at `k`, run, finish. */
  ghost function Turn(s: Sched, t: nat, k: nat): Sched
    requires t < |s.running| == |s.picks| && k < |s.queue|
  {
    Finished(Picked(s, t, k), t)
  }

  lemma {:induction false} TurnReaches(plan: seq<Entry>, n: nat, s: Sched, t: nat, k: nat)
    requires Reachable(plan, n, s) && Shaped(plan, n, s) && t < n && s.running[t].None? && k < |s.queue|
    requires Free(plan[s.queue[k]], Held(plan, s.running))
    requires forall i :: 0 <= i < k ==> !Free(plan[s.queue[i]], Held(plan, s.running))
    ensures Reachable(plan, n, Turn(s, t, k))
  {
    PickReaches(plan, n, s, t, k);
    FinishReaches(plan, n, Picked(s, t, k), t);
  }

  /** Thread 0 has worked through the first `x` tests alone. */
  ghost function Alone(plan: seq<Entry>, n: nat, x: nat): Sched
    requires x <= |plan|
  {
    Sched(Range(x, |plan|), seq(n, _ => None), seq(n, t => if t == 0 then Range(0, x) else []))
  }

  lemma {:induction false} AloneIsReachable(plan: seq<Entry>, n: nat, x: nat)
    requires n > 0 && x <= |plan|
    ensures Reachable(plan, n, Alone(plan, n, x))
  {
    if x == 0 {
      StartIsReachable(plan, n);
      assert Alone(plan, n, 0) == Start(plan, n);
    } else {
      AloneIsReachable(plan, n, x - 1);
      var s := Alone(plan, n, x - 1);
      assert Held(plan, s.running) == {};
      TurnReaches(plan, n, s, 0, 0);
      AloneTurn(plan, n, x);
    }
  }

  lemma {:induction false} AloneTurn(plan: seq<Entry>, n: nat, x: nat)
    requires n > 0 && 0 < x <= |plan|
    ensures Turn(Alone(plan, n, x - 1), 0, 0) == Alone(plan, n, x)
  {
    var s, s' := Alone(plan, n, x - 1), Alone(plan, n, x);
    assert Without(s.queue, 0) == s'.queue;
    assert s.running[0 := None] == s'.running;
    assert Range(0, x) == Range(0, x - 1) + [x - 1];
    assert s.picks[0 := s.picks[0] + [x - 1]] == s'.picks;
    assert s.running[0 := Some(x - 1)][0 := None] == s.running[0 := None];
  }

  /**
   Thread 0 is inside test `h` of a sequential suite that ends before `m`; thread 1 has meanwhile
   worked through the tests from `m` up to `x`.
   */
  ghost function Overtaking(plan: seq<Entry>, n: nat, h: nat, m: nat, x: nat): Sched
    requires h < m <= x <= |plan|
  {
    Sched(Range(h + 1, m) + Range(x, |plan|),
          seq(n, t => if t == 0 then Some(h) else None),
          seq(n, t => if t == 0 then Range(0, h + 1) else if t == 1 then Range(m, x) else []))
  }

  /** Positions `h` up to `m` share a lock that nothing from `m` on needs. */
  ghost predicate Block(plan: seq<Entry>, h: nat, m: nat) {
    && h < m <= |plan| && plan[h].lock.Some?
    && (forall i :: h <= i < m ==> plan[i].lock == plan[h].lock)
    && (forall i :: m <= i < |plan| ==> plan[i].lock != plan[h].lock)
  }

  lemma {:induction false} OvertakingIsReachable(plan: seq<Entry>, n: nat, h: nat, m: nat, x: nat)
    requires n > 1 && Block(plan, h, m) && m <= x <= |plan|
    ensures Reachable(plan, n, Overtaking(plan, n, h, m, x))
  {
    hide Reachable;
    if x == m {
      AloneIsReachable(plan, n, h);
      assert Held(plan, Alone(plan, n, h).running) == {};
      PickReaches(plan, n, Alone(plan, n, h), 0, 0);
      OvertakingStarts(plan, n, h, m);
    } else {
      OvertakingIsReachable(plan, n, h, m, x - 1);
      OvertakingGoesOn(plan, n, h, m, x - 1);
    }
  }

  lemma {:induction false} OvertakingGoesOn(plan: seq<Entry>, n: nat, h: nat, m: nat, x: nat)
    requires n > 1 && Block(plan, h, m) && m <= x < |plan|
    requires Reachable(plan, n, Overtaking(plan, n, h, m, x))
    ensures Reachable(plan, n, Overtaking(plan, n, h, m, x + 1))
  {
    hide Reachable, Overtaking, Turn;
    OvertakingHolds(plan, n, h, m, x);
    TurnReaches(plan, n, Overtaking(plan, n, h, m, x), 1, m - h - 1);
    OvertakingTurn(plan, n, h, m, x + 1);
  }

  lemma {:induction false} OvertakingStarts(plan: seq<Entry>, n: nat, h: nat, m: nat)
    requires n > 1 && h < m <= |plan|
    ensures Picked(Alone(plan, n, h), 0, 0) == Overtaking(plan, n, h, m, m)
  {
    var s, s' := Alone(plan, n, h), Overtaking(plan, n, h, m, m);
    assert Without(s.queue, 0) == s'.queue;
    assert s.running[0 := Some(h)] == s'.running;
    assert Range(0, h + 1) == Range(0, h) + [h];
    assert Range(m, m) == [];
    assert s.picks[0 := s.picks[0] + [h]] == s'.picks;
  }

  /** What thread 1 sees: the rest of the suite is blocked and the test at `x` is free. */
  lemma {:induction false} OvertakingHolds(plan: seq<Entry>, n: nat, h: nat, m: nat, x: nat)
    requires n > 1 && Block(plan, h, m) && m <= x <= |plan|
    ensures var s, k := Overtaking(plan, n, h, m, x), m - h - 1;
            && Shaped(plan, n, s) && Held(plan, s.running) == {plan[h].lock.value}
            && s.running[0].Some? && s.running[1].None?
            && (forall i :: 0 <= i < k ==> !Free(plan[s.queue[i]], Held(plan, s.running)))
            && (x < |plan| ==> k < |s.queue| && s.queue[k] == x && Free(plan[s.queue[k]], Held(plan, s.running)))
  {
    var s := Overtaking(plan, n, h, m, x);
    assert forall t :: 0 <= t < n ==>
      s.picks[t] == if t == 0 then Range(0, h + 1) else if t == 1 then Range(m, x) else [];
    HeldBy(plan, s.running, 0);
    assert forall i :: 0 <= i < m - h - 1 ==> s.queue[i] == h + 1 + i;
  }

  lemma {:induction false} OvertakingTurn(plan: seq<Entry>, n: nat, h: nat, m: nat, x: nat)
    requires n > 1 && h < m < x <= |plan|
    ensures Turn(Overtaking(plan, n, h, m, x - 1), 1, m - h - 1) == Overtaking(plan, n, h, m, x)
  {
    var s, s' := Overtaking(plan, n, h, m, x - 1), Overtaking(plan, n, h, m, x);
    assert s.queue[m - h - 1] == x - 1;
    assert Without(s.queue, m - h - 1) == s'.queue;
    assert s.running[1 := Some(x - 1)][1 := None] == s'.running;
    assert Range(m, x) == Range(m, x - 1) + [x - 1];
    assert s.picks[1 := s.picks[1] + [x - 1]] == s'.picks;
  }

  /** A suite that has a test before `j` forms a block from `j - 1` on. */
  lemma {:induction false} BlockFrom(plan: seq<Entry>, i: nat, j: nat) returns (m: nat)
    requires i < j < |plan| && Grouped(plan) && plan[i].lock.Some? && plan[i].lock == plan[j].lock
    ensures j < m && Block(plan, j - 1, m) && plan[j - 1].lock == plan[i].lock
  {
    assert plan[j - 1].lock == plan[j].lock;
    m := j + 1;
    while m < |plan| && plan[m].lock == plan[j].lock
      invariant j < m <= |plan|
      invariant forall x :: j <= x < m ==> plan[x].lock == plan[j].lock
    {
      m := m + 1;
    }
    if m < |plan| {
      assert forall x :: m < x < |plan| && plan[x].lock == plan[j].lock ==> plan[m].lock == plan[j].lock;
    }
  }

  /** A suite that can be overtaken is overtaken in some run, and a worker then loses a test. */
  lemma {:induction false} OvertakenTestIsLost(plan: seq<Entry>, n: nat, i: nat, j: nat, k: nat) returns (s: Sched)
    requires Grouped(plan) && DistinctKeys(plan) && n > 1 && Overtakes(plan, i, j, k)
    ensures Reachable(plan, n, s) && !NothingLost(plan, n, s)
  {
    hide Reachable, Served;
    var h := j - 1;
    var m := BlockFrom(plan, i, j);
    s := BackForTheRest(plan, n, h, m, k);
    ComingBackIsNotServed(plan, Range(m, k), k, j);
    assert s.picks[1] == Range(m, k) + [k] + [j];
  }

  /** A worker that has been sent past `j` cannot serve `j`. */
  lemma {:induction false} ComingBackIsNotServed(plan: seq<Entry>, before: seq<nat>, k: nat, j: nat)
    requires DistinctKeys(plan) && Within(plan, before) && j < k < |plan|
    requires !plan[k].test.ignored && !plan[j].test.ignored
    ensures Within(plan, before + [k] + [j])
    ensures !Served(plan, 0, KeysAt(plan, Asked(plan, before + [k] + [j])))
  {
    hide Served;
    AskedSnoc(plan, before, k);
    AskedSnoc(plan, before + [k], j);
    var asked := Asked(plan, before + [k] + [j]);
    assert asked == Asked(plan, before) + [k] + [j];
    if Served(plan, 0, KeysAt(plan, asked)) {
      ServedIsInOrder(plan, 0, asked, |asked| - 2, |asked| - 1);
      assert false;
    }
  }

  lemma {:induction false} LeavingReleases(plan: seq<Entry>, n: nat, h: nat, m: nat, x: nat) returns (s: Sched)
    requires n > 1 && Block(plan, h, m) && h + 1 < m <= x <= |plan|
    requires Reachable(plan, n, Overtaking(plan, n, h, m, x))
    ensures Reachable(plan, n, s) && Shaped(plan, n, s) && Held(plan, s.running) == {} && s.running[1].None?
    ensures s.picks[1] == Range(m, x) && s.queue != [] && s.queue[0] == h + 1
  {
    hide Reachable, Block;
    OvertakingHolds(plan, n, h, m, x);
    FinishReaches(plan, n, Overtaking(plan, n, h, m, x), 0);
    s := Finished(Overtaking(plan, n, h, m, x), 0);
    assert forall t :: 0 <= t < n ==> s.running[t].None?;
  }

  /** Thread 0 leaves the suite, and thread 1 picks the suite's next test. */
  lemma {:induction false} BackForTheRest(plan: seq<Entry>, n: nat, h: nat, m: nat, k: nat) returns (s: Sched)
    requires n > 1 && Block(plan, h, m) && h + 1 < m <= k < |plan|
    ensures Reachable(plan, n, s) && Shaped(plan, n, s)
    ensures s.picks[1] == Range(m, k) + [k] + [h + 1]
  {
    hide Reachable, Overtaking, Block;
    OvertakingIsReachable(plan, n, h, m, k + 1);
    var ready := LeavingReleases(plan, n, h, m, k + 1);
    assert Range(m, k + 1) == Range(m, k) + [k];
    PickReaches(plan, n, ready, 1, 0);
    s := Picked(ready, 1, 0);
  }

  /**
   Greedy skipping never loses a test, in any interleaving, if and only if the plan is safe:
   there is one thread, or no sequential suite can be overtaken.
   */
  lemma {:induction false} NothingIsLostExactlyOnSafePlans(plan: seq<Entry>, n: nat)
    requires Grouped(plan) && DistinctKeys(plan)
    ensures SafePlan(plan, n) <==> forall s :: Reachable(plan, n, s) ==> NothingLost(plan, n, s)
  {
    if SafePlan(plan, n) {
      forall s | Reachable(plan, n, s) ensures NothingLost(plan, n, s) {
        SafePlansLoseNothing(plan, n, s);
      }
    } else {
      var i, j, k :| Overtakes(plan, i, j, k);
      var s := OvertakenTestIsLost(plan, n, i, j, k);
    }
  }

  // ---------- The tree and the flat queue ----------

  /**
   The flat queue is what the execution tree really does: if the tree holds exactly the queued
   tests, one tree search and one `PickStep` return the same test and agree afterwards.
   */
  lemma {:induction false} TreeFollowsQueue(plan: seq<Entry>, n: nat, s: Sched, tree: Suite, shared: set<nat>)
    requires Shaped(plan, n, s) && Consistent(tree, shared)
    requires Entries(tree) == At(plan, s.queue) && Held(plan, s.running) <= shared
    ensures var (picked, tree') := PickFrom(tree, Held(plan, s.running));
            && Consistent(tree', shared)
            && (picked.None? ==> Entries(tree') == At(plan, s.queue) &&
                                 forall t: nat, s' :: !PickStep(plan, n, s, s', t))
            && (forall t: nat, s' :: PickStep(plan, n, s, s', t) ==>
                  && s'.running[t].Some? && s'.running[t].value < |plan|
                  && picked == Some(plan[s'.running[t].value])
                  && Within(plan, s'.queue) && Entries(tree') == At(plan, s'.queue))
  {
    var held := Held(plan, s.running);
    PickIsFirstFree(tree, held, shared);
    var es := At(plan, s.queue);
    var k := FirstFree(es, held);
    if k < |es| {
      assert Within(plan, Without(s.queue, k));
      assert At(plan, Without(s.queue, k)) == Without(es, k);
    }
  }

  lemma {:induction false} HeldWithin(plan: seq<Entry>, running: seq<Option<nat>>, shared: set<nat>)
    requires forall t :: 0 <= t < |running| && running[t].Some? ==> running[t].value < |plan|
    requires LocksWithin(plan, shared)
    ensures Held(plan, running) <= shared
  {
  }

  /** One step of the schedule, and what the tree does in it: a pick takes that very test from the tree. */
  ghost predicate TreeStep(plan: seq<Entry>, n: nat, s: Sched, s': Sched, tree: Suite, tree': Suite) {
    exists t: nat ::
      || (PickStep(plan, n, s, s', t) && s'.running[t].Some? && s'.running[t].value < |plan|
          && PickFrom(tree, Held(plan, s.running)) == (Some(plan[s'.running[t].value]), tree'))
      || (FinishStep(plan, n, s, s', t) && tree' == tree)
  }

  /** Every schedule of the flat queue is a run of the execution tree, from the tree with its locks shared. */
  lemma {:induction false} TreeFollowsRun(tree: Suite, n: nat, run: seq<Sched>) returns (trees: seq<Suite>)
    requires Fresh(tree) && IsRun(Entries(Propagate(tree, None)), n, run)
    ensures |trees| == |run| && trees[0] == Propagate(tree, None)
    ensures forall i :: 0 <= i < |run| ==>
              && Shaped(Entries(trees[0]), n, run[i]) && Consistent(trees[i], SharedLocks(tree))
              && Entries(trees[i]) == At(Entries(trees[0]), run[i].queue)
    ensures forall i :: 0 < i < |run| ==> TreeStep(Entries(trees[0]), n, run[i - 1], run[i], trees[i - 1], trees[i])
  {
    hide TreeStep, Entries, Consistent;
    var first := Propagate(tree, None);
    var plan, shared := Entries(first), SharedLocks(tree);
    trees := [first];
    PropagateIsConsistent(tree, None, shared);
    LocksAreShared(first, shared);
    assert At(plan, Range(0, |plan|)) == plan;
    for i := 1 to |run|
      invariant |trees| == i && trees[0] == first
      invariant forall k :: 0 <= k < i ==>
                  Shaped(plan, n, run[k]) && Consistent(trees[k], shared) && Entries(trees[k]) == At(plan, run[k].queue)
      invariant forall k :: 0 < k < i ==> TreeStep(plan, n, run[k - 1], run[k], trees[k - 1], trees[k])
    {
      assert Next(plan, n, run[i - 1], run[i]);
      var next := FollowStep(plan, n, run[i - 1], run[i], trees[i - 1], shared);
      trees := trees + [next];
    }
  }

  lemma {:induction false} FollowStep(
        plan: seq<Entry>, n: nat, s: Sched, s': Sched, tree: Suite, shared: set<nat>) returns (tree': Suite)
    requires Shaped(plan, n, s) && Next(plan, n, s, s') && LocksWithin(plan, shared)
    requires Consistent(tree, shared) && Entries(tree) == At(plan, s.queue)
    ensures Shaped(plan, n, s') && Consistent(tree', shared) && Entries(tree') == At(plan, s'.queue)
    ensures TreeStep(plan, n, s, s', tree, tree')
  {
    hide Entries, Consistent;
    HeldWithin(plan, s.running, shared);
    TreeFollowsQueue(plan, n, s, tree, shared);
    var t :| PickStep(plan, n, s, s', t) || FinishStep(plan, n, s, s', t);
    if PickStep(plan, n, s, s', t) {
      tree' := PickFrom(tree, Held(plan, s.running)).1;
    } else {
      tree' := tree;
    }
  }

  /**
   For the plan of an execution tree the grouping of its locks is given: with distinct names no
   interleaving loses a test if and only if the plan is safe.
   */
  lemma {:induction false} TreeLosesNothingExactlyIfSafe(tree: Suite, n: nat)
    requires Fresh(tree) && DistinctKeys(Entries(Propagate(tree, None)))
    ensures var plan := Entries(Propagate(tree, None));
            SafePlan(plan, n) <==> forall s :: Reachable(plan, n, s) ==> NothingLost(plan, n, s)
  {
    hide SafePlan, Reachable, NothingLost;
    PropagateIsGrouped(tree);
    NothingIsLostExactlyOnSafePlans(Entries(Propagate(tree, None)), n);
  }

  function Named(name: string): Test {
    Test(TestKey(name, "", ""), false, "", "")
  }

  /** The smallest unsafe tree: a sequential suite with two tests, and another suite beside it with one. */
  const OVERTAKEN: Suite :=
    Suite([], 0, false, [],
          [Suite(["x"], 1, true, [Named("b"), Named("a")], [], 2), Suite(["y"], 2, false, [Named("c")], [], 1)], 3)

  lemma {:induction false} OvertakenTreeLosesATest(n: nat) returns (s: Sched)
    requires n > 1
    ensures Fresh(OVERTAKEN)
    ensures var plan := Entries(Propagate(OVERTAKEN, None));
            !SafePlan(plan, n) && Reachable(plan, n, s) && !NothingLost(plan, n, s)
  {
    hide Reachable, NothingLost;
    var plan := OvertakenPlan();
    OvertakenIsFresh();
    PropagateIsGrouped(OVERTAKEN);
    assert Overtakes(plan, 0, 1, 2);
    s := OvertakenTestIsLost(plan, n, 0, 1, 2);
  }

  lemma {:induction false} OvertakenPlan() returns (plan: seq<Entry>)
    ensures plan == Entries(Propagate(OVERTAKEN, None)) ==
            [Entry(Named("a"), Some(1)), Entry(Named("b"), Some(1)), Entry(Named("c"), None)]
    ensures DistinctKeys(plan)
  {
    var sequential, other := OVERTAKEN.inner[0], OVERTAKEN.inner[1];
    var p, q := Propagate(sequential, None), Propagate(other, None);
    assert PropagateAll([other], None) == [q] + PropagateAll([], None);
    assert PropagateAll(OVERTAKEN.inner, None) == [p] + PropagateAll([other], None);
    assert Propagate(OVERTAKEN, None).inner == [p, q];
    assert Entries(p) == [Entry(Named("a"), Some(1)), Entry(Named("b"), Some(1))];
    assert Entries(q) == [Entry(Named("c"), None)];
    assert EntriesOf([q]) == Entries(q) + EntriesOf([]);
    assert EntriesOf([p, q]) == Entries(p) + EntriesOf([q]);
    plan := Entries(Propagate(OVERTAKEN, None));
    assert plan == [] + (Entries(p) + Entries(q));
    assert plan[0].test.key.name == "a" && plan[1].test.key.name == "b" && plan[2].test.key.name == "c";
    assert "a"[0] != "b"[0] && "a"[0] != "c"[0] && "b"[0] != "c"[0];
  }

  lemma {:induction false} OvertakenIsFresh()
    ensures Fresh(OVERTAKEN)
  {
    var sequential, other := OVERTAKEN.inner[0], OVERTAKEN.inner[1];
    assert OVERTAKEN.inner[1..] == [other] && [other][1..] == [];
    assert LockIdsOf([]) == {} && LockIds(sequential) == {1} && LockIds(other) == {2};
    assert LockIdsOf([other]) == {2} && LockIdsOf(OVERTAKEN.inner) == {1, 2};
    assert |Entries(sequential)| == 2 && |Entries(other)| == 1;
    assert EntriesOf([other]) == Entries(other) + EntriesOf([]);
    assert EntriesOf(OVERTAKEN.inner) == Entries(sequential) + EntriesOf([other]);
    assert Fresh(sequential) && Fresh(other);
    assert FreshAll([other]);
    assert FreshAll(OVERTAKEN.inner);
  }
}
