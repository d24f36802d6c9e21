/**
 One parent thread and its worker process: two explicit loops that talk over a pair of FIFO
 channels, with any number of stub callers inside the running test sharing the worker's end.

 Every arm of both loops is modelled, including those that panic, report a transport error or
 silently drop a frame. The result is that none of those arms can be reached.
 */
module Lockstep {
  import opened Outcomes
  import opened Bytes
  import opened Rpc
  import opened Suites

  /** What is shipped to a worker: the dependency and the bytes it is rebuilt from. */
  datatype Provide =
    | Cloneable(depId: string, wireBytes: seq<byte>)
    | HostedDescriptor(depId: string, descriptorBytes: seq<byte>)

  datatype Ack = CloneableAccepted(depId: string) | HostedDescriptorAccepted(depId: string)

  datatype Command = RunTest(key: TestKey) | ProvideCommand(what: Provide) | RpcReply(id: nat, body: Body)

  /** `ran` is the position of the test the worker executed. */
  datatype Response = TestFinished(ran: nat) | Accepted(ack: Ack) | RpcCall(request: Request)

  datatype Parent =
    | Ready(provided: nat)
    | AwaitAck(provided: nat)
    | Have(pos: nat)
    | Running(pos: nat)
    | Dispatching(request: Request, back: Parent)
    | Report(pos: nat, ran: nat)
    | ParentDone

  datatype Worker =
    | Top(expected: Option<TestKey>)
    | Reading
    | Acking(what: Provide)
    | Picking(key: TestKey)
    | InBody(pos: nat)
    | Finishing(pos: nat)
    | Exited
    | Panicked

  datatype Caller = Idle | Waiting(request: Request) | Sent(request: Request)

  datatype CallOutcome = Answered(body: Body) | IdMismatch | UnexpectedCommand

  /**
   `cursor` is how far the worker has got in its copy of the plan, `conn` the stub caller that
   holds the connection mutex. `served` logs the owner's dispatches, `received` the outcomes the
   callers saw.
   */
  datatype Pair = Pair(
    parent: Parent, worker: Worker, toWorker: seq<Command>, toParent: seq<Response>,
    cursor: nat, callers: seq<Caller>, conn: Option<nat>, nextId: nat,
    served: seq<(Request, Body)>, received: seq<(Request, CallOutcome)>)

  datatype Action =
    | SendProvide | TakeResponse | SendRunTest | SendReply(body: Body)
    | LoopTop | ReadCommand | SendAck | PickTest | EndBody | SendFinished
    | BeginCall(caller: nat, depId: string, methodIdx: nat, args: seq<byte>)
    | SendCall(caller: nat) | TakeReply(caller: nat)

  function StartPair(callers: nat): Pair {
    Pair(Ready(0), Top(None), [], [], 0, seq(callers, _ => Idle), None, 1, [], [])
  }

  function AckOf(what: Provide): Ack {
    match what
    case Cloneable(depId, _) => CloneableAccepted(depId)
    case HostedDescriptor(depId, _) => HostedDescriptorAccepted(depId)
  }

  // ---------- The parent: provide_cloneable, provide_hosted_descriptor, run_test ----------

  function OnResponse(deps: seq<Provide>, p: Pair, r: Response): Pair {
    match r
    case RpcCall(request) => p.(parent := Dispatching(request, p.parent))
    case TestFinished(ran) =>
      if p.parent.Running? then p.(parent := Report(p.parent.pos, ran)) else p
    case Accepted(ack) =>
      if p.parent.AwaitAck? && p.parent.provided < |deps| && ack == AckOf(deps[p.parent.provided])
      then p.(parent := Ready(p.parent.provided + 1)) else p
  }

  function ParentStep(plan: seq<Entry>, deps: seq<Provide>, p: Pair, a: Action): Option<Pair> {
    match a
    case SendProvide =>
      if p.parent.Ready? && p.parent.provided < |deps| then
        Some(p.(parent := AwaitAck(p.parent.provided),
                toWorker := p.toWorker + [ProvideCommand(deps[p.parent.provided])]))
      else None
    case TakeResponse =>
      if (p.parent.AwaitAck? || p.parent.Running?) && p.toParent != [] then
        Some(OnResponse(deps, p.(toParent := p.toParent[1..]), p.toParent[0]))
      else None
    case SendRunTest =>
      if p.parent.Have? && p.parent.pos < |plan| && !plan[p.parent.pos].test.ignored then
        Some(p.(parent := Running(p.parent.pos),
                toWorker := p.toWorker + [RunTest(plan[p.parent.pos].test.key)]))
      else None
    case SendReply(body) =>
      if p.parent.Dispatching? then
        Some(p.(parent := p.parent.back,
                toWorker := p.toWorker + [RpcReply(p.parent.request.id, body)],
                served := p.served + [(p.parent.request, body)]))
      else None
    case _ => None
  }

  // ---------- The worker's main loop ----------

  function OnCommand(p: Pair, c: Command): Pair {
    match c
    case RunTest(key) => p.(worker := Picking(key))
    case ProvideCommand(what) => p.(worker := Acking(what))
    case RpcReply(_, _) => p.(worker := Panicked)
  }

  function WorkerStep(plan: seq<Entry>, p: Pair, a: Action): Option<Pair> {
    match a
    case LoopTop =>
      if p.worker.Top? then
        Some(p.(worker := if p.cursor >= |plan| then Exited
                          else if p.worker.expected.None? then Reading
                          else Picking(p.worker.expected.value)))
      else None
    case ReadCommand =>
      if p.worker.Reading? && p.conn.None? && p.toWorker != [] then
        Some(OnCommand(p.(toWorker := p.toWorker[1..]), p.toWorker[0]))
      else None
    case SendAck =>
      if p.worker.Acking? && p.conn.None? then
        Some(p.(worker := Reading, toParent := p.toParent + [Accepted(AckOf(p.worker.what))]))
      else None
    case PickTest =>
      if p.worker.Picking? && p.cursor < |plan| then
        var next := plan[p.cursor].test;
        Some(p.(cursor := p.cursor + 1,
                worker := if next.key != p.worker.key then Top(Some(p.worker.key))
                          else if next.ignored then Finishing(p.cursor)
                          else InBody(p.cursor)))
      else None
    case EndBody =>
      if p.worker.InBody? && forall c :: 0 <= c < |p.callers| ==> p.callers[c].Idle? then
        Some(p.(worker := Finishing(p.worker.pos)))
      else None
    case SendFinished =>
      if p.worker.Finishing? && p.conn.None? then
        Some(p.(worker := Top(None), toParent := p.toParent + [TestFinished(p.worker.pos)]))
      else None
    case _ => None
  }

  // ---------- Stub callers inside the test body: IpcHostedRpcTransport::call ----------

  function OutcomeOf(request: Request, c: Command): CallOutcome {
    match c
    case RpcReply(id, body) => if id != request.id then IdMismatch else Answered(body)
    case _ => UnexpectedCommand
  }

  function CallerStep(p: Pair, a: Action): Option<Pair> {
    match a
    case BeginCall(c, depId, methodIdx, args) =>
      if p.worker.InBody? && c < |p.callers| && p.callers[c].Idle? then
        Some(p.(callers := p.callers[c := Waiting(Request(p.nextId, depId, methodIdx, args))], nextId := p.nextId + 1))
      else None
    case SendCall(c) =>
      if c < |p.callers| && p.callers[c].Waiting? && p.conn.None? then
        Some(p.(callers := p.callers[c := Sent(p.callers[c].request)], conn := Some(c),
                toParent := p.toParent + [RpcCall(p.callers[c].request)]))
      else None
    case TakeReply(c) =>
      if c < |p.callers| && p.callers[c].Sent? && p.toWorker != [] then
        Some(p.(callers := p.callers[c := Idle], conn := None, toWorker := p.toWorker[1..],
                received := p.received + [(p.callers[c].request, OutcomeOf(p.callers[c].request, p.toWorker[0]))]))
      else None
    case _ => None
  }

  function Step(plan: seq<Entry>, deps: seq<Provide>, p: Pair, a: Action): Option<Pair> {
    match a
    case SendProvide | TakeResponse | SendRunTest | SendReply(_) => ParentStep(plan, deps, p, a)
    case BeginCall(_, _, _, _) | SendCall(_) | TakeReply(_) => CallerStep(p, a)
    case _ => WorkerStep(plan, p, a)
  }

  // ---------- Lockstep ----------

  ghost predicate Quiet(p: Pair) {
    p.toWorker == [] && p.toParent == []
  }

  ghost predicate NoCalls(p: Pair) {
    p.conn.None? && forall c :: 0 <= c < |p.callers| ==> p.callers[c].Idle?
  }

  /** The worker is between tests and has nothing to say. */
  ghost predicate Listening(p: Pair) {
    p.worker == Top(None) || p.worker == Reading || p.worker == Exited
  }

  /** Exactly one caller has a call outstanding, and it holds the connection. */
  ghost predicate OneSender(p: Pair) {
    && p.conn.Some? && p.conn.value < |p.callers| && p.callers[p.conn.value].Sent?
    && forall d :: 0 <= d < |p.callers| && d != p.conn.value ==> !p.callers[d].Sent?
  }

  ghost function Outstanding(p: Pair): Request
    requires OneSender(p)
  {
    p.callers[p.conn.value].request
  }

  ghost predicate CallInFlight(p: Pair) {
    OneSender(p) && p.toWorker == [] && p.toParent == [RpcCall(Outstanding(p))]
  }

  ghost predicate ReplyInFlight(p: Pair) {
    && OneSender(p) && p.toParent == [] && p.served != []
    && var (request, body) := p.served[|p.served| - 1];
       request == Outstanding(p) && p.toWorker == [RpcReply(request.id, body)]
  }

  ghost predicate NobodySent(p: Pair) {
    p.conn.None? && forall d :: 0 <= d < |p.callers| ==> !p.callers[d].Sent?
  }

  ghost predicate Providing(deps: seq<Provide>, p: Pair, k: nat) {
    && k < |deps| && p.cursor == 0 && NoCalls(p)
    && (|| (p.toWorker == [ProvideCommand(deps[k])] && p.toParent == [] &&
            (p.worker == Top(None) || p.worker == Reading))
        || (Quiet(p) && p.worker == Acking(deps[k]))
        || (p.toWorker == [] && p.toParent == [Accepted(AckOf(deps[k]))] && p.worker == Reading))
  }

  ghost predicate SameKey(plan: seq<Entry>, a: nat, b: nat) {
    a < |plan| && b < |plan| && plan[a].test.key == plan[b].test.key
  }

  ghost predicate Testing(plan: seq<Entry>, p: Pair, pos: nat) {
    && pos < |plan|
    && var key := plan[pos].test.key;
       || (NoCalls(p) && p.toWorker == [RunTest(key)] && p.toParent == [] && Listening(p))
       || (NoCalls(p) && Quiet(p) && (p.worker == Picking(key) || p.worker == Top(Some(key)) || p.worker == Exited))
       || (NoCalls(p) && Quiet(p) && p.worker.Finishing? && SameKey(plan, p.worker.pos, pos))
       || (NoCalls(p) && p.toWorker == [] && |p.toParent| == 1 && p.toParent[0].TestFinished?
           && SameKey(plan, p.toParent[0].ran, pos) && Listening(p))
       || (p.worker.InBody? && SameKey(plan, p.worker.pos, pos)
           && ((NobodySent(p) && Quiet(p)) || CallInFlight(p) || ReplyInFlight(p)))
  }

  ghost predicate Exchange(plan: seq<Entry>, deps: seq<Provide>, p: Pair) {
    match p.parent
    case Ready(k) =>
      && k <= |deps| && NoCalls(p) && Quiet(p) && Listening(p)
      && (k < |deps| ==> p.cursor == 0 && p.worker != Exited)
    case AwaitAck(k) => Providing(deps, p, k)
    case Have(pos) => pos < |plan| && NoCalls(p) && Quiet(p) && Listening(p)
    case Running(pos) => Testing(plan, p, pos)
    case Dispatching(request, back) =>
      && back.Running? && back.pos < |plan| && p.worker.InBody? && SameKey(plan, p.worker.pos, back.pos)
      && Quiet(p) && OneSender(p) && Outstanding(p) == request
    case Report(pos, ran) => SameKey(plan, ran, pos) && NoCalls(p) && Quiet(p) && Listening(p)
    case ParentDone => NoCalls(p) && Quiet(p) && Listening(p)
  }

  /** Every completed stub call was answered with the owner's dispatch of that very request. */
  ghost predicate Logs(p: Pair) {
    && |p.served| == |p.received| + (if p.toWorker != [] && p.toWorker[0].RpcReply? then 1 else 0)
    && forall i :: 0 <= i < |p.received| ==> p.received[i] == (p.served[i].0, Answered(p.served[i].1))
  }

  ghost predicate InLockstep(plan: seq<Entry>, deps: seq<Provide>, p: Pair) {
    && Exchange(plan, deps, p) && Logs(p)
    && p.cursor <= |plan| && (p.worker == Exited ==> p.cursor == |plan|)
    && ((p.worker == Reading || p.worker.Picking? || p.worker.Acking?) ==> p.cursor < |plan|)
    && (deps != [] ==> plan != [])
  }

  lemma {:induction false} StartsInLockstep(plan: seq<Entry>, deps: seq<Provide>, callers: nat)
    requires deps != [] ==> plan != []
    ensures InLockstep(plan, deps, StartPair(callers))
  {
  }

  lemma {:induction false} SendingKeepsLockstep(plan: seq<Entry>, deps: seq<Provide>, p: Pair, a: Action)
    requires InLockstep(plan, deps, p) && ParentStep(plan, deps, p, a).Some?
    requires !a.TakeResponse?
    ensures InLockstep(plan, deps, ParentStep(plan, deps, p, a).value)
  {
  }

  lemma {:induction false} TakingKeepsLockstep(plan: seq<Entry>, deps: seq<Provide>, p: Pair, a: Action)
    requires InLockstep(plan, deps, p) && ParentStep(plan, deps, p, a).Some?
    requires a.TakeResponse?
    ensures InLockstep(plan, deps, ParentStep(plan, deps, p, a).value)
  {
  }

  lemma {:induction false} LoopKeepsLockstep(plan: seq<Entry>, deps: seq<Provide>, p: Pair, a: Action)
    requires InLockstep(plan, deps, p) && WorkerStep(plan, p, a).Some?
    requires a.LoopTop? || a.PickTest? || a.EndBody?
    ensures InLockstep(plan, deps, WorkerStep(plan, p, a).value)
  {
  }

  lemma {:induction false} WorkerIoKeepsLockstep(plan: seq<Entry>, deps: seq<Provide>, p: Pair, a: Action)
    requires InLockstep(plan, deps, p) && WorkerStep(plan, p, a).Some?
    requires a.ReadCommand? || a.SendAck? || a.SendFinished?
    ensures InLockstep(plan, deps, WorkerStep(plan, p, a).value)
  {
  }

  lemma {:induction false} CallKeepsLockstep(plan: seq<Entry>, deps: seq<Provide>, p: Pair, a: Action)
    requires InLockstep(plan, deps, p) && CallerStep(p, a).Some?
    requires a.BeginCall? || a.SendCall?
    ensures InLockstep(plan, deps, CallerStep(p, a).value)
  {
  }

  lemma {:induction false} ReplyKeepsLockstep(plan: seq<Entry>, deps: seq<Provide>, p: Pair, a: Action)
    requires InLockstep(plan, deps, p) && CallerStep(p, a).Some?
    requires a.TakeReply?
    ensures InLockstep(plan, deps, CallerStep(p, a).value)
  {
  }

  lemma {:induction false} StepKeepsLockstep(plan: seq<Entry>, deps: seq<Provide>, p: Pair, a: Action)
    requires InLockstep(plan, deps, p) && Step(plan, deps, p, a).Some?
    ensures InLockstep(plan, deps, Step(plan, deps, p, a).value)
  {
    hide InLockstep, ParentStep, WorkerStep, CallerStep;
    match a
    case SendProvide | SendRunTest | SendReply(_) => SendingKeepsLockstep(plan, deps, p, a);
    case TakeResponse => TakingKeepsLockstep(plan, deps, p, a);
    case BeginCall(_, _, _, _) | SendCall(_) => CallKeepsLockstep(plan, deps, p, a);
    case TakeReply(_) => ReplyKeepsLockstep(plan, deps, p, a);
    case LoopTop | PickTest | EndBody => LoopKeepsLockstep(plan, deps, p, a);
    case ReadCommand | SendAck | SendFinished => WorkerIoKeepsLockstep(plan, deps, p, a);
  }

  // ---------- What lockstep means ----------

  /** Both channels together never hold more than one message. */
  lemma {:induction false} AtMostOneInFlight(plan: seq<Entry>, deps: seq<Provide>, p: Pair)
    requires InLockstep(plan, deps, p)
    ensures |p.toWorker| + |p.toParent| <= 1
  {
  }

  /**
   The arms for a protocol that is out of sync are dead: the worker never panics on an unexpected
   reply, the transport never sees another command or another request's reply, and the parent
   never reads a frame it would drop. What a caller gets is the owner's answer to its own request.
   */
  lemma {:induction false} OutOfSyncArmsAreDead(plan: seq<Entry>, deps: seq<Provide>, p: Pair, a: Action)
    requires InLockstep(plan, deps, p) && Step(plan, deps, p, a).Some?
    ensures InSyncStep(plan, deps, p, a)
  {
  }

  /** In any state, in sync or not: a caller accepts as an answer only a reply to the number of its own request. */
  lemma {:induction false} OnlyOwnRepliesAreAnswers(p: Pair, k: nat)
    requires CallerStep(p, TakeReply(k)).Some?
    ensures var received := CallerStep(p, TakeReply(k)).value.received;
            && k < |p.callers| && p.callers[k].Sent? && p.toWorker != []
            && |received| == |p.received| + 1 && received[..|p.received|] == p.received
            && var (request, outcome) := received[|p.received|];
               && request == p.callers[k].request
               && (outcome.Answered? <==> p.toWorker[0].RpcReply? && p.toWorker[0].id == request.id)
               && (outcome.Answered? ==> outcome.body == p.toWorker[0].body)
  {
  }

  /** In any state, in sync or not: what is shipped counts as shipped only when its own id is acknowledged. */
  lemma {:induction false} OnlyOwnAcksCount(plan: seq<Entry>, deps: seq<Provide>, p: Pair)
    requires p.parent.AwaitAck? && p.parent.provided < |deps| && p.toParent != []
    ensures var next := ParentStep(plan, deps, p, TakeResponse); var what := deps[p.parent.provided];
            && next.Some?
            && (next.value.parent == Ready(p.parent.provided + 1) <==>
                  p.toParent[0] == Accepted(if what.Cloneable? then CloneableAccepted(what.depId)
                                            else HostedDescriptorAccepted(what.depId)))
  {
  }

  ghost predicate InSyncStep(plan: seq<Entry>, deps: seq<Provide>, p: Pair, a: Action)
    requires Step(plan, deps, p, a).Some?
  {
    var p' := Step(plan, deps, p, a).value;
    && p'.worker != Panicked
    && (a.TakeResponse? ==> p'.parent != p.parent)
    && (a.TakeReply? ==>
          && p.served != [] && a.caller < |p.callers|
          && var (request, body) := p.served[|p.served| - 1];
             p.callers[a.caller] == Sent(request) && p'.received == p.received + [(request, Answered(body))])
  }

  /** The parent waits for an answer from a worker that has left its loop. */
  ghost predicate Stranded(p: Pair) {
    p.parent.Running? && p.worker == Exited && p.toParent == []
  }

  /** The parent is not waiting for its worker. */
  ghost predicate AtRest(deps: seq<Provide>, p: Pair) {
    p.parent == Ready(|deps|) || p.parent.Have? || p.parent.Report? || p.parent.ParentDone?
  }

  /** Some step of the pair, or of the owner the parent is dispatching to, is always enabled. */
  lemma {:induction false} PairNeverBlocks(plan: seq<Entry>, deps: seq<Provide>, p: Pair) returns (a: Action)
    requires InLockstep(plan, deps, p) && !AtRest(deps, p) && !Stranded(p)
    ensures Step(plan, deps, p, a).Some?
    ensures !a.BeginCall?
  {
    match p.parent
    case Ready(k) => a := SendProvide;
    case Dispatching(_, _) => a := SendReply(ErrBody(""));
    case _ =>
      if p.toParent != [] {
        a := TakeResponse;
      } else {
        a := WorkerMove(plan, deps, p);
      }
  }

  lemma {:induction false} WorkerMove(plan: seq<Entry>, deps: seq<Provide>, p: Pair) returns (a: Action)
    requires InLockstep(plan, deps, p) && !Stranded(p)
    requires (p.parent.AwaitAck? || p.parent.Running?) && p.toParent == []
    ensures Step(plan, deps, p, a).Some?
    ensures !a.BeginCall?
  {
    match p.worker
    case Top(_) => a := LoopTop;
    case Reading => a := ReadCommand;
    case Acking(_) => a := SendAck;
    case Picking(_) => a := PickTest;
    case Finishing(_) => a := SendFinished;
    case InBody(_) =>
      if p.conn.Some? {
        a := TakeReply(p.conn.value);
      } else if c :| 0 <= c < |p.callers| && p.callers[c].Waiting? {
        a := SendCall(c);
      } else {
        a := EndBody;
      }
    case _ => a := LoopTop;
  }
}
