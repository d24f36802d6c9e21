/**
 Generated remote stubs. A stub method packs its arguments, sends them under the method's index over
 a transport and unpacks the reply; the generated dispatcher on the owner's side does the reverse.
 Called through either transport, a stub behaves like a direct call on a poisonable owner.
 */
module RemoteCall {
  import opened Outcomes
  import opened Bytes
  import opened Rpc
  import OwnerCell

  // ---------- The trait and what the macro generates from it ----------

  type TypeName = nat

  datatype Outcome<+S, +V> = Returns(state: S, value: V) | Panics(state: S, message: string)

  /** A trait method: the types of its arguments, the type of its result, and the owner's code. */
  datatype Method<!S, !V> = Method(types: seq<TypeName>, ret: TypeName, body: (S, seq<V>) -> Outcome<S, V>)

  /** The wire shape of an argument list, which depends on its length. */
  datatype Packed<+V> = Unit | Bare(value: V) | Tuple(values: seq<V>)

  function Pack<V>(args: seq<V>): Packed<V> {
    if args == [] then Unit else if |args| == 1 then Bare(args[0]) else Tuple(args)
  }

  function Unpack<V>(packed: Packed<V>): seq<V> {
    match packed
    case Unit => []
    case Bare(value) => [value]
    case Tuple(values) => values
  }

  /** Argument codecs and reply codecs, each at the types they are used at. */
  datatype Codec<!V> = Codec(
    encodeArgs: Packed<V> -> seq<byte>,
    decodeArgs: (seq<TypeName>, seq<byte>) -> Option<Packed<V>>,
    encodeReply: V -> seq<byte>,
    decodeReply: (TypeName, seq<byte>) -> Option<V>)

  predicate Typed<V>(typeOf: V -> TypeName, args: seq<V>, types: seq<TypeName>) {
    |args| == |types| && forall i :: 0 <= i < |args| ==> typeOf(args[i]) == types[i]
  }

  /** Round trips are assumed of values, of the unit and of tuples of two or more, not of tuples of one. */
  ghost predicate RoundTrips<V(!new)>(codec: Codec<V>, typeOf: V -> TypeName) {
    && (forall packed: Packed<V>, types: seq<TypeName> ::
          Typed(typeOf, Unpack(packed), types) && (packed.Tuple? ==> |packed.values| >= 2) ==>
            codec.decodeArgs(types, codec.encodeArgs(packed)) == Some(packed))
    && (forall v: V :: codec.decodeReply(typeOf(v), codec.encodeReply(v)) == Some(v))
  }

  /** `target` is the trait method that the arm calls; `methodIdx` the index it answers to. */
  datatype StubArm = StubArm(methodIdx: nat, types: seq<TypeName>, ret: TypeName)

  datatype DispatchArm = DispatchArm(methodIdx: nat, types: seq<TypeName>, target: nat)

  function StubArms<S, V>(methods: seq<Method<S, V>>): (r: seq<StubArm>)
    ensures |r| == |methods|
    ensures forall i :: 0 <= i < |methods| ==> r[i] == StubArm(i, methods[i].types, methods[i].ret)
  {
    seq(|methods|, i requires 0 <= i < |methods| => StubArm(i, methods[i].types, methods[i].ret))
  }

  function DispatchArms<S, V>(methods: seq<Method<S, V>>): (r: seq<DispatchArm>)
    ensures |r| == |methods|
    ensures forall i :: 0 <= i < |methods| ==> r[i] == DispatchArm(i, methods[i].types, i)
  {
    seq(|methods|, i requires 0 <= i < |methods| => DispatchArm(i, methods[i].types, i))
  }

  method Expand<S, V>(methods: seq<Method<S, V>>) returns (stubs: seq<StubArm>, arms: seq<DispatchArm>)
    ensures stubs == StubArms(methods) && arms == DispatchArms(methods)
  {
    stubs, arms := [], [];
    for idx := 0 to |methods|
      invariant stubs == StubArms(methods)[..idx] && arms == DispatchArms(methods)[..idx]
    {
      var methodIdx := idx;
      stubs := stubs + [StubArm(methodIdx, methods[idx].types, methods[idx].ret)];
      arms := arms + [DispatchArm(methodIdx, methods[idx].types, idx)];
    }
  }

  /** The first arm whose pattern is `methodIdx`. */
  function Matching(arms: seq<DispatchArm>, methodIdx: nat): Option<DispatchArm> {
    if arms == [] then None
    else if arms[0].methodIdx == methodIdx then Some(arms[0])
    else Matching(arms[1..], methodIdx)
  }

  lemma {:induction false} EachIndexHasItsArm<S, V>(methods: seq<Method<S, V>>, from: nat, methodIdx: nat)
    requires from <= |methods|
    ensures Matching(DispatchArms(methods)[from..], methodIdx)
         == if from <= methodIdx < |methods|
            then Some(DispatchArm(methodIdx, methods[methodIdx].types, methodIdx)) else None
    decreases |methods| - from
  {
    var arms := DispatchArms(methods);
    if from < |methods| {
      assert arms[from..][1..] == arms[from + 1..];
      EachIndexHasItsArm(methods, from + 1, methodIdx);
    }
  }

  // ---------- The owner's side ----------

  /** The generated dispatcher, as the owner cell runs it. */
  function Dispatch<S, V>(codec: Codec<V>, methods: seq<Method<S, V>>, state: S, call: OwnerCell.Call):
    OwnerCell.Behaviour<S>
  {
    match Matching(DispatchArms(methods), call.methodIdx)
    case None => OwnerCell.Returns(state, Err("unknown method_idx"))
    case Some(arm) =>
      if arm.target >= |methods| then OwnerCell.Returns(state, Err("unknown method_idx"))
      else
        match codec.decodeArgs(arm.types, call.args)
        case None => OwnerCell.Returns(state, Err("decode args"))
        case Some(packed) =>
          match methods[arm.target].body(state, Unpack(packed))
          case Returns(state', value) => OwnerCell.Returns(state', Ok(codec.encodeReply(value)))
          case Panics(state', message) => OwnerCell.Panics(state', message)
  }

  /** The owners' code: each dependency is dispatched to the methods of its own trait. */
  function Dispatcher<S, V>(codec: Codec<V>, traits: string -> seq<Method<S, V>>): OwnerCell.Code<S> {
    depId => (state, call) => Dispatch(codec, traits(depId), state, call)
  }

  // ---------- Transports ----------

  datatype RpcError = DispatchError(message: string) | TransportError(message: string)

  datatype HostedReply = HostedReply(requestId: nat, body: Body)

  type Cells<S> = map<string, OwnerCell.Owner<S>>

  /** The parent's side of one request: route it to the owner cell of its dependency. */
  function HandleHostedRpcCall<S>(code: OwnerCell.Code<S>, cells: Cells<S>, r: Request): (Cells<S>, HostedReply) {
    if r.depId in cells then
      var (owner, reply) := OwnerCell.Serve(code(r.depId), cells[r.depId], OwnerCell.Call(r.methodIdx, r.args));
      (cells[r.depId := owner], HostedReply(r.id, BodyOf(reply)))
    else (cells, HostedReply(r.id, UnknownDep(r.depId)))
  }

  /** The worker's side: only a reply to the request that was sent is accepted. */
  function AcceptReply(requestId: nat, reply: HostedReply): Result<seq<byte>, RpcError> {
    if reply.requestId != requestId then Err(TransportError("HostedRpcReply request_id mismatch"))
    else
      match reply.body
      case OkBody(result) => Ok(result)
      case ErrBody(message) => Err(DispatchError(message))
  }

  /** A reply is refused by the transport exactly if it is not to the request that was sent. */
  lemma {:induction false} OnlyOwnRepliesAreAccepted(requestId: nat, reply: HostedReply)
    ensures reply.requestId != requestId <==>
            AcceptReply(requestId, reply).Err? && AcceptReply(requestId, reply).error.TransportError?
    ensures reply.requestId == requestId && reply.body.OkBody? ==>
              AcceptReply(requestId, reply) == Ok(reply.body.result)
  {
  }

  function IpcCall<S>(code: OwnerCell.Code<S>, cells: Cells<S>, r: Request): (Cells<S>, Result<seq<byte>, RpcError>) {
    var (cells', reply) := HandleHostedRpcCall(code, cells, r);
    (cells', AcceptReply(r.id, reply))
  }

  function InProcessCall<S>(code: OwnerCell.Code<S>, cells: Cells<S>, depId: string, methodIdx: nat, args: seq<byte>):
    (Cells<S>, Result<seq<byte>, RpcError>)
  {
    if depId in cells then
      var (owner, reply) := OwnerCell.Serve(code(depId), cells[depId], OwnerCell.Call(methodIdx, args));
      (cells[depId := owner],
       match reply case Ok(result) => Ok(result) case Err(message) => Err(DispatchError(message)))
    else (cells, Err(TransportError("in-process HostedRpc: unknown dep id '" + depId + "'")))
  }

  /**
   The two transports do the same to the owners, and report the same exactly if the dependency is
   known: an unknown one is a dispatch error over the connection and a transport error in process.
   */
  lemma {:induction false} TransportsAgreeExactlyOnKnownDeps<S>(code: OwnerCell.Code<S>, cells: Cells<S>, r: Request)
    ensures IpcCall(code, cells, r).0 == InProcessCall(code, cells, r.depId, r.methodIdx, r.args).0
    ensures IpcCall(code, cells, r).1 == InProcessCall(code, cells, r.depId, r.methodIdx, r.args).1 <==>
            r.depId in cells
    ensures r.depId !in cells ==>
              && IpcCall(code, cells, r) ==
                 (cells, Err(DispatchError(
                   "HostedRpc dispatch: unknown dep id '" + r.depId + "' in parent owner-cell map")))
              && InProcessCall(code, cells, r.depId, r.methodIdx, r.args) ==
                 (cells, Err(TransportError("in-process HostedRpc: unknown dep id '" + r.depId + "'")))
  {
  }

  // ---------- Stubs ----------

  datatype Transport = Ipc(nextRequestId: nat) | InProcess

  datatype Answer<+V> = Answered(value: V) | CallFailed(error: RpcError) | UndecodableReply

  /** The worker's view: where its calls go and the owners behind them. */
  datatype World<S> = World(transport: Transport, cells: Cells<S>)

  function ChannelCall<S>(code: OwnerCell.Code<S>, w: World<S>, depId: string, methodIdx: nat, args: seq<byte>):
    (World<S>, Result<seq<byte>, RpcError>)
  {
    match w.transport
    case Ipc(requestId) =>
      var (cells, reply) := IpcCall(code, w.cells, Request(requestId, depId, methodIdx, args));
      (World(Ipc(requestId + 1), cells), reply)
    case InProcess =>
      var (cells, reply) := InProcessCall(code, w.cells, depId, methodIdx, args);
      (World(InProcess, cells), reply)
  }

  /** The generated body of one stub method. */
  function StubCall<S, V>(codec: Codec<V>, traits: string -> seq<Method<S, V>>, w: World<S>, depId: string,
                          arm: StubArm, args: seq<V>): (World<S>, Answer<V>)
  {
    var argsBytes := codec.encodeArgs(Pack(args));
    var (w', reply) := ChannelCall(Dispatcher(codec, traits), w, depId, arm.methodIdx, argsBytes);
    (w', match reply
         case Err(error) => CallFailed(error)
         case Ok(bytes) =>
           match codec.decodeReply(arm.ret, bytes)
           case None => UndecodableReply
           case Some(value) => Answered(value))
  }

  /** A call of one method of the stub for one dependency. */
  datatype Invocation<+V> = Invocation(depId: string, target: nat, args: seq<V>)

  predicate Exists<S, V>(traits: string -> seq<Method<S, V>>, call: Invocation<V>) {
    call.target < |traits(call.depId)|
  }

  function Target<S, V>(traits: string -> seq<Method<S, V>>, call: Invocation<V>): Method<S, V>
    requires Exists(traits, call)
  {
    traits(call.depId)[call.target]
  }

  predicate CanInvoke<S, V>(typeOf: V -> TypeName, traits: string -> seq<Method<S, V>>, call: Invocation<V>) {
    Exists(traits, call) && Typed(typeOf, call.args, Target(traits, call).types)
  }

  function InvokeStub<S, V>(codec: Codec<V>, traits: string -> seq<Method<S, V>>, w: World<S>, call: Invocation<V>):
    (World<S>, Answer<V>)
    requires Exists(traits, call)
  {
    StubCall(codec, traits, w, call.depId, StubArms(traits(call.depId))[call.target], call.args)
  }

  function StubCalls<S, V>(
        codec: Codec<V>, traits: string -> seq<Method<S, V>>, w: World<S>, calls: seq<Invocation<V>>):
    (World<S>, seq<Answer<V>>)
    requires forall c :: c in calls ==> Exists(traits, c)
    decreases calls
  {
    if calls == [] then (w, [])
    else
      var (w', first) := InvokeStub(codec, traits, w, calls[0]);
      var (w'', rest) := StubCalls(codec, traits, w', calls[1..]);
      (w'', [first] + rest)
  }

  // ---------- The local objects ----------

  /** A direct call on an owner, which refuses service once a method has panicked. */
  function LocalCall<S, V>(traits: string -> seq<Method<S, V>>, o: OwnerCell.Owner<S>, call: Invocation<V>):
    (OwnerCell.Owner<S>, Answer<V>)
    requires Exists(traits, call)
  {
    if o.poisoned then (o, CallFailed(DispatchError("hosted rpc owner poisoned")))
    else
      match Target(traits, call).body(o.state, call.args)
      case Returns(state, value) => (OwnerCell.Owner(state, false), Answered(value))
      case Panics(state, message) =>
        (OwnerCell.Owner(state, true), CallFailed(DispatchError("hosted rpc owner panicked: " + message)))
  }

  function LocalCalls<S, V>(traits: string -> seq<Method<S, V>>, owners: Cells<S>, calls: seq<Invocation<V>>):
    (Cells<S>, seq<Answer<V>>)
    requires forall c :: c in calls ==> c.depId in owners && Exists(traits, c)
    decreases calls
  {
    if calls == [] then (owners, [])
    else
      var (o, first) := LocalCall(traits, owners[calls[0].depId], calls[0]);
      var (owners', rest) := LocalCalls(traits, owners[calls[0].depId := o], calls[1..]);
      (owners', [first] + rest)
  }

  /** Methods return values of their declared types. */
  ghost predicate ReturnsTyped<S(!new), V(!new)>(typeOf: V -> TypeName, traits: string -> seq<Method<S, V>>) {
    forall d: string, m: nat, state: S, args: seq<V> ::
      m < |traits(d)| && traits(d)[m].body(state, args).Returns? ==>
        typeOf(traits(d)[m].body(state, args).value) == traits(d)[m].ret
  }

  ghost function After(t: Transport, calls: nat): Transport {
    if t.Ipc? then Ipc(t.nextRequestId + calls) else InProcess
  }

  /**
   A request that no method of the trait answers, or whose arguments do not decode, is reported to its
   caller and neither runs nor poisons the owner.
   */
  lemma {:induction false} MalformedCallsAreReported<S, V>(
        codec: Codec<V>, traits: string -> seq<Method<S, V>>, cells: Cells<S>, r: Request)
    requires r.depId in cells && !cells[r.depId].poisoned
    requires var methods := traits(r.depId);
             r.methodIdx >= |methods| || codec.decodeArgs(methods[r.methodIdx].types, r.args).None?
    ensures var (cells', answer) := IpcCall(Dispatcher(codec, traits), cells, r);
            && cells' == cells
            && answer == Err(DispatchError(
                 if r.methodIdx >= |traits(r.depId)| then "unknown method_idx" else "decode args"))
  {
    EachIndexHasItsArm(traits(r.depId), 0, r.methodIdx);
    assert DispatchArms(traits(r.depId))[0..] == DispatchArms(traits(r.depId));
  }

  /** The dispatcher, given what the stub sends, runs the method the stub stands for on its arguments. */
  lemma {:induction false} DispatchRunsTheMethod<S, V(!new)>(
        codec: Codec<V>, typeOf: V -> TypeName, methods: seq<Method<S, V>>, state: S, call: Invocation<V>)
    requires RoundTrips(codec, typeOf) && call.target < |methods| &&
             Typed(typeOf, call.args, methods[call.target].types)
    ensures Dispatch(codec, methods, state, OwnerCell.Call(call.target, codec.encodeArgs(Pack(call.args)))) ==
            match methods[call.target].body(state, call.args)
            case Returns(state', value) => OwnerCell.Returns(state', Ok(codec.encodeReply(value)))
            case Panics(state', message) => OwnerCell.Panics(state', message)
  {
    EachIndexHasItsArm(methods, 0, call.target);
    assert DispatchArms(methods)[0..] == DispatchArms(methods);
    var packed := Pack(call.args);
    assert Unpack(packed) == call.args;
    assert codec.decodeArgs(methods[call.target].types, codec.encodeArgs(packed)) == Some(packed);
  }

  lemma {:induction false} StubCallIsLocalCall<S(!new), V(!new)>(
        codec: Codec<V>, typeOf: V -> TypeName, traits: string -> seq<Method<S, V>>, w: World<S>, call: Invocation<V>)
    requires RoundTrips(codec, typeOf) && ReturnsTyped(typeOf, traits)
    requires CanInvoke(typeOf, traits, call) && call.depId in w.cells
    ensures var (w', answer) := InvokeStub(codec, traits, w, call);
            var (owner, local) := LocalCall(traits, w.cells[call.depId], call);
            answer == local && w'.cells == w.cells[call.depId := owner] && w'.transport == After(w.transport, 1)
  {
    var owner, methods := w.cells[call.depId], traits(call.depId);
    DispatchRunsTheMethod(codec, typeOf, methods, owner.state, call);
    var result := methods[call.target].body(owner.state, call.args);
    assert result.Returns? ==> typeOf(result.value) == methods[call.target].ret;
  }

  /**
   Any sequence of stub calls, mixed over any known dependencies and their traits, gives, over either
   transport, the answers of direct calls on poisonable owners, and leaves all owners in the same states.
   Over the connection each call uses up one request number.
   */
  lemma {:induction false} RemoteCallsAreLocalCalls<S(!new), V(!new)>(
        codec: Codec<V>, typeOf: V -> TypeName, traits: string -> seq<Method<S, V>>, w: World<S>,
        calls: seq<Invocation<V>>)
    requires RoundTrips(codec, typeOf) && ReturnsTyped(typeOf, traits)
    requires forall c :: c in calls ==> c.depId in w.cells && Exists(traits, c) && CanInvoke(typeOf, traits, c)
    ensures var (w', answers) := StubCalls(codec, traits, w, calls);
            (w'.cells, answers) == LocalCalls(traits, w.cells, calls) && w'.transport == After(w.transport, |calls|)
    decreases calls
  {
    hide InvokeStub, LocalCall, RoundTrips, ReturnsTyped;
    if calls != [] {
      StubCallIsLocalCall(codec, typeOf, traits, w, calls[0]);
      RemoteCallsAreLocalCalls(codec, typeOf, traits, InvokeStub(codec, traits, w, calls[0]).0, calls[1..]);
    }
  }

  /** Calling the owners' methods directly, one after the other, as long as none panics. */
  function DirectCalls<S, V>(traits: string -> seq<Method<S, V>>, states: map<string, S>, calls: seq<Invocation<V>>):
    Option<(map<string, S>, seq<V>)>
    requires forall c :: c in calls ==> c.depId in states && Exists(traits, c)
    decreases calls
  {
    if calls == [] then Some((states, []))
    else
      match Target(traits, calls[0]).body(states[calls[0].depId], calls[0].args)
      case Panics(_, _) => None
      case Returns(state', value) =>
        match DirectCalls(traits, states[calls[0].depId := state'], calls[1..])
        case None => None
        case Some((last, values)) => Some((last, [value] + values))
  }

  function Unpoisoned<S>(states: map<string, S>): Cells<S> {
    map d | d in states :: OwnerCell.Owner(states[d], false)
  }

  /** With methods that do not panic, local calls are plain calls. */
  lemma {:induction false} LocalCallsAreDirectCalls<S, V>(
        traits: string -> seq<Method<S, V>>, states: map<string, S>, calls: seq<Invocation<V>>)
    requires forall c :: c in calls ==> c.depId in states && Exists(traits, c)
    requires DirectCalls(traits, states, calls).Some?
    ensures var (last, values) := DirectCalls(traits, states, calls).value;
            var (owners, answers) := LocalCalls(traits, Unpoisoned(states), calls);
            && owners == Unpoisoned(last) && |answers| == |values|
            && forall i :: 0 <= i < |values| ==> answers[i] == Answered(values[i])
    decreases calls
  {
    if calls != [] {
      var d := calls[0].depId;
      var state' := Target(traits, calls[0]).body(states[d], calls[0].args).state;
      assert Unpoisoned(states)[d := OwnerCell.Owner(state', false)] == Unpoisoned(states[d := state']);
      LocalCallsAreDirectCalls(traits, states[d := state'], calls[1..]);
    }
  }
}
