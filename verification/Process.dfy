/** The whole process: every wallet connection it ever serves, and the one relay stack they share. A
    connection that has not been accepted yet is one that has taken no step. */
module Process {
  import opened Sequences
  import opened RelayApi
  import C = Connection
  import R = Relay
  import Framing
  import Json
  import Protocol
  import ConnectionRoutes
  import ConnectionCalls

  datatype State = State(
    connections: seq<C.State>,
    relay: R.State,
    ids: map<R.Owner, nat>)   // the relay call made for each call of each connection

  datatype Event =
    | Local(c: nat, local: C.Event)     // a step of one connection that does not touch the relay
    | Start(c: nat)                     // its handler enters the relay
    | Answer(c: nat)                    // the relay returns to its handler
    | CancelCall(c: nat)                // its handler is aborted inside the relay: the call unwinds
    | EndCancelled(c: nat)              // the call has unwound, so the handler has ended
    | Stack(stack: R.Event)             // a step of the relay stack by itself

  function Init(envs: seq<C.Env>, limits: R.Limits): State {
    State(seq(|envs|, i requires 0 <= i < |envs| => C.Init(envs[i])), R.Init(limits), map[])
  }

  /** The relay call of a connection's most recent broadcast. */
  function Newest(s: State, c: nat): R.Owner
    requires c < |s.connections|
  {
    var n := |s.connections[c].relays.calls|;
    R.Owner(c, if n > 0 then n - 1 else 0)
  }

  predicate IsLocal(handler: C.Handler, e: C.Event) {
    match e
    case H(StartRelay) => false
    case H(FinishRelay(_)) => false
    case H(AbortHandler) => !handler.Relaying?
    case _ => true
  }

  predicate IsInternal(e: R.Event) {
    !e.Enter? && !e.Cancel?
  }

  function StepLocal(env: C.Env, s: State, c: nat, e: C.Event): Option<State>
    requires c < |s.connections|
  {
    if !IsLocal(s.connections[c].handler, e) then None
    else match C.Step(env, s.connections[c], e)
      case Some(next) => Some(s.(connections := s.connections[c := next]))
      case None => None
  }

  function StepStart(env: C.Env, s: State, c: nat): Option<State>
    requires c < |s.connections|
  {
    var before := s.connections[c];
    if !before.handler.Admitting? then None
    else match C.HandlerStep(env, before, C.StartRelay)
      case Some(next) =>
        var owner := R.Owner(c, |before.relays.calls|);
        Some(State(s.connections[c := next],
                   R.Step(s.relay, R.Enter(owner, before.handler.call.raw)).value,
                   s.ids[owner := |s.relay.calls|]))
      case None => None
  }

  /** The relay call a handler is waiting for. */
  function Awaited(s: State, c: nat): Option<nat>
    requires c < |s.connections|
  {
    var owner := Newest(s, c);
    if s.connections[c].handler.Relaying? && owner in s.ids && s.ids[owner] < |s.relay.calls|
    then Some(s.ids[owner]) else None
  }

  function StepAnswer(env: C.Env, s: State, c: nat): Option<State>
    requires c < |s.connections|
  {
    match Awaited(s, c)
    case None => None
    case Some(id) =>
      match s.relay.calls[id].phase
      case Finished(Returned(result)) =>
        (match C.HandlerStep(env, s.connections[c], C.FinishRelay(result))
         case Some(next) => Some(s.(connections := s.connections[c := next]))
         case None => None)
      case _ => None
  }

  /** An abort inside the relay drops the call, which gives back what it holds step by step. */
  function StepCancel(s: State, c: nat): Option<State>
    requires c < |s.connections|
  {
    match Awaited(s, c)
    case None => None
    case Some(id) =>
      if C.HandlerTask !in s.connections[c].control.aborts then None
      else match R.Step(s.relay, R.Cancel(id))
        case Some(relay) => Some(s.(relay := relay))
        case None => None
  }

  function StepEndCancelled(env: C.Env, s: State, c: nat): Option<State>
    requires c < |s.connections|
  {
    match Awaited(s, c)
    case None => None
    case Some(id) =>
      if s.relay.calls[id].phase != R.Finished(R.Cancelled) then None
      else match C.HandlerStep(env, s.connections[c], C.AbortHandler)
        case Some(next) => Some(s.(connections := s.connections[c := next]))
        case None => None
  }

  function Step(envs: seq<C.Env>, s: State, e: Event): Option<State>
    requires |envs| == |s.connections|
  {
    match e
    case Local(c, local) => if c < |envs| then StepLocal(envs[c], s, c, local) else None
    case Start(c) => if c < |envs| then StepStart(envs[c], s, c) else None
    case Answer(c) => if c < |envs| then StepAnswer(envs[c], s, c) else None
    case CancelCall(c) => if c < |envs| then StepCancel(s, c) else None
    case EndCancelled(c) => if c < |envs| then StepEndCancelled(envs[c], s, c) else None
    case Stack(stack) =>
      if !IsInternal(stack) then None
      else match R.Step(s.relay, stack)
        case Some(relay) => Some(s.(relay := relay))
        case None => None
  }

  lemma StepKeepsSize(envs: seq<C.Env>, s: State, e: Event)
    requires |envs| == |s.connections| && Step(envs, s, e).Some?
    ensures |Step(envs, s, e).value.connections| == |envs|
  {
    hide C.Step, C.HandlerStep, R.Step;
  }

  function Run(envs: seq<C.Env>, s: State, events: seq<Event>): Option<State>
    requires |envs| == |s.connections|
    decreases |events|
  {
    if events == [] then Some(s)
    else match Step(envs, s, events[0]) {
      case None => None
      case Some(next) => StepKeepsSize(envs, s, events[0]); Run(envs, next, events[1..])
    }
  }

  // ---------------------------------------------------------------- how the parts hang together

  ghost predicate ConnectionKept(env: C.Env, s: C.State) {
    ConnectionRoutes.RoutesKept(env, s) && ConnectionCalls.CallsKept(env, s) && ConnectionCalls.AnswersKept(s)
  }

  /** A relay call belongs to one call of one connection and carries its transaction; while it is
      unfinished that is the connection's newest, and its handler has not ended. */
  ghost predicate CallLinked(s: State, id: nat) {
    id < |s.relay.calls| &&
    var call := s.relay.calls[id];
    var o := call.owner;
    && o in s.ids && s.ids[o] == id
    && o.connection < |s.connections|
    && var conn := s.connections[o.connection];
    && o.position < |conn.relays.calls|
    && call.raw == conn.relays.calls[o.position].raw
    && (!call.phase.Finished? ==> o.position == |conn.relays.calls| - 1 && conn.handler.Relaying?)
  }

  /** Every call of a connection has its relay call, and its answer is the outcome of that relay call. */
  ghost predicate OwnerLinked(s: State, c: nat, p: nat) {
    c < |s.connections| && p < |s.connections[c].relays.calls| &&
    var o := R.Owner(c, p);
    && o in s.ids && s.ids[o] < |s.relay.calls| && s.relay.calls[s.ids[o]].owner == o
    && var r := s.connections[c].relays;
    var index := r.calls[p].frameIndex;
    (index in r.answers ==> s.relay.calls[s.ids[o]].phase == R.Finished(R.Returned(r.answers[index])))
  }

  ghost predicate Linked(s: State) {
    && (forall id | 0 <= id < |s.relay.calls| :: CallLinked(s, id))
    && (forall c, p | 0 <= c < |s.connections| && 0 <= p < |s.connections[c].relays.calls| :: OwnerLinked(s, c, p))
  }

  ghost predicate Kept(envs: seq<C.Env>, limits: R.Limits, s: State) {
    && |envs| == |s.connections|
    && (forall c | 0 <= c < |envs| :: ConnectionKept(envs[c], s.connections[c]))
    && R.Conserved(limits, s.relay) && R.LogKept(s.relay)
    && Linked(s)
  }

  // ---------------------------------------------------------------- what each kind of step keeps

  lemma ConnectionKeptByStep(env: C.Env, s: C.State, e: C.Event)
    requires ConnectionKept(env, s) && C.Step(env, s, e).Some?
    ensures ConnectionKept(env, C.Step(env, s, e).value)
  {
    hide C.Step, ConnectionRoutes.OutwardKept, ConnectionRoutes.InwardKept, ConnectionRoutes.DeliveryKept,
         ConnectionCalls.CallsKept, ConnectionCalls.AnswersKept;
    ConnectionRoutes.OutwardKeptByStep(env, s, e);
    ConnectionRoutes.InwardKeptByStep(env, s, e);
    ConnectionRoutes.DeliveryKeptByStep(env, s, e);
    ConnectionCalls.CallsKeptByStep(env, s, e);
    ConnectionCalls.AnswersKeptByStep(env, s, e);
  }

  /** A local step leaves the connection's dealings with the relay alone. */
  lemma LocalFrame(env: C.Env, s: C.State, e: C.Event)
    requires C.Step(env, s, e).Some? && IsLocal(s.handler, e)
    ensures var t := C.Step(env, s, e).value;
            && t.relays == s.relays
            && (s.handler.Relaying? ==> t.handler == s.handler)
            && (s.handler.Stopped? ==> t.handler.Stopped?)
  {
    hide C.OnRead, C.OnDecide, C.OnWrite, C.OnRelease, C.OnReadUpstream, C.OnMatch, C.WriterStep, C.SupervisorStep,
        C.Enqueue, C.Halt;
    match e
    case H(h) => C.HandlerFrame(env, s, h);
    case F(f) => C.ForwarderFrame(env, s, f);
    case W(_) =>
    case S(_) =>
  }

  lemma LinkedByLocal(env: C.Env, s: State, c: nat, e: C.Event)
    requires Linked(s) && c < |s.connections| && StepLocal(env, s, c, e).Some?
    ensures Linked(StepLocal(env, s, c, e).value)
  {
    hide C.Step;
    LocalFrame(env, s.connections[c], e);
    var t := StepLocal(env, s, c, e).value;
    forall id | 0 <= id < |t.relay.calls| ensures CallLinked(t, id) { assert CallLinked(s, id); }
    forall c', p | 0 <= c' < |t.connections| && 0 <= p < |t.connections[c'].relays.calls|
        ensures OwnerLinked(t, c', p) {
      assert OwnerLinked(s, c', p);
    }
  }

  lemma LinkedByStart(env: C.Env, s: State, c: nat)
    requires Linked(s) && c < |s.connections| && StepStart(env, s, c).Some?
    requires ConnectionCalls.CallsKept(env, s.connections[c]) && ConnectionCalls.AnswersKept(s.connections[c])
    ensures Linked(StepStart(env, s, c).value)
  {
    hide ConnectionCalls.FromFrame, ConnectionCalls.Truthful;
    var t := StepStart(env, s, c).value;
    forall id | 0 <= id < |t.relay.calls| ensures CallLinked(t, id) {
      if id < |s.relay.calls| { assert CallLinked(s, id); }
    }
    forall c', p | 0 <= c' < |t.connections| && 0 <= p < |t.connections[c'].relays.calls|
        ensures OwnerLinked(t, c', p) {
      if c' != c || p < |s.connections[c].relays.calls| {
        assert OwnerLinked(s, c', p);
      } else {
        NewCallUnanswered(env, s.connections[c]);
      }
    }
  }

  lemma NewCallUnanswered(env: C.Env, s: C.State)
    requires ConnectionCalls.CallsKept(env, s) && ConnectionCalls.AnswersKept(s) && s.handler.Admitting?
    ensures s.handler.call.frameIndex !in s.relays.answers
  {
    hide ConnectionCalls.FromFrame, ConnectionCalls.Truthful;
  }

  lemma LinkedByAnswer(env: C.Env, s: State, c: nat)
    requires Linked(s) && c < |s.connections| && StepAnswer(env, s, c).Some?
    requires ConnectionCalls.CallsKept(env, s.connections[c])
    ensures Linked(StepAnswer(env, s, c).value)
  {
    hide ConnectionCalls.FromFrame;
    var t := StepAnswer(env, s, c).value;
    var own := s.ids[Newest(s, c)];
    assert CallLinked(s, own);
    forall id | 0 <= id < |t.relay.calls| ensures CallLinked(t, id) { assert CallLinked(s, id); }
    forall c', p | 0 <= c' < |t.connections| && 0 <= p < |t.connections[c'].relays.calls|
        ensures OwnerLinked(t, c', p) {
      assert OwnerLinked(s, c', p);
    }
  }

  lemma LinkedByCancel(s: State, c: nat)
    requires Linked(s) && c < |s.connections| && StepCancel(s, c).Some?
    ensures Linked(StepCancel(s, c).value)
  {
    var t := StepCancel(s, c).value;
    forall id | 0 <= id < |t.relay.calls| ensures CallLinked(t, id) { assert CallLinked(s, id); }
    forall c', p | 0 <= c' < |t.connections| && 0 <= p < |t.connections[c'].relays.calls|
        ensures OwnerLinked(t, c', p) {
      assert OwnerLinked(s, c', p);
    }
  }

  lemma LinkedByEndCancelled(env: C.Env, s: State, c: nat)
    requires Linked(s) && c < |s.connections| && StepEndCancelled(env, s, c).Some?
    ensures Linked(StepEndCancelled(env, s, c).value)
  {
    hide C.Halt;
    C.HandlerFrame(env, s.connections[c], C.AbortHandler);
    var t := StepEndCancelled(env, s, c).value;
    forall id | 0 <= id < |t.relay.calls| ensures CallLinked(t, id) { assert CallLinked(s, id); }
    forall c', p | 0 <= c' < |t.connections| && 0 <= p < |t.connections[c'].relays.calls|
        ensures OwnerLinked(t, c', p) {
      assert OwnerLinked(s, c', p);
    }
  }

  /** The stack by itself never changes whose call is whose, nor a finished call. */
  lemma StackFrame(s: R.State, e: R.Event, id: nat)
    requires IsInternal(e) && R.Step(s, e).Some? && id < |s.calls|
    ensures var t := R.Step(s, e).value;
            && |t.calls| == |s.calls|
            && t.calls[id].owner == s.calls[id].owner && t.calls[id].raw == s.calls[id].raw
            && (s.calls[id].phase.Finished? ==> t.calls[id] == s.calls[id])
  {
    hide R.Admit, R.Leave, R.Stop;
  }

  lemma StackKeepsCount(s: R.State, e: R.Event)
    requires IsInternal(e) && R.Step(s, e).Some?
    ensures |R.Step(s, e).value.calls| == |s.calls|
  {
    hide R.Admit, R.Leave, R.Stop;
  }

  lemma LinkedByStack(s: State, e: R.Event)
    requires Linked(s) && IsInternal(e) && R.Step(s.relay, e).Some?
    ensures Linked(s.(relay := R.Step(s.relay, e).value))
  {
    hide R.Step;
    var t := s.(relay := R.Step(s.relay, e).value);
    StackKeepsCount(s.relay, e);
    forall id | 0 <= id < |t.relay.calls| ensures CallLinked(t, id) {
      assert CallLinked(s, id);
      StackFrame(s.relay, e, id);
    }
    forall c, p | 0 <= c < |t.connections| && 0 <= p < |t.connections[c].relays.calls| ensures OwnerLinked(t, c, p) {
      assert OwnerLinked(s, c, p);
      StackFrame(s.relay, e, s.ids[R.Owner(c, p)]);
    }
  }

  lemma KeptByStart(envs: seq<C.Env>, limits: R.Limits, s: State, c: nat)
    requires Kept(envs, limits, s) && c < |envs| && StepStart(envs[c], s, c).Some?
    ensures Kept(envs, limits, StepStart(envs[c], s, c).value)
  {
    hide ConnectionKept, Linked, R.Conserved, R.LogKept, R.Step, C.HandlerStep;
    var before := s.connections[c];
    assert ConnectionKept(envs[c], before);
    ConnectionKeptByStep(envs[c], before, C.H(C.StartRelay));
    assert ConnectionCalls.CallsKept(envs[c], before)
        && ConnectionCalls.AnswersKept(before) by { KeptParts(envs[c], before); }
    LinkedByStart(envs[c], s, c);
    var enter := R.Enter(R.Owner(c, |before.relays.calls|), before.handler.call.raw);
    EnterIsPossible(s.relay, enter);
    R.ConservedByStep(limits, s.relay, enter);
    R.LogKeptByStep(s.relay, enter);
  }

  lemma EnterIsPossible(s: R.State, e: R.Event)
    requires e.Enter?
    ensures R.Step(s, e).Some?
  {
  }

  lemma KeptParts(env: C.Env, s: C.State)
    requires ConnectionKept(env, s)
    ensures ConnectionCalls.CallsKept(env, s) && ConnectionCalls.AnswersKept(s)
    ensures ConnectionRoutes.OutwardKept(env, s.handler, s.outward)
  {
  }

  lemma KeptByStep(envs: seq<C.Env>, limits: R.Limits, s: State, e: Event)
    requires Kept(envs, limits, s) && Step(envs, s, e).Some?
    ensures Kept(envs, limits, Step(envs, s, e).value)
  {
    hide ConnectionKept, Linked, R.Conserved, R.LogKept, R.Step, C.HandlerStep, StepStart, C.ForwarderStep,
        C.WriterStep, C.SupervisorStep;
    StepKeepsSize(envs, s, e);
    match e
    case Local(c, local) =>
      ConnectionKeptByStep(envs[c], s.connections[c], local);
      LinkedByLocal(envs[c], s, c, local);
    case Start(c) => KeptByStart(envs, limits, s, c);
    case Answer(c) =>
      var result := s.relay.calls[Awaited(s, c).value].phase.outcome.result;
      ConnectionKeptByStep(envs[c], s.connections[c], C.H(C.FinishRelay(result)));
      KeptParts(envs[c], s.connections[c]);
      LinkedByAnswer(envs[c], s, c);
    case CancelCall(c) =>
      var cancel := R.Cancel(Awaited(s, c).value);
      R.ConservedByStep(limits, s.relay, cancel);
      R.LogKeptByStep(s.relay, cancel);
      LinkedByCancel(s, c);
    case EndCancelled(c) =>
      ConnectionKeptByStep(envs[c], s.connections[c], C.H(C.AbortHandler));
      LinkedByEndCancelled(envs[c], s, c);
    case Stack(stack) =>
      R.ConservedByStep(limits, s.relay, stack);
      R.LogKeptByStep(s.relay, stack);
      LinkedByStack(s, stack);
  }

  lemma {:induction false} KeptByRun(envs: seq<C.Env>, limits: R.Limits, s: State, events: seq<Event>)
    requires Kept(envs, limits, s) && Run(envs, s, events).Some?
    ensures Kept(envs, limits, Run(envs, s, events).value)
    decreases |events|
  {
    hide Step;
    if events != [] {
      KeptByStep(envs, limits, s, events[0]);
      KeptByRun(envs, limits, Step(envs, s, events[0]).value, events[1..]);
    }
  }

  lemma KeptInitially(envs: seq<C.Env>, limits: R.Limits)
    ensures Kept(envs, limits, Init(envs, limits))
  {
    var s := Init(envs, limits);
    forall c | 0 <= c < |envs| ensures ConnectionKept(envs[c], s.connections[c]) {
      ConnectionRoutes.RoutesInitially(envs[c]);
      hide ConnectionRoutes.RoutesKept;
    }
  }

  lemma KeptReachable(envs: seq<C.Env>, limits: R.Limits, events: seq<Event>)
    requires Run(envs, Init(envs, limits), events).Some?
    ensures Kept(envs, limits, Run(envs, Init(envs, limits), events).value)
  {
    hide Run, Kept, Init;
    KeptInitially(envs, limits);
    InitSize(envs, limits);
    KeptByRun(envs, limits, Init(envs, limits), events);
  }

  lemma InitSize(envs: seq<C.Env>, limits: R.Limits)
    ensures |Init(envs, limits).connections| == |envs|
  {
  }

  // ---------------------------------------------------------------- theorems about the process

  /** The wallet frame, by connection and position, for which an adapter invocation was made. */
  function FrameOf(s: State, id: nat): (nat, nat)
    requires CallLinked(s, id)
  {
    var o := s.relay.calls[id].owner;
    (o.connection, s.connections[o.connection].relays.calls[o.position].frameIndex)
  }

  /** Over every run of the process, with overload, shutdown and cancellation anywhere: each adapter
      invocation was made for one wallet frame, which is a well-formed broadcast of exactly that
      transaction, and no frame causes two. */
  lemma OneAdapterCallPerFrame(envs: seq<C.Env>, limits: R.Limits, events: seq<Event>, i: nat, j: nat)
    requires Run(envs, Init(envs, limits), events).Some?
    requires var n := |Run(envs, Init(envs, limits), events).value.relay.log.invoked|; i < n && j < n
    ensures var t := Run(envs, Init(envs, limits), events).value;
            var a, b := t.relay.log.invoked[i], t.relay.log.invoked[j];
            && |t.connections| == |envs| && CallLinked(t, a) && CallLinked(t, b)
            && (FrameOf(t, a) == FrameOf(t, b) ==> i == j)
            && var c := t.relay.calls[a].owner.connection;
            var call := t.connections[c].relays.calls[t.relay.calls[a].owner.position];
            ConnectionCalls.FromFrame(envs[c], t.connections[c].outward.frames, call)
                && call.raw == t.relay.calls[a].raw
  {
    hide Run, ConnectionRoutes.RoutesKept, ConnectionCalls.AnswersKept, R.Conserved, ConnectionCalls.FromFrame,
        R.Logged;
    KeptReachable(envs, limits, events);
    var t := Run(envs, Init(envs, limits), events).value;
    var a, b := t.relay.log.invoked[i], t.relay.log.invoked[j];
    assert a in t.relay.log.invoked && b in t.relay.log.invoked;
    assert CallLinked(t, a) && CallLinked(t, b);
    var c := t.relay.calls[a].owner.connection;
    assert ConnectionKept(envs[c], t.connections[c]);
  }

  /** No public fallback, whatever happens to the relay: on every connection, the bytes sent upstream
      are the wallet's own passthrough frames and never hold a broadcast request. */
  lemma NoPublicFallback(envs: seq<C.Env>, limits: R.Limits, events: seq<Event>, c: nat, ending: Framing.Ending,
      max: nat)
    requires Run(envs, Init(envs, limits), events).Some? && c < |envs|
    ensures var t := Run(envs, Init(envs, limits), events).value;
            && c < |t.connections|
            && var seen := Framing.ReadAll(t.connections[c].outward.bytes, ending, max).0;
            && seen <= ConnectionRoutes.PermittedRequests(envs[c])
            && forall i | 0 <= i < |seen| :: !Protocol.IsBroadcastRequest(envs[c].parseRequest, seen[i])
  {
    hide Run, R.Conserved, R.LogKept, Linked, ConnectionKept, Framing.ReadAll, Protocol.IsBroadcastRequest;
    KeptReachable(envs, limits, events);
    var t := Run(envs, Init(envs, limits), events).value;
    KeptParts(envs[c], t.connections[c]);
    ConnectionRoutes.UpstreamInState(envs[c], t.connections[c], ending, max);
  }

  /** At most one relay call per connection is unfinished at any time. */
  lemma OneCallInFlightPerConnection(envs: seq<C.Env>, limits: R.Limits, events: seq<Event>, a: nat, b: nat)
    requires Run(envs, Init(envs, limits), events).Some?
    requires var calls := Run(envs, Init(envs, limits), events).value.relay.calls;
             && a < |calls| && b < |calls| && calls[a].owner.connection == calls[b].owner.connection
             && !calls[a].phase.Finished? && !calls[b].phase.Finished?
    ensures a == b
  {
    hide Run, ConnectionKept, R.Conserved, R.LogKept;
    KeptReachable(envs, limits, events);
    var t := Run(envs, Init(envs, limits), events).value;
    assert CallLinked(t, a) && CallLinked(t, b);
  }

  /** When a wallet is sent bytes that read as a success reply of its handler, the adapter was invoked
      with the transaction of one of that wallet's own broadcast frames, carrying that id, and
      returned that transaction id. */
  lemma SuccessComesFromTheAdapter(envs: seq<C.Env>, limits: R.Limits, events: seq<Event>, c: nat,
                                   reply: C.Reply, id: Json.Value, transactionId: Bytes) returns (call: nat)
    requires Run(envs, Init(envs, limits), events).Some? && c < |envs|
    requires var t := Run(envs, Init(envs, limits), events).value;
             c < |t.connections| && C.FromHandler(reply) in t.connections[c].delivery.enqueued
    requires Json.IsScalarId(id) && C.EncodeReply(reply) == Protocol.SuccessResponse(id, transactionId)
    ensures var t := Run(envs, Init(envs, limits), events).value;
            && reply.Relayed? && reply.call.id == id
            && ConnectionCalls.FromFrame(envs[c], t.connections[c].outward.frames, reply.call)
            && call in t.relay.log.invoked && call < |t.relay.calls|
            && t.relay.calls[call].owner.connection == c && t.relay.calls[call].raw == reply.call.raw
            && call in t.relay.log.returned && t.relay.log.returned[call] == Ok(transactionId)
  {
    hide Run, ConnectionRoutes.RoutesKept, R.Conserved, Protocol.SuccessResponse, C.EncodeReply,
        ConnectionCalls.FromFrame;
    KeptReachable(envs, limits, events);
    var t := Run(envs, Init(envs, limits), events).value;
    assert ConnectionKept(envs[c], t.connections[c]);
    ConnectionCalls.SuccessInState(envs[c], t.connections[c], reply, id, transactionId);
    var calls := t.connections[c].relays.calls;
    var p :| 0 <= p < |calls| && calls[p] == reply.call;
    assert OwnerLinked(t, c, p);
    call := t.ids[R.Owner(c, p)];
    assert CallLinked(t, call);
    assert R.Logged(t.relay.log, call, t.relay.calls[call].phase);
  }

  /** The answer a connection gets for a call is exactly what came of it: what the adapter returned to that
      very call, whether success, failure or a relay that is switched off; or the plain failure if the
      adapter was not invoked for it. The wallet's reply says just that. */
  lemma AnswerIsTheAdapters(envs: seq<C.Env>, limits: R.Limits, events: seq<Event>, c: nat, p: nat) returns (id: nat)
    requires Run(envs, Init(envs, limits), events).Some? && c < |envs|
    requires var t := Run(envs, Init(envs, limits), events).value;
             && c < |t.connections| && p < |t.connections[c].relays.calls|
             && t.connections[c].relays.calls[p].frameIndex in t.connections[c].relays.answers
    ensures var t := Run(envs, Init(envs, limits), events).value;
            var conn := t.connections[c];
            var call := conn.relays.calls[p];
            var answer := conn.relays.answers[call.frameIndex];
            && id < |t.relay.calls| && t.relay.calls[id].owner == R.Owner(c, p) && t.relay.calls[id].raw == call.raw
            && (id in t.relay.log.invoked ==> id in t.relay.log.returned && answer == t.relay.log.returned[id])
            && (id !in t.relay.log.invoked ==> answer == Failed(false))
            && (forall reply | C.FromHandler(reply) in conn.delivery.enqueued
                               && (reply.Relayed? || reply.RelayFailed?) && reply.call == call ::
                  reply == C.Answer(call, answer))
  {
    hide Run, ConnectionRoutes.RoutesKept, R.Conserved, ConnectionCalls.FromFrame;
    KeptReachable(envs, limits, events);
    var t := Run(envs, Init(envs, limits), events).value;
    assert OwnerLinked(t, c, p);
    id := t.ids[R.Owner(c, p)];
    assert CallLinked(t, id);
    assert R.Logged(t.relay.log, id, t.relay.calls[id].phase);
    assert ConnectionKept(envs[c], t.connections[c]);
    RepliesAreAnswers(envs[c], t.connections[c], t.connections[c].relays.calls[p]);
  }

  lemma RepliesAreAnswers(env: C.Env, conn: C.State, call: C.Call)
    requires ConnectionKept(env, conn) && call.frameIndex in conn.relays.answers
    ensures forall reply | C.FromHandler(reply) in conn.delivery.enqueued
                           && (reply.Relayed? || reply.RelayFailed?) && reply.call == call ::
              reply == C.Answer(call, conn.relays.answers[call.frameIndex])
  {
    hide ConnectionRoutes.RoutesKept, ConnectionCalls.CallsKept;
    forall reply | C.FromHandler(reply) in conn.delivery.enqueued
                   && (reply.Relayed? || reply.RelayFailed?) && reply.call == call
      ensures reply == C.Answer(call, conn.relays.answers[call.frameIndex])
    {
      assert ConnectionCalls.Truthful(conn.relays, C.FromHandler(reply).reply);
    }
  }

  /** Every payload in the relay is no longer than the frame it came from. */
  lemma PayloadsFitFrames(envs: seq<C.Env>, limits: R.Limits, s: State, m: nat)
    requires Kept(envs, limits, s)
    requires forall c | 0 <= c < |envs| ::
               Protocol.DecodingNeverGrows(envs[c].parseRequest) && envs[c].maxFrameBytes <= m
    ensures R.PayloadsAtMost(s.relay, m)
  {
    hide R.Conserved, R.LogKept, ConnectionKept, Protocol.DecodingNeverGrows;
    forall id | 0 <= id < |s.relay.calls| ensures |s.relay.calls[id].raw| <= m {
      assert CallLinked(s, id);
      var o := s.relay.calls[id].owner;
      PayloadFitsFrame(envs[o.connection], s.connections[o.connection], o.position);
    }
  }

  lemma PayloadFitsFrame(env: C.Env, s: C.State, p: nat)
    requires ConnectionKept(env, s) && p < |s.relays.calls| && Protocol.DecodingNeverGrows(env.parseRequest)
    ensures |s.relays.calls[p].raw| <= env.maxFrameBytes
  {
    hide Protocol.DecodingNeverGrows, Protocol.Classify, ConnectionRoutes.RequestsSent, ConnectionRoutes.InwardKept,
        ConnectionRoutes.DeliveryKept,
         ConnectionCalls.AnswersKept, Concat;
    var call := s.relays.calls[p];
    assert ConnectionCalls.FromFrame(env, s.outward.frames, call);
    var frame := s.outward.frames[call.frameIndex];
    assert frame in s.outward.frames;
    Protocol.ClassifyFacts(env.parseRequest, frame);
  }

  lemma NoRefusalStep(envs: seq<C.Env>, limits: R.Limits, s: State, e: Event, m: nat)
    requires Kept(envs, limits, s) && Step(envs, s, e).Some?
    requires forall c | 0 <= c < |envs| ::
               Protocol.DecodingNeverGrows(envs[c].parseRequest) && envs[c].maxFrameBytes <= m
    requires limits.requests * m <= limits.payload && m <= R.U32_MAX
    ensures var t := Step(envs, s, e).value.relay.log;
            t.noPayload == s.relay.log.noPayload && t.tooLarge == s.relay.log.tooLarge
  {
    hide ConnectionKept, Linked, R.Conserved, R.LogKept, C.Step, C.HandlerStep, R.Progress,
        Protocol.DecodingNeverGrows, R.PayloadsAtMost;
    PayloadsFitFrames(envs, limits, s, m);
    if e.Stack? {
      R.NeverRefusedForSize(limits, s.relay, e.stack, m);
    }
  }

  /** If every connection caps its frames at `m` bytes and the request limit times `m` fits the payload
      budget, then in no run is any broadcast refused for its size or for want of payload permits: the
      second semaphore never binds. */
  lemma {:induction false} PayloadBudgetNeverBinds(envs: seq<C.Env>, limits: R.Limits, s: State, events: seq<Event>,
      m: nat)
    requires Kept(envs, limits, s) && Run(envs, s, events).Some?
    requires forall c | 0 <= c < |envs| ::
               Protocol.DecodingNeverGrows(envs[c].parseRequest) && envs[c].maxFrameBytes <= m
    requires limits.requests * m <= limits.payload && m <= R.U32_MAX
    ensures var t := Run(envs, s, events).value.relay.log;
            t.noPayload == s.relay.log.noPayload && t.tooLarge == s.relay.log.tooLarge
    decreases |events|
  {
    hide Step, Protocol.DecodingNeverGrows, ConnectionKept, Linked, R.Conserved, R.LogKept;
    if events != [] {
      NoRefusalStep(envs, limits, s, events[0], m);
      KeptByStep(envs, limits, s, events[0]);
      PayloadBudgetNeverBinds(envs, limits, Step(envs, s, events[0]).value, events[1..], m);
    }
  }
}
