/** Relay calls of one connection: one per broadcast frame, and what the wallet is told about them;
    and the ways a connection stops. */
module ConnectionCalls {
  import opened Sequences
  import opened Framing
  import opened Json
  import opened Protocol
  import opened RelayApi
  import opened Connection
  import opened ConnectionRoutes

  /** The call is exactly the broadcast found in the wallet frame at its position. */
  ghost predicate FromFrame(env: Env, frames: seq<Bytes>, call: Call) {
    && call.frameIndex < |frames|
    && Classify(env.parseRequest, frames[call.frameIndex]) == Broadcast(call.id, call.raw)
    && call.key == RequestKey(call.id)
  }

  ghost predicate LaterThanAll(calls: seq<Call>, index: nat) {
    forall i | 0 <= i < |calls| :: calls[i].frameIndex < index
  }

  ghost predicate Ordered(calls: seq<Call>) {
    forall i, j | 0 <= i < j < |calls| :: calls[i].frameIndex < calls[j].frameIndex
  }

  /** Calls come from distinct frames in order; the handler's current call is the newest. */
  ghost predicate CallsKept(env: Env, s: State) {
    var frames, calls := s.outward.frames, s.relays.calls;
    && (forall i | 0 <= i < |calls| :: FromFrame(env, frames, calls[i]))
    && Ordered(calls)
    && match s.handler
       case Received(index, frame) => index < |frames| && frames[index] == frame && LaterThanAll(calls, index)
       case Admitting(call) => FromFrame(env, frames, call) && LaterThanAll(calls, call.frameIndex)
       case Relaying(call) => calls != [] && call == calls[|calls| - 1]
       case Answered(call, _) => calls != [] && call == calls[|calls| - 1]
       case _ => true
  }

  lemma CallsOnRead(env: Env, s: State)
    requires CallsKept(env, s) && s.handler.Reading?
    ensures CallsKept(env, OnRead(env, s))
  {
    hide ReadNext, Classify, RequestKey;
    var t := OnRead(env, s);
    forall i | 0 <= i < |t.relays.calls| ensures FromFrame(env, t.outward.frames, t.relays.calls[i]) {
      assert FromFrame(env, s.outward.frames, s.relays.calls[i]);
    }
  }

  lemma CallsOnDecide(env: Env, s: State)
    requires CallsKept(env, s) && s.handler.Received?
    ensures CallsKept(env, OnDecide(env, s, s.handler.index, s.handler.frame))
  {
    hide RequestKey, Pending.Reserve, Classify;
  }

  lemma CallsKeptByStep(env: Env, s: State, e: Event)
    requires CallsKept(env, s) && Step(env, s, e).Some?
    ensures CallsKept(env, Step(env, s, e).value)
  {
    hide OnRead, OnDecide, FromFrame, Answer, ForwarderStep, WriterStep, SupervisorStep;
    match e
    case H(h) =>
      HandlerFrame(env, s, h);
      match h {
        case ReadClient => CallsOnRead(env, s);
        case Decide => CallsOnDecide(env, s);
        case _ =>
      }
    case F(f) => ForwarderFrame(env, s, f);
    case W(_) =>
    case S(_) =>
  }

  /** What the wallet is told about a call is what the relay returned for it, and the relay's answer
      for a frame is recorded once. */
  ghost predicate Truthful(r: Relays, reply: Reply) {
    match reply
    case Relayed(call, transactionId) =>
      call in r.calls && call.frameIndex in r.answers && r.answers[call.frameIndex] == Ok(transactionId)
    case RelayFailed(call, disabled) =>
      call in r.calls && call.frameIndex in r.answers && r.answers[call.frameIndex] == Failed(disabled)
    case _ => true
  }

  ghost predicate AnswersKept(s: State) {
    var r := s.relays;
    && (forall o | o in s.delivery.enqueued :: o.FromHandler? ==> Truthful(r, o.reply))
    && (forall index | index in r.answers :: exists i :: 0 <= i < |r.calls| && r.calls[i].frameIndex == index)
    && match s.handler
       case Relaying(call) => call.frameIndex !in r.answers
       case Answered(call, result) => Truthful(r, Answer(call, result))
       case Replying(reply, _) => Truthful(r, reply)
       case _ => true
  }

  lemma AnswersOnStart(env: Env, s: State)
    requires CallsKept(env, s) && AnswersKept(s) && s.handler.Admitting?
    ensures AnswersKept(HandlerStep(env, s, StartRelay).value)
  {
    hide FromFrame;
    var t := HandlerStep(env, s, StartRelay).value;
    forall i | 0 <= i < |s.relays.calls| ensures t.relays.calls[i] == s.relays.calls[i] {
    }
    forall index | index in s.relays.answers
        ensures exists i :: 0 <= i < |t.relays.calls| && t.relays.calls[i].frameIndex == index {
      var i :| 0 <= i < |s.relays.calls| && s.relays.calls[i].frameIndex == index;
      assert t.relays.calls[i].frameIndex == index;
    }
  }

  lemma AnswersOnFinish(env: Env, s: State, result: RelayResult)
    requires CallsKept(env, s) && AnswersKept(s) && s.handler.Relaying?
    ensures AnswersKept(HandlerStep(env, s, FinishRelay(result)).value)
  {
    hide FromFrame;
    var t := HandlerStep(env, s, FinishRelay(result)).value;
    var call := s.handler.call;
    assert t.relays.calls[|t.relays.calls| - 1].frameIndex == call.frameIndex;
    forall o | o in s.delivery.enqueued && o.FromHandler? ensures Truthful(t.relays, o.reply) {
      assert Truthful(s.relays, o.reply);
    }
    forall index | index in t.relays.answers
        ensures exists i :: 0 <= i < |t.relays.calls| && t.relays.calls[i].frameIndex == index {
      if index != call.frameIndex {
        assert index in s.relays.answers;
      }
    }
  }

  lemma AnswersKeptByStep(env: Env, s: State, e: Event)
    requires InwardKept(env, s) && CallsKept(env, s) && AnswersKept(s) && Step(env, s, e).Some?
    ensures AnswersKept(Step(env, s, e).value)
  {
    hide ReadNext, Classify, RequestKey, OnQuery, OnBroadcast, OnReadUpstream, OnMatch, WriterStep, SupervisorStep,
         CallsKept, Truthful, UpstreamRead, Filter;
    match e
    case H(h) =>
      HandlerFrame(env, s, h);
      LocalRepliesTruthful(s.relays, Unreadable);
      match h {
        case StartRelay => AnswersOnStart(env, s);
        case FinishRelay(result) => AnswersOnFinish(env, s, result);
        case Decide => AnswersOnDecide(env, s);
        case _ =>
      }
    case F(f) =>
      ForwarderFrame(env, s, f);
      if f == Forward { ForwardedIsUpstream(env, s); }
    case W(w) => WriterKeepsHistory(s.delivery, w, SendersGone(s), WriterTask in s.control.aborts);
    case S(_) =>
  }

  lemma ForwardedIsUpstream(env: Env, s: State)
    requires InwardKept(env, s) && s.forwarder.Forwarding?
    ensures s.forwarder.output.FromUpstream?
  {
    hide Filter, Subsequence, Texts, Concat;
    assert s.inward.accepted[|s.inward.accepted| - 1] == s.forwarder.output;
  }

  lemma AnswersOnDecide(env: Env, s: State)
    requires AnswersKept(s) && s.handler.Received?
    ensures AnswersKept(OnDecide(env, s, s.handler.index, s.handler.frame))
  {
    hide RequestKey, Pending.Reserve, Classify, Truthful;
    forall reply: Reply | !reply.Relayed? && !reply.RelayFailed? ensures Truthful(s.relays, reply) {
      LocalRepliesTruthful(s.relays, reply);
    }
  }

  lemma LocalRepliesTruthful(r: Relays, reply: Reply)
    requires !reply.Relayed? && !reply.RelayFailed?
    ensures Truthful(r, reply)
  {
  }

  lemma {:induction false} CallsKeptByRun(env: Env, s: State, events: seq<Event>)
    requires RoutesKept(env, s) && CallsKept(env, s) && AnswersKept(s) && Run(env, s, events).Some?
    ensures var t := Run(env, s, events).value; CallsKept(env, t) && AnswersKept(t)
    decreases |events|
  {
    hide Step, OutwardKept, InwardKept, DeliveryKept, CallsKept, AnswersKept;
    if events != [] {
      var m := Step(env, s, events[0]).value;
      OutwardKeptByStep(env, s, events[0]);
      InwardKeptByStep(env, s, events[0]);
      DeliveryKeptByStep(env, s, events[0]);
      CallsKeptByStep(env, s, events[0]);
      AnswersKeptByStep(env, s, events[0]);
      CallsKeptByRun(env, m, events[1..]);
    }
  }

  lemma CallsReachable(env: Env, events: seq<Event>)
    requires Run(env, Init(env), events).Some?
    ensures var t := Run(env, Init(env), events).value; CallsKept(env, t) && AnswersKept(t)
  {
    hide Step, Run, OutwardKept, InwardKept, DeliveryKept;
    RoutesInitially(env);
    CallsKeptByRun(env, Init(env), events);
  }

  /** Over every run, each wallet frame is handed to the relay at most once, and only if it is a
      well-formed broadcast, with exactly its own transaction. */
  lemma OneRelayCallPerFrame(env: Env, events: seq<Event>, i: nat, j: nat)
    requires Run(env, Init(env), events).Some?
    requires var calls := Run(env, Init(env), events).value.relays.calls; i < |calls| && j < |calls|
    ensures var t := Run(env, Init(env), events).value;
            && (t.relays.calls[i].frameIndex == t.relays.calls[j].frameIndex ==> i == j)
            && FromFrame(env, t.outward.frames, t.relays.calls[i])
  {
    hide Run, FromFrame;
    CallsReachable(env, events);
  }

  /** Whenever the wallet is sent bytes that read as a success reply of the handler, for some id and
      transaction id, there is one wallet frame that was a broadcast with that id, its transaction was
      handed to the relay, and the relay returned that transaction id for it. */
  lemma SuccessIsNeverInvented(env: Env, events: seq<Event>, reply: Reply, id: Value, transactionId: Bytes)
    requires Run(env, Init(env), events).Some?
    requires FromHandler(reply) in Run(env, Init(env), events).value.delivery.enqueued
    requires IsScalarId(id) && EncodeReply(reply) == SuccessResponse(id, transactionId)
    ensures var t := Run(env, Init(env), events).value;
            && reply.Relayed? && reply.call.id == id && reply.transactionId == transactionId
            && reply.call in t.relays.calls
            && FromFrame(env, t.outward.frames, reply.call)
            && reply.call.frameIndex in t.relays.answers
            && t.relays.answers[reply.call.frameIndex] == Ok(transactionId)
  {
    hide Run, SuccessResponse, EncodeReply;
    CallsReachable(env, events);
    SuccessInState(env, Run(env, Init(env), events).value, reply, id, transactionId);
  }

  lemma SuccessInState(env: Env, t: State, reply: Reply, id: Value, transactionId: Bytes)
    requires CallsKept(env, t) && AnswersKept(t) && FromHandler(reply) in t.delivery.enqueued
    requires IsScalarId(id) && EncodeReply(reply) == SuccessResponse(id, transactionId)
    ensures reply.Relayed? && reply.call.id == id && reply.transactionId == transactionId
    ensures reply.call in t.relays.calls && FromFrame(env, t.outward.frames, reply.call)
    ensures reply.call.frameIndex in t.relays.answers && t.relays.answers[reply.call.frameIndex] == Ok(transactionId)
  {
    hide SuccessResponse, ErrorResponse, Classify, RequestKey;
    assert Truthful(t.relays, FromHandler(reply).reply);
    if reply.Relayed? {
      assert FromFrame(env, t.outward.frames, reply.call);
      CallIdIsScalar(env, t.outward.frames, reply.call);
      SuccessResponseInjective(id, transactionId, reply.call.id, reply.transactionId);
    } else {
      ErrorReplyIsNotSuccess(reply, id, transactionId);
    }
  }

  lemma CallIdIsScalar(env: Env, frames: seq<Bytes>, call: Call)
    requires FromFrame(env, frames, call)
    ensures IsScalarId(call.id)
  {
  }

  lemma ErrorReplyIsNotSuccess(reply: Reply, id: Value, transactionId: Bytes)
    requires !reply.Relayed?
    ensures EncodeReply(reply) != SuccessResponse(id, transactionId)
  {
    hide SuccessResponse, ErrorResponse;
    var id', code, message :| EncodeReply(reply) == ErrorResponse(id', code, message);
    ErrorIsNotSuccess(id', code, message, id, transactionId);
  }

  // ---------------------------------------------------------------- how a connection stops

  /** The handler has rejected a request, or has stopped altogether. */
  predicate Closing(handler: Handler) {
    handler.Stopped? || (handler.Replying? && handler.fatal)
  }

  lemma ClosingStaysQuiet(env: Env, s: State, e: Event)
    requires Closing(s.handler) && Step(env, s, e).Some?
    ensures var t := Step(env, s, e).value;
            Closing(t.handler) && t.outward == s.outward && t.relays.calls == s.relays.calls
                && t.ids.reserved == s.ids.reserved
  {
    hide OnRead, OnDecide, OnWrite, OnRelease, ReadNext, RequestKey, WriterStep, SupervisorStep;
    match e
    case H(h) => HandlerFrame(env, s, h);
    case F(f) => ForwarderFrame(env, s, f);
    case W(_) =>
    case S(_) =>
  }

  /** After a duplicate id, a full table, a malformed frame or any other end of the handler, no byte
      goes upstream, no relay call is made and no id is reserved, whatever else happens. */
  lemma {:induction false} RejectionIsFinal(env: Env, s: State, events: seq<Event>)
    requires Closing(s.handler) && Run(env, s, events).Some?
    ensures var t := Run(env, s, events).value;
            Closing(t.handler) && t.outward == s.outward && t.relays.calls == s.relays.calls
                && t.ids.reserved == s.ids.reserved
    decreases |events|
  {
    hide Step, Closing;
    if events != [] {
      ClosingStaysQuiet(env, s, events[0]);
      RejectionIsFinal(env, Step(env, s, events[0]).value, events[1..]);
    }
  }

  /** One frame may still be read by a handler that had already looked at the flag. */
  function ReadsLeft(handler: Handler): nat {
    if handler.Reading? then 1 else 0
  }

  lemma ShutdownStep(env: Env, s: State, e: Event)
    requires s.control.shutdown && Step(env, s, e).Some?
    ensures var t := Step(env, s, e).value;
            && t.control.shutdown
            && |t.outward.frames| + ReadsLeft(t.handler) <= |s.outward.frames| + ReadsLeft(s.handler)
  {
    hide ReadNext, Classify, RequestKey, Pending.Reserve, Answer, ForwarderStep, WriterStep, Enqueue;
    match e
    case H(h) => HandlerFrame(env, s, h);
    case F(f) => ForwarderFrame(env, s, f);
    case W(_) =>
    case S(_) =>
  }

  /** Once shutdown is signalled, an answered broadcast is followed by no further wallet request: at
      most the one frame a handler was already reading is still read. */
  lemma {:induction false} ShutdownReadsNoMore(env: Env, s: State, events: seq<Event>)
    requires s.control.shutdown && Run(env, s, events).Some?
    ensures var t := Run(env, s, events).value;
            && t.control.shutdown
            && |t.outward.frames| + ReadsLeft(t.handler) <= |s.outward.frames| + ReadsLeft(s.handler)
    decreases |events|
  {
    hide Step, ReadsLeft;
    if events != [] {
      ShutdownStep(env, s, events[0]);
      ShutdownReadsNoMore(env, Step(env, s, events[0]).value, events[1..]);
    }
  }

  /** The signal itself: from the moment shutdown is signalled, in whatever state the connection is, at most
      the frame being read is still read. */
  lemma SignalEndsReading(env: Env, s: State, after: seq<Event>)
    requires Run(env, s, [S(SignalShutdown)] + after).Some?
    ensures var t := Run(env, s, [S(SignalShutdown)] + after).value;
            && t.control.shutdown
            && |t.outward.frames| + ReadsLeft(t.handler) <= |s.outward.frames| + ReadsLeft(s.handler)
  {
    hide HandlerStep, ForwarderStep, WriterStep, ReadsLeft;
    assert ([S(SignalShutdown)] + after)[1..] == after;
    ShutdownReadsNoMore(env, Step(env, s, S(SignalShutdown)).value, after);
  }

  predicate HasDuty(c: Control, task: Task) {
    c.supervisor.Stopping? && exists i :: 0 <= i < |c.supervisor.duties| && AwaitedTask(c.supervisor.duties[i]) == task
  }

  /** In the branches, each task has ended or is still to be awaited, and whatever is awaited without a
      bound has been asked to stop; the writer is flushed last. A dropped supervisor has asked every
      task to stop whose handle it no longer holds. */
  ghost predicate SupervisorKept(s: State) {
    var c := s.control;
    match c.supervisor
    case Selecting => c.aborts == {}
    case Stopping(duties) =>
      && (forall task :: Terminal(s, task) || HasDuty(c, task))
      && (forall i | 0 <= i < |duties| && duties[i].Await? :: duties[i].task in c.aborts)
      && (forall i | 0 <= i < |duties| && AwaitedTask(duties[i]) == WriterTask :: i == |duties| - 1)
    case Returned => forall task :: Terminal(s, task)
    case Dropping(handles) => forall task :: task in c.aborts || task in handles
  }

  /** Unless the connection is cancelled, the writer is only cut off once both of its senders are gone. */
  ghost predicate ControlKept(s: State) {
    && SupervisorKept(s)
    && (WriterTask in s.control.aborts && !s.control.supervisor.Dropping? ==>
          Terminal(s, HandlerTask) && Terminal(s, ForwarderTask))
  }

  lemma TerminalIsStable(env: Env, s: State, e: Event, task: Task)
    requires Terminal(s, task) && Step(env, s, e).Some?
    ensures Terminal(Step(env, s, e).value, task)
  {
    hide OnRead, OnDecide, OnWrite, OnRelease, OnReadUpstream, OnMatch, Halt, Enqueue, Text;
    match e
    case H(h) => HandlerFrame(env, s, h);
    case F(f) => ForwarderFrame(env, s, f);
    case W(_) =>
    case S(_) =>
  }

  lemma ControlKeptByStep(env: Env, s: State, e: Event)
    requires ControlKept(s) && Step(env, s, e).Some?
    ensures ControlKept(Step(env, s, e).value)
  {
    hide HandlerStep, ForwarderStep, WriterStep, Terminal;
    forall task | Terminal(s, task) ensures Terminal(Step(env, s, e).value, task) { TerminalIsStable(env, s, e, task); }
    match e
    case H(h) => HandlerFrame(env, s, h);
    case F(f) => ForwarderFrame(env, s, f);
    case W(_) =>
    case S(v) => ControlOnSupervisor(s, v);
  }

  lemma ControlOnSupervisor(s: State, e: SupervisorEvent)
    requires ControlKept(s) && SupervisorStep(s, e).Some?
    ensures ControlKept(s.(control := SupervisorStep(s, e).value))
  {
    hide Terminal;
    var t := s.(control := SupervisorStep(s, e).value);
    forall task ensures Terminal(t, task) <==> Terminal(s, task) { TerminalIgnoresControl(s, t.control, task); }
    match e
    case Observe(first) => DutiesCoverSiblings(t.control, first);
    case Awaited => DutyDone(s, t);
    case FlushTimeout => FlushIsLast(s, t);
    case Drop => HandlesAreAll(t.control);
    case _ =>
  }

  lemma TerminalIgnoresControl(s: State, c: Control, task: Task)
    ensures Terminal(s.(control := c), task) <==> Terminal(s, task)
  {
  }

  lemma DutiesCoverSiblings(c: Control, first: Task)
    requires c.supervisor == Stopping(DutiesAfter(first))
    ensures forall task :: task == first || HasDuty(c, task)
  {
    forall task | task != first ensures HasDuty(c, task) {
      assert AwaitedTask(c.supervisor.duties[0]) == task || AwaitedTask(c.supervisor.duties[1]) == task;
    }
  }

  /** A task that was awaited has ended; the others are still to be awaited. */
  lemma DutyDone(s: State, t: State)
    requires ControlKept(s) && SupervisorStep(s, Awaited) == Some(t.control)
    ensures forall task :: Terminal(s, task) || HasDuty(t.control, task)
  {
    hide Terminal;
    var before, after := s.control.supervisor.duties, t.control.supervisor.duties;
    forall task | !Terminal(s, task) ensures HasDuty(t.control, task) {
      var i :| 0 <= i < |before| && AwaitedTask(before[i]) == task;
      assert after[i - 1] == before[i];
    }
  }

  /** When the time to flush is up, only the writer is left to await. */
  lemma FlushIsLast(s: State, t: State)
    requires ControlKept(s) && SupervisorStep(s, FlushTimeout) == Some(t.control)
    ensures Terminal(s, HandlerTask) && Terminal(s, ForwarderTask)
    ensures forall task :: Terminal(s, task) || HasDuty(t.control, task)
  {
    hide Terminal;
    var duties := s.control.supervisor.duties;
    assert AwaitedTask(duties[0]) == WriterTask && |duties| == 1;
    forall task ensures task == WriterTask || Terminal(s, task) {
      if HasDuty(s.control, task) {
        var i :| 0 <= i < |duties| && AwaitedTask(duties[i]) == task;
      }
    }
    assert AwaitedTask(t.control.supervisor.duties[0]) == WriterTask;
  }

  lemma HandlesAreAll(c: Control)
    requires c.supervisor == Dropping([HandlerTask, ForwarderTask, WriterTask])
    ensures forall task :: task in c.supervisor.handles
  {
    forall task ensures task in c.supervisor.handles {
      match task
      case HandlerTask => assert c.supervisor.handles[0] == task;
      case ForwarderTask => assert c.supervisor.handles[1] == task;
      case WriterTask => assert c.supervisor.handles[2] == task;
    }
  }

  lemma {:induction false} ControlKeptByRun(env: Env, s: State, events: seq<Event>)
    requires ControlKept(s) && Run(env, s, events).Some?
    ensures ControlKept(Run(env, s, events).value)
    decreases |events|
  {
    hide Step, ControlKept;
    if events != [] {
      ControlKeptByStep(env, s, events[0]);
      ControlKeptByRun(env, Step(env, s, events[0]).value, events[1..]);
    }
  }

  /** In every run: whichever task ended first, a normal return of the supervising function leaves all
      three ended, and a task it waits for without a bound has been asked to stop. Once a cancelled one
      has dropped its handles, all three have been asked to stop. The writer is cut off early only by
      such a cancellation. */
  lemma ReturnLeavesNothingRunning(env: Env, events: seq<Event>, task: Task)
    requires Run(env, Init(env), events).Some?
    ensures var t := Run(env, Init(env), events).value;
            var supervisor := t.control.supervisor;
            && (supervisor.Returned? ==> Terminal(t, task))
            && (supervisor == Dropping([]) ==> task in t.control.aborts)
            && (supervisor.Stopping? && supervisor.duties != [] && supervisor.duties[0] == Await(task) ==>
                  task in t.control.aborts)
            && (WriterTask in t.control.aborts && !supervisor.Dropping? ==>
                  Terminal(t, HandlerTask) && Terminal(t, ForwarderTask))
  {
    hide Run, Step;
    ControlKeptByRun(env, Init(env), events);
  }
}
