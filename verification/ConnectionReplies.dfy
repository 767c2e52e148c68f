/** What the wallet is told, and what it is shown of the upstream: every relay call answered once and in
    order, every rejection final and deserved, every forwarded frame a notification or a response to an id
    that was reserved for it. */
module ConnectionReplies {
  import opened Sequences
  import opened Framing
  import opened Json
  import opened Protocol
  import opened Pending
  import opened Connection
  import opened ConnectionRoutes
  import opened ConnectionIds
  import opened ConnectionCalls

  // ---------------------------------------------------------------- answers to broadcasts

  predicate IsAnswer(reply: Reply) {
    reply.Relayed? || reply.RelayFailed?
  }

  /** The calls answered by a sequence of outputs, in order. */
  function AnsweredCalls(outputs: seq<Output>): seq<Call> {
    if outputs == [] then []
    else
      var last := outputs[|outputs| - 1];
      AnsweredCalls(outputs[..|outputs| - 1])
          + (if last.FromHandler? && IsAnswer(last.reply) then [last.reply.call] else [])
  }

  /** The call a handler has made and not yet answered. */
  function Unanswered(handler: Handler): seq<Call> {
    match handler
    case Relaying(call) => [call]
    case Answered(call, _) => [call]
    case Replying(reply, _) => if IsAnswer(reply) then [reply.call] else []
    case _ => []
  }

  /** Relay calls are the answered ones followed by the one in hand; only a handler that has stopped may
      have left its last call unanswered. */
  ghost predicate Accounted(handler: Handler, calls: seq<Call>, answered: seq<Call>) {
    if handler.Stopped? then answered <= calls && |calls| <= |answered| + 1
    else calls == answered + Unanswered(handler)
  }

  lemma AnsweredSnoc(outputs: seq<Output>, o: Output)
    ensures AnsweredCalls(outputs + [o])
            == AnsweredCalls(outputs) + (if o.FromHandler? && IsAnswer(o.reply) then [o.reply.call] else [])
  {
    assert (outputs + [o])[..|outputs|] == outputs;
  }

  lemma AccountedOnDecide(env: Env, s: State)
    requires s.handler.Received?
    ensures Unanswered(OnDecide(env, s, s.handler.index, s.handler.frame).handler) == []
    ensures !OnDecide(env, s, s.handler.index, s.handler.frame).handler.Stopped?
  {
    hide Classify, RequestKey, Reserve;
  }

  lemma AccountedOnRead(env: Env, s: State)
    requires s.handler.Reading?
    ensures Unanswered(OnRead(env, s).handler) == []
  {
    hide ReadNext;
  }

  ghost predicate AnswersAccounted(s: State) {
    Accounted(s.handler, s.relays.calls, AnsweredCalls(s.delivery.enqueued))
  }

  lemma AccountedByHandler(env: Env, s: State, e: HandlerEvent)
    requires AnswersAccounted(s) && HandlerStep(env, s, e).Some?
    ensures AnswersAccounted(HandlerStep(env, s, e).value)
  {
    hide OnRead, OnDecide, AnsweredCalls, HeldKey, Unsent;
    HandlerFrame(env, s, e);
    match e
    case ReadClient => AccountedOnRead(env, s);
    case Decide => AccountedOnDecide(env, s);
    case SendReply => AnsweredSnoc(s.delivery.enqueued, FromHandler(s.handler.reply));
    case _ =>
  }

  lemma AccountedByStep(env: Env, s: State, e: Event)
    requires InwardKept(env, s) && AnswersAccounted(s) && Step(env, s, e).Some?
    ensures AnswersAccounted(Step(env, s, e).value)
  {
    hide HandlerStep, OnReadUpstream, OnMatch, AnsweredCalls, WriterStep, SupervisorStep, InwardKept;
    match e
    case H(h) => AccountedByHandler(env, s, h);
    case F(f) =>
      ForwarderFrame(env, s, f);
      if f == Forward {
        ForwardedIsUpstream(env, s);
        AnsweredSnoc(s.delivery.enqueued, s.forwarder.output);
      }
    case W(w) => WriterKeepsHistory(s.delivery, w, SendersGone(s), WriterTask in s.control.aborts);
    case S(_) =>
  }

  // ---------------------------------------------------------------- rejections

  predicate IsRejection(reply: Reply) {
    !IsAnswer(reply)
  }

  ghost predicate NewestHasId(env: Env, frames: seq<Bytes>, id: Value) {
    frames != [] && RequestKey(id).Some? &&
    var newest := Classify(env.parseRequest, frames[|frames| - 1]);
    newest == Passthrough(Some(id)) || (newest.Broadcast? && newest.id == id)
  }

  /** What a rejection says is so: the bytes that follow the frames read are no frame; or the newest
      frame is malformed in that way; or its id was outstanding when it was looked at; or it was not,
      but the table was full. */
  ghost predicate Deserved(env: Env, o: Outward, refused: Option<Table>, reply: Reply) {
    match reply
    case Unreadable => ReadNext(o.rest, env.clientEnding, env.maxFrameBytes).0 == InvalidData
    case Malformed(error) =>
      o.frames != [] && Classify(env.parseRequest, o.frames[|o.frames| - 1]) == Rejected(error)
    case DuplicateId(id) =>
      NewestHasId(env, o.frames, id) && refused.Some? && RequestKey(id).value in refused.value
    case TooManyPending(id) =>
      NewestHasId(env, o.frames, id) && refused.Some?
      && RequestKey(id).value !in refused.value && |refused.value| == env.maxPendingRequests
    case _ => true
  }

  ghost predicate WellFormed(env: Env, frames: seq<Bytes>) {
    forall i | 0 <= i < |frames| :: !Classify(env.parseRequest, frames[i]).Rejected?
  }

  /** A rejection in the channel is deserved, came from a handler that has stopped, and is followed by
      nothing of the handler's. */
  ghost predicate RejectionAt(env: Env, s: State, i: nat) {
    i < |s.delivery.enqueued| && (s.delivery.enqueued[i].FromHandler? && IsRejection(s.delivery.enqueued[i].reply) ==>
      && s.handler.Stopped? && Deserved(env, s.outward, s.ids.refused, s.delivery.enqueued[i].reply)
      && forall j | i < j < |s.delivery.enqueued| :: s.delivery.enqueued[j].FromUpstream?)
  }

  ghost predicate FramesChecked(env: Env, handler: Handler, o: Outward, refused: Option<Table>) {
    var frames := o.frames;
    && (frames != [] ==> WellFormed(env, frames[..|frames| - 1]))
    && (handler.Received? ==> frames != [] && frames[|frames| - 1] == handler.frame)
    && (!handler.Received? && !Closing(handler) ==> WellFormed(env, frames))
    && (handler.Replying? ==>
          (handler.fatal <==> IsRejection(handler.reply)) && Deserved(env, o, refused, handler.reply))
  }

  ghost predicate RejectionsKept(env: Env, s: State) {
    && FramesChecked(env, s.handler, s.outward, s.ids.refused)
    && forall i | 0 <= i < |s.delivery.enqueued| :: RejectionAt(env, s, i)
  }

  lemma CheckedOnRead(env: Env, s: State)
    requires s.handler.Reading? && FramesChecked(env, s.handler, s.outward, s.ids.refused)
    ensures var t := OnRead(env, s); FramesChecked(env, t.handler, t.outward, t.ids.refused)
  {
    hide ReadNext, Classify;
    var t := OnRead(env, s);
    if t.handler.Received? {
      assert t.outward.frames[..|t.outward.frames| - 1] == s.outward.frames;
    } else if s.outward.frames != [] {
      assert forall i | 0 <= i < |s.outward.frames| - 1 ::
          s.outward.frames[..|s.outward.frames| - 1][i] == s.outward.frames[i];
    }
  }

  lemma CheckedOnDecide(env: Env, s: State)
    requires s.handler.Received? && FramesChecked(env, s.handler, s.outward, s.ids.refused)
    requires |s.ids.pending| <= env.maxPendingRequests
    ensures var t := OnDecide(env, s, s.handler.index, s.handler.frame);
            FramesChecked(env, t.handler, t.outward, t.ids.refused)
  {
    hide Classify, RequestKey;
    var frames, last := s.outward.frames, |s.outward.frames| - 1;
    assert forall i | 0 <= i < last :: frames[i] == frames[..last][i];
  }

  lemma CheckedByHandler(env: Env, s: State, e: HandlerEvent)
    requires FramesChecked(env, s.handler, s.outward, s.ids.refused) && HandlerStep(env, s, e).Some?
    requires |s.ids.pending| <= env.maxPendingRequests
    ensures var t := HandlerStep(env, s, e).value; FramesChecked(env, t.handler, t.outward, t.ids.refused)
  {
    hide OnRead, OnDecide, HeldKey, Unsent, WellFormed, Classify, Deserved;
    HandlerFrame(env, s, e);
    match e
    case ReadClient => CheckedOnRead(env, s);
    case Decide => CheckedOnDecide(env, s);
    case Release => AnswersAreDeserved(env, s.outward, s.ids.refused, Answer(s.handler.call, s.handler.result));
    case _ =>
  }

  lemma AnswersAreDeserved(env: Env, o: Outward, refused: Option<Table>, reply: Reply)
    requires IsAnswer(reply)
    ensures Deserved(env, o, refused, reply)
  {
  }

  lemma RejectionAtOldOutput(env: Env, s: State, e: Event, i: nat)
    requires Step(env, s, e).Some? && RejectionAt(env, s, i) && InwardKept(env, s)
    ensures RejectionAt(env, Step(env, s, e).value, i)
  {
    hide OnRead, OnDecide, OnWrite, OnRelease, OnReadUpstream, OnMatch, SupervisorStep, InwardKept, Deserved, Text;
    var t := Step(env, s, e).value;
    match e
    case H(h) => HandlerFrame(env, s, h);
    case F(f) =>
      ForwarderFrame(env, s, f);
      if f == Forward { ForwardedIsUpstream(env, s); }
    case W(_) =>
    case S(_) =>
  }

  /** A step adds at most one output: the reply in the handler's hand or the frame in the forwarder's. */
  lemma NewOutput(env: Env, s: State, e: Event)
    requires Step(env, s, e).Some? && InwardKept(env, s)
    ensures var t, was := Step(env, s, e).value, s.delivery.enqueued;
            || t.delivery.enqueued == was
            || (was <= t.delivery.enqueued && |t.delivery.enqueued| == |was| + 1
                && t.delivery.enqueued[|was|].FromUpstream?)
            || (s.handler.Replying? && t.delivery.enqueued == was + [FromHandler(s.handler.reply)]
                && t.outward == s.outward && t.ids == s.ids
                && (s.handler.fatal ==> t.handler.Stopped?))
  {
    hide OnRead, OnDecide, OnWrite, OnRelease, OnReadUpstream, OnMatch, SupervisorStep, InwardKept, Text;
    match e
    case H(h) => HandlerFrame(env, s, h);
    case F(f) =>
      ForwarderFrame(env, s, f);
      if f == Forward { ForwardedIsUpstream(env, s); }
    case W(_) =>
    case S(_) =>
  }

  lemma RejectionsKeptByStep(env: Env, s: State, e: Event)
    requires InwardKept(env, s) && RejectionsKept(env, s) && Step(env, s, e).Some?
    requires |s.ids.pending| <= env.maxPendingRequests
    ensures RejectionsKept(env, Step(env, s, e).value)
  {
    hide HandlerStep, ForwarderStep, WriterStep, SupervisorStep, InwardKept, FramesChecked;
    var t := Step(env, s, e).value;
    match e {
      case H(h) => CheckedByHandler(env, s, h);
      case F(f) => ForwarderFrame(env, s, f);
      case _ =>
    }
    NewOutput(env, s, e);
    forall i | 0 <= i < |t.delivery.enqueued| ensures RejectionAt(env, t, i) {
      if i < |s.delivery.enqueued| {
        RejectionAtOldOutput(env, s, e, i);
      } else {
        CheckedReply(env, s);
      }
    }
  }

  lemma CheckedReply(env: Env, s: State)
    requires FramesChecked(env, s.handler, s.outward, s.ids.refused)
    ensures s.handler.Replying? ==>
              (s.handler.fatal <==> IsRejection(s.handler.reply))
              && Deserved(env, s.outward, s.ids.refused, s.handler.reply)
  {
  }

  // ---------------------------------------------------------------- forwarded frames

  /** The id an upstream frame answers, if the envelope is that of a response. */
  function ResponseKey(env: Env, frame: Bytes): Option<Key> {
    match env.parseEnvelope(frame)
    case Some(UpstreamEnvelope(Some(id), None)) => RequestKey(id)
    case _ => None
  }

  predicate IsNotification(env: Env, frame: Bytes) {
    match env.parseEnvelope(frame)
    case Some(UpstreamEnvelope(None, Some(_))) => true
    case _ => false
  }

  predicate Recognised(env: Env, o: Output) {
    o.FromUpstream? && ResponseKey(env, o.frame) == o.key && (o.key.None? ==> IsNotification(env, o.frame))
  }

  ghost predicate Recognisable(env: Env, s: State) {
    && (forall o | o in s.inward.accepted :: Recognised(env, o))
    && (s.forwarder.Matching? ==> ResponseKey(env, s.forwarder.frame) == Some(s.forwarder.key))
  }

  lemma RecognisableByStep(env: Env, s: State, e: Event)
    requires Recognisable(env, s) && Step(env, s, e).Some?
    ensures Recognisable(env, Step(env, s, e).value)
  {
    hide HandlerStep, WriterStep, SupervisorStep, ReadNext, RequestKey, Accept, Enqueue;
    match e
    case H(h) => HandlerFrame(env, s, h);
    case _ =>
  }

  function ResponseWeight(env: Env, key: Key): Output -> nat {
    (o: Output) => if o.FromUpstream? && ResponseKey(env, o.frame) == Some(key) then 1 else 0
  }

  lemma {:induction false} ResponsesCounted(env: Env, accepted: seq<Output>, key: Key)
    requires forall o | o in accepted :: Recognised(env, o)
    ensures Total(accepted, ResponseWeight(env, key)) == AcceptedFor(accepted, key)
  {
    hide ResponseKey;
    if accepted != [] {
      var last := |accepted| - 1;
      ResponsesCounted(env, accepted[..last], key);
      assert accepted[last] in accepted;
    }
  }

  // ---------------------------------------------------------------- over whole runs

  ghost predicate RepliesKept(env: Env, s: State) {
    AnswersAccounted(s) && RejectionsKept(env, s) && Recognisable(env, s)
  }

  lemma TableBounded(env: Env, s: State)
    requires IdsKept(env, s)
    ensures |s.ids.pending| <= env.maxPendingRequests
  {
  }

  lemma {:induction false} RepliesKeptByRun(env: Env, s: State, events: seq<Event>)
    requires InwardKept(env, s) && IdsKept(env, s) && RepliesKept(env, s) && Run(env, s, events).Some?
    ensures RepliesKept(env, Run(env, s, events).value)
    decreases |events|
  {
    hide Step, InwardKept, AnswersAccounted, RejectionsKept, Recognisable, Balanced, IdsKept;
    if events != [] {
      InwardKeptByStep(env, s, events[0]);
      IdsKeptByStep(env, s, events[0]);
      TableBounded(env, s);
      AccountedByStep(env, s, events[0]);
      RejectionsKeptByStep(env, s, events[0]);
      RecognisableByStep(env, s, events[0]);
      RepliesKeptByRun(env, Step(env, s, events[0]).value, events[1..]);
    }
  }

  lemma RepliesReachable(env: Env, events: seq<Event>)
    requires Run(env, Init(env), events).Some?
    ensures RepliesKept(env, Run(env, Init(env), events).value)
  {
    hide Run, Step;
    RoutesInitially(env);
    InitiallyKept(env);
    RepliesKeptByRun(env, Init(env), events);
  }

  /** In every run the broadcasts answered in the channel are the relay calls made, in order and each
      once. While the handler goes on, only the call in its hand is unanswered; when it has stopped, at
      most its last call is. */
  lemma EveryCallAnsweredOnce(env: Env, events: seq<Event>)
    requires Run(env, Init(env), events).Some?
    ensures var t := Run(env, Init(env), events).value;
            Accounted(t.handler, t.relays.calls, AnsweredCalls(t.delivery.enqueued))
  {
    hide Run, Accounted;
    RepliesReachable(env, events);
  }

  /** In every run only the newest frame can be malformed, and then the handler is about to look at it
      or is closing. A rejection in the channel is deserved (unreadable bytes, that newest frame
      malformed, its id outstanding, or the table full when it was looked at), its handler has stopped,
      and nothing of the handler's comes after it. */
  lemma MalformedFrameCloses(env: Env, events: seq<Event>)
    requires Run(env, Init(env), events).Some?
    ensures var t := Run(env, Init(env), events).value;
            && (t.outward.frames != [] ==> WellFormed(env, t.outward.frames[..|t.outward.frames| - 1]))
            && (!t.handler.Received? && !Closing(t.handler) ==> WellFormed(env, t.outward.frames))
            && forall i | 0 <= i < |t.delivery.enqueued| :: RejectionAt(env, t, i)
  {
    hide Run, WellFormed, RejectionAt;
    RepliesReachable(env, events);
  }

  /** In every run each frame forwarded from the upstream is a notification or a response, and there are
      never more responses to an id than times it was reserved for the upstream: nothing unsolicited
      gets through. */
  lemma OnlySolicitedIsForwarded(env: Env, events: seq<Event>, key: Key)
    requires Run(env, Init(env), events).Some?
    ensures var t := Run(env, Init(env), events).value;
            && (forall o | o in t.inward.accepted ::
                  o.FromUpstream? && (IsNotification(env, o.frame) || ResponseKey(env, o.frame).Some?))
            && Total(t.inward.accepted, ResponseWeight(env, key)) <= multiset(t.ids.reserved)[(key, AwaitsUpstream)]
  {
    hide Run, IsNotification, ResponseKey, AnswersAccounted, RejectionsKept;
    RepliesReachable(env, events);
    var t := Run(env, Init(env), events).value;
    ResponsesCounted(env, t.inward.accepted, key);
    ReservationsConserved(env, events, key);
  }
}
