/** Nothing is withheld and nothing ends without cause: every notification and every awaited response is
    forwarded, and the forwarder and the handler stop only for the reasons the protocol gives them. */
module ConnectionEnds {
  import opened Sequences
  import opened Framing
  import opened Protocol
  import opened Pending
  import opened Connection
  import opened ConnectionRoutes
  import opened ConnectionIds
  import opened ConnectionCalls
  import opened ConnectionReplies

  function NotificationTest(env: Env): Bytes -> bool {
    frame => IsNotification(env, frame)
  }

  function AnswerWeight(env: Env, key: Key): Bytes -> nat {
    (frame: Bytes) => if ResponseKey(env, frame) == Some(key) then 1 else 0
  }

  function DropWeight(key: Key): Unsolicited -> nat {
    (d: Unsolicited) => if d.key == key then 1 else 0
  }

  // ---------------------------------------------------------------- what the forwarder owes the wallet

  /** The notifications accepted are the notifications read, in order. */
  ghost predicate NotificationsKept(env: Env, i: Inward) {
    Filter(Texts(i.accepted), NotificationTest(env)) == Filter(i.frames, NotificationTest(env))
  }

  /** The responses to an id that were decided on are those accepted and those dropped. */
  ghost predicate ResponsesKept(env: Env, forwarder: Forwarder, i: Inward, key: Key) {
    Total(Decided(forwarder, i), AnswerWeight(env, key))
        == AcceptedFor(i.accepted, key) + Total(i.dropped, DropWeight(key))
  }

  /** A response was dropped only if its id did not await the upstream at that moment. */
  ghost predicate DropsKept(env: Env, i: Inward) {
    forall d | d in i.dropped ::
      ResponseKey(env, d.frame) == Some(d.key) && !(d.key in d.table && d.table[d.key] == AwaitsUpstream)
  }

  ghost predicate DebtsKept(env: Env, s: State, key: Key) {
    && NotificationsKept(env, s.inward) && ResponsesKept(env, s.forwarder, s.inward, key) && DropsKept(env, s.inward)
    && (s.forwarder.Matching? ==>
          s.inward.frames != [] && s.forwarder.frame == s.inward.frames[|s.inward.frames| - 1]
          && ResponseKey(env, s.forwarder.frame) == Some(s.forwarder.key))
  }

  lemma NoNotification(env: Env, frame: Bytes)
    requires ResponseKey(env, frame).Some?
    ensures !IsNotification(env, frame)
  {
  }

  /** One more frame read: what it is decides what happens to it. */
  lemma DebtsOnRead(env: Env, s: State, key: Key)
    requires DebtsKept(env, s, key) && s.forwarder.Listening?
    ensures DebtsKept(env, OnReadUpstream(env, s), key)
  {
    hide ReadNext, RequestKey, Filter, Total, Texts;
    var (result, rest) := ReadNext(s.inward.rest, env.upstreamEnding, env.maxFrameBytes);
    if result.Frame? {
      var frame, frames := result.frame, s.inward.frames;
      assert (frames + [frame])[..|frames|] == frames;
      FilterSnoc(frames, frame, NotificationTest(env));
      TotalSnoc(frames, frame, AnswerWeight(env, key));
      var o := FromUpstream(frame, None);
      TextsSnoc(s.inward.accepted, o);
      FilterSnoc(Texts(s.inward.accepted), frame, NotificationTest(env));
      TotalSnoc(s.inward.accepted, o, KeyWeight(key));
    }
  }

  lemma DebtsOnMatch(env: Env, s: State, key: Key)
    requires DebtsKept(env, s, key) && s.forwarder.Matching?
    ensures DebtsKept(env, OnMatch(s, s.forwarder.frame, s.forwarder.key), key)
  {
    hide RequestKey, Filter, Total, Texts, ResponseKey, IsNotification;
    var frame, i := s.forwarder.frame, s.inward;
    assert i.frames == Decided(s.forwarder, i) + [frame];
    TotalSnoc(Decided(s.forwarder, i), frame, AnswerWeight(env, key));
    var o := FromUpstream(frame, Some(s.forwarder.key));
    NoNotification(env, frame);
    TextsSnoc(i.accepted, o);
    FilterSnoc(Texts(i.accepted), frame, NotificationTest(env));
    TotalSnoc(i.accepted, o, KeyWeight(key));
    TotalSnoc(i.dropped, Unsolicited(frame, s.forwarder.key, s.ids.pending), DropWeight(key));
  }

  lemma DebtsKeptByStep(env: Env, s: State, e: Event, key: Key)
    requires DebtsKept(env, s, key) && Step(env, s, e).Some?
    ensures DebtsKept(env, Step(env, s, e).value, key)
  {
    hide OnReadUpstream, OnMatch, HandlerStep, WriterStep, SupervisorStep, NotificationsKept, DropsKept, ResponseKey,
        Total,
         Enqueue;
    match e
    case H(h) => HandlerFrame(env, s, h);
    case F(f) =>
      ForwarderFrame(env, s, f);
      match f {
        case ReadUpstream => DebtsOnRead(env, s, key);
        case Match => DebtsOnMatch(env, s, key);
        case _ =>
      }
    case W(_) =>
    case S(_) =>
  }

  // ---------------------------------------------------------------- why tasks end

  /** The next bytes of a stream are a frame. */
  predicate HasFrame(stream: Bytes, ending: Ending, max: nat) {
    ReadNext(stream, ending, max).0.Frame?
  }

  /** A forwarder that has ended was aborted, found the channel closed with a frame in its hand, met no
      further frame, or read one that is neither a notification nor a response to a usable id. */
  ghost predicate ForwarderCause(env: Env, s: State) {
    var frames := s.inward.frames;
    || ForwarderTask in s.control.aborts
    || (InHand(s.forwarder) != [] && s.delivery.writer.Finished?)
    || !HasFrame(s.inward.rest, env.upstreamEnding, env.maxFrameBytes)
    || (frames != [] && !IsNotification(env, frames[|frames| - 1]) && ResponseKey(env, frames[|frames| - 1]).None?)
  }

  predicate SaidNo(outputs: seq<Output>) {
    exists i :: 0 <= i < |outputs| && outputs[i].FromHandler? && IsRejection(outputs[i].reply)
  }

  /** A handler that has stopped was aborted, told to shut down, met the end or the failure of the wallet's
      stream, could not finish a write to the upstream, found the channel closed, or has put a rejection
      in it. */
  ghost predicate HandlerCause(env: Env, s: State) {
    var next := ReadNext(s.outward.rest, env.clientEnding, env.maxFrameBytes).0;
    || HandlerTask in s.control.aborts || s.control.shutdown
    || next.Closed? || next.IoFailure?
    || Unsent(s.handler) != []
    || s.delivery.writer.Finished?
    || SaidNo(s.delivery.enqueued)
  }

  /** A writer that has ended was aborted, failed with part of a frame unsent, or had nothing more to
      deliver and no one left to deliver for. */
  ghost predicate WriterCause(s: State) {
    || WriterTask in s.control.aborts
    || Undelivered(s.delivery.writer) != []
    || (s.delivery.queue == [] && SendersGone(s))
  }

  ghost predicate EndsKept(env: Env, s: State) {
    && (s.delivery.writer.Finished? ==> WriterCause(s))
    && (s.forwarder.Ended? ==> ForwarderCause(env, s))
    && (s.forwarder.Ended? && s.forwarder.unmatched ==> ForwarderTask in s.control.aborts)
    && (s.handler.Stopped? ==> HandlerCause(env, s))
    && (s.handler.Writing? ==> s.handler.sent < |s.handler.frame|)
    && (s.handler.Received? ==> s.handler.frame != [])
    && (s.handler.Replying? ==> (s.handler.fatal <==> IsRejection(s.handler.reply)))
  }

  /** The reasons stay: aborts, shutdown and a finished writer are for good, what a stopped task left
      unread or unsent stays so, and the channel's history only grows. */
  lemma ReasonsStay(env: Env, s: State, e: Event)
    requires Step(env, s, e).Some?
    ensures var t := Step(env, s, e).value;
            && s.control.aborts <= t.control.aborts && (s.control.shutdown ==> t.control.shutdown)
            && (s.delivery.writer.Finished? ==> t.delivery.writer.Finished?)
            && s.delivery.enqueued <= t.delivery.enqueued
            && (s.forwarder.Ended? ==> t.forwarder == s.forwarder && t.inward == s.inward)
            && (s.handler.Stopped? ==> t.handler == s.handler && t.outward == s.outward)
  {
    hide OnRead, OnDecide, OnWrite, OnRelease, OnReadUpstream, OnMatch, Halt, Text;
    match e
    case H(h) => HandlerFrame(env, s, h);
    case F(f) => ForwarderFrame(env, s, f);
    case W(_) =>
    case S(_) =>
  }

  lemma SaidNoStays(before: seq<Output>, after: seq<Output>)
    requires SaidNo(before) && before <= after
    ensures SaidNo(after)
  {
    var i :| 0 <= i < |before| && before[i].FromHandler? && IsRejection(before[i].reply);
    assert after[i] == before[i];
  }

  lemma ForwarderEndsByStep(env: Env, s: State, e: Event)
    requires EndsKept(env, s) && Step(env, s, e).Some?
    ensures var t := Step(env, s, e).value;
            && (t.forwarder.Ended? ==> ForwarderCause(env, t))
            && (t.forwarder.Ended? && t.forwarder.unmatched ==> ForwarderTask in t.control.aborts)
  {
    var t := Step(env, s, e).value;
    ReasonsStay(env, s, e);
    hide ForwarderStep, HandlerStep, WriterStep, SupervisorStep, ForwarderCause;
    if s.forwarder.Ended? {
      ForwarderReasonStays(env, s, t);
    } else if e.F? {
      ForwarderEnds(env, s, e.f);
    } else if e.H? {
      HandlerFrame(env, s, e.h);
    }
  }

  lemma ForwarderReasonStays(env: Env, s: State, t: State)
    requires ForwarderCause(env, s) && t.forwarder == s.forwarder && t.inward == s.inward
    requires s.control.aborts <= t.control.aborts && (s.delivery.writer.Finished? ==> t.delivery.writer.Finished?)
    ensures ForwarderCause(env, t)
  {
    hide ReadNext, ResponseKey, IsNotification;
  }

  lemma ForwarderEnds(env: Env, s: State, e: ForwarderEvent)
    requires ForwarderStep(env, s, e).Some? && !s.forwarder.Ended?
    ensures var t := ForwarderStep(env, s, e).value;
            t.forwarder.Ended? ==> ForwarderCause(env, t)
                                   && (t.forwarder.unmatched ==> ForwarderTask in t.control.aborts)
  {
    hide RequestKey, ReadNext, Enqueue, Accept;
  }

  lemma HandlerEndsByStep(env: Env, s: State, e: HandlerEvent)
    requires EndsKept(env, s) && HandlerStep(env, s, e).Some? && !s.handler.Stopped?
    ensures var t := HandlerStep(env, s, e).value; t.handler.Stopped? ==> HandlerCause(env, t)
  {
    hide OnDecide, ReadNext, EncodeReply;
    var t := HandlerStep(env, s, e).value;
    match e
    case SendReply =>
      if t.handler.Stopped? && HasRoom(s.delivery) {
        assert t.delivery.enqueued[|s.delivery.enqueued|] == FromHandler(s.handler.reply);
      }
    case Decide => AccountedOnDecide(env, s);
    case _ =>
  }

  /** What the handler is about to do next is well formed. */
  ghost predicate HandlerReady(handler: Handler) {
    && (handler.Writing? ==> handler.sent < |handler.frame|)
    && (handler.Received? ==> handler.frame != [])
    && (handler.Replying? ==> (handler.fatal <==> IsRejection(handler.reply)))
  }

  lemma HandlerReadyByStep(env: Env, s: State, e: HandlerEvent)
    requires HandlerReady(s.handler) && HandlerStep(env, s, e).Some?
    ensures HandlerReady(HandlerStep(env, s, e).value.handler)
  {
    hide Classify, RequestKey, Reserve, ReadNext, HeldKey, Unsent, EncodeReply;
    ReadNextFrame(s.outward.rest, env.clientEnding, env.maxFrameBytes);
  }

  lemma EndsKeptByStep(env: Env, s: State, e: Event)
    requires EndsKept(env, s) && QueueKept(s.delivery) && Step(env, s, e).Some?
    ensures EndsKept(env, Step(env, s, e).value)
  {
    var t := Step(env, s, e).value;
    WriterEndsByStep(env, s, e);
    ForwarderEndsByStep(env, s, e);
    ReasonsStay(env, s, e);
    hide ForwarderCause, WriterCause, HandlerStep, ForwarderStep, WriterStep, SupervisorStep, ReadNext, Unsent;
    if s.handler.Stopped? {
      if SaidNo(s.delivery.enqueued) { SaidNoStays(s.delivery.enqueued, t.delivery.enqueued); }
    } else if e.H? {
      HandlerEndsByStep(env, s, e.h);
      HandlerReadyByStep(env, s, e.h);
    } else if e.F? {
      ForwarderFrame(env, s, e.f);
    }
  }

  /** What is queued is the end of what was enqueued, and a frame in the writer's hand is unfinished. */
  ghost predicate QueueKept(d: Delivery) {
    && |d.queue| <= |d.enqueued| && d.queue == d.enqueued[|d.enqueued| - |d.queue|..]
    && (d.writer.Delivering? ==> d.writer.sent < |d.writer.text|)
  }

  lemma QueueOnWriter(d: Delivery, e: WriterEvent, closed: bool, abort: bool)
    requires QueueKept(d) && WriterStep(d, e, closed, abort).Some?
    requires d.queue != [] ==> Text(d.queue[0]) != []
    ensures QueueKept(WriterStep(d, e, closed, abort).value)
  {
    hide Text;
  }

  lemma QueueOnEnqueue(d: Delivery, o: Output)
    requires QueueKept(d)
    ensures QueueKept(Enqueue(d, o))
  {
    var n := |d.enqueued| - |d.queue|;
    assert (d.enqueued + [o])[n..] == d.enqueued[n..] + [o];
  }

  lemma QueueKeptByStep(env: Env, s: State, e: Event)
    requires QueueKept(s.delivery) && InwardKept(env, s) && Step(env, s, e).Some?
    ensures QueueKept(Step(env, s, e).value.delivery)
  {
    hide HandlerStep, ForwarderStep, WriterStep, SupervisorStep, QueueKept, InwardKept;
    match e
    case H(h) =>
      HandlerFrame(env, s, h);
      if h == SendReply { QueueOnSend(env, s); }
    case F(f) =>
      ForwarderFrame(env, s, f);
      if f == Forward { QueueOnForward(env, s); }
    case W(w) =>
      if s.delivery.queue != [] { QueuedIsNotEmpty(env, s); }
      QueueOnWriter(s.delivery, w, SendersGone(s), WriterTask in s.control.aborts);
    case S(_) =>
  }

  lemma QueueOnSend(env: Env, s: State)
    requires QueueKept(s.delivery) && HandlerStep(env, s, SendReply).Some?
    ensures QueueKept(HandlerStep(env, s, SendReply).value.delivery)
  {
    hide QueueKept, Enqueue, OnRead, OnDecide, OnWrite, OnRelease, Halt;
    QueueOnEnqueue(s.delivery, FromHandler(s.handler.reply));
  }

  lemma QueueOnForward(env: Env, s: State)
    requires QueueKept(s.delivery) && ForwarderStep(env, s, Forward).Some?
    ensures QueueKept(ForwarderStep(env, s, Forward).value.delivery)
  {
    hide QueueKept, Enqueue, OnReadUpstream, OnMatch;
    QueueOnEnqueue(s.delivery, s.forwarder.output);
  }

  lemma QueuedIsNotEmpty(env: Env, s: State)
    requires QueueKept(s.delivery) && InwardKept(env, s) && s.delivery.queue != []
    ensures Text(s.delivery.queue[0]) != []
  {
    hide InwardKept, Text;
    assert s.delivery.queue[0] in s.delivery.enqueued;
    EnqueuedTerminated(env, s, s.delivery.queue[0]);
  }

  lemma WriterEndsByStep(env: Env, s: State, e: Event)
    requires EndsKept(env, s) && QueueKept(s.delivery) && Step(env, s, e).Some?
    ensures var t := Step(env, s, e).value; t.delivery.writer.Finished? ==> WriterCause(t)
  {
    ReasonsStay(env, s, e);
    hide OnRead, OnDecide, OnWrite, OnRelease, OnReadUpstream, OnMatch, Halt, Text, ForwarderCause, HandlerCause,
         SupervisorStep;
    match e
    case H(h) => HandlerFrame(env, s, h);
    case F(f) => ForwarderFrame(env, s, f);
    case W(_) =>
    case S(_) =>
  }

  // ---------------------------------------------------------------- over whole runs

  lemma {:induction false} EndsKeptByRun(env: Env, s: State, events: seq<Event>, key: Key)
    requires EndsKept(env, s) && QueueKept(s.delivery) && InwardKept(env, s) && DebtsKept(env, s, key)
    requires Run(env, s, events).Some?
    ensures EndsKept(env, Run(env, s, events).value) && DebtsKept(env, Run(env, s, events).value, key)
    decreases |events|
  {
    hide Step, EndsKept, DebtsKept, InwardKept, QueueKept;
    if events != [] {
      EndsKeptByStep(env, s, events[0]);
      QueueKeptByStep(env, s, events[0]);
      InwardKeptByStep(env, s, events[0]);
      DebtsKeptByStep(env, s, events[0], key);
      EndsKeptByRun(env, Step(env, s, events[0]).value, events[1..], key);
    }
  }

  lemma EndsReachable(env: Env, events: seq<Event>, key: Key)
    requires Run(env, Init(env), events).Some?
    ensures EndsKept(env, Run(env, Init(env), events).value) && DebtsKept(env, Run(env, Init(env), events).value, key)
  {
    hide Run, Step;
    assert Texts([]) == [];
    RoutesInitially(env);
    EndsKeptByRun(env, Init(env), events, key);
  }

  /** In every run, nothing the wallet is owed is withheld: the notifications accepted for it are exactly
      those read from the upstream, in order; and the responses to an id that were decided on are those
      accepted and those dropped, each of which was not awaited from the upstream when it was matched. */
  lemma NothingOwedIsDropped(env: Env, events: seq<Event>, key: Key)
    requires Run(env, Init(env), events).Some?
    ensures var t := Run(env, Init(env), events).value;
            && Filter(Texts(t.inward.accepted), NotificationTest(env)) == Filter(t.inward.frames, NotificationTest(env))
            && Total(Decided(t.forwarder, t.inward), AnswerWeight(env, key))
               == Total(t.inward.accepted, ResponseWeight(env, key)) + Total(t.inward.dropped, DropWeight(key))
            && forall d | d in t.inward.dropped ::
                 ResponseKey(env, d.frame) == Some(d.key) && !(d.key in d.table && d.table[d.key] == AwaitsUpstream)
  {
    hide Run, Filter, Total, ResponseKey, AnswersAccounted, RejectionsKept, EndsKept;
    EndsReachable(env, events, key);
    RepliesReachable(env, events);
    ResponsesCounted(env, Run(env, Init(env), events).value.inward.accepted, key);
  }

  /** In every run the forwarder, the handler and the writer go on until they have one of their reasons to end. In
      particular, bytes that are no frame, a malformed frame, an id in use or a full table stop a handler
      that nothing else stops only with the rejection in the channel. */
  lemma NothingEndsWithoutCause(env: Env, events: seq<Event>)
    requires Run(env, Init(env), events).Some?
    ensures var t := Run(env, Init(env), events).value;
            && (t.forwarder.Ended? ==> ForwarderCause(env, t))
            && (t.handler.Stopped? ==> HandlerCause(env, t))
            && (t.delivery.writer.Finished? ==> WriterCause(t))
  {
    hide Run, ForwarderCause, HandlerCause, WriterCause, DebtsKept;
    EndsReachable(env, events, []);
  }
}
