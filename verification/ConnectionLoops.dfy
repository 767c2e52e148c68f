/** The loops of the client handler, the upstream forwarder and the wallet writer as the code runs them,
    in place. Left to itself, each is a run of the transition system, so what is proved of every run holds of it. */
module ConnectionLoops {
  import opened Sequences
  import opened Framing
  import opened Protocol
  import opened Pending
  import opened RelayApi
  import opened Connection
  import opened ConnectionRoutes
  import opened LiveConnection

  ghost predicate Feeds(reader: BufferedReader, rest: Bytes, ending: Ending)
    reads reader
  {
    reader.Valid() && reader.Stream() == rest && reader.ending == ending
  }

  /** A send that has to wait: the channel is full and its receiver is still there. */
  predicate Blocked(d: Delivery) {
    !HasRoom(d) && !d.writer.Finished?
  }

  // ---------------------------------------------------------------- the handler

  /** One frame off the wallet's socket. */
  method ReadClientFrame(c: LiveConnection, reader: BufferedReader)
    requires c.handler.Reading? && Feeds(reader, c.outward.rest, c.env.clientEnding)
    modifies c`handler, c`outward, reader
    ensures Step(c.env, old(c.View()), H(ReadClient)) == Some(c.View())
    ensures c.handler.Received? || c.handler.Stopped? || (c.handler.Replying? && c.handler.fatal)
    ensures c.handler.Received? ==>
              c.handler.frame != [] && Feeds(reader, c.outward.rest, c.env.clientEnding)
                  && |c.outward.rest| < |old(c.outward).rest|
  {
    hide ReadNext;
    ReadNextFrame(c.outward.rest, c.env.clientEnding, c.env.maxFrameBytes);
    var result := ReadFrame(reader, c.env.maxFrameBytes);
    match result
    case Frame(frame) =>
      assert reader.Stream() == c.outward.rest[|frame|..];
      c.handler := Received(|c.outward.frames|, frame);
      c.outward := c.outward.(rest := c.outward.rest[|frame|..], frames := c.outward.frames + [frame]);
    case InvalidData => c.handler := Replying(Unreadable, true);
    case _ => c.handler := Halt(c.handler);
  }

  /** Sends a reply into the channel, unless that has to wait. */
  method TrySend(c: LiveConnection) returns (ghost events: seq<Event>)
    requires c.handler.Replying?
    modifies c`handler, c`delivery
    ensures Run(c.env, old(c.View()), events) == Some(c.View())
    ensures c.handler.Stopped? || (c.handler.Polling? && !old(c.handler).fatal)
            || (c.handler.Replying? && Blocked(c.delivery))
  {
    hide Run, OnRead, OnDecide, OnWrite, OnRelease, ForwarderStep, WriterStep, SupervisorStep;
    ghost var s := c.View();
    RunNone(c.env, s);
    events := [];
    if !Blocked(c.delivery) {
      if HasRoom(c.delivery) {
        c.delivery := Enqueue(c.delivery, FromHandler(c.handler.reply));
        c.handler := if c.handler.fatal then Halt(c.handler) else Polling;
      } else {
        c.handler := Halt(c.handler);
      }
      RunOne(c.env, s, H(SendReply));
      events := [H(SendReply)];
    }
  }

  /** The private relay is entered, and returns unless it gives no answer. */
  method CallRelay(c: LiveConnection, relay: (nat, Bytes) -> Option<RelayResult>) returns (ghost events: seq<Event>)
    requires c.handler.Admitting?
    modifies c`handler, c`relays
    ensures c.handler.Answered? || c.handler.Relaying?
    ensures Run(c.env, old(c.View()), events) == Some(c.View())
  {
    hide Run, OnRead, OnDecide, OnWrite, OnRelease, ForwarderStep, WriterStep, SupervisorStep;
    ghost var s := c.View();
    var call := c.handler.call;
    c.handler := Relaying(call);
    c.relays := c.relays.(calls := c.relays.calls + [call]);
    RunOne(c.env, s, H(StartRelay));
    events := [H(StartRelay)];
    ghost var entered := c.View();
    var answer := relay(call.frameIndex, call.raw);
    if answer.Some? {
      var result := answer.value;
      c.relays := c.relays.(answers := c.relays.answers[call.frameIndex := result]);
      c.handler := Answered(call, result);
      RunOne(c.env, entered, H(FinishRelay(result)));
      RunAppend(c.env, s, events, [H(FinishRelay(result))]);
      events := events + [H(FinishRelay(result))];
    }
  }

  /** The handler waits: for its relay call, or for room in the channel. */
  predicate Waits(handler: Handler, d: Delivery) {
    handler.Relaying? || (handler.Replying? && Blocked(d))
  }

  /** A broadcast from its reservation to its reply. */
  method RelayAndReply(c: LiveConnection, relay: (nat, Bytes) -> Option<RelayResult>) returns (ghost events: seq<Event>)
    requires c.handler.Admitting?
    modifies c, c.table
    ensures c.outward == old(c.outward)
    ensures Run(c.env, old(c.View()), events) == Some(c.View())
    ensures c.handler.Polling? || c.handler.Stopped? || Waits(c.handler, c.delivery)
  {
    hide Run, Step, Blocked;
    ghost var s := c.View();
    ghost var called := CallRelay(c, relay);
    if c.handler.Relaying? {
      return called;
    }
    ghost var answered := c.View();
    c.ReleaseAnswered();
    assert Step(c.env, answered, H(Release)) == Some(c.View()) by { ReleaseIsStep(c.env, answered); }
    RunOne(c.env, answered, H(Release));
    RunAppend(c.env, s, called, [H(Release)]);
    ghost var released := called + [H(Release)];
    ghost var sent := TrySend(c);
    RunAppend(c.env, s, released, sent);
    events := released + sent;
  }

  lemma ReleaseIsStep(env: Env, s: State)
    requires s.handler.Answered?
    ensures Step(env, s, H(Release)) == Some(OnRelease(s, s.handler.call, s.handler.result))
  {
    hide OnRead, OnDecide, OnRelease, OnWrite, OnReply, ForwarderStep, WriterStep, SupervisorStep;
  }

  lemma DecideIsStep(env: Env, s: State)
    requires s.handler.Received?
    ensures Step(env, s, H(Decide)) == Some(OnDecide(env, s, s.handler.index, s.handler.frame))
  {
    hide OnRead, OnDecide, OnRelease, OnWrite, OnReply, ForwarderStep, WriterStep, SupervisorStep;
  }

  lemma WriteIsStep(env: Env, s: State, n: nat)
    requires s.handler.Writing? && 0 < n && s.handler.sent + n <= |s.handler.frame|
    ensures Step(env, s, H(WriteUpstream(n))) == Some(OnWrite(s, s.handler.frame, s.handler.sent, n))
  {
    hide OnRead, OnDecide, OnRelease, OnWrite, OnReply, ForwarderStep, WriterStep, SupervisorStep;
  }

  lemma FailIsStep(env: Env, s: State)
    requires s.handler.Writing?
    ensures Step(env, s, H(FailWrite)) == Some(s.(handler := Halt(s.handler)))
  {
    hide OnRead, OnDecide, OnRelease, OnWrite, OnReply, ForwarderStep, WriterStep, SupervisorStep;
  }

  /** `write_all` on the upstream: the socket takes some bytes at a time, or none when it fails. Either
      all the rest of the request goes out, or the handler ends with part of it sent. */
  method WriteAllUpstream(c: LiveConnection, amounts: nat -> nat) returns (ghost events: seq<Event>)
    requires c.handler.Writing? && c.handler.sent < |c.handler.frame|
    modifies c`handler, c`outward
    ensures Run(c.env, old(c.View()), events) == Some(c.View())
    ensures c.handler.Polling? || c.handler.Stopped?
    ensures var o, h := old(c.outward), old(c.handler);
            && c.outward == o.(bytes := c.outward.bytes)
            && o.bytes <= c.outward.bytes <= o.bytes + h.frame[h.sent..]
            && (c.handler.Polling? ==> c.outward.bytes == o.bytes + h.frame[h.sent..])
  {
    hide Run, Step, Halt;
    ghost var s := c.View();
    var frame, start := c.handler.frame, c.handler.sent;
    RunNone(c.env, s);
    events := [];
    while c.handler.Writing?
      invariant Run(c.env, s, events) == Some(c.View())
      invariant c.handler.Polling?
                || (c.handler.Writing? && c.handler.frame == frame && start <= c.handler.sent < |frame|)
      invariant c.outward == s.outward.(bytes := s.outward.bytes
                + frame[start..if c.handler.Writing? then c.handler.sent else |frame|])
      decreases if c.handler.Writing? then |frame| - c.handler.sent else 0
    {
      ghost var before := c.View();
      var sent := c.handler.sent;
      var amount := amounts(sent);
      if amount == 0 {
        FailIsStep(c.env, before);
        c.handler := Halt(c.handler);
        RunOne(c.env, before, H(FailWrite));
        RunAppend(c.env, s, events, [H(FailWrite)]);
        events := events + [H(FailWrite)];
        assert c.handler.Stopped? by { HaltStops(before.handler); }
        return;
      }
      var n := 1 + (amount - 1) % (|frame| - sent);
      WriteIsStep(c.env, before, n);
      assert frame[start..sent] + frame[sent..sent + n] == frame[start..sent + n];
      c.outward := c.outward.(bytes := c.outward.bytes + frame[sent..sent + n]);
      c.handler := if sent + n == |frame| then Polling else Writing(frame, sent + n);
      RunOne(c.env, before, H(WriteUpstream(n)));
      RunAppend(c.env, s, events, [H(WriteUpstream(n))]);
      events := events + [H(WriteUpstream(n))];
    }
  }

  lemma HaltStops(handler: Handler)
    ensures Halt(handler).Stopped?
  {
  }

  /** What becomes of one frame: written upstream, relayed and answered, or refused. */
  method HandleFrame(c: LiveConnection, relay: (nat, Bytes) -> Option<RelayResult>,
      amounts: nat -> nat) returns (ghost events: seq<Event>)
    requires c.handler.Received? && c.handler.frame != []
    modifies c, c.table
    ensures c.outward.rest == old(c.outward.rest)
    ensures Run(c.env, old(c.View()), events) == Some(c.View())
    ensures c.handler.Polling? || c.handler.Stopped? || Waits(c.handler, c.delivery)
  {
    hide Run, Step, Blocked, OnDecide;
    ghost var s := c.View();
    c.DecideFrame();
    ghost var decided := c.View();
    assert Step(c.env, s, H(Decide)) == Some(decided) by { DecideIsStep(c.env, s); }
    RunOne(c.env, s, H(Decide));
    ghost var more;
    if c.handler.Writing? {
      more := WriteAllUpstream(c, amounts);
    } else if c.handler.Admitting? {
      more := RelayAndReply(c, relay);
    } else {
      more := TrySend(c);
    }
    RunAppend(c.env, s, [H(Decide)], more);
    events := [H(Decide)] + more;
  }

  lemma PollIsStep(env: Env, s: State)
    requires s.handler.Polling?
    ensures Step(env, s, H(Poll)) == Some(s.(handler := if s.control.shutdown then Halt(s.handler) else Reading))
  {
    hide OnRead, OnDecide, OnRelease, OnWrite, OnReply, ForwarderStep, WriterStep, SupervisorStep;
  }

  /** One turn of the loop: look at the shutdown flag, read a frame, deal with it. */
  method HandleNext(c: LiveConnection, reader: BufferedReader, relay: (nat, Bytes) -> Option<RelayResult>,
      amounts: nat -> nat)
    returns (ghost events: seq<Event>)
    requires c.handler.Polling? && Feeds(reader, c.outward.rest, c.env.clientEnding)
    modifies c, c.table, reader
    ensures Run(c.env, old(c.View()), events) == Some(c.View())
    ensures c.handler.Polling? || c.handler.Stopped? || Waits(c.handler, c.delivery)
    ensures c.handler.Polling? ==>
              Feeds(reader, c.outward.rest, c.env.clientEnding) && |c.outward.rest| < |old(c.outward).rest|
  {
    hide Run, Step, Blocked;
    ghost var s := c.View();
    PollIsStep(c.env, s);
    RunOne(c.env, s, H(Poll));
    events := [H(Poll)];
    if c.control.shutdown {
      c.handler := Halt(c.handler);
      return;
    }
    c.handler := Reading;
    ghost var reading := c.View();
    ReadClientFrame(c, reader);
    RunOne(c.env, reading, H(ReadClient));
    RunAppend(c.env, s, events, [H(ReadClient)]);
    events := events + [H(ReadClient)];
    ghost var more := [];
    if c.handler.Received? {
      more := HandleFrame(c, relay, amounts);
    } else if c.handler.Replying? {
      more := TrySend(c);
    } else {
      RunNone(c.env, c.View());
    }
    RunAppend(c.env, s, events, more);
    events := events + more;
  }

  /** The handler's loop, with the private relay as a function of the frame's position and payload. It
      ends, or waits for the relay or for room in the channel; until then it has made one run of the
      connection. */
  method HandleClientFrames(c: LiveConnection, reader: BufferedReader, relay: (nat, Bytes) -> Option<RelayResult>,
      amounts: nat -> nat)
    returns (ghost events: seq<Event>)
    requires c.handler.Polling? && Feeds(reader, c.outward.rest, c.env.clientEnding)
    modifies c, c.table, reader
    ensures Run(c.env, old(c.View()), events) == Some(c.View())
    ensures c.handler.Stopped? || Waits(c.handler, c.delivery)
  {
    hide Step, Run, Blocked;
    ghost var start := c.View();
    events := [];
    RunNone(c.env, start);
    while c.handler.Polling?
      invariant Run(c.env, start, events) == Some(c.View())
      invariant c.handler.Polling? ==> Feeds(reader, c.outward.rest, c.env.clientEnding)
      invariant c.handler.Polling? || c.handler.Stopped? || Waits(c.handler, c.delivery)
      decreases c.handler.Polling?, |c.outward.rest|
    {
      ghost var turn := HandleNext(c, reader, relay, amounts);
      RunAppend(c.env, start, events, turn);
      events := events + turn;
    }
  }

  // ---------------------------------------------------------------- the forwarder

  /** One upstream frame: a response to be matched, a notification, or the end. */
  method ReadUpstreamFrame(c: LiveConnection, reader: BufferedReader)
    requires c.forwarder.Listening? && Feeds(reader, c.inward.rest, c.env.upstreamEnding)
    modifies c`forwarder, c`inward, reader
    ensures Step(c.env, old(c.View()), F(ReadUpstream)) == Some(c.View())
    ensures c.forwarder.Matching? || c.forwarder.Forwarding? || c.forwarder.Ended?
    ensures !c.forwarder.Ended? ==>
              Feeds(reader, c.inward.rest, c.env.upstreamEnding) && |c.inward.rest| < |old(c.inward).rest|
  {
    hide ReadNext, RequestKey, HandlerStep, WriterStep, SupervisorStep, OnMatch;
    ReadNextFrame(c.inward.rest, c.env.upstreamEnding, c.env.maxFrameBytes);
    var result := ReadFrame(reader, c.env.maxFrameBytes);
    if !result.Frame? {
      c.forwarder := Ended([], false);
      return;
    }
    var frame := result.frame;
    assert reader.Stream() == c.inward.rest[|frame|..];
    c.inward := c.inward.(rest := c.inward.rest[|frame|..], frames := c.inward.frames + [frame]);
    match c.env.parseEnvelope(frame)
    case Some(UpstreamEnvelope(Some(id), None)) =>
      var key := RequestKey(id);
      c.forwarder := if key.Some? then Matching(frame, key.value) else Ended([], false);
    case Some(UpstreamEnvelope(None, Some(_))) =>
      c.inward := c.inward.(accepted := c.inward.accepted + [FromUpstream(frame, None)]);
      c.forwarder := Forwarding(FromUpstream(frame, None));
    case _ => c.forwarder := Ended([], false);
  }

  lemma MatchIsStep(env: Env, s: State)
    requires s.forwarder.Matching?
    ensures Step(env, s, F(Match)) == Some(OnMatch(s, s.forwarder.frame, s.forwarder.key))
  {
  }

  /** Sends an accepted frame into the channel, unless that has to wait. */
  method TryForward(c: LiveConnection) returns (ghost events: seq<Event>)
    requires c.forwarder.Forwarding?
    modifies c`forwarder, c`delivery
    ensures Run(c.env, old(c.View()), events) == Some(c.View())
    ensures c.forwarder.Listening? || c.forwarder.Ended? || (c.forwarder.Forwarding? && Blocked(c.delivery))
  {
    hide Run, HandlerStep, OnReadUpstream, OnMatch, WriterStep, SupervisorStep;
    ghost var s := c.View();
    RunNone(c.env, s);
    events := [];
    if !Blocked(c.delivery) {
      if HasRoom(c.delivery) {
        c.delivery := Enqueue(c.delivery, c.forwarder.output);
        c.forwarder := Listening;
      } else {
        c.forwarder := Ended(InHand(c.forwarder), false);
      }
      RunOne(c.env, s, F(Forward));
      events := [F(Forward)];
    }
  }

  /** One turn of the loop. */
  method ForwardNext(c: LiveConnection, reader: BufferedReader) returns (ghost events: seq<Event>)
    requires c.forwarder.Listening? && Feeds(reader, c.inward.rest, c.env.upstreamEnding)
    modifies c, c.table, reader
    ensures Run(c.env, old(c.View()), events) == Some(c.View())
    ensures c.forwarder.Listening? || c.forwarder.Ended? || (c.forwarder.Forwarding? && Blocked(c.delivery))
    ensures c.forwarder.Listening? ==>
              Feeds(reader, c.inward.rest, c.env.upstreamEnding) && |c.inward.rest| < |old(c.inward).rest|
  {
    hide Run, Step, Blocked;
    ghost var s := c.View();
    ReadUpstreamFrame(c, reader);
    RunOne(c.env, s, F(ReadUpstream));
    events := [F(ReadUpstream)];
    if c.forwarder.Matching? {
      ghost var matching := c.View();
      MatchIsStep(c.env, matching);
      c.MatchResponse();
      RunOne(c.env, matching, F(Match));
      RunAppend(c.env, s, events, [F(Match)]);
      events := events + [F(Match)];
    }
    if c.forwarder.Forwarding? {
      ghost var sent := TryForward(c);
      RunAppend(c.env, s, events, sent);
      events := events + sent;
    }
  }

  /** The forwarder's loop: it ends, or waits for room in the channel. */
  method ForwardUpstreamFrames(c: LiveConnection, reader: BufferedReader) returns (ghost events: seq<Event>)
    requires c.forwarder.Listening? && Feeds(reader, c.inward.rest, c.env.upstreamEnding)
    modifies c, c.table, reader
    ensures Run(c.env, old(c.View()), events) == Some(c.View())
    ensures c.forwarder.Ended? || (c.forwarder.Forwarding? && Blocked(c.delivery))
  {
    hide Step, Run, Blocked;
    ghost var start := c.View();
    events := [];
    RunNone(c.env, start);
    while c.forwarder.Listening?
      invariant Run(c.env, start, events) == Some(c.View())
      invariant c.forwarder.Listening? ==> Feeds(reader, c.inward.rest, c.env.upstreamEnding)
      invariant c.forwarder.Listening? || c.forwarder.Ended? || (c.forwarder.Forwarding? && Blocked(c.delivery))
      decreases c.forwarder.Listening?, |c.inward.rest|
    {
      ghost var turn := ForwardNext(c, reader);
      RunAppend(c.env, start, events, turn);
      events := events + turn;
    }
  }

  // ---------------------------------------------------------------- the writer

  /** Nothing empty is queued, and the frame in hand is not finished. */
  predicate Deliverable(d: Delivery) {
    && (forall i | 0 <= i < |d.queue| :: Text(d.queue[i]) != [])
    && (d.writer.Delivering? ==> d.writer.sent < |d.writer.text|)
  }

  /** One step of the writer, as a step of the connection. */
  lemma WriterStepIsStep(env: Env, s: State, e: WriterEvent)
    requires WriterStep(s.delivery, e, SendersGone(s), WriterTask in s.control.aborts).Some?
    requires DeliveryKept(s.delivery)
    ensures var d := WriterStep(s.delivery, e, SendersGone(s), WriterTask in s.control.aborts).value;
            Run(env, s, [W(e)]) == Some(s.(delivery := d)) && DeliveryKept(d) && d.enqueued == s.delivery.enqueued
  {
    hide WriterStep, DeliveryKept, Run, HandlerStep, ForwarderStep, SupervisorStep;
    RunOne(env, s, W(e));
    DeliveryOnWriter(s.delivery, e, SendersGone(s), WriterTask in s.control.aborts);
    WriterKeepsHistory(s.delivery, e, SendersGone(s), WriterTask in s.control.aborts);
  }

  ghost predicate NeverFails(amounts: nat -> nat) {
    forall n :: amounts(n) > 0
  }

  /** `write_all` on the wallet's socket. */
  method DeliverFrame(c: LiveConnection, amounts: nat -> nat) returns (ghost events: seq<Event>)
    requires c.delivery.writer.Delivering? && Deliverable(c.delivery) && DeliveryKept(c.delivery)
    modifies c`delivery
    ensures Run(c.env, old(c.View()), events) == Some(c.View())
    ensures c.delivery.writer.Waiting? || (c.delivery.writer.Finished? && !NeverFails(amounts))
    ensures c.delivery.queue == old(c.delivery).queue && DeliveryKept(c.delivery)
    ensures c.delivery.enqueued == old(c.delivery).enqueued
  {
    hide Run, Step, DeliveryKept, Text;
    ghost var s := c.View();
    RunNone(c.env, s);
    events := [];
    while c.delivery.writer.Delivering?
      invariant Run(c.env, s, events) == Some(c.View())
      invariant c.delivery.queue == s.delivery.queue && DeliveryKept(c.delivery)
      invariant c.delivery.enqueued == s.delivery.enqueued
      invariant c.delivery.writer.Finished? ==> !NeverFails(amounts)
      invariant c.delivery.writer.Delivering? ==> c.delivery.writer.sent < |c.delivery.writer.text|
      decreases if c.delivery.writer.Delivering? then |c.delivery.writer.text| - c.delivery.writer.sent else 0
    {
      ghost var before := c.View();
      var text, sent := c.delivery.writer.text, c.delivery.writer.sent;
      var amount := amounts(|c.delivery.bytes|);
      ghost var e;
      if amount == 0 {
        e := FailWallet;
        c.delivery := c.delivery.(writer := Finished(text[sent..]));
      } else {
        var n := 1 + (amount - 1) % (|text| - sent);
        e := WriteWallet(n);
        c.delivery := c.delivery.(bytes := c.delivery.bytes + text[sent..sent + n],
                                  writer := if sent + n == |text| then Waiting else Delivering(text, sent + n));
      }
      WriterStepIsStep(c.env, before, e);
      RunAppend(c.env, s, events, [W(e)]);
      events := events + [W(e)];
    }
  }

  /** The writer's loop: it takes frames off the channel and writes each out, and closes the socket when
      the channel is empty for good. It waits for more, or has ended; if the socket never fails,
      everything ever enqueued has been delivered. */
  method WriteClientOutput(c: LiveConnection, amounts: nat -> nat) returns (ghost events: seq<Event>)
    requires c.delivery.writer.Waiting? && Deliverable(c.delivery) && DeliveryKept(c.delivery)
    modifies c`delivery
    ensures Run(c.env, old(c.View()), events) == Some(c.View())
    ensures c.delivery.enqueued == old(c.delivery).enqueued
    ensures c.delivery.writer.Finished?
            || (c.delivery.writer.Waiting? && c.delivery.queue == [] && !SendersGone(c.View()))
    ensures NeverFails(amounts) ==> c.delivery.bytes == Concat(Texts(c.delivery.enqueued))
  {
    hide Run, Step, DeliveryKept, Text, NeverFails;
    ghost var s := c.View();
    RunNone(c.env, s);
    events := [];
    while c.delivery.writer.Waiting? && c.delivery.queue != []
      invariant Run(c.env, s, events) == Some(c.View())
      invariant c.delivery.writer.Waiting? || (c.delivery.writer.Finished? && !NeverFails(amounts))
      invariant Deliverable(c.delivery) && DeliveryKept(c.delivery) && c.delivery.enqueued == s.delivery.enqueued
      decreases |c.delivery.queue|
    {
      ghost var before := c.View();
      c.delivery := c.delivery.(writer := Delivering(Text(c.delivery.queue[0]), 0), queue := c.delivery.queue[1..]);
      WriterStepIsStep(c.env, before, Take);
      RunAppend(c.env, s, events, [W(Take)]);
      events := events + [W(Take)];
      ghost var more := DeliverFrame(c, amounts);
      RunAppend(c.env, s, events, more);
      events := events + more;
    }
    if c.delivery.writer.Waiting? && c.handler.Stopped? && c.forwarder.Ended? {
      ghost var before := c.View();
      c.delivery := c.delivery.(writer := Finished([]));
      WriterStepIsStep(c.env, before, CloseWallet);
      RunAppend(c.env, s, events, [W(CloseWallet)]);
      events := events + [W(CloseWallet)];
    }
    AllDelivered(c.delivery);
  }

  lemma AllDelivered(d: Delivery)
    requires DeliveryKept(d)
    ensures d.queue == [] && Undelivered(d.writer) == [] ==> d.bytes == Concat(Texts(d.enqueued))
  {
    assert d.queue == [] ==> Texts(d.queue) == [];
  }

  // ---------------------------------------------------------------- the supervising function

  lemma SupervisorStepIsRun(env: Env, s: State, e: SupervisorEvent, c: Control)
    requires SupervisorStep(s, e) == Some(c)
    ensures Run(env, s, [S(e)]) == Some(s.(control := c))
  {
    hide Run, SupervisorStep, HandlerStep, ForwarderStep, WriterStep;
    RunOne(env, s, S(e));
  }

  /** A task that has been asked to stop does so at its next await, if it has not ended. */
  method StopTask(c: LiveConnection, task: Task) returns (ghost events: seq<Event>)
    requires task in c.control.aborts
    modifies c`handler, c`forwarder, c`delivery
    ensures Run(c.env, old(c.View()), events) == Some(c.View()) && Terminal(c.View(), task)
    ensures forall other | Terminal(old(c.View()), other) :: Terminal(c.View(), other)
  {
    hide Run, OnRead, OnDecide, OnWrite, OnRelease, OnReadUpstream, OnMatch, SupervisorStep, HeldKey, Unsent;
    ghost var s := c.View();
    RunNone(c.env, s);
    events := [];
    match task
    case HandlerTask =>
      if !c.handler.Stopped? {
        c.handler := Halt(c.handler);
        RunOne(c.env, s, H(AbortHandler));
        events := [H(AbortHandler)];
      }
    case ForwarderTask =>
      if !c.forwarder.Ended? {
        c.forwarder := Ended(InHand(c.forwarder), c.forwarder.Matching?);
        RunOne(c.env, s, F(AbortForwarder));
        events := [F(AbortForwarder)];
      }
    case WriterTask =>
      if !c.delivery.writer.Finished? {
        c.delivery := c.delivery.(writer := Finished(Undelivered(c.delivery.writer)));
        RunOne(c.env, s, W(AbortWriter));
        events := [W(AbortWriter)];
      }
  }

  /** Whatever is awaited without a bound has been asked to stop. */
  predicate DutiesCanEnd(c: Control) {
    c.supervisor.Stopping? ==>
      forall i | 0 <= i < |c.supervisor.duties| && c.supervisor.duties[i].Await? ::
          c.supervisor.duties[i].task in c.aborts
  }

  /** The first duty is done, with a writer that does not finish in time cut off. */
  method DoDuty(c: LiveConnection) returns (ghost events: seq<Event>)
    requires c.control.supervisor.Stopping? && c.control.supervisor.duties != [] && DutiesCanEnd(c.control)
    modifies c`handler, c`forwarder, c`delivery, c`control
    ensures Run(c.env, old(c.View()), events) == Some(c.View())
    ensures c.control.supervisor == Stopping(old(c.control).supervisor.duties[1..]) && DutiesCanEnd(c.control)
  {
    hide Run, Step, Terminal;
    ghost var s := c.View();
    RunNone(c.env, s);
    events := [];
    var duties := c.control.supervisor.duties;
    if duties[0] == FlushWriter && !c.delivery.writer.Finished? {
      c.control := c.control.(supervisor := Stopping([Await(WriterTask)] + duties[1..]),
                              aborts := c.control.aborts + {WriterTask});
      SupervisorStepIsRun(c.env, s, FlushTimeout, c.control);
      events := [S(FlushTimeout)];
    }
    var duty := c.control.supervisor.duties[0];
    assert c.control.supervisor.duties[1..] == duties[1..];
    if duty.Await? {
      ghost var stopped := StopTask(c, duty.task);
      RunAppend(c.env, s, events, stopped);
      events := events + stopped;
    } else {
      FinishedIsTerminal(c.View());
    }
    ghost var before := c.View();
    c.control := c.control.(supervisor := Stopping(duties[1..]));
    SupervisorStepIsRun(c.env, before, Awaited, c.control);
    RunAppend(c.env, s, events, [S(Awaited)]);
    events := events + [S(Awaited)];
  }

  lemma FinishedIsTerminal(s: State)
    requires s.delivery.writer.Finished?
    ensures Terminal(s, WriterTask)
  {
  }

  /** The rest of the supervising function once a first task has ended: the others are stopped and
      awaited, and it returns. */
  method FinishStreams(c: LiveConnection, first: Task) returns (ghost events: seq<Event>)
    requires c.control.supervisor.Selecting? && Terminal(c.View(), first)
    modifies c`handler, c`forwarder, c`delivery, c`control
    ensures Run(c.env, old(c.View()), events) == Some(c.View()) && c.control.supervisor.Returned?
  {
    hide Run, Step, Terminal;
    ghost var s := c.View();
    c.control := c.control.(supervisor := Stopping(DutiesAfter(first)), aborts := c.control.aborts + AbortedBy(first));
    SupervisorStepIsRun(c.env, s, Observe(first), c.control);
    events := [S(Observe(first))];
    while c.control.supervisor.duties != []
      invariant c.control.supervisor.Stopping? && DutiesCanEnd(c.control)
      invariant Run(c.env, s, events) == Some(c.View())
      decreases |c.control.supervisor.duties|
    {
      ghost var done := DoDuty(c);
      RunAppend(c.env, s, events, done);
      events := events + done;
    }
    ghost var before := c.View();
    c.control := c.control.(supervisor := Returned);
    SupervisorStepIsRun(c.env, before, Return, c.control);
    RunAppend(c.env, s, events, [S(Return)]);
    events := events + [S(Return)];
  }
}
