/** Where the bytes of one connection go: what reaches the upstream and what reaches the wallet. */
module ConnectionRoutes {
  import opened Sequences
  import opened Framing
  import opened Protocol
  import opened Pending
  import opened Connection

  function PassthroughTest(parse: RequestParser): Bytes -> bool {
    frame => IsPassthrough(parse, frame)
  }

  // ---------------------------------------------------------------- wallet to upstream

  /** Whether the handler has dealt with every frame it read and may go on. */
  predicate CaughtUp(handler: Handler) {
    match handler
    case Received(_, _) => false
    case Replying(_, fatal) => !fatal
    case Stopped(_, _) => false
    case _ => true
  }

  /** Frames read and bytes left over always make up the wallet's stream, and frames are legal. */
  ghost predicate ClientRead(env: Env, handler: Handler, o: Outward) {
    && Concat(o.frames) + o.rest == env.clientStream
    && (forall f | f in o.frames :: LegalFrame(f, env.maxFrameBytes))
    && (handler.Received? ==> handler.index + 1 == |o.frames| && o.frames[handler.index] == handler.frame)
  }

  /** The accepted requests are the passthrough frames among those read, in order, and the bytes
      written upstream plus the unwritten rest of the current one are exactly those requests. */
  ghost predicate RequestsSent(env: Env, handler: Handler, o: Outward) {
    var test := PassthroughTest(env.parseRequest);
    && o.passed <= Filter(o.frames, test)
    && (CaughtUp(handler) ==> o.passed == Filter(o.frames, test))
    && (handler.Received? ==> o.frames != [] && o.passed == Filter(o.frames[..|o.frames| - 1], test))
    && o.bytes + Unsent(handler) == Concat(o.passed)
    && (handler.Writing? ==> handler.sent <= |handler.frame|)
  }

  ghost predicate OutwardKept(env: Env, handler: Handler, o: Outward) {
    ClientRead(env, handler, o) && RequestsSent(env, handler, o)
  }

  /** Taking one more frame off a stream. */
  lemma ReadOneMore(frames: seq<Bytes>, rest: Bytes, ending: Ending, max: nat)
    requires forall f | f in frames :: LegalFrame(f, max)
    ensures var (result, rest') := ReadNext(rest, ending, max);
            result.Frame? ==>
              && Concat(frames + [result.frame]) + rest' == Concat(frames) + rest
              && forall f | f in frames + [result.frame] :: LegalFrame(f, max)
  {
    hide ReadNext, LegalFrame;
    ReadNextFrame(rest, ending, max);
    var (result, rest') := ReadNext(rest, ending, max);
    if result.Frame? {
      ConcatSnoc(frames, result.frame);
      assert Concat(frames) + (result.frame + rest') == Concat(frames) + result.frame + rest';
    }
  }

  lemma OutwardOnRead(env: Env, s: State)
    requires OutwardKept(env, s.handler, s.outward) && s.handler.Reading?
    ensures var t := OnRead(env, s); OutwardKept(env, t.handler, t.outward)
  {
    hide ReadNext, Concat, LegalFrame, Filter;
    var o := s.outward;
    ReadOneMore(o.frames, o.rest, env.clientEnding, env.maxFrameBytes);
    var (result, rest) := ReadNext(o.rest, env.clientEnding, env.maxFrameBytes);
    if result.Frame? {
      assert (o.frames + [result.frame])[..|o.frames|] == o.frames;
      FilterPrefix(o.frames, o.frames + [result.frame], PassthroughTest(env.parseRequest));
    }
  }

  lemma OutwardOnDecide(env: Env, s: State)
    requires OutwardKept(env, s.handler, s.outward) && s.handler.Received?
    ensures var t := OnDecide(env, s, s.handler.index, s.handler.frame); OutwardKept(env, t.handler, t.outward)
  {
    hide Reserve, RequestKey, Filter, Concat, Classify;
    var o, frame := s.outward, s.handler.frame;
    var before := o.frames[..|o.frames| - 1];
    assert o.frames == before + [frame];
    FilterSnoc(before, frame, PassthroughTest(env.parseRequest));
    ConcatSnoc(o.passed, frame);
  }

  lemma OutwardOnWrite(env: Env, s: State, n: nat)
    requires OutwardKept(env, s.handler, s.outward) && s.handler.Writing? && 0 < n
             && s.handler.sent + n <= |s.handler.frame|
    ensures var t := OnWrite(s, s.handler.frame, s.handler.sent, n); OutwardKept(env, t.handler, t.outward)
  {
    hide Filter, Concat, LegalFrame, PassthroughTest;
    var frame, sent, bytes := s.handler.frame, s.handler.sent, s.outward.bytes;
    assert frame[sent..] == frame[sent..sent + n] + frame[sent + n..];
    assert bytes + frame[sent..] == bytes + frame[sent..sent + n] + frame[sent + n..];
    assert sent + n == |frame| ==> frame[sent + n..] == [];
  }

  lemma OutwardKeptByStep(env: Env, s: State, e: Event)
    requires OutwardKept(env, s.handler, s.outward) && Step(env, s, e).Some?
    ensures var t := Step(env, s, e).value; OutwardKept(env, t.handler, t.outward)
  {
    hide OnRead, OnDecide, OnWrite, Answer, Filter, Concat, ForwarderStep, WriterStep, SupervisorStep;
    match e
    case H(h) =>
      HandlerFrame(env, s, h);
      match h {
        case ReadClient => OutwardOnRead(env, s);
        case Decide => OutwardOnDecide(env, s);
        case WriteUpstream(n) => OutwardOnWrite(env, s, n);
        case _ =>
      }
    case F(f) => ForwarderFrame(env, s, f);
    case W(_) =>
    case S(_) =>
  }

  // ---------------------------------------------------------------- upstream to wallet

  /** `a` can be obtained from `b` by leaving elements out. */
  ghost predicate Subsequence<T>(a: seq<T>, b: seq<T>)
    decreases |b|
  {
    || a == []
    || (b != [] && (|| Subsequence(a, b[..|b| - 1])
                    || (a[|a| - 1] == b[|b| - 1] && Subsequence(a[..|a| - 1], b[..|b| - 1]))))
  }

  lemma SubsequenceSnoc<T>(a: seq<T>, b: seq<T>, x: T)
    requires Subsequence(a, b)
    ensures Subsequence(a, b + [x]) && Subsequence(a + [x], b + [x])
  {
    assert (b + [x])[..|b|] == b && (a + [x])[..|a|] == a;
  }

  lemma {:induction false} SubsequenceWiden<T>(a: seq<T>, b: seq<T>, wide: seq<T>)
    requires Subsequence(a, b) && b <= wide
    ensures Subsequence(a, wide)
    decreases |wide|
  {
    if b != wide {
      SubsequenceWiden(a, b, wide[..|wide| - 1]);
    }
  }

  lemma {:induction false} SubsequenceMember<T>(a: seq<T>, b: seq<T>, x: T)
    requires x in a && Subsequence(a, b)
    ensures x in b
    decreases |b|
  {
    if Subsequence(a, b[..|b| - 1]) {
      SubsequenceMember(a, b[..|b| - 1], x);
    } else if x != a[|a| - 1] {
      SubsequenceMember(a[..|a| - 1], b[..|b| - 1], x);
    }
  }

  /** The frames about which the forwarder has decided. */
  function Decided(forwarder: Forwarder, i: Inward): seq<Bytes> {
    if (forwarder.Matching? || (forwarder.Ended? && forwarder.unmatched)) && i.frames != []
    then i.frames[..|i.frames| - 1] else i.frames
  }

  ghost predicate UpstreamRead(env: Env, forwarder: Forwarder, i: Inward) {
    && Concat(i.frames) + i.rest == env.upstreamStream
    && (forall f | f in i.frames :: LegalFrame(f, env.maxFrameBytes))
    && (forwarder.Matching? ==> i.frames != [] && forwarder.frame == i.frames[|i.frames| - 1])
    && Subsequence(Texts(i.accepted), Decided(forwarder, i))
    && (forall o | o in i.accepted :: o.FromUpstream?)
  }

  /** Each accepted frame is in the channel's history, in the forwarder's hand, or lost with it. */
  ghost predicate Forwarded(forwarder: Forwarder, i: Inward, enqueued: seq<Output>) {
    Filter(enqueued, IsForwarded) + InHand(forwarder) == i.accepted && |InHand(forwarder)| <= 1
  }

  ghost predicate InwardKept(env: Env, s: State) {
    UpstreamRead(env, s.forwarder, s.inward) && Forwarded(s.forwarder, s.inward, s.delivery.enqueued)
  }

  lemma TextsSnoc(outputs: seq<Output>, o: Output)
    ensures Texts(outputs + [o]) == Texts(outputs) + [Text(o)]
  {
    hide EncodeReply;
  }

  lemma AcceptanceKept(accepted: seq<Output>, decided: seq<Bytes>, frame: Bytes, key: Option<Key>)
    requires Subsequence(Texts(accepted), decided)
    ensures Subsequence(Texts(accepted), decided + [frame])
    ensures Subsequence(Texts(accepted + [FromUpstream(frame, key)]), decided + [frame])
  {
    hide EncodeReply;
    TextsSnoc(accepted, FromUpstream(frame, key));
    SubsequenceSnoc(Texts(accepted), decided, frame);
  }

  lemma InwardOnRead(env: Env, s: State)
    requires InwardKept(env, s) && s.forwarder.Listening?
    ensures InwardKept(env, OnReadUpstream(env, s))
  {
    hide ReadNext, RequestKey, Subsequence, Texts, Filter, Concat, LegalFrame;
    var i := s.inward;
    ReadOneMore(i.frames, i.rest, env.upstreamEnding, env.maxFrameBytes);
    var (result, rest) := ReadNext(i.rest, env.upstreamEnding, env.maxFrameBytes);
    if result.Frame? {
      AcceptanceKept(i.accepted, i.frames, result.frame, None);
      assert (i.frames + [result.frame])[..|i.frames|] == i.frames;
    }
  }

  lemma InwardOnMatch(env: Env, s: State)
    requires InwardKept(env, s) && s.forwarder.Matching?
    ensures InwardKept(env, OnMatch(s, s.forwarder.frame, s.forwarder.key))
  {
    hide Accept, Subsequence, Texts, Concat, Filter;
    var i, frame := s.inward, s.forwarder.frame;
    assert i.frames == Decided(s.forwarder, i) + [frame];
    AcceptanceKept(i.accepted, Decided(s.forwarder, i), frame, Some(s.forwarder.key));
  }

  lemma InwardOnEnd(env: Env, s: State)
    requires InwardKept(env, s) && !s.forwarder.Ended?
    ensures InwardKept(env, s.(forwarder := Ended(InHand(s.forwarder), s.forwarder.Matching?)))
  {
    hide Filter, Subsequence, Texts;
  }

  lemma InwardKeptByStep(env: Env, s: State, e: Event)
    requires InwardKept(env, s) && Step(env, s, e).Some?
    ensures InwardKept(env, Step(env, s, e).value)
  {
    hide OnReadUpstream, OnMatch, Subsequence, Texts, Concat, HandlerStep, SupervisorStep, Filter, Text;
    match e
    case F(f) =>
      ForwarderFrame(env, s, f);
      match f {
        case ReadUpstream => InwardOnRead(env, s);
        case Match => InwardOnMatch(env, s);
        case Forward =>
          InwardOnEnd(env, s);
          FilterSnoc(s.delivery.enqueued, s.forwarder.output, IsForwarded);
          assert s.inward.accepted[|s.inward.accepted| - 1] == s.forwarder.output;
        case AbortForwarder => InwardOnEnd(env, s);
      }
    case H(h) =>
      HandlerFrame(env, s, h);
      if h == SendReply { InwardOnReply(env, s); }
    case W(w) => WriterKeepsHistory(s.delivery, w, SendersGone(s), WriterTask in s.control.aborts);
    case S(_) =>
  }

  lemma InwardOnReply(env: Env, s: State)
    requires HandlerStep(env, s, SendReply).Some?
    ensures Filter(HandlerStep(env, s, SendReply).value.delivery.enqueued, IsForwarded)
            == Filter(s.delivery.enqueued, IsForwarded)
  {
    FilterSnoc(s.delivery.enqueued, FromHandler(s.handler.reply), IsForwarded);
  }

  lemma WriterKeepsHistory(d: Delivery, e: WriterEvent, closed: bool, abort: bool)
    requires WriterStep(d, e, closed, abort).Some?
    ensures WriterStep(d, e, closed, abort).value.enqueued == d.enqueued
  {
    hide Text;
  }

  // ---------------------------------------------------------------- delivery

  /** Bytes delivered, bytes the writer still holds and bytes queued are exactly what was enqueued. */
  ghost predicate DeliveryKept(d: Delivery) {
    && d.bytes + Undelivered(d.writer) + Concat(Texts(d.queue)) == Concat(Texts(d.enqueued))
    && |d.queue| <= CHANNEL_CAPACITY
    && (d.writer.Delivering? ==> d.writer.sent <= |d.writer.text|)
  }

  lemma DeliveryOnEnqueue(d: Delivery, o: Output)
    requires DeliveryKept(d) && HasRoom(d)
    ensures DeliveryKept(Enqueue(d, o))
  {
    hide Text, Texts;
    TextsSnoc(d.queue, o);
    TextsSnoc(d.enqueued, o);
    ConcatSnoc(Texts(d.queue), Text(o));
    ConcatSnoc(Texts(d.enqueued), Text(o));
  }

  lemma DeliveryOnTake(d: Delivery)
    requires DeliveryKept(d) && d.writer.Waiting? && d.queue != []
    ensures DeliveryKept(d.(writer := Delivering(Text(d.queue[0]), 0), queue := d.queue[1..]))
  {
    hide EncodeReply, Text;
    var texts, text := Texts(d.queue), Text(d.queue[0]);
    assert texts[0] == text && texts[1..] == Texts(d.queue[1..]);
    assert Concat(texts) == text + Concat(texts[1..]);
    assert text[0..] == text;
    hide Texts, Concat;
    assert d.bytes + [] + (text + Concat(texts[1..])) == d.bytes + text + Concat(texts[1..]);
  }

  lemma DeliveryOnWrite(d: Delivery, n: nat)
    requires DeliveryKept(d) && d.writer.Delivering? && 0 < n && d.writer.sent + n <= |d.writer.text|
    ensures DeliveryKept(WriterStep(d, WriteWallet(n), false, false).value)
  {
    hide Texts, Concat, Text;
    var text, sent := d.writer.text, d.writer.sent;
    assert text[sent..] == text[sent..sent + n] + text[sent + n..];
    assert d.bytes + text[sent..] == d.bytes + text[sent..sent + n] + text[sent + n..];
    assert sent + n == |text| ==> text[sent + n..] == [];
  }

  lemma DeliveryOnWriter(d: Delivery, e: WriterEvent, closed: bool, abort: bool)
    requires DeliveryKept(d) && WriterStep(d, e, closed, abort).Some?
    ensures DeliveryKept(WriterStep(d, e, closed, abort).value)
  {
    hide Text, Texts, Concat;
    match e
    case Take => DeliveryOnTake(d);
    case WriteWallet(n) => DeliveryOnWrite(d, n);
    case _ =>
  }

  lemma DeliveryKeptByStep(env: Env, s: State, e: Event)
    requires DeliveryKept(s.delivery) && Step(env, s, e).Some?
    ensures DeliveryKept(Step(env, s, e).value.delivery)
  {
    hide DeliveryKept, OnReadUpstream, OnMatch, OnRead, OnDecide, OnWrite, OnRelease, Enqueue, Text, WriterStep;
    match e
    case H(h) =>
      HandlerFrame(env, s, h);
      if h == SendReply && HasRoom(s.delivery) { DeliveryOnEnqueue(s.delivery, FromHandler(s.handler.reply)); }
    case F(f) =>
      ForwarderFrame(env, s, f);
      if f == Forward && HasRoom(s.delivery) { DeliveryOnEnqueue(s.delivery, s.forwarder.output); }
    case W(w) => DeliveryOnWriter(s.delivery, w, SendersGone(s), WriterTask in s.control.aborts);
    case S(_) =>
  }

  // ---------------------------------------------------------------- over whole runs

  ghost predicate RoutesKept(env: Env, s: State) {
    OutwardKept(env, s.handler, s.outward) && InwardKept(env, s) && DeliveryKept(s.delivery)
  }

  lemma {:induction false} RoutesKeptByRun(env: Env, s: State, events: seq<Event>)
    requires RoutesKept(env, s) && Run(env, s, events).Some?
    ensures RoutesKept(env, Run(env, s, events).value)
    decreases |events|
  {
    hide Step, OutwardKept, InwardKept, DeliveryKept;
    if events != [] {
      OutwardKeptByStep(env, s, events[0]);
      InwardKeptByStep(env, s, events[0]);
      DeliveryKeptByStep(env, s, events[0]);
      RoutesKeptByRun(env, Step(env, s, events[0]).value, events[1..]);
    }
  }

  lemma RoutesInitially(env: Env)
    ensures RoutesKept(env, Init(env))
  {
  }

  lemma RoutesReachable(env: Env, events: seq<Event>)
    requires Run(env, Init(env), events).Some?
    ensures RoutesKept(env, Run(env, Init(env), events).value)
  {
    hide Step, Run, RoutesKept;
    RoutesInitially(env);
    RoutesKeptByRun(env, Init(env), events);
  }

  /** The requests a connection may send upstream, as a function of the wallet's bytes alone. */
  function PermittedRequests(env: Env): seq<Bytes> {
    Filter(ReadAll(env.clientStream, env.clientEnding, env.maxFrameBytes).0, PassthroughTest(env.parseRequest))
  }

  lemma PassedIsPermitted(env: Env, handler: Handler, o: Outward)
    requires OutwardKept(env, handler, o)
    ensures o.passed <= PermittedRequests(env) && o.bytes <= Concat(PermittedRequests(env))
  {
    hide ReadAll;
    var all := ReadAll(env.clientStream, env.clientEnding, env.maxFrameBytes).0;
    ReadAllMaximal(o.frames, env.clientStream, env.clientEnding, env.maxFrameBytes);
    FilterPrefix(o.frames, all, PassthroughTest(env.parseRequest));
    ConcatPrefix(o.passed, PermittedRequests(env));
  }

  /** In every run, with aborts and partial writes, the bytes sent upstream are a prefix of the
      wallet's own passthrough frames, unchanged and in order. However the upstream frames them, it
      never sees a complete frame that is a broadcast request. And nothing is held back: whenever the
      handler is between frames, all passthrough frames read so far have been sent in full. */
  lemma UpstreamNeverSeesBroadcast(env: Env, events: seq<Event>, ending: Ending, max: nat)
    requires Run(env, Init(env), events).Some?
    ensures var t := Run(env, Init(env), events).value;
            var seen := ReadAll(t.outward.bytes, ending, max).0;
            && t.outward.bytes <= Concat(PermittedRequests(env))
            && seen <= PermittedRequests(env)
            && (forall i | 0 <= i < |seen| :: !IsBroadcastRequest(env.parseRequest, seen[i]))
            && (CaughtUp(t.handler) && !t.handler.Writing? ==>
                  t.outward.bytes == Concat(Filter(t.outward.frames, PassthroughTest(env.parseRequest))))
  {
    hide Run, InwardKept, DeliveryKept, IsBroadcastRequest, PassthroughTest;
    RoutesReachable(env, events);
    UpstreamInState(env, Run(env, Init(env), events).value, ending, max);
  }

  lemma UpstreamInState(env: Env, t: State, ending: Ending, max: nat)
    requires OutwardKept(env, t.handler, t.outward)
    ensures var seen := ReadAll(t.outward.bytes, ending, max).0;
            && t.outward.bytes <= Concat(PermittedRequests(env))
            && seen <= PermittedRequests(env)
            && forall i | 0 <= i < |seen| :: !IsBroadcastRequest(env.parseRequest, seen[i])
  {
    hide Classify, ReadAll, IsBroadcastRequest;
    var permitted := PermittedRequests(env);
    PassedIsPermitted(env, t.handler, t.outward);
    ReadAllSound(env.clientStream, env.clientEnding, env.maxFrameBytes);
    ReframingTruncated(t.outward.bytes, permitted, ending, max);
    var seen := ReadAll(t.outward.bytes, ending, max).0;
    forall i | 0 <= i < |seen| ensures !IsBroadcastRequest(env.parseRequest, seen[i]) {
      assert PassthroughTest(env.parseRequest)(permitted[i]);
      ClassifyFacts(env.parseRequest, permitted[i]);
    }
  }

  lemma ReplyTerminated(reply: Reply)
    ensures Terminated(EncodeReply(reply))
  {
    hide EncodeResponse, Terminated;
    var v :| EncodeReply(reply) == EncodeResponse(v);
    EncodeResponseTerminated(v);
  }

  lemma {:induction false} FilterKeeps<T>(s: seq<T>, x: T, keep: T -> bool)
    requires x in s && keep(x)
    ensures x in Filter(s, keep)
  {
    if x != s[|s| - 1] { FilterKeeps(s[..|s| - 1], x, keep); }
  }

  lemma EnqueuedTerminated(env: Env, s: State, o: Output)
    requires InwardKept(env, s) && o in s.delivery.enqueued
    ensures Terminated(Text(o))
  {
    hide EncodeReply, Filter, Subsequence;
    match o
    case FromHandler(reply) => ReplyTerminated(reply);
    case FromUpstream(frame, _) =>
      FilterKeeps(s.delivery.enqueued, o, IsForwarded);
      assert o in s.inward.accepted;
      var i :| 0 <= i < |s.inward.accepted| && s.inward.accepted[i] == o;
      assert Texts(s.inward.accepted)[i] == frame;
      SubsequenceMember(Texts(s.inward.accepted), Decided(s.forwarder, s.inward), frame);
      assert frame in s.inward.frames;
  }

  /** In every run the wallet receives a prefix of the frames put in the channel, and reading it back
      yields just those frames: the handler's replies interleaved with upstream frames that were read,
      in order, none invented and none altered. Once the channel is drained it has all of them. */
  lemma WalletStreamIsFaithful(env: Env, events: seq<Event>, ending: Ending, max: nat)
    requires Run(env, Init(env), events).Some?
    ensures var t := Run(env, Init(env), events).value;
            var texts := Texts(t.delivery.enqueued);
            && t.delivery.bytes <= Concat(texts)
            && ReadAll(t.delivery.bytes, ending, max).0 <= texts
            && (t.delivery.writer.Waiting? && t.delivery.queue == [] && (forall f | f in texts :: |f| <= max) ==>
                  ReadAll(t.delivery.bytes, EndOfInput, max) == (texts, Closed))
            && Filter(t.delivery.enqueued, IsForwarded) <= t.inward.accepted
            && Subsequence(Texts(t.inward.accepted),
                ReadAll(env.upstreamStream, env.upstreamEnding, env.maxFrameBytes).0)
  {
    hide Run, ReadAll, Filter, Text, Terminated, Subsequence;
    RoutesReachable(env, events);
    var t := Run(env, Init(env), events).value;
    var texts := Texts(t.delivery.enqueued);
    forall f | f in texts ensures Terminated(f) {
      var i :| 0 <= i < |texts| && texts[i] == f;
      EnqueuedTerminated(env, t, t.delivery.enqueued[i]);
    }
    ReframingTruncated(t.delivery.bytes, texts, ending, max);
    if t.delivery.writer.Waiting? && t.delivery.queue == [] && forall f | f in texts :: |f| <= max {
      assert Concat(Texts(t.delivery.queue)) == [];
      assert t.delivery.bytes == Concat(texts);
      ReadBackWhatWasWritten(texts, max);
    }
    var read := ReadAll(env.upstreamStream, env.upstreamEnding, env.maxFrameBytes).0;
    ReadAllMaximal(t.inward.frames, env.upstreamStream, env.upstreamEnding, env.maxFrameBytes);
    SubsequenceWiden(Texts(t.inward.accepted), Decided(t.forwarder, t.inward), read);
  }
}
