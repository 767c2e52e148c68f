/** Requests against the pending table and the upstream socket: every keyed request is reserved or
    refused, and exactly when a response can be accepted before its query has been sent. */
module ConnectionQueries {
  import opened Sequences
  import opened Framing
  import opened Json
  import opened Protocol
  import opened Pending
  import opened Connection
  import opened ConnectionRoutes
  import opened ConnectionIds
  import opened ConnectionCalls
  import opened ConnectionReplies

  /** The key a wallet frame needs, if it is well formed and has an id. */
  function FrameKey(env: Env, frame: Bytes): Option<Key> {
    match Classify(env.parseRequest, frame)
    case Passthrough(Some(id)) => RequestKey(id)
    case Broadcast(id, _) => RequestKey(id)
    case _ => None
  }

  function FrameKeyWeight(env: Env, key: Key): Bytes -> nat {
    (frame: Bytes) => if FrameKey(env, frame) == Some(key) then 1 else 0
  }

  // ---------------------------------------------------------------- reserved or refused

  /** The frames the handler has dealt with. */
  function Considered(handler: Handler, frames: seq<Bytes>): seq<Bytes> {
    if handler.Received? && frames != [] then frames[..|frames| - 1] else frames
  }

  function RefusedFor(env: Env, frames: seq<Bytes>, refused: Option<Table>, key: Key): nat {
    if refused.Some? && frames != [] then FrameKeyWeight(env, key)(frames[|frames| - 1]) else 0
  }

  function Count(reserved: seq<(Key, PendingRequest)>, key: Key, request: PendingRequest): nat {
    multiset(reserved)[(key, request)]
  }

  /** Requests with a key are reserved or refused, and those reserved for the upstream are the ones
      accepted for it. */
  ghost predicate Booked(env: Env, key: Key, frames: seq<Bytes>, passed: seq<Bytes>,
                         reserved: seq<(Key, PendingRequest)>, refused: nat) {
    && Total(frames, FrameKeyWeight(env, key))
       == Count(reserved, key, AwaitsUpstream) + Count(reserved, key, AwaitsRelay) + refused
    && Total(passed, FrameKeyWeight(env, key)) == Count(reserved, key, AwaitsUpstream)
  }

  /** An aborted handler may not have looked at the newest frame. */
  ghost predicate BookedIn(env: Env, s: State, key: Key) {
    var frames := s.outward.frames;
    || Booked(env, key, Considered(s.handler, frames), s.outward.passed, s.ids.reserved,
              RefusedFor(env, frames, s.ids.refused, key))
    || (s.handler.Stopped? && s.ids.refused.None? && frames != []
        && Booked(env, key, frames[..|frames| - 1], s.outward.passed, s.ids.reserved, 0))
  }

  /** A refusal closes the connection; the newest frame is the one refused, because its key was in the
      table or the table was full. */
  ghost predicate RefusalKept(env: Env, s: State) {
    s.ids.refused.Some? ==>
      && Closing(s.handler) && s.outward.frames != []
      && var key := FrameKey(env, s.outward.frames[|s.outward.frames| - 1]);
      key.Some? && (key.value in s.ids.refused.value || |s.ids.refused.value| == env.maxPendingRequests)
  }

  ghost predicate QueriesKept(env: Env, s: State, key: Key) {
    && BookedIn(env, s, key) && RefusalKept(env, s)
    && (s.handler.Received? ==> s.outward.frames != [] && s.outward.frames[|s.outward.frames| - 1] == s.handler.frame)
  }

  lemma CountSnoc(reserved: seq<(Key, PendingRequest)>, k: Key, r: PendingRequest, key: Key, request: PendingRequest)
    ensures Count(reserved + [(k, r)], key, request)
            == Count(reserved, key, request) + (if (k, r) == (key, request) then 1 else 0)
  {
    assert multiset(reserved + [(k, r)]) == multiset(reserved) + multiset{(k, r)};
  }

  /** One more frame that needs no reservation, or is refused one. */
  lemma BookedUnreserved(env: Env, key: Key, frames: seq<Bytes>, passed: seq<Bytes>,
                         reserved: seq<(Key, PendingRequest)>, frame: Bytes)
    requires Booked(env, key, frames, passed, reserved, 0)
    ensures Booked(env, key, frames + [frame], passed, reserved, FrameKeyWeight(env, key)(frame))
    ensures FrameKey(env, frame) == None ==> Booked(env, key, frames + [frame], passed + [frame], reserved, 0)
  {
    hide Total, FrameKey;
    TotalSnoc(frames, frame, FrameKeyWeight(env, key));
    TotalSnoc(passed, frame, FrameKeyWeight(env, key));
  }

  /** One more frame whose key is reserved. */
  lemma BookedReserved(env: Env, key: Key, frames: seq<Bytes>, passed: seq<Bytes>,
                       reserved: seq<(Key, PendingRequest)>, frame: Bytes)
    requires Booked(env, key, frames, passed, reserved, 0) && FrameKey(env, frame).Some?
    ensures var k := FrameKey(env, frame).value;
            && Booked(env, key, frames + [frame], passed + [frame], reserved + [(k, AwaitsUpstream)], 0)
            && Booked(env, key, frames + [frame], passed, reserved + [(k, AwaitsRelay)], 0)
  {
    hide Total, FrameKey, Count;
    var k := FrameKey(env, frame).value;
    TotalSnoc(frames, frame, FrameKeyWeight(env, key));
    TotalSnoc(passed, frame, FrameKeyWeight(env, key));
    forall r, request ensures Count(reserved + [(k, r)], key, request)
                              == Count(reserved, key, request) + (if (k, r) == (key, request) then 1 else 0) {
      CountSnoc(reserved, k, r, key, request);
    }
  }

  lemma QueriesOnRead(env: Env, s: State, key: Key)
    requires QueriesKept(env, s, key) && s.handler.Reading?
    ensures QueriesKept(env, OnRead(env, s), key)
  {
    hide ReadNext, FrameKey, Booked;
    var t := OnRead(env, s);
    if t.handler.Received? {
      assert Considered(t.handler, t.outward.frames) == s.outward.frames;
    }
  }

  lemma QueriesOnDecide(env: Env, s: State, key: Key)
    requires QueriesKept(env, s, key) && s.handler.Received? && |s.ids.pending| <= env.maxPendingRequests
    ensures QueriesKept(env, OnDecide(env, s, s.handler.index, s.handler.frame), key)
  {
    hide Classify, RequestKey, Booked, FrameKeyWeight;
    var frame, frames := s.handler.frame, s.outward.frames;
    var before := frames[..|frames| - 1];
    assert frames == before + [frame];
    BookedUnreserved(env, key, before, s.outward.passed, s.ids.reserved, frame);
    if FrameKey(env, frame).Some? {
      BookedReserved(env, key, before, s.outward.passed, s.ids.reserved, frame);
    } else {
      UnkeyedWeighsNothing(env, key, frame);
    }
  }

  lemma UnkeyedWeighsNothing(env: Env, key: Key, frame: Bytes)
    requires FrameKey(env, frame).None?
    ensures FrameKeyWeight(env, key)(frame) == 0
  {
  }

  lemma QueriesKeptByStep(env: Env, s: State, e: Event, key: Key)
    requires QueriesKept(env, s, key) && |s.ids.pending| <= env.maxPendingRequests && Step(env, s, e).Some?
    ensures QueriesKept(env, Step(env, s, e).value, key)
  {
    hide OnRead, OnDecide, FrameKey, Booked, HeldKey, Unsent, ForwarderStep, WriterStep, SupervisorStep, Enqueue;
    match e
    case H(h) =>
      HandlerFrame(env, s, h);
      match h {
        case ReadClient => QueriesOnRead(env, s, key);
        case Decide => QueriesOnDecide(env, s, key);
        case _ =>
      }
    case F(f) => ForwarderFrame(env, s, f);
    case W(_) =>
    case S(_) =>
  }

  lemma {:induction false} QueriesKeptByRun(env: Env, s: State, events: seq<Event>, key: Key)
    requires IdsKept(env, s) && QueriesKept(env, s, key) && Run(env, s, events).Some?
    ensures QueriesKept(env, Run(env, s, events).value, key)
    decreases |events|
  {
    hide Step, IdsKept, QueriesKept;
    if events != [] {
      TableBounded(env, s);
      IdsKeptByStep(env, s, events[0]);
      QueriesKeptByStep(env, s, events[0], key);
      QueriesKeptByRun(env, Step(env, s, events[0]).value, events[1..], key);
    }
  }

  lemma QueriesReachable(env: Env, events: seq<Event>, key: Key)
    requires Run(env, Init(env), events).Some?
    ensures QueriesKept(env, Run(env, Init(env), events).value, key)
  {
    hide Run, Step, IdsKept;
    InitiallyKept(env);
    QueriesKeptByRun(env, Init(env), events, key);
  }

  /** In every run, for each key: the requests with that key that the handler has dealt with are those
      reserved for the upstream, those reserved for the relay, and at most one refused; and one is
      refused only as the newest frame, by a handler that is closing, because its key was outstanding
      or the table full. Nothing is refused without such cause, and nothing gets past the table. */
  lemma RequestsReservedOrRefused(env: Env, events: seq<Event>, key: Key)
    requires Run(env, Init(env), events).Some?
    ensures var t := Run(env, Init(env), events).value;
            && BookedIn(env, t, key) && RefusalKept(env, t)
            && (!t.handler.Stopped? ==>
                  Total(Considered(t.handler, t.outward.frames), FrameKeyWeight(env, key))
                  == Count(t.ids.reserved, key, AwaitsUpstream) + Count(t.ids.reserved, key, AwaitsRelay)
                     + RefusedFor(env, t.outward.frames, t.ids.refused, key))
  {
    hide Run, RefusalKept, RefusedFor, FrameKeyWeight, Considered, Count, Total;
    QueriesReachable(env, events, key);
  }

  // ---------------------------------------------------------------- sent before it is answered

  /** The requests that lie wholly within so many bytes. */
  function WhollySent(passed: seq<Bytes>, n: nat): seq<Bytes> {
    if passed == [] || |Concat(passed)| <= n then passed else WhollySent(passed[..|passed| - 1], n)
  }

  /** How many requests with this key the upstream has been sent in full. */
  function SentFor(env: Env, o: Outward, key: Key): nat {
    Total(WhollySent(o.passed, |o.bytes|), FrameKeyWeight(env, key))
  }

  /** What is unsent is the end of the newest request. */
  ghost predicate UnsentKept(s: State) {
    Unsent(s.handler) != [] ==>
      s.outward.passed != [] && |Unsent(s.handler)| <= |s.outward.passed[|s.outward.passed| - 1]|
  }

  lemma UnsentOnDecide(env: Env, s: State)
    requires s.handler.Received?
    ensures UnsentKept(OnDecide(env, s, s.handler.index, s.handler.frame))
  {
    hide Classify, RequestKey, Reserve;
  }

  lemma UnsentOnRead(env: Env, s: State)
    requires s.handler.Reading?
    ensures var t := OnRead(env, s); Unsent(t.handler) == []
  {
    hide ReadNext;
  }

  lemma UnsentKeptByStep(env: Env, s: State, e: Event)
    requires UnsentKept(s) && Step(env, s, e).Some?
    ensures UnsentKept(Step(env, s, e).value)
  {
    hide OnRead, OnDecide, HeldKey, ForwarderStep, WriterStep, SupervisorStep, Enqueue;
    match e
    case H(h) =>
      HandlerFrame(env, s, h);
      match h {
        case ReadClient => UnsentOnRead(env, s);
        case Decide => UnsentOnDecide(env, s);
        case _ =>
      }
    case F(f) => ForwarderFrame(env, s, f);
    case W(_) =>
    case S(_) =>
  }

  lemma {:induction false} UnsentKeptByRun(env: Env, s: State, events: seq<Event>)
    requires UnsentKept(s) && Run(env, s, events).Some?
    ensures UnsentKept(Run(env, s, events).value)
    decreases |events|
  {
    hide Step, UnsentKept;
    if events != [] {
      UnsentKeptByStep(env, s, events[0]);
      UnsentKeptByRun(env, Step(env, s, events[0]).value, events[1..]);
    }
  }

  /** The newest request is wholly sent exactly when nothing is unsent. */
  lemma NewestSentExactly(env: Env, s: State)
    requires OutwardKept(env, s.handler, s.outward) && UnsentKept(s)
    ensures var passed := s.outward.passed;
            WhollySent(passed, |s.outward.bytes|) == if Unsent(s.handler) == [] then passed else passed[..|passed| - 1]
  {
    hide Filter, ClientRead;
    var passed, n := s.outward.passed, |s.outward.bytes|;
    assert n + |Unsent(s.handler)| == |Concat(passed)|;
    if Unsent(s.handler) != [] {
      var last := |passed| - 1;
      assert passed == passed[..last] + [passed[last]];
      ConcatSnoc(passed[..last], passed[last]);
    }
  }

  /** The query whose response could come too early: the newest one, not yet sent in full, with its key
      no longer pending. */
  predicate AnsweredEarly(env: Env, s: State, key: Key) {
    && Unsent(s.handler) != [] && s.outward.passed != []
    && FrameKey(env, s.outward.passed[|s.outward.passed| - 1]) == Some(key)
    && !(key in s.ids.pending && s.ids.pending[key] == AwaitsUpstream)
  }

  /** In every run: responses forwarded for a key are at most as many as queries with that key sent in
      full, if and only if the query being written is not one with that key that is pending no more. */
  lemma ResponsesFollowQueries(env: Env, events: seq<Event>, key: Key)
    requires Run(env, Init(env), events).Some?
    ensures var t := Run(env, Init(env), events).value;
            Total(t.inward.accepted, ResponseWeight(env, key)) <= SentFor(env, t.outward, key)
            <==> !AnsweredEarly(env, t, key)
  {
    hide Run, Step, FrameKey, ResponseKey, OutwardKept, InwardKept, DeliveryKept, AnswersAccounted, RejectionsKept;
    var t := Run(env, Init(env), events).value;
    RoutesReachable(env, events);
    UnsentKeptByRun(env, Init(env), events);
    NewestSentExactly(env, t);
    RepliesReachable(env, events);
    ResponsesCounted(env, t.inward.accepted, key);
    ReservationsConserved(env, events, key);
    QueriesReachable(env, events, key);
    SentCounted(env, t, key);
  }

  lemma SentCounted(env: Env, t: State, key: Key)
    requires UnsentKept(t) && QueriesKept(env, t, key) && Balanced(t.ids, t.inward.accepted, key)
    requires var passed := t.outward.passed;
             WhollySent(passed, |t.outward.bytes|) == if Unsent(t.handler) == [] then passed else passed[..|passed| - 1]
    ensures AcceptedFor(t.inward.accepted, key) <= SentFor(env, t.outward, key) <==> !AnsweredEarly(env, t, key)
  {
    hide WhollySent, FrameKey, RefusalKept, Considered, RefusedFor, AcceptedFor, Unsent;
    var passed := t.outward.passed;
    assert Total(passed, FrameKeyWeight(env, key)) == Count(t.ids.reserved, key, AwaitsUpstream);
  }

  /** The wallet's first frame is a query and the upstream's first frame a response to it. */
  ghost predicate AnswersFirstQuery(env: Env, id: Value) {
    var (query, _) := ReadNext(env.clientStream, env.clientEnding, env.maxFrameBytes);
    var (response, _) := ReadNext(env.upstreamStream, env.upstreamEnding, env.maxFrameBytes);
    && query.Frame? && Classify(env.parseRequest, query.frame) == Passthrough(Some(id)) && RequestKey(id).Some?
    && response.Frame? && env.parseEnvelope(response.frame) == Some(UpstreamEnvelope(Some(id), None))
    && env.maxPendingRequests > 0
  }

  /** After the query is reserved and before its first byte is sent. */
  lemma QueryReserved(env: Env, id: Value)
    requires AnswersFirstQuery(env, id)
    ensures var s := Run(env, Init(env), [H(Poll), H(ReadClient), H(Decide)]);
            && s.Some? && s.value.handler.Writing? && s.value.outward.bytes == []
            && s.value.forwarder == Listening && s.value.inward == Init(env).inward
            && s.value.ids.pending == map[RequestKey(id).value := AwaitsUpstream]
            && s.value.outward.passed == [ReadNext(env.clientStream, env.clientEnding, env.maxFrameBytes).0.frame]
  {
    hide ReadNext, Classify, RequestKey;
    var a := Step(env, Init(env), H(Poll)).value;
    var b := Step(env, a, H(ReadClient)).value;
    var events := [H(Poll), H(ReadClient), H(Decide)];
    assert events[1..] == [H(ReadClient), H(Decide)] && events[1..][1..] == [H(Decide)] && events[1..][1..][1..] == [];
  }

  /** Wherever the first query is answered, its response can be accepted before any byte of the query
      has been sent. */
  lemma ResponseCanPrecedeItsQuery(env: Env, id: Value)
    requires AnswersFirstQuery(env, id)
    ensures var events := [H(Poll), H(ReadClient), H(Decide)] + [F(ReadUpstream), F(Match)];
            Run(env, Init(env), events).Some? &&
            var t := Run(env, Init(env), events).value;
            && t.outward.bytes == [] && t.handler.Writing?
            && AcceptedFor(t.inward.accepted, RequestKey(id).value) == 1
  {
    var before, after := [H(Poll), H(ReadClient), H(Decide)], [F(ReadUpstream), F(Match)];
    QueryReserved(env, id);
    RunAppend(env, Init(env), before, after);
    assert after[1..] == [F(Match)] && after[1..][1..] == [];
    AcceptedEarly(env, Run(env, Init(env), before).value, id);
  }

  lemma AcceptedEarly(env: Env, s: State, id: Value)
    requires AnswersFirstQuery(env, id) && s.handler.Writing? && s.outward.bytes == []
    requires s.forwarder == Listening && s.inward == Init(env).inward
    requires s.ids.pending == map[RequestKey(id).value := AwaitsUpstream]
    ensures var m := Step(env, s, F(ReadUpstream));
            m.Some? &&
            var t := Step(env, m.value, F(Match));
            && t.Some? && t.value.outward.bytes == [] && t.value.handler.Writing?
            && AcceptedFor(t.value.inward.accepted, RequestKey(id).value) == 1
  {
    hide ReadNext, Classify, RequestKey;
    var response := ReadNext(env.upstreamStream, env.upstreamEnding, env.maxFrameBytes).0.frame;
    TotalSnoc([], FromUpstream(response, Some(RequestKey(id).value)), KeyWeight(RequestKey(id).value));
    assert [] + [FromUpstream(response, Some(RequestKey(id).value))]
        == [FromUpstream(response, Some(RequestKey(id).value))];
  }

  /** One such connection, with one-byte frames. */
  lemma SomeFirstQueryIsAnswered()
    ensures exists env: Env, id: Value :: AnswersFirstQuery(env, id)
  {
    var id := Num(PosInt(7));
    var env := Env(_ => Some(Request(Some(id), [], None)), _ => Some(UpstreamEnvelope(Some(id), None)), 1, 1,
                   [NEWLINE], EndOfInput, [NEWLINE], EndOfInput);
    ReadNextLegal([NEWLINE], [], EndOfInput, 1);
    assert [NEWLINE] + [] == [NEWLINE];
    assert AnswersFirstQuery(env, id);
  }
}
