/** Request ids on one connection: the pending table, conservation of reservations, and the window in
    which an intercepted broadcast owns its id. */
module ConnectionIds {
  import opened Sequences
  import opened Framing
  import Json
  import opened Protocol
  import opened Pending
  import opened Connection
  import opened ConnectionRoutes

  function KeyWeight(key: Key): Output -> nat {
    (o: Output) => if o.FromUpstream? && o.key == Some(key) then 1 else 0
  }

  /** How many upstream responses with this key were accepted. */
  function AcceptedFor(accepted: seq<Output>, key: Key): nat {
    Total(accepted, KeyWeight(key))
  }

  function Outstanding(table: Table, key: Key, request: PendingRequest): nat {
    if key in table && table[key] == request then 1 else 0
  }

  /** Every reservation of a key is answered for: by an accepted response or a completed broadcast,
      or by the entry that is still in the table. */
  ghost predicate Balanced(ids: Ids, accepted: seq<Output>, key: Key) {
    && multiset(ids.reserved)[(key, AwaitsUpstream)]
        == AcceptedFor(accepted, key) + Outstanding(ids.pending, key, AwaitsUpstream)
    && multiset(ids.reserved)[(key, AwaitsRelay)]
        == multiset(ids.completed)[key] + Outstanding(ids.pending, key, AwaitsRelay)
  }

  /** From the reservation of a keyed broadcast until its answer is in the channel. */
  predicate InWindow(handler: Handler, key: Key) {
    match handler
    case Admitting(call) => call.key == Some(key)
    case Relaying(call) => call.key == Some(key)
    case Answered(call, _) => call.key == Some(key)
    case Replying(reply, _) => (reply.Relayed? || reply.RelayFailed?) && reply.call.key == Some(key)
    case _ => false
  }

  /** The table is within its limit, its broadcast entry is exactly the handler's current one, and no
      upstream request has the key of a broadcast whose answer is still on its way to the channel. */
  ghost predicate TableKept(env: Env, handler: Handler, table: Table) {
    && |table| <= env.maxPendingRequests
    && (forall k :: k in table && table[k] == AwaitsRelay <==> HeldKey(handler) == Some(k))
    && (forall k :: InWindow(handler, k) ==> k !in table || table[k] == AwaitsRelay)
  }

  ghost predicate IdsKept(env: Env, s: State) {
    TableKept(env, s.handler, s.ids.pending) && forall k :: Balanced(s.ids, s.inward.accepted, k)
  }

  lemma BookBalanced(ids: Ids, accepted: seq<Output>, key: Key, request: PendingRequest, max: nat, k: Key)
    requires Balanced(ids, accepted, k) && Reserve(ids.pending, key, request, max).1 == Reserved
    ensures Balanced(Book(ids, Reserve(ids.pending, key, request, max).0, key, request), accepted, k)
  {
    hide Total, KeyWeight;
    assert multiset(ids.reserved + [(key, request)]) == multiset(ids.reserved) + multiset{(key, request)};
  }

  lemma IdsOnDecide(env: Env, s: State)
    requires IdsKept(env, s) && s.handler.Received?
    ensures IdsKept(env, OnDecide(env, s, s.handler.index, s.handler.frame))
  {
    hide Classify, RequestKey, Balanced, Book;
    match Classify(env.parseRequest, s.handler.frame)
    case Rejected(_) =>
    case Passthrough(id) => IdsOnQuery(env, s, s.handler.frame, id);
    case Broadcast(id, raw) => IdsOnBroadcast(env, s, Call(s.handler.index, id, RequestKey(id), raw));
  }

  lemma RefusalBalanced(s: State)
    requires forall k :: Balanced(s.ids, s.inward.accepted, k)
    ensures forall k :: Balanced(s.ids.(refused := Some(s.ids.pending)), s.inward.accepted, k)
  {
    hide Total, KeyWeight;
    forall k ensures Balanced(s.ids.(refused := Some(s.ids.pending)), s.inward.accepted, k) {
      assert Balanced(s.ids, s.inward.accepted, k);
    }
  }

  lemma IdsOnQuery(env: Env, s: State, frame: Bytes, id: Option<Json.Value>)
    requires IdsKept(env, s) && HeldKey(s.handler) == None
    ensures IdsKept(env, OnQuery(env, s, frame, id))
  {
    hide RequestKey, Balanced;
    if id.Some? && RequestKey(id.value).Some? {
      var key := RequestKey(id.value).value;
      var (table, r) := Reserve(s.ids.pending, key, AwaitsUpstream, env.maxPendingRequests);
      if r == Reserved {
        forall k ensures Balanced(Book(s.ids, table, key, AwaitsUpstream), s.inward.accepted, k) {
          BookBalanced(s.ids, s.inward.accepted, key, AwaitsUpstream, env.maxPendingRequests, k);
        }
      } else {
        RefusalBalanced(s);
      }
    }
  }

  lemma IdsOnBroadcast(env: Env, s: State, call: Call)
    requires IdsKept(env, s) && HeldKey(s.handler) == None
    ensures IdsKept(env, OnBroadcast(env, s, call))
  {
    hide Balanced;
    if call.key.Some? {
      var key := call.key.value;
      var (table, r) := Reserve(s.ids.pending, key, AwaitsRelay, env.maxPendingRequests);
      if r == Reserved {
        forall k ensures Balanced(Book(s.ids, table, key, AwaitsRelay), s.inward.accepted, k) {
          BookBalanced(s.ids, s.inward.accepted, key, AwaitsRelay, env.maxPendingRequests, k);
        }
      } else {
        RefusalBalanced(s);
      }
    }
  }

  lemma RemoveShrinks(table: Table, key: Key)
    ensures |table - {key}| <= |table|
  {
    assert (table - {key}).Keys == table.Keys - {key};
  }

  lemma IdsOnRelease(env: Env, s: State)
    requires IdsKept(env, s) && s.handler.Answered?
    ensures IdsKept(env, OnRelease(s, s.handler.call, s.handler.result))
  {
    hide Total, KeyWeight;
    var call := s.handler.call;
    if call.key.Some? {
      var key := call.key.value;
      RemoveShrinks(s.ids.pending, key);
      var t := OnRelease(s, call, s.handler.result);
      assert key in s.ids.pending && s.ids.pending[key] == AwaitsRelay;
      assert multiset(t.ids.completed) == multiset(s.ids.completed) + multiset{key};
      forall k ensures Balanced(t.ids, t.inward.accepted, k) {
        assert Balanced(s.ids, s.inward.accepted, k);
      }
    }
  }

  lemma AcceptBalanced(s: State, frame: Bytes, key: Key, k: Key)
    requires Balanced(s.ids, s.inward.accepted, k) && Accept(s.ids.pending, key).1
    ensures var t := OnMatch(s, frame, key); Balanced(t.ids, t.inward.accepted, k)
  {
    hide Total;
    TotalSnoc(s.inward.accepted, FromUpstream(frame, Some(key)), KeyWeight(k));
  }

  lemma IdsOnMatch(env: Env, s: State)
    requires IdsKept(env, s) && s.forwarder.Matching?
    ensures IdsKept(env, OnMatch(s, s.forwarder.frame, s.forwarder.key))
  {
    hide Balanced;
    var key := s.forwarder.key;
    RemoveShrinks(s.ids.pending, key);
    if Accept(s.ids.pending, key).1 {
      var t := OnMatch(s, s.forwarder.frame, key);
      forall k ensures Balanced(t.ids, t.inward.accepted, k) {
        AcceptBalanced(s, s.forwarder.frame, key, k);
      }
    }
  }

  lemma IdsOnReadUpstream(env: Env, s: State)
    requires IdsKept(env, s) && s.forwarder.Listening?
    ensures IdsKept(env, OnReadUpstream(env, s))
  {
    hide ReadNext, RequestKey, Total;
    var (result, rest) := ReadNext(s.inward.rest, env.upstreamEnding, env.maxFrameBytes);
    if result.Frame? {
      var t := OnReadUpstream(env, s);
      forall k ensures Balanced(t.ids, t.inward.accepted, k) {
        assert Balanced(s.ids, s.inward.accepted, k);
        TotalSnoc(s.inward.accepted, FromUpstream(result.frame, None), KeyWeight(k));
      }
    }
  }

  lemma IdsKeptByStep(env: Env, s: State, e: Event)
    requires IdsKept(env, s) && Step(env, s, e).Some?
    ensures IdsKept(env, Step(env, s, e).value)
  {
    hide Balanced, OnDecide, OnRead, OnWrite, OnRelease, OnReadUpstream, OnMatch, WriterStep, SupervisorStep, Answer;
    match e
    case H(h) =>
      HandlerFrame(env, s, h);
      match h {
        case Decide => IdsOnDecide(env, s);
        case Release => IdsOnRelease(env, s);
        case ReadClient => ReadingHoldsNothing(env, s);
        case WriteUpstream(n) => WritingHoldsNothing(s, n);
        case _ =>
      }
    case F(f) =>
      ForwarderFrame(env, s, f);
      match f {
        case Match => IdsOnMatch(env, s);
        case ReadUpstream => IdsOnReadUpstream(env, s);
        case _ =>
      }
    case W(_) =>
    case S(_) =>
  }

  lemma ReadingHoldsNothing(env: Env, s: State)
    requires s.handler.Reading?
    ensures var h := OnRead(env, s).handler; HeldKey(h) == None && forall k :: !InWindow(h, k)
  {
    hide ReadNext;
  }

  lemma WritingHoldsNothing(s: State, n: nat)
    requires s.handler.Writing? && s.handler.sent + n <= |s.handler.frame|
    ensures var h := OnWrite(s, s.handler.frame, s.handler.sent, n).handler;
            HeldKey(h) == None && forall k :: !InWindow(h, k)
  {
  }

  lemma {:induction false} IdsKeptByRun(env: Env, s: State, events: seq<Event>)
    requires IdsKept(env, s) && Run(env, s, events).Some?
    ensures IdsKept(env, Run(env, s, events).value)
    decreases |events|
  {
    hide Step, IdsKept;
    if events != [] {
      IdsKeptByStep(env, s, events[0]);
      IdsKeptByRun(env, Step(env, s, events[0]).value, events[1..]);
    }
  }

  /** Over every run, with any reuse of ids: the reservations of each key are conserved, the table
      stays within its limit, it holds at most one broadcast, and none while the handler is at its
      loop head. */
  lemma ReservationsConserved(env: Env, events: seq<Event>, key: Key)
    requires Run(env, Init(env), events).Some?
    ensures var t := Run(env, Init(env), events).value;
            && Balanced(t.ids, t.inward.accepted, key)
            && |t.ids.pending| <= env.maxPendingRequests
            && (forall a, b | a in t.ids.pending && b in t.ids.pending ::
                  t.ids.pending[a] == t.ids.pending[b] == AwaitsRelay ==> a == b)
            && (t.handler.Polling? ==> forall a | a in t.ids.pending :: t.ids.pending[a] == AwaitsUpstream)
  {
    hide Run, Balanced, Step;
    var s := Init(env);
    forall k ensures Balanced(s.ids, s.inward.accepted, k) { InitiallyBalanced(k); }
    IdsKeptByRun(env, s, events);
    var t := Run(env, s, events).value;
    forall a | a in t.ids.pending ensures t.ids.pending[a] == AwaitsRelay <==> HeldKey(t.handler) == Some(a) {
    }
  }

  lemma InitiallyBalanced(k: Key)
    ensures Balanced(Ids(map[], [], [], None), [], k)
  {
  }

  // ---------------------------------------------------------------- the broadcast window

  ghost predicate WindowThroughout(env: Env, s: State, events: seq<Event>, key: Key)
    decreases |events|
  {
    InWindow(s.handler, key)
    && (events != [] ==> Step(env, s, events[0]).Some?
                         && WindowThroughout(env, Step(env, s, events[0]).value, events[1..], key))
  }

  lemma NoAcceptanceInWindow(env: Env, s: State, e: Event, key: Key)
    requires IdsKept(env, s) && InWindow(s.handler, key) && Step(env, s, e).Some?
    ensures var t := Step(env, s, e).value;
            && s.inward.accepted <= t.inward.accepted
            && Filter(s.delivery.enqueued, IsForwarded) <= Filter(t.delivery.enqueued, IsForwarded)
            && forall j | |s.inward.accepted| <= j < |t.inward.accepted| :: KeyWeight(key)(t.inward.accepted[j]) == 0
  {
    hide ReadNext, RequestKey, OnDecide, OnRead, OnWrite, OnRelease, Answer, Filter, Text, Balanced;
    assert TableKept(env, s.handler, s.ids.pending);
    match e
    case H(h) =>
      HandlerFrame(env, s, h);
      if h == SendReply { FilterSnoc(s.delivery.enqueued, FromHandler(s.handler.reply), IsForwarded); }
    case F(f) =>
      ForwarderFrame(env, s, f);
      if f == Forward { FilterSnoc(s.delivery.enqueued, s.forwarder.output, IsForwarded); }
    case W(w) =>
    case S(_) =>
  }

  lemma {:induction false} WindowExtends(env: Env, s: State, events: seq<Event>, key: Key)
    requires IdsKept(env, s) && WindowThroughout(env, s, events, key)
    ensures Run(env, s, events).Some?
    ensures var t := Run(env, s, events).value;
            && s.inward.accepted <= t.inward.accepted
            && Filter(s.delivery.enqueued, IsForwarded) <= Filter(t.delivery.enqueued, IsForwarded)
            && forall j | |s.inward.accepted| <= j < |t.inward.accepted| :: KeyWeight(key)(t.inward.accepted[j]) == 0
    decreases |events|
  {
    hide Step, IdsKept, InWindow, Filter, KeyWeight;
    if events != [] {
      var m := Step(env, s, events[0]).value;
      NoAcceptanceInWindow(env, s, events[0], key);
      IdsKeptByStep(env, s, events[0]);
      WindowExtends(env, m, events[1..], key);
      var t := Run(env, m, events[1..]).value;
    }
  }

  /** From the moment a keyed broadcast is reserved until its answer is enqueued, the forwarder
      accepts no upstream response with that key. At most one upstream frame with that key can enter
      the channel meanwhile, and it is the one the forwarder already held when the window was entered. */
  lemma BroadcastOwnsItsId(env: Env, before: seq<Event>, during: seq<Event>, key: Key)
    requires Run(env, Init(env), before).Some?
    requires WindowThroughout(env, Run(env, Init(env), before).value, during, key)
    ensures var s := Run(env, Init(env), before).value;
            Run(env, s, during).Some? &&
            var t := Run(env, s, during).value;
            var past := Filter(s.delivery.enqueued, IsForwarded);
            var now := Filter(t.delivery.enqueued, IsForwarded);
            && s.inward.accepted <= t.inward.accepted
            && (forall j | |s.inward.accepted| <= j < |t.inward.accepted| :: KeyWeight(key)(t.inward.accepted[j]) == 0)
            && past <= now
            && (forall i | |past| <= i < |now| && KeyWeight(key)(now[i]) == 1 ::
                  i == |past| && InHand(s.forwarder) == [now[i]])
  {
    hide Run, Step, IdsKept, InWindow, Filter, Balanced;
    var s := Run(env, Init(env), before).value;
    InitiallyKept(env);
    IdsKeptByRun(env, Init(env), before);
    RoutesReachable(env, before);
    WindowExtends(env, s, during, key);
    RoutesKeptByRun(env, s, during);
    var t := Run(env, s, during).value;
    WindowFrames(env, s, t, key);
  }

  lemma InitiallyKept(env: Env)
    ensures IdsKept(env, Init(env))
  {
    hide Balanced;
    forall k ensures Balanced(Init(env).ids, Init(env).inward.accepted, k) { InitiallyBalanced(k); }
  }

  lemma WindowFrames(env: Env, s: State, t: State, key: Key)
    requires InwardKept(env, s) && InwardKept(env, t)
    requires s.inward.accepted <= t.inward.accepted
    requires forall j | |s.inward.accepted| <= j < |t.inward.accepted| :: KeyWeight(key)(t.inward.accepted[j]) == 0
    ensures var past := Filter(s.delivery.enqueued, IsForwarded);
            var now := Filter(t.delivery.enqueued, IsForwarded);
            forall i | |past| <= i < |now| && KeyWeight(key)(now[i]) == 1 ::
              i == |past| && InHand(s.forwarder) == [now[i]]
  {
    hide Filter, KeyWeight, UpstreamRead;
    var past := Filter(s.delivery.enqueued, IsForwarded);
    var now := Filter(t.delivery.enqueued, IsForwarded);
    var a, b := s.inward.accepted, t.inward.accepted;
    assert a == past + InHand(s.forwarder);
    forall i | |past| <= i < |now| && KeyWeight(key)(now[i]) == 1
        ensures i == |past| && InHand(s.forwarder) == [now[i]] {
      assert b[i] == now[i];
      assert i < |a|;
    }
  }
}
