/** A broadcast all the way: from the wallet's frame through the gate, the limiter and the adapter to the
    reply in the wallet's channel. */
module ProcessRuns {
  import opened Sequences
  import opened RelayApi
  import C = Connection
  import R = Relay
  import RelayRuns
  import RelayShutdown
  import P = Process
  import Framing
  import Protocol
  import Json

  /** The process can get from one state to another. */
  ghost predicate Reaches(envs: seq<C.Env>, s: P.State, t: P.State)
    requires |envs| == |s.connections|
  {
    exists events :: P.Run(envs, s, events) == Some(t)
  }

  lemma {:induction false} RunAppend(envs: seq<C.Env>, s: P.State, a: seq<P.Event>, b: seq<P.Event>)
    requires |envs| == |s.connections| && P.Run(envs, s, a).Some? && |envs| == |P.Run(envs, s, a).value.connections|
    ensures P.Run(envs, s, a + b) == P.Run(envs, P.Run(envs, s, a).value, b)
    decreases |a|
  {
    hide P.Step;
    if a == [] {
      assert a + b == b;
    } else {
      P.StepKeepsSize(envs, s, a[0]);
      RunAppend(envs, P.Step(envs, s, a[0]).value, a[1..], b);
      assert (a + b)[1..] == a[1..] + b;
    }
  }

  lemma ReachesOn(envs: seq<C.Env>, s: P.State, m: P.State, t: P.State)
    requires |envs| == |s.connections| == |m.connections| && Reaches(envs, s, m) && Reaches(envs, m, t)
    ensures Reaches(envs, s, t)
  {
    hide P.Run;
    var a :| P.Run(envs, s, a) == Some(m);
    var b :| P.Run(envs, m, b) == Some(t);
    RunAppend(envs, s, a, b);
    assert P.Run(envs, s, a + b) == Some(t);
  }

  lemma ReachesStep(envs: seq<C.Env>, s: P.State, e: P.Event, t: P.State)
    requires |envs| == |s.connections| && P.Step(envs, s, e) == Some(t)
    ensures Reaches(envs, s, t) && |t.connections| == |envs|
  {
    hide P.Step;
    P.StepKeepsSize(envs, s, e);
    assert [e][1..] == [];
    assert P.Run(envs, s, [e]) == Some(t);
  }

  lemma ReachesItself(envs: seq<C.Env>, s: P.State)
    requires |envs| == |s.connections|
    ensures Reaches(envs, s, s)
  {
    assert P.Run(envs, s, []) == Some(s);
  }

  /** A run of the relay stack by itself is a run of the process. */
  lemma {:induction false} StackReaches(envs: seq<C.Env>, s: P.State, events: seq<R.Event>, relay: R.State)
    requires |envs| == |s.connections| && R.Run(s.relay, events) == Some(relay)
    requires forall e | e in events :: P.IsInternal(e)
    ensures Reaches(envs, s, s.(relay := relay))
    decreases |events|
  {
    hide R.Step, Reaches, P.IsInternal;
    if events == [] {
      ReachesItself(envs, s);
    } else {
      var next := s.(relay := R.Step(s.relay, events[0]).value);
      assert events[0] in events;
      ReachesStep(envs, s, P.Stack(events[0]), next);
      StackReaches(envs, next, events[1..], relay);
      ReachesOn(envs, s, next, s.(relay := relay));
    }
  }

  predicate NeverInRelay(e: C.Event) {
    e.H? && !e.h.StartRelay? && !e.h.FinishRelay? && !e.h.AbortHandler?
  }

  /** A run of one connection outside the relay is a run of the process. */
  lemma {:induction false} LocalReaches(envs: seq<C.Env>, s: P.State, c: nat, events: seq<C.Event>, conn: C.State)
    requires |envs| == |s.connections| && c < |envs| && C.Run(envs[c], s.connections[c], events) == Some(conn)
    requires forall e | e in events :: NeverInRelay(e)
    ensures Reaches(envs, s, s.(connections := s.connections[c := conn]))
    decreases |events|
  {
    hide C.Step, Reaches;
    if events == [] {
      ReachesItself(envs, s);
      assert s.connections[c := conn] == s.connections;
    } else {
      var step := C.Step(envs[c], s.connections[c], events[0]).value;
      var next := s.(connections := s.connections[c := step]);
      assert events[0] in events;
      ReachesStep(envs, s, P.Local(c, events[0]), next);
      LocalReaches(envs, next, c, events[1..], conn);
      assert next.connections[c := conn] == s.connections[c := conn];
      ReachesOn(envs, s, next, s.(connections := s.connections[c := conn]));
    }
  }

  // ---------------------------------------------------------------- the way there

  /** The wallet's first frame is a broadcast with this id and transaction. */
  ghost predicate BroadcastsFirst(env: C.Env, call: C.Call) {
    var (next, _) := Framing.ReadNext(env.clientStream, env.clientEnding, env.maxFrameBytes);
    && next.Frame? && Protocol.Classify(env.parseRequest, next.frame) == Protocol.Broadcast(call.id, call.raw)
    && call.frameIndex == 0 && call.key == Protocol.RequestKey(call.id)
    && env.maxPendingRequests > 0
  }

  lemma RunToAdmitting(env: C.Env, call: C.Call) returns (s: C.State)
    requires BroadcastsFirst(env, call)
    ensures C.Run(env, C.Init(env), [C.H(C.Poll), C.H(C.ReadClient), C.H(C.Decide)]) == Some(s)
    ensures s.handler == C.Admitting(call) && s.relays == C.Init(env).relays && s.delivery == C.Init(env).delivery
    ensures call.key.Some? ==> call.key.value in s.ids.pending
  {
    hide Framing.ReadNext, Protocol.Classify, Protocol.RequestKey;
    var events := [C.H(C.Poll), C.H(C.ReadClient), C.H(C.Decide)];
    var a := C.Step(env, C.Init(env), events[0]).value;
    var b := C.Step(env, a, events[1]).value;
    s := C.Step(env, b, events[2]).value;
    assert events[1..] == [events[1], events[2]] && events[1..][1..] == [events[2]] && events[1..][1..][1..] == [];
  }

  /** From entering the relay to its return, with any result of the adapter. */
  lemma RelayRun(limits: R.Limits, owner: R.Owner, raw: Bytes, result: RelayResult)
    returns (entered: R.State, events: seq<R.Event>, done: R.State)
    requires limits.requests >= 1 && |raw| <= limits.payload && |raw| <= R.U32_MAX
    ensures R.Step(R.Init(limits), R.Enter(owner, raw)) == Some(entered)
    ensures R.Run(entered, events) == Some(done) && forall e | e in events :: P.IsInternal(e)
    ensures |entered.calls| == 1 && |done.calls| == 1 && done.calls[0].phase == R.Finished(R.Returned(result))
  {
    hide R.Run, R.Step;
    var s := R.Init(limits);
    RelayRuns.EnterStep(s, owner, raw);
    entered := R.Step(s, R.Enter(owner, raw)).value;
    RelayRuns.RunToGate(s, owner, raw);
    var e1 := [R.Advance(0), R.Advance(0)];
    RelayRuns.RunCons(s, [R.Enter(owner, raw), R.Advance(0), R.Advance(0)], entered);
    assert [R.Enter(owner, raw), R.Advance(0), R.Advance(0)][1..] == e1;
    var gated := R.Run(entered, e1).value;
    RelayRuns.RunToAdapter(gated, 0);
    var e2 := [R.Advance(0), R.Advance(0), R.Advance(0)];
    var inside := R.Run(gated, e2).value;
    RelayShutdown.RunToDeparture(inside, 0, result);
    var e3 := [R.AdapterReturns(0, result), R.Advance(0), R.Advance(0), R.Advance(0)];
    var departing := R.Run(inside, e3).value;
    LastStep(departing);
    done := R.Step(departing, R.Advance(0)).value;
    RelayRuns.RunOne(departing, R.Advance(0), done);
    R.RunAppend(entered, e1, e2);
    R.RunAppend(entered, e1 + e2, e3);
    R.RunAppend(entered, e1 + e2 + e3, [R.Advance(0)]);
    events := e1 + e2 + e3 + [R.Advance(0)];
  }

  lemma LastStep(s: R.State)
    requires |s.calls| == 1 && s.calls[0].phase.Departing?
    ensures R.Step(s, R.Advance(0)).Some?
    ensures var t := R.Step(s, R.Advance(0)).value;
            |t.calls| == 1 && t.calls[0].phase == R.Finished(s.calls[0].phase.outcome)
  {
  }

  lemma RunToReply(env: C.Env, s: C.State, call: C.Call, result: RelayResult) returns (t: C.State)
    requires s.handler == C.Answered(call, result) && s.delivery == C.Init(env).delivery
    ensures C.Run(env, s, [C.H(C.Release), C.H(C.SendReply)]) == Some(t)
    ensures t.delivery.enqueued == [C.FromHandler(C.Answer(call, result))] && t.handler == C.Polling
  {
    hide C.Answer;
    var events := [C.H(C.Release), C.H(C.SendReply)];
    var a := C.Step(env, s, events[0]).value;
    t := C.Step(env, a, events[1]).value;
    assert events[1..] == [events[1]] && events[1..][1..] == [];
  }

  /** A broadcast can go all the way. If the wallet's first frame is a broadcast that the limits admit, then
      for every result the adapter may return there is a run of the process that ends with the reply for
      exactly that result in the wallet's channel and the handler ready for the next frame. */
  lemma BroadcastGoesThrough(env: C.Env, limits: R.Limits, call: C.Call, result: RelayResult) returns (t: P.State)
    requires BroadcastsFirst(env, call)
    requires limits.requests >= 1 && |call.raw| <= limits.payload && |call.raw| <= R.U32_MAX
    ensures Reaches([env], P.Init([env], limits), t)
    ensures |t.connections| == 1 && t.connections[0].handler == C.Polling
    ensures t.connections[0].delivery.enqueued == [C.FromHandler(C.Answer(call, result))]
  {
    hide C.Run, R.Run, Reaches, C.Answer, BroadcastsFirst;
    var envs, s := [env], P.Init([env], limits);
    var admitting := RunToAdmitting(env, call);
    var s1 := s.(connections := s.connections[0 := admitting]);
    LocalReaches(envs, s, 0, [C.H(C.Poll), C.H(C.ReadClient), C.H(C.Decide)], admitting);
    var entered, events, done := RelayRun(limits, R.Owner(0, 0), call.raw, result);
    var s2 := EnterRelay(env, s1, call, entered);
    var s3 := s2.(relay := done);
    StackReaches(envs, s2, events, done);
    var s4 := TakeAnswer(env, s3, call, result);
    var replied := RunToReply(env, s4.connections[0], call, result);
    t := s4.(connections := s4.connections[0 := replied]);
    LocalReaches(envs, s4, 0, [C.H(C.Release), C.H(C.SendReply)], replied);
    ReachesOn(envs, s, s1, s2);
    ReachesOn(envs, s, s2, s3);
    ReachesOn(envs, s, s3, s4);
    ReachesOn(envs, s, s4, t);
  }

  lemma EnterRelay(env: C.Env, s: P.State, call: C.Call, entered: R.State) returns (t: P.State)
    requires |s.connections| == 1 && s.connections[0].handler == C.Admitting(call)
             && s.connections[0].relays.calls == []
    requires R.Step(s.relay, R.Enter(R.Owner(0, 0), call.raw)) == Some(entered) && s.relay.calls == []
    ensures Reaches([env], s, t) && |t.connections| == 1 && t.relay == entered
    ensures t.connections[0].handler == C.Relaying(call) && t.connections[0].delivery == s.connections[0].delivery
    ensures |t.connections[0].relays.calls| == 1 && R.Owner(0, 0) in t.ids && t.ids[R.Owner(0, 0)] == 0
  {
    hide R.Step, Reaches, C.OnRead, C.OnDecide, C.OnRelease, C.OnWrite;
    t := P.Step([env], s, P.Start(0)).value;
    ReachesStep([env], s, P.Start(0), t);
  }

  lemma TakeAnswer(env: C.Env, s: P.State, call: C.Call, result: RelayResult) returns (t: P.State)
    requires |s.connections| == 1 && s.connections[0].handler == C.Relaying(call)
             && |s.connections[0].relays.calls| == 1
    requires R.Owner(0, 0) in s.ids && s.ids[R.Owner(0, 0)] == 0
    requires |s.relay.calls| == 1 && s.relay.calls[0].phase == R.Finished(R.Returned(result))
    ensures Reaches([env], s, t) && |t.connections| == 1
    ensures t.connections[0].handler == C.Answered(call, result)
            && t.connections[0].delivery == s.connections[0].delivery
  {
    hide Reaches, C.OnRead, C.OnDecide, C.OnRelease, C.OnWrite;
    t := P.Step([env], s, P.Answer(0)).value;
    ReachesStep([env], s, P.Answer(0), t);
  }

  // ---------------------------------------------------------------- the way out

  /** A call cancelled in the adapter gives everything back. */
  lemma UnwindRun(s: R.State, id: nat) returns (cancelled: R.State, events: seq<R.Event>, done: R.State)
    requires id < |s.calls| && s.calls[id].phase.InAdapter? && s.gate.active > 0
    ensures R.Step(s, R.Cancel(id)) == Some(cancelled) && |cancelled.calls| == |s.calls|
    ensures cancelled.calls[id].phase == R.ReleasingPayload(R.Cancelled)
    ensures R.Run(cancelled, events) == Some(done) && forall e | e in events :: P.IsInternal(e)
    ensures |done.calls| == |s.calls| && done.calls[id].phase == R.Finished(R.Cancelled)
    ensures done.requests == s.requests + 1 && done.payload == s.payload + |s.calls[id].raw|
    ensures done.gate.active == s.gate.active - 1
  {
    hide R.Run;
    cancelled := R.Step(s, R.Cancel(id)).value;
    var a := R.Step(cancelled, R.Advance(id)).value;
    var b := R.Step(a, R.Advance(id)).value;
    var c := R.Step(b, R.Advance(id)).value;
    done := R.Step(c, R.Advance(id)).value;
    var e := R.Advance(id);
    RelayRuns.RunOne(c, e, done);
    RelayRuns.RunCons(b, [e, e], c);
    assert [e, e][1..] == [e];
    RelayRuns.RunCons(a, [e, e, e], b);
    assert [e, e, e][1..] == [e, e];
    RelayRuns.RunCons(cancelled, [e, e, e, e], a);
    assert [e, e, e, e][1..] == [e, e, e];
    events := [e, e, e, e];
  }

  /** A handler that has been asked to stop while its call is in the adapter can always end, and then the
      call has given back its permits and is no longer counted. */
  lemma CancelledCallUnwinds(envs: seq<C.Env>, s: P.State, c: nat, id: nat) returns (t: P.State)
    requires |envs| == |s.connections| && c < |envs| && P.Awaited(s, c) == Some(id)
    requires s.relay.calls[id].phase.InAdapter? && s.relay.gate.active > 0
    requires C.HandlerTask in s.connections[c].control.aborts
    ensures Reaches(envs, s, t) && c < |t.connections| && t.connections[c].handler.Stopped?
    ensures id < |t.relay.calls| && t.relay.calls[id].phase == R.Finished(R.Cancelled)
    ensures t.relay.requests == s.relay.requests + 1 && t.relay.payload == s.relay.payload + |s.relay.calls[id].raw|
    ensures t.relay.gate.active == s.relay.gate.active - 1
  {
    hide R.Run, R.Step, Reaches, C.Halt;
    var cancelled, events, done := UnwindRun(s.relay, id);
    var s1, s2 := s.(relay := cancelled), s.(relay := done);
    ReachesStep(envs, s, P.CancelCall(c), s1);
    StackReaches(envs, s1, events, done);
    ReachesOn(envs, s, s1, s2);
    HaltEnds(envs[c], s.connections[c]);
    t := P.Step(envs, s2, P.EndCancelled(c)).value;
    ReachesStep(envs, s2, P.EndCancelled(c), t);
    ReachesOn(envs, s, s2, t);
  }

  lemma HaltEnds(env: C.Env, conn: C.State)
    requires conn.handler.Relaying? && C.HandlerTask in conn.control.aborts
    ensures C.HandlerStep(env, conn, C.AbortHandler) == Some(conn.(handler := C.Halt(conn.handler)))
    ensures C.Halt(conn.handler).Stopped?
  {
    hide C.OnRead, C.OnDecide, C.OnRelease, C.OnWrite;
  }
}
