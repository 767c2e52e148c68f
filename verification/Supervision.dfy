/** The server as a whole: the accept loop with its connection tasks, the connections those tasks
    supervise, and the relay stack behind them. Task `i` owns connection `i`. */
module Supervision {
  import opened Sequences
  import C = Connection
  import ConnectionCalls
  import P = Process
  import R = Relay
  import S = Serve

  datatype State = State(serve: S.State, process: P.State)

  datatype Event =
    | Loop(loop: S.Event)     // the accept loop, or a connection task ending
    | Work(work: P.Event)     // a connection or the relay stack

  /** A task that ended while it was still connecting to the query upstream: only the shutdown signal
      can have reached its connection. */
  predicate NeverStarted(env: C.Env, conn: C.State) {
    conn.(control := conn.control.(shutdown := false)) == C.Init(env)
  }

  predicate Finished(env: C.Env, conn: C.State) {
    NeverStarted(env, conn) || conn.control.supervisor.Returned?
  }

  /** A task that fails or is aborted has dropped the handles of its connection before it is done. */
  predicate LetGo(env: C.Env, conn: C.State) {
    Finished(env, conn) || conn.control.supervisor == C.Dropping([])
  }

  predicate LoopAllowed(envs: seq<C.Env>, s: State, e: S.Event)
    requires |envs| == |s.process.connections|
  {
    match e
    case Accept => s.serve.permits > 0 ==> |s.serve.tasks| < |envs|
    case Unwind(i, ok) =>
      i < |envs| && if ok then Finished(envs[i], s.process.connections[i]) else LetGo(envs[i], s.process.connections[i])
    case Abort(i) => i < |envs| && LetGo(envs[i], s.process.connections[i])
    case _ => true
  }

  /** A connection takes steps only while its task works, or as what a cancelled task left behind. */
  predicate Live(s: State, c: nat)
    requires c < |s.process.connections|
  {
    c < |s.serve.tasks| && (s.serve.tasks[c].stage.Working? || s.process.connections[c].control.supervisor.Dropping?)
  }

  function ConnectionOf(e: P.Event): Option<nat> {
    match e
    case Local(c, _) => Some(c)
    case Start(c) => Some(c)
    case Answer(c) => Some(c)
    case CancelCall(c) => Some(c)
    case EndCancelled(c) => Some(c)
    case Stack(_) => None
  }

  predicate WorkAllowed(s: State, e: P.Event) {
    && (ConnectionOf(e).Some? ==> ConnectionOf(e).value < |s.process.connections| && Live(s, ConnectionOf(e).value))
    && (e.Local? && e.local == C.S(C.SignalShutdown) ==> !s.serve.phase.Serving?)
  }

  function Init(envs: seq<C.Env>, limits: R.Limits, maxConnections: nat): State {
    State(S.Init(maxConnections), P.Init(envs, limits))
  }

  function Step(envs: seq<C.Env>, s: State, e: Event): Option<State>
    requires |envs| == |s.process.connections|
  {
    match e
    case Loop(loop) =>
      if !LoopAllowed(envs, s, loop) then None
      else (match S.Step(s.serve, loop) case Some(serve) => Some(s.(serve := serve)) case None => None)
    case Work(work) =>
      if !WorkAllowed(s, work) then None
      else (match P.Step(envs, s.process, work) case Some(process) => Some(s.(process := process)) case None => None)
  }

  lemma StepKeepsSize(envs: seq<C.Env>, s: State, e: Event)
    requires |envs| == |s.process.connections| && Step(envs, s, e).Some?
    ensures |Step(envs, s, e).value.process.connections| == |envs|
  {
    hide P.Step, S.Step;
    if e.Work? { P.StepKeepsSize(envs, s.process, e.work); }
  }

  function Run(envs: seq<C.Env>, s: State, events: seq<Event>): Option<State>
    requires |envs| == |s.process.connections|
    decreases |events|
  {
    if events == [] then Some(s)
    else match Step(envs, s, events[0]) {
      case None => None
      case Some(next) => StepKeepsSize(envs, s, events[0]); Run(envs, next, events[1..])
    }
  }

  // ---------------------------------------------------------------- tasks and their connections

  predicate EndedWell(task: S.Task) {
    (task.stage.Unwound? || task.stage.Done?) && task.stage.ok
  }

  /** A connection that was not accepted has not started; one whose task ended well has finished. */
  ghost predicate TaskKept(envs: seq<C.Env>, s: State, c: nat) {
    c < |envs| && c < |s.process.connections| &&
    var conn := s.process.connections[c];
    && ConnectionCalls.ControlKept(conn)
    && (c >= |s.serve.tasks| ==> NeverStarted(envs[c], conn))
    && (c < |s.serve.tasks| && EndedWell(s.serve.tasks[c]) ==> Finished(envs[c], conn))
  }

  ghost predicate Kept(envs: seq<C.Env>, limits: R.Limits, max: nat, s: State) {
    && S.Kept(max, s.serve) && P.Kept(envs, limits, s.process)
    && forall c | 0 <= c < |envs| :: TaskKept(envs, s, c)
  }

  /** What the accept loop does to one task: nothing, or adds it, or lets it end as allowed. */
  lemma LoopOnTask(s: S.State, e: S.Event, c: nat)
    requires S.Step(s, e).Some?
    ensures var t := S.Step(s, e).value;
            && |s.tasks| <= |t.tasks|
            && (c < |t.tasks| && EndedWell(t.tasks[c]) ==>
                  c < |s.tasks| && (EndedWell(s.tasks[c]) || e == S.Unwind(c, true)))
  {
  }

  lemma TasksKeptByLoop(envs: seq<C.Env>, s: State, e: S.Event, c: nat)
    requires |envs| == |s.process.connections| && TaskKept(envs, s, c) && Step(envs, s, Loop(e)).Some?
    ensures TaskKept(envs, Step(envs, s, Loop(e)).value, c)
  {
    hide S.Step, ConnectionCalls.ControlKept, NeverStarted;
    LoopOnTask(s.serve, e, c);
  }

  /** A step of the process changes at most one connection, by a step of that connection. */
  lemma WorkOnConnection(envs: seq<C.Env>, s: P.State, e: P.Event, c: nat)
    requires |envs| == |s.connections| && c < |envs| && P.Step(envs, s, e).Some?
    ensures var t := P.Step(envs, s, e).value;
            |t.connections| == |envs| &&
            (t.connections[c] == s.connections[c]
             || (ConnectionOf(e) == Some(c) && exists ce ::
                 C.Step(envs[c], s.connections[c], ce) == Some(t.connections[c])))
  {
    hide C.HandlerStep, C.ForwarderStep, C.WriterStep, C.SupervisorStep, R.Step;
    P.StepKeepsSize(envs, s, e);
    var t := P.Step(envs, s, e).value;
    if t.connections[c] != s.connections[c] {
      var ce := match e
        case Local(_, local) => local
        case Start(_) => C.H(C.StartRelay)
        case Answer(_) => C.H(C.FinishRelay(s.relay.calls[P.Awaited(s, c).value].phase.outcome.result))
        case _ => C.H(C.AbortHandler);
      assert C.Step(envs[c], s.connections[c], ce) == Some(t.connections[c]);
    }
  }

  lemma TasksKeptByWork(envs: seq<C.Env>, s: State, e: P.Event, c: nat)
    requires |envs| == |s.process.connections| && TaskKept(envs, s, c) && Step(envs, s, Work(e)).Some?
    ensures TaskKept(envs, Step(envs, s, Work(e)).value, c)
  {
    hide P.Step, C.Step, ConnectionCalls.ControlKept;
    WorkOnConnection(envs, s.process, e, c);
    var t := Step(envs, s, Work(e)).value;
    var conn := s.process.connections[c];
    if t.process.connections[c] != conn {
      var ce :| C.Step(envs[c], conn, ce) == Some(t.process.connections[c]);
      ConnectionCalls.ControlKeptByStep(envs[c], conn, ce);
    }
  }

  lemma KeptByStep(envs: seq<C.Env>, limits: R.Limits, max: nat, s: State, e: Event)
    requires Kept(envs, limits, max, s) && Step(envs, s, e).Some?
    ensures Kept(envs, limits, max, Step(envs, s, e).value)
  {
    hide S.Step, P.Step, S.Kept, P.Kept, TaskKept;
    SizesAgree(envs, limits, s.process);
    match e
    case Loop(loop) =>
      S.KeptByStep(max, s.serve, loop);
      forall c | 0 <= c < |envs|
          ensures TaskKept(envs, Step(envs, s, e).value, c) { TasksKeptByLoop(envs, s, loop, c); }
    case Work(work) =>
      P.KeptByStep(envs, limits, s.process, work);
      forall c | 0 <= c < |envs|
          ensures TaskKept(envs, Step(envs, s, e).value, c) { TasksKeptByWork(envs, s, work, c); }
  }

  lemma SizesAgree(envs: seq<C.Env>, limits: R.Limits, s: P.State)
    requires P.Kept(envs, limits, s)
    ensures |envs| == |s.connections|
  {
  }

  lemma {:induction false} KeptByRun(envs: seq<C.Env>, limits: R.Limits, max: nat, s: State, events: seq<Event>)
    requires |envs| == |s.process.connections| && Kept(envs, limits, max, s) && Run(envs, s, events).Some?
    ensures Kept(envs, limits, max, Run(envs, s, events).value)
    decreases |events|
  {
    hide Step, Kept;
    if events != [] {
      KeptByStep(envs, limits, max, s, events[0]);
      StepKeepsSize(envs, s, events[0]);
      KeptByRun(envs, limits, max, Step(envs, s, events[0]).value, events[1..]);
    }
  }

  lemma KeptInitially(envs: seq<C.Env>, limits: R.Limits, max: nat)
    ensures Kept(envs, limits, max, Init(envs, limits, max))
  {
    hide P.Kept;
    P.KeptInitially(envs, limits);
  }

  // ---------------------------------------------------------------- what a drained report means

  /** A connection that has finished has no relay call that has not. */
  lemma FinishedHasNoCall(env: C.Env, conn: C.State)
    requires ConnectionCalls.ControlKept(conn) && Finished(env, conn)
    ensures conn.handler.Stopped? || conn.relays.calls == []
  {
    if conn.control.supervisor.Returned? {
      assert C.Terminal(conn, C.HandlerTask);
    }
  }

  lemma DrainedInState(envs: seq<C.Env>, limits: R.Limits, max: nat, s: State)
    requires Kept(envs, limits, max, s) && s.serve.phase == S.Returned(S.Report(true))
    ensures forall id | 0 <= id < |s.process.relay.calls| :: s.process.relay.calls[id].phase.Finished?
  {
    hide ConnectionCalls.ControlKept, Finished, P.ConnectionKept, R.Conserved, R.LogKept;
    forall id | 0 <= id < |s.process.relay.calls| ensures s.process.relay.calls[id].phase.Finished? {
      assert P.CallLinked(s.process, id);
      var c := s.process.relay.calls[id].owner.connection;
      assert TaskKept(envs, s, c);
      if c < |s.serve.tasks| {
        assert s.serve.tasks[c].joined;
        assert EndedWell(s.serve.tasks[c]);
      } else {
        StartedLater(envs[c], s.process.connections[c]);
      }
      FinishedHasNoCall(envs[c], s.process.connections[c]);
    }
  }

  lemma StartedLater(env: C.Env, conn: C.State)
    requires NeverStarted(env, conn)
    ensures Finished(env, conn)
  {
  }

  /** In every run of the whole server: when the accept loop has returned with the report that all
      connections were drained, no relay call is active and none ever will be again; every call that was
      ever made has run to its end and given back what it held. */
  lemma DrainedMeansIdle(envs: seq<C.Env>, limits: R.Limits, max: nat, events: seq<Event>)
    requires Run(envs, Init(envs, limits, max), events).Some?
    requires Run(envs, Init(envs, limits, max), events).value.serve.phase == S.Returned(S.Report(true))
    ensures var relay := Run(envs, Init(envs, limits, max), events).value.process.relay;
            && (forall id | 0 <= id < |relay.calls| :: relay.calls[id].phase.Finished?)
            && relay.gate.active == 0 && relay.requests == limits.requests && relay.payload == limits.payload
  {
    hide Run, P.ConnectionKept, P.Linked, R.LogKept, TaskKept, S.Kept;
    KeptInitially(envs, limits, max);
    KeptByRun(envs, limits, max, Init(envs, limits, max), events);
    var t := Run(envs, Init(envs, limits, max), events).value;
    DrainedInState(envs, limits, max, t);
    var calls := t.process.relay.calls;
    TotalZero(calls, R.ActiveWeight());
    TotalZero(calls, R.RequestWeight());
    TotalZero(calls, R.PayloadWeight());
  }
}
