/** The accept loop and its shutdown: connection permits, the set of connection tasks, the deadline
    and the report. */
module Serve {
  import opened Sequences

  /** A task gives its permit back as the last thing it does, a moment before its result can be
      joined. */
  datatype Stage = Working | Unwound(ok: bool) | Done(ok: bool)

  datatype Task = Task(stage: Stage, aborted: bool, joined: bool)

  datatype Exit = Report(drained: bool) | TaskFailed | ListenerFailed

  datatype Phase =
    | Serving
    | Draining                 // listener closed, shutdown signalled, joining until the deadline
    | Cancelling(exit: Exit)   // every remaining task aborted, and awaited
    | Returned(exit: Exit)

  datatype State = State(permits: nat, tasks: seq<Task>, phase: Phase)

  datatype Event =
    | Accept
    | AcceptFails
    | Shutdown
    | Unwind(i: nat, ok: bool)     // a task ends by itself; not ok means it failed
    | Abort(i: nat)                // an aborted task stops at an await
    | Settle(i: nat)
    | Join(i: nat)
    | AllJoined
    | Deadline

  function Init(maxConnections: nat): State {
    State(maxConnections, [], Serving)
  }

  function AbortAll(tasks: seq<Task>): seq<Task> {
    seq(|tasks|, i requires 0 <= i < |tasks| => tasks[i].(aborted := true))
  }

  predicate AllTasksJoined(tasks: seq<Task>) {
    forall i | 0 <= i < |tasks| :: tasks[i].joined
  }

  function SetStage(s: State, i: nat, stage: Stage): State
    requires i < |s.tasks|
  {
    s.(tasks := s.tasks[i := s.tasks[i].(stage := stage)])
  }

  /** Joining a failed task ends serving with an error, and ends draining with an undrained report. */
  function OnJoin(s: State, i: nat): State
    requires i < |s.tasks| && s.tasks[i].stage.Done?
  {
    var tasks := s.tasks[i := s.tasks[i].(joined := true)];
    var failed := !s.tasks[i].stage.ok;
    match s.phase
    case Serving => if failed then s.(tasks := AbortAll(tasks), phase := Cancelling(TaskFailed)) else s.(tasks := tasks)
    case Draining => if failed then s.(tasks := AbortAll(tasks), phase := Cancelling(Report(false)))
        else s.(tasks := tasks)
    case _ => s.(tasks := tasks)
  }

  function Step(s: State, e: Event): Option<State> {
    match e
    case Accept =>
      if !s.phase.Serving? then None
      else if s.permits == 0 then Some(s)  // no slot: the connection is dropped
      else Some(s.(permits := s.permits - 1, tasks := s.tasks + [Task(Working, false, false)]))
    case AcceptFails =>  // the task set is dropped: aborted, not awaited
      if s.phase.Serving? then Some(s.(tasks := AbortAll(s.tasks), phase := Returned(ListenerFailed))) else None
    case Shutdown =>
      if s.phase.Serving? then Some(s.(phase := Draining)) else None
    case Unwind(i, ok) =>
      if i < |s.tasks| && s.tasks[i].stage.Working?
      then Some(SetStage(s, i, Unwound(ok)).(permits := s.permits + 1)) else None
    case Abort(i) =>
      if i < |s.tasks| && s.tasks[i].stage.Working? && s.tasks[i].aborted
      then Some(SetStage(s, i, Unwound(false)).(permits := s.permits + 1)) else None
    case Settle(i) =>
      if i < |s.tasks| && s.tasks[i].stage.Unwound? then Some(SetStage(s, i, Done(s.tasks[i].stage.ok))) else None
    case Join(i) =>
      if i < |s.tasks| && s.tasks[i].stage.Done? && !s.tasks[i].joined && !s.phase.Returned?
      then Some(OnJoin(s, i)) else None
    case AllJoined =>
      if !AllTasksJoined(s.tasks) then None
      else (match s.phase
            case Draining => Some(s.(phase := Returned(Report(true))))
            case Cancelling(exit) => Some(s.(phase := Returned(exit)))
            case _ => None)
    case Deadline =>
      if s.phase.Draining? then Some(s.(tasks := AbortAll(s.tasks), phase := Cancelling(Report(false)))) else None
  }

  function Run(s: State, events: seq<Event>): Option<State>
    decreases |events|
  {
    if events == [] then Some(s)
    else match Step(s, events[0]) {
      case None => None
      case Some(next) => Run(next, events[1..])
    }
  }

  function WorkingWeight(): Task -> nat { (t: Task) => if t.stage.Working? then 1 else 0 }

  predicate Successful(task: Task) { task.stage.Done? && task.stage.ok }

  /** Permits are conserved; only finished tasks are joined; while no failure has been met, every
      joined task succeeded; and a return with a report or a task error has joined every task. */
  ghost predicate Kept(max: nat, s: State) {
    && s.permits + Total(s.tasks, WorkingWeight()) == max
    && (forall i | 0 <= i < |s.tasks| && s.tasks[i].joined :: s.tasks[i].stage.Done?)
    && (s.phase.Serving? || s.phase.Draining? || s.phase == Returned(Report(true)) ==>
          forall i | 0 <= i < |s.tasks| && s.tasks[i].joined :: Successful(s.tasks[i]))
    && (s.phase.Cancelling? ==> !(s.phase.exit == Report(true)) && s.phase.exit != ListenerFailed)
    && (s.phase.Returned? && s.phase.exit != ListenerFailed ==> AllTasksJoined(s.tasks))
    && (s.phase.Serving? || s.phase.Draining? ==> forall i | 0 <= i < |s.tasks| :: !s.tasks[i].aborted)
    && (s.phase.Cancelling? || s.phase == Returned(ListenerFailed) ==>
          forall i | 0 <= i < |s.tasks| :: s.tasks[i].aborted)
  }

  lemma {:induction false} AbortAllKeepsTotal(tasks: seq<Task>)
    ensures Total(AbortAll(tasks), WorkingWeight()) == Total(tasks, WorkingWeight())
  {
    if tasks != [] {
      AbortAllKeepsTotal(tasks[..|tasks| - 1]);
      assert AbortAll(tasks)[..|tasks| - 1] == AbortAll(tasks[..|tasks| - 1]);
    }
  }

  lemma KeptByStep(max: nat, s: State, e: Event)
    requires Kept(max, s) && Step(s, e).Some?
    ensures Kept(max, Step(s, e).value)
  {
    hide Total;
    match e
    case Accept => TotalSnoc(s.tasks, Task(Working, false, false), WorkingWeight());
    case AcceptFails => AbortAllKeepsTotal(s.tasks);
    case Deadline => AbortAllKeepsTotal(s.tasks);
    case Unwind(i, ok) => TotalUpdate(s.tasks, i, s.tasks[i].(stage := Unwound(ok)), WorkingWeight());
    case Abort(i) => TotalUpdate(s.tasks, i, s.tasks[i].(stage := Unwound(false)), WorkingWeight());
    case Settle(i) => TotalUpdate(s.tasks, i, s.tasks[i].(stage := Done(s.tasks[i].stage.ok)), WorkingWeight());
    case Join(i) => KeptByJoin(max, s, i);
    case _ =>
  }

  lemma KeptByJoin(max: nat, s: State, i: nat)
    requires Kept(max, s) && i < |s.tasks| && s.tasks[i].stage.Done? && !s.tasks[i].joined && !s.phase.Returned?
    ensures Kept(max, OnJoin(s, i))
  {
    hide Total;
    var joined := s.tasks[i].(joined := true);
    TotalUpdate(s.tasks, i, joined, WorkingWeight());
    AbortAllKeepsTotal(s.tasks[i := joined]);
  }

  lemma {:induction false} KeptByRun(max: nat, s: State, events: seq<Event>)
    requires Kept(max, s) && Run(s, events).Some?
    ensures Kept(max, Run(s, events).value)
    decreases |events|
  {
    hide Step, Kept;
    if events != [] {
      KeptByStep(max, s, events[0]);
      KeptByRun(max, Step(s, events[0]).value, events[1..]);
    }
  }

  /** In every run: working connections never exceed the limit; a return other than for a failed
      listener leaves no task that has not ended; and the report says drained only if every connection
      ever accepted ended without failure and was joined. No task is aborted while it may still finish by
      itself, and every one is once the others are to be cancelled. */
  lemma SupervisionIsSound(max: nat, events: seq<Event>, i: nat)
    requires Run(Init(max), events).Some? && i < |Run(Init(max), events).value.tasks|
    ensures var t := Run(Init(max), events).value;
            && Total(t.tasks, WorkingWeight()) <= max
            && (t.phase.Returned? && t.phase.exit != ListenerFailed ==> t.tasks[i].joined && t.tasks[i].stage.Done?)
            && (t.phase == Returned(Report(true)) ==> Successful(t.tasks[i]))
            && (t.phase.Serving? || t.phase.Draining? ==> !t.tasks[i].aborted)
            && (t.phase.Cancelling? || t.phase == Returned(ListenerFailed) ==> t.tasks[i].aborted)
  {
    hide Run;
    KeptByRun(max, Init(max), events);
  }

  /** Returning is final: nothing is accepted afterwards, and after a return other than for a
      failed listener nothing changes at all. */
  lemma {:induction false} ReturnIsFinal(max: nat, s: State, events: seq<Event>)
    requires Kept(max, s) && s.phase.Returned? && Run(s, events).Some?
    ensures var t := Run(s, events).value;
            |t.tasks| == |s.tasks| && t.phase == s.phase && (s.phase.exit != ListenerFailed ==> t == s)
    decreases |events|
  {
    if events != [] {
      KeptByStep(max, s, events[0]);
      ReturnIsFinal(max, Step(s, events[0]).value, events[1..]);
    }
  }

  /** How serving is going to end, once that is decided. */
  function ExitOf(phase: Phase): Option<Exit> {
    match phase
    case Cancelling(exit) => Some(exit)
    case Returned(exit) => Some(exit)
    case _ => None
  }

  predicate Failed(s: State, i: nat) {
    i < |s.tasks| && s.tasks[i].stage == Done(false)
  }

  lemma {:induction false} FailureStays(s: State, events: seq<Event>, i: nat)
    requires Failed(s, i) && Run(s, events).Some?
    ensures Failed(Run(s, events).value, i)
    decreases |events|
  {
    if events != [] {
      FailureStays(Step(s, events[0]).value, events[1..], i);
    }
  }

  lemma {:induction false} ExitStays(s: State, events: seq<Event>)
    requires ExitOf(s.phase).Some? && Run(s, events).Some?
    ensures ExitOf(Run(s, events).value.phase) == ExitOf(s.phase)
    decreases |events|
  {
    if events != [] {
      ExitStays(Step(s, events[0]).value, events[1..]);
    }
  }

  /** Every way to end has its cause: a failed listener, a connection task that failed, or, for a report of
      an incomplete drain, the deadline or such a task; and a report is made only after shutdown. */
  lemma {:induction false} ExitHasCause(s: State, events: seq<Event>)
    requires ExitOf(s.phase).None? && Run(s, events).Some? && ExitOf(Run(s, events).value.phase).Some?
    ensures var t := Run(s, events).value;
            match ExitOf(t.phase).value
            case ListenerFailed => AcceptFails in events
            case TaskFailed => exists i :: Failed(t, i)
            case Report(drained) =>
              && (s.phase.Draining? || Shutdown in events)
              && (!drained ==> Deadline in events || exists i :: Failed(t, i))
    decreases |events|
  {
    var n := Step(s, events[0]).value;
    if ExitOf(n.phase).None? {
      ExitHasCause(n, events[1..]);
    } else {
      ExitStays(n, events[1..]);
      if events[0].Join? {
        FailureStays(n, events[1..], events[0].i);
      }
    }
  }

  /** An arriving connection gets a task exactly when fewer connections are working than allowed. */
  lemma AcceptedExactlyWhenRoom(max: nat, s: State)
    requires Kept(max, s) && s.phase.Serving?
    ensures Step(s, Accept).Some?
    ensures var t := Step(s, Accept).value;
            if Total(s.tasks, WorkingWeight()) < max
            then t.tasks == s.tasks + [Task(Working, false, false)] && Total(t.tasks, WorkingWeight()) <= max
            else t == s
  {
    hide Total;
    TotalSnoc(s.tasks, Task(Working, false, false), WorkingWeight());
  }
}
