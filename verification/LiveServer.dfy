/** The accept loop's bookkeeping as the code performs it, in place. Each method is a run of the
    supervision machine, so what is proved of every run holds of it. */
module LiveServer {
  import opened Sequences
  import opened Serve

  lemma {:induction false} RunAppend(s: State, a: seq<Event>, b: seq<Event>)
    requires Run(s, a).Some?
    ensures Run(s, a + b) == Run(Run(s, a).value, b)
    decreases |a|
  {
    hide Step;
    if a == [] {
      assert a + b == b;
    } else {
      RunAppend(Step(s, a[0]).value, a[1..], b);
      assert (a + b)[1..] == a[1..] + b;
    }
  }

  /** One more event at the end of a run. */
  lemma RunSnoc(s: State, events: seq<Event>, e: Event)
    requires Run(s, events).Some?
    ensures Run(s, events + [e]) == Step(Run(s, events).value, e)
  {
    hide Step;
    RunAppend(s, events, [e]);
    assert [e][1..] == [];
  }

  function UnjoinedWeight(): Task -> nat { (t: Task) => if t.joined then 0 else 1 }

  lemma {:induction false} AbortKeepsUnjoined(tasks: seq<Task>)
    ensures Total(AbortAll(tasks), UnjoinedWeight()) == Total(tasks, UnjoinedWeight())
  {
    if tasks != [] {
      AbortKeepsUnjoined(tasks[..|tasks| - 1]);
      assert AbortAll(tasks)[..|tasks| - 1] == AbortAll(tasks[..|tasks| - 1]);
    }
  }

  class Server {
    var permits: nat
    var tasks: seq<Task>
    var phase: Phase

    constructor (maxConnections: nat)
      ensures View() == Init(maxConnections)
    {
      permits, tasks, phase := maxConnections, [], Serving;
    }

    ghost function View(): State reads this { State(permits, tasks, phase) }

    /** A connection arrives: it gets a task if there is a permit for it and is dropped otherwise. */
    method AcceptConnection()
      requires phase.Serving?
      modifies this`permits, this`tasks
      ensures Step(old(View()), Accept) == Some(View())
    {
      if permits > 0 {
        permits, tasks := permits - 1, tasks + [Task(Working, false, false)];
      }
    }

    /** A task ends, if it has not already: it gives its permit back, then its result can be joined. */
    method AwaitTask(i: nat) returns (ghost events: seq<Event>)
      requires i < |tasks|
      modifies this`permits, this`tasks
      ensures Run(old(View()), events) == Some(View())
      ensures i < |tasks| && tasks[i].stage.Done? && tasks[i].joined == old(tasks)[i].joined
      ensures Total(tasks, UnjoinedWeight()) == Total(old(tasks), UnjoinedWeight())
    {
      hide Run, Total;
      ghost var s := View();
      events := [];
      RunNothing(s);
      if tasks[i].stage.Working? {
        var ok := *;
        TotalUpdate(tasks, i, tasks[i].(stage := Unwound(ok)), UnjoinedWeight());
        tasks, permits := tasks[i := tasks[i].(stage := Unwound(ok))], permits + 1;
        RunSnoc(s, events, Unwind(i, ok));
        events := events + [Unwind(i, ok)];
      }
      if tasks[i].stage.Unwound? {
        TotalUpdate(tasks, i, tasks[i].(stage := Done(tasks[i].stage.ok)), UnjoinedWeight());
        tasks := tasks[i := tasks[i].(stage := Done(tasks[i].stage.ok))];
        RunSnoc(s, events, Settle(i));
        events := events + [Settle(i)];
      }
    }

    /** The result of an ended task is taken; a failure ends serving or draining. */
    method JoinTask(i: nat)
      requires i < |tasks| && tasks[i].stage.Done? && !tasks[i].joined && !phase.Returned?
      modifies this`tasks, this`phase
      ensures Step(old(View()), Join(i)) == Some(View())
      ensures phase == old(phase) || (phase == Cancelling(TaskFailed) && old(phase).Serving?)
                                  || (phase == Cancelling(Report(false)) && old(phase).Draining?)
      ensures Total(tasks, UnjoinedWeight()) < Total(old(tasks), UnjoinedWeight())
    {
      hide Total;
      TotalUpdate(tasks, i, tasks[i].(joined := true), UnjoinedWeight());
      var failed := !tasks[i].stage.ok;
      tasks := tasks[i := tasks[i].(joined := true)];
      if failed && (phase.Serving? || phase.Draining?) {
        AbortKeepsUnjoined(tasks);
        tasks, phase := AbortAll(tasks), Cancelling(if phase.Serving? then TaskFailed else Report(false));
      }
    }

    /** `join_next`: some task that has not been joined ends and is joined. */
    method JoinNext() returns (ghost events: seq<Event>)
      requires !AllTasksJoined(tasks) && !phase.Returned?
      modifies this
      ensures Run(old(View()), events) == Some(View())
      ensures phase == old(phase) || (phase == Cancelling(TaskFailed) && old(phase).Serving?)
                                  || (phase == Cancelling(Report(false)) && old(phase).Draining?)
      ensures Total(tasks, UnjoinedWeight()) < Total(old(tasks), UnjoinedWeight())
    {
      hide Run, Step, Total;
      ghost var s := View();
      var i :| 0 <= i < |tasks| && !tasks[i].joined;
      events := AwaitTask(i);
      JoinTask(i);
      RunSnoc(s, events, Join(i));
      events := events + [Join(i)];
    }

    /** Every remaining task has been aborted; each is awaited before the function returns. */
    method CancelRemaining() returns (ghost events: seq<Event>)
      requires phase.Cancelling?
      modifies this
      ensures Run(old(View()), events) == Some(View()) && phase == Returned(old(phase).exit)
    {
      hide Run, Total;
      ghost var s := View();
      events := [];
      RunNothing(s);
      while !AllTasksJoined(tasks)
        invariant Run(s, events) == Some(View()) && phase == s.phase
        decreases Total(tasks, UnjoinedWeight())
      {
        ghost var joined := JoinNext();
        RunAppend(s, events, joined);
        events := events + joined;
      }
      phase := Returned(phase.exit);
      RunSnoc(s, events, AllJoined);
      events := events + [AllJoined];
    }

    /** Shutdown: joins until every task is joined, one has failed or the deadline strikes; what then
        remains is cancelled and awaited. */
    method ShutDown() returns (drained: bool, ghost events: seq<Event>)
      requires phase.Serving?
      modifies this
      ensures Run(old(View()), events) == Some(View()) && phase == Returned(Report(drained))
    {
      hide Run, Total;
      ghost var s := View();
      phase := Draining;
      RunNothing(s);
      RunSnoc(s, [], Shutdown);
      events := [] + [Shutdown];
      while phase.Draining? && !AllTasksJoined(tasks)
        invariant Run(s, events) == Some(View())
        invariant phase.Draining? || phase == Cancelling(Report(false))
        decreases Total(tasks, UnjoinedWeight())
      {
        var deadline := *;
        if deadline {
          tasks, phase := AbortAll(tasks), Cancelling(Report(false));
          RunSnoc(s, events, Deadline);
          events := events + [Deadline];
          break;
        }
        ghost var joined := JoinNext();
        RunAppend(s, events, joined);
        events := events + joined;
      }
      drained := phase.Draining?;
      ghost var last;
      if drained {
        ghost var before := View();
        phase := Returned(Report(true));
        RunNothing(before);
        RunSnoc(before, [], AllJoined);
        last := [] + [AllJoined];
      } else {
        last := CancelRemaining();
      }
      RunAppend(s, events, last);
      events := events + last;
    }
  }

  lemma RunNothing(s: State)
    ensures Run(s, []) == Some(s)
  {
  }
}
