/** Shutdown of the relay stack: which calls survive it, and when an observed watch value of zero can
    be trusted. The watch value is published outside the gate's mutex, so publications can be
    reordered. */
module RelayShutdown {
  import opened Sequences
  import opened RelayApi
  import opened Relay
  import opened RelayRuns

  predicate Active(s: State, id: nat) {
    id < |s.calls| && IsActive(s.calls[id].phase)
  }

  lemma ShrinkStep(s: State, e: Event)
    requires !s.gate.accepting && Step(s, e).Some?
    ensures var t := Step(s, e).value;
            !t.gate.accepting && t.gate.active <= s.gate.active && forall id :: Active(t, id) ==> Active(s, id)
  {
    var t := Step(s, e).value;
    forall id | Active(t, id) ensures Active(s, id) { ShrinkStepAt(s, e, id); }
  }

  lemma ShrinkStepAt(s: State, e: Event, id: nat)
    requires !s.gate.accepting && Step(s, e).Some? && Active(Step(s, e).value, id)
    ensures Active(s, id)
  {
  }

  /** Once the gate is closed it stays closed, and the admitted calls are always among those that
      were admitted then: nothing that races with shutdown gets in. */
  lemma {:induction false} AdmittedOnlyShrink(s: State, events: seq<Event>)
    requires !s.gate.accepting && Run(s, events).Some?
    ensures var t := Run(s, events).value;
            !t.gate.accepting && t.gate.active <= s.gate.active && forall id :: Active(t, id) ==> Active(s, id)
    decreases |events|
  {
    hide Step, Active;
    if events != [] {
      ShrinkStep(s, events[0]);
      AdmittedOnlyShrink(Step(s, events[0]).value, events[1..]);
    }
  }

  /** A value some thread has computed under the lock and not yet published. */
  predicate Unpublished(s: State, id: nat, value: nat) {
    id < |s.calls| && ((s.calls[id].phase.Admitted? && s.calls[id].phase.value == value)
                       || (s.calls[id].phase.Departing? && s.calls[id].phase.value == value))
  }

  /** Values computed at admission are never zero, and those computed by shutdowns are still upper
      bounds of the active count. */
  ghost predicate PublicationsKept(s: State) {
    && (forall i | 0 <= i < |s.calls| && s.calls[i].phase.Admitted? :: s.calls[i].phase.value > 0)
    && (s.shutdowns != [] <==> !s.gate.accepting)
    && (forall i | 0 <= i < |s.shutdowns| && s.shutdowns[i].Publishing? :: s.gate.active <= s.shutdowns[i].value)
  }

  lemma AdmittedStayPositive(s: State, e: Event)
    requires forall i | 0 <= i < |s.calls| && s.calls[i].phase.Admitted? :: s.calls[i].phase.value > 0
    requires Step(s, e).Some?
    ensures var t := Step(s, e).value;
            forall i | 0 <= i < |t.calls| && t.calls[i].phase.Admitted? :: t.calls[i].phase.value > 0
  {
    hide Leave, Stop;
  }

  lemma ShutdownsBound(s: State, e: Event)
    requires PublicationsKept(s) && Step(s, e).Some?
    ensures var t := Step(s, e).value;
            && (t.shutdowns != [] <==> !t.gate.accepting)
            && forall i | 0 <= i < |t.shutdowns| && t.shutdowns[i].Publishing? :: t.gate.active <= t.shutdowns[i].value
  {
  }

  lemma PublicationsKeptByStep(s: State, e: Event)
    requires PublicationsKept(s) && Step(s, e).Some?
    ensures PublicationsKept(Step(s, e).value)
  {
    hide Step;
    AdmittedStayPositive(s, e);
    ShutdownsBound(s, e);
  }

  lemma {:induction false} PublicationsKeptByRun(s: State, events: seq<Event>)
    requires PublicationsKept(s) && Run(s, events).Some?
    ensures PublicationsKept(Run(s, events).value)
    decreases |events|
  {
    hide Step, PublicationsKept;
    if events != [] {
      PublicationsKeptByStep(s, events[0]);
      PublicationsKeptByRun(Step(s, events[0]).value, events[1..]);
    }
  }

  /** Nothing is active, or neither the watch value nor any value still to be published is zero. */
  ghost predicate Settled(s: State) {
    s.gate.active == 0 || (s.watch != 0 && forall id :: !Unpublished(s, id, 0))
  }

  lemma SettledByStep(s: State, e: Event)
    requires PublicationsKept(s) && !s.gate.accepting && Settled(s) && Step(s, e).Some?
    ensures var t := Step(s, e).value; !t.gate.accepting && Settled(t)
  {
    var t := Step(s, e).value;
    ShrinkStep(s, e);
    if t.gate.active != 0 {
      if e.Advance? {
        var phase := s.calls[e.id].phase;
        assert phase.Admitted? || phase.Departing? ==> Unpublished(s, e.id, phase.value);
        forall id ensures !Unpublished(t, id, 0) {
          assert !Unpublished(s, id, 0);
        }
      } else {
        forall id ensures !Unpublished(t, id, 0) {
          assert !Unpublished(s, id, 0);
        }
      }
    }
  }

  lemma {:induction false} SettledByRun(s: State, events: seq<Event>)
    requires PublicationsKept(s) && !s.gate.accepting && Settled(s) && Run(s, events).Some?
    ensures var t := Run(s, events).value; PublicationsKept(t) && !t.gate.accepting && Settled(t)
    decreases |events|
  {
    hide Step, PublicationsKept, Settled;
    if events != [] {
      PublicationsKeptByStep(s, events[0]);
      SettledByStep(s, events[0]);
      SettledByRun(Step(s, events[0]).value, events[1..]);
    }
  }

  /** Any publication by a shutdown settles the watch value unless a zero computed earlier is still on
      its way while a call is active. */
  lemma PublishSettles(s: State, i: nat)
    requires PublicationsKept(s) && i < |s.shutdowns| && s.shutdowns[i].Publishing?
    requires forall id :: !Unpublished(s, id, 0)
    ensures var t := Step(s, PublishShutdown(i)).value; !t.gate.accepting && Settled(t)
  {
    var t := Step(s, PublishShutdown(i)).value;
    forall id ensures !Unpublished(t, id, 0) {
      assert !Unpublished(s, id, 0);
    }
  }

  ghost predicate ZeroMeansIdle(s: State, events: seq<Event>) {
    Run(s, events).Some? && Run(s, events).value.watch == 0 ==> Run(s, events).value.gate.active == 0
  }

  /** Once shutdown has begun, a watch value of zero can be trusted for ever if and only if the state is
      settled: otherwise one late publication suffices to deceive the waiter. */
  lemma ZeroTrustedExactlyWhenSettled(s: State)
    requires PublicationsKept(s) && !s.gate.accepting
    ensures Settled(s) <==> forall events :: ZeroMeansIdle(s, events)
  {
    if Settled(s) {
      forall events ensures ZeroMeansIdle(s, events) {
        if Run(s, events).Some? { SettledByRun(s, events); }
      }
    } else if s.watch == 0 {
      assert !ZeroMeansIdle(s, []);
    } else {
      var id :| Unpublished(s, id, 0);
      var late := [Advance(id)];
      assert late[1..] == [];
      assert Run(s, late) == Run(Step(s, Advance(id)).value, []) == Step(s, Advance(id));
      assert !ZeroMeansIdle(s, late);
    }
  }

  lemma RelayReachable(limits: Limits, events: seq<Event>)
    requires Run(Init(limits), events).Some?
    ensures var t := Run(Init(limits), events).value; Conserved(limits, t) && PublicationsKept(t)
  {
    hide Run;
    ConservedByRun(limits, Init(limits), events);
    PublicationsKeptByRun(Init(limits), events);
  }

  /** A waiter may rely on the watch value from here on. */
  ghost predicate Trusted(limits: Limits, s: State) {
    Conserved(limits, s) && PublicationsKept(s) && !s.gate.accepting && Settled(s)
  }

  /** Take any run, with any number of shutdowns begun, at a moment when no zero computed earlier is
      still to be published, and let one of the shutdowns publish: from then on zero can be trusted. */
  lemma ShutdownEarnsTrust(limits: Limits, before: seq<Event>, i: nat)
    requires Run(Init(limits), before).Some?
    requires var s := Run(Init(limits), before).value;
             i < |s.shutdowns| && s.shutdowns[i].Publishing? && forall id :: !Unpublished(s, id, 0)
    ensures Step(Run(Init(limits), before).value, PublishShutdown(i)).Some?
    ensures Trusted(limits, Step(Run(Init(limits), before).value, PublishShutdown(i)).value)
  {
    hide Run;
    var s := Run(Init(limits), before).value;
    RelayReachable(limits, before);
    PublishSettles(s, i);
    PublicationsKeptByStep(s, PublishShutdown(i));
    ConservedByStep(limits, s, PublishShutdown(i));
  }

  lemma TrustedByRun(limits: Limits, s: State, events: seq<Event>)
    requires Trusted(limits, s) && Run(s, events).Some?
    ensures Trusted(limits, Run(s, events).value)
    ensures s.gate.active == 0 ==> Run(s, events).value.gate.active == 0
  {
    hide Run, Conserved, PublicationsKept, Settled;
    SettledByRun(s, events);
    ConservedByRun(limits, s, events);
    AdmittedOnlyShrink(s, events);
  }

  /** Once zero can be trusted: when it is seen, no call is active at that moment, and none ever will be
      again, whatever shutdowns are begun and however the remaining publications fall. */
  lemma IdleReportIsFinal(limits: Limits, s: State, seen: seq<Event>, later: seq<Event>, id: nat)
    requires Trusted(limits, s) && Run(s, seen).Some? && Run(s, seen).value.watch == 0
    requires Run(Run(s, seen).value, later).Some?
    ensures var m := Run(s, seen).value;
            var t := Run(m, later).value;
            m.gate.active == 0 && t.gate.active == 0 && !Active(m, id) && !Active(t, id)
  {
    hide Run, Conserved;
    TrustedByRun(limits, s, seen);
    var m := Run(s, seen).value;
    TrustedByRun(limits, m, later);
    NoneActive(limits, m, id);
    NoneActive(limits, Run(m, later).value, id);
  }

  lemma NoneActive(limits: Limits, s: State, id: nat)
    requires Conserved(limits, s) && s.gate.active == 0
    ensures !Active(s, id)
  {
    if id < |s.calls| { TotalAtLeast(s.calls, id, ActiveWeight()); }
  }

  /** The state after a number of stretches of a run, one after the other. */
  function After(s: State, stretches: seq<seq<Event>>): Option<State> {
    if stretches == [] then Some(s)
    else match After(s, stretches[..|stretches| - 1])
      case None => None
      case Some(m) => Run(m, stretches[|stretches| - 1])
  }

  predicate SeesZero(s: State, stretches: seq<seq<Event>>) {
    After(s, stretches).Some? && After(s, stretches).value.watch == 0
  }

  lemma {:induction false} AfterPrefix(s: State, stretches: seq<seq<Event>>, k: nat)
    requires k <= |stretches| && After(s, stretches).Some?
    ensures After(s, stretches[..k]).Some?
    decreases |stretches|
  {
    if k < |stretches| {
      var shorter := stretches[..|stretches| - 1];
      AfterPrefix(s, shorter, k);
      assert stretches[..k] == shorter[..k];
    } else {
      assert stretches[..k] == stretches;
    }
  }

  /** `wait_for_idle`, looking at the watch value after each of the given stretches of the process: when
      it subscribes, and then after each change it notices before its deadline. It reports idle at the
      first zero it sees, and if zero can be trusted when it starts, no call is active then. */
  method WaitForIdle(ghost limits: Limits, start: State, stretches: seq<seq<Event>>)
    returns (idle: bool, looks: nat, end: State)
    requires After(start, stretches).Some?
    ensures looks <= |stretches| && After(start, stretches[..looks]) == Some(end)
    ensures if idle then looks > 0 && end.watch == 0 else looks == |stretches|
    ensures forall j | 0 < j <= looks && (j < looks || !idle) :: !SeesZero(start, stretches[..j])
    ensures Trusted(limits, start) && idle ==> end.gate.active == 0 && forall id :: !Active(end, id)
  {
    hide Run, Trusted;
    end, looks := start, 0;
    forall k | 0 <= k <= |stretches| ensures After(start, stretches[..k]).Some? { AfterPrefix(start, stretches, k); }
    while looks < |stretches|
      invariant looks <= |stretches| && After(start, stretches[..looks]) == Some(end)
      invariant forall j | 0 < j <= looks :: !SeesZero(start, stretches[..j])
      invariant Trusted(limits, start) ==> Trusted(limits, end)
    {
      assert stretches[..looks + 1][..looks] == stretches[..looks];
      assert After(start, stretches[..looks + 1]) == Run(end, stretches[looks]);
      if Trusted(limits, end) { TrustedByRun(limits, end, stretches[looks]); }
      end, looks := Run(end, stretches[looks]).value, looks + 1;
      if end.watch == 0 {
        if Trusted(limits, start) { TrustedZero(limits, end); }
        return true, looks, end;
      }
    }
    return false, looks, end;
  }

  lemma TrustedZero(limits: Limits, s: State)
    requires Trusted(limits, s) && s.watch == 0
    ensures s.gate.active == 0 && forall id :: !Active(s, id)
  {
    hide Conserved;
    forall id ensures !Active(s, id) { NoneActive(limits, s, id); }
  }

  // ---------------------------------------------------------------- what the watch value means

  lemma {:induction false} RunPrefix(s: State, events: seq<Event>, n: nat)
    requires Run(s, events).Some? && n <= |events|
    ensures Run(s, events[..n]).Some?
    decreases |events|
  {
    hide Step;
    if n > 0 {
      RunPrefix(Step(s, events[0]).value, events[1..], n - 1);
      assert events[..n][1..] == events[1..][..n - 1];
    }
  }

  /** The active count was this at some moment of the run. */
  ghost predicate WasActive(s: State, events: seq<Event>, value: nat) {
    exists n :: 0 <= n <= |events| && CountAt(s, events, n) == Some(value)
  }

  function CountAt(s: State, events: seq<Event>, n: nat): Option<nat>
    requires n <= |events|
  {
    match Run(s, events[..n])
    case Some(t) => Some(t.gate.active)
    case None => None
  }

  ghost predicate CountsKept(s: State, events: seq<Event>, t: State) {
    && WasActive(s, events, t.watch)
    && (forall id, value | Unpublished(t, id, value) :: WasActive(s, events, value))
    && (forall i | 0 <= i < |t.shutdowns| && t.shutdowns[i].Publishing? :: WasActive(s, events, t.shutdowns[i].value))
  }

  lemma WasActiveStays(s: State, events: seq<Event>, e: Event, value: nat)
    requires WasActive(s, events, value)
    ensures WasActive(s, events + [e], value)
  {
    hide Run;
    var n :| 0 <= n <= |events| && CountAt(s, events, n) == Some(value);
    assert (events + [e])[..n] == events[..n];
    assert CountAt(s, events + [e], n) == Some(value);
  }

  lemma IsActiveNow(s: State, events: seq<Event>)
    requires Run(s, events).Some?
    ensures WasActive(s, events, Run(s, events).value.gate.active)
  {
    hide Run;
    assert events[..|events|] == events;
    assert CountAt(s, events, |events|) == Some(Run(s, events).value.gate.active);
  }

  lemma CountsKeptByStep(s: State, events: seq<Event>, m: State, e: Event)
    requires CountsKept(s, events, m) && Step(m, e).Some?
    requires WasActive(s, events + [e], m.gate.active) && WasActive(s, events + [e], Step(m, e).value.gate.active)
    ensures CountsKept(s, events + [e], Step(m, e).value)
  {
    var t := Step(m, e).value;
    forall v | WasActive(s, events, v) ensures WasActive(s, events + [e], v) { WasActiveStays(s, events, e, v); }
    hide WasActive, Step, Unpublished;
    WatchSource(m, e);
    forall id, value | Unpublished(t, id, value) ensures WasActive(s, events + [e], value) {
      UnpublishedSource(m, e, id, value);
    }
    forall i | 0 <= i < |t.shutdowns| && t.shutdowns[i].Publishing?
        ensures WasActive(s, events + [e], t.shutdowns[i].value) {
      PublishingSource(m, e, i);
    }
  }

  /** Where values come from: the count under the lock, or a value computed earlier. */
  lemma UnpublishedSource(m: State, e: Event, id: nat, value: nat)
    requires Step(m, e).Some? && Unpublished(Step(m, e).value, id, value)
    ensures Unpublished(m, id, value) || value == Step(m, e).value.gate.active
  {
  }

  lemma PublishingSource(m: State, e: Event, i: nat)
    requires Step(m, e).Some? && i < |Step(m, e).value.shutdowns| && Step(m, e).value.shutdowns[i].Publishing?
    ensures var value := Step(m, e).value.shutdowns[i].value;
            value == m.gate.active
            || (i < |m.shutdowns| && m.shutdowns[i].Publishing? && m.shutdowns[i].value == value)
  {
  }

  lemma WatchSource(m: State, e: Event)
    requires Step(m, e).Some?
    ensures var watch := Step(m, e).value.watch;
            || watch == m.watch || (exists id :: Unpublished(m, id, watch))
            || (exists i :: 0 <= i < |m.shutdowns| && m.shutdowns[i] == Publishing(watch))
  {
    if e.Advance? && Step(m, e).value.watch != m.watch {
      assert Unpublished(m, e.id, Step(m, e).value.watch);
    }
  }

  /** In every run, the watch value and every value still to be published were the active count at some
      moment: publications can be late, but none is made up. */
  lemma {:induction false} WatchWasTrueOnce(limits: Limits, events: seq<Event>)
    requires Run(Init(limits), events).Some?
    ensures CountsKept(Init(limits), events, Run(Init(limits), events).value)
    decreases |events|
  {
    hide Run, Step, WasActive;
    var s := Init(limits);
    IsActiveNow(s, events);
    if events == [] {
      RunNothing(s);
    } else {
      var before, e := events[..|events| - 1], events[|events| - 1];
      assert events == before + [e];
      RunPrefix(s, events, |before|);
      WatchWasTrueOnce(limits, before);
      RunAppend(s, before, [e]);
      var m := Run(s, before).value;
      StepIsRun(m, e);
      IsActiveNow(s, before);
      WasActiveStays(s, before, e, m.gate.active);
      CountsKeptByStep(s, before, m, e);
    }
  }

  lemma RunNothing(s: State)
    ensures Run(s, []) == Some(s)
  {
  }

  lemma StepIsRun(s: State, e: Event)
    ensures Run(s, [e]) == Step(s, e)
  {
    hide Step;
    assert [e][1..] == [];
  }

  /** A call goes all the way through the adapter and out again, up to its last publication. */
  lemma RunToDeparture(s: State, id: nat, result: RelayResult)
    requires id < |s.calls| && s.calls[id].phase.InAdapter? && s.gate.active > 0
    ensures var events := [AdapterReturns(id, result), Advance(id), Advance(id), Advance(id)];
            Run(s, events).Some? &&
            var t := Run(s, events).value;
            && t.gate == s.gate.(active := s.gate.active - 1) && t.watch == s.watch && t.shutdowns == s.shutdowns
            && |t.calls| == |s.calls| && t.calls[id].phase == Departing(s.gate.active - 1, Returned(result))
  {
    hide Run;
    var a := Step(s, AdapterReturns(id, result)).value;
    var b := Step(a, Advance(id)).value;
    var c := Step(b, Advance(id)).value;
    var d := Step(c, Advance(id)).value;
    RunOne(c, Advance(id), d);
    RunCons(b, [Advance(id), Advance(id)], c);
    assert [Advance(id), Advance(id)][1..] == [Advance(id)];
    RunCons(a, [Advance(id), Advance(id), Advance(id)], b);
    assert [Advance(id), Advance(id), Advance(id)][1..] == [Advance(id), Advance(id)];
    RunCons(s, [AdapterReturns(id, result), Advance(id), Advance(id), Advance(id)], a);
    assert [AdapterReturns(id, result), Advance(id), Advance(id), Advance(id)][1..]
        == [Advance(id), Advance(id), Advance(id)];
  }

  /** Shutdown begins and publishes while a departing call has yet to publish. */
  lemma RunStaleZero(s: State, id: nat)
    requires s.shutdowns == [] && s.gate.active == 1
    requires id < |s.calls| && s.calls[id].phase.Departing? && s.calls[id].phase.value == 0
    ensures var events := [BeginShutdown, PublishShutdown(0), Advance(id)];
            Run(s, events).Some? &&
            var t := Run(s, events).value; t.shutdowns == [Published] && t.watch == 0 && t.gate.active == 1
  {
    hide Run;
    var a := Step(s, BeginShutdown).value;
    var b := Step(a, PublishShutdown(0)).value;
    var c := Step(b, Advance(id)).value;
    RunOne(b, Advance(id), c);
    RunCons(a, [PublishShutdown(0), Advance(id)], b);
    assert [PublishShutdown(0), Advance(id)][1..] == [Advance(id)];
    RunCons(s, [BeginShutdown, PublishShutdown(0), Advance(id)], a);
    assert [BeginShutdown, PublishShutdown(0), Advance(id)][1..] == [PublishShutdown(0), Advance(id)];
  }

  /** How a waiter is deceived: a zero computed by a departing call is published only after another
      call was admitted and shutdown has begun and published. The condition above is not idle. */
  lemma StaleZeroDeceives(limits: Limits)
    requires limits.requests >= 1 && limits.payload >= 2
    ensures exists events :: Run(Init(limits), events).Some? &&
              var t := Run(Init(limits), events).value;
              t.shutdowns == [Published] && t.watch == 0 && t.gate.active == 1
  {
    hide Step, Run;
    var raw: Bytes := [48, 48];
    var s := Init(limits);
    RunToGate(s, Owner(0, 0), raw);
    var e1 := [Enter(Owner(0, 0), raw), Advance(|s.calls|), Advance(|s.calls|)];
    var s1 := Run(s, e1).value;
    RunToAdapter(s1, 0);
    var e2 := [Advance(0), Advance(0), Advance(0)];
    var s2 := Run(s1, e2).value;
    RunToDeparture(s2, 0, Ok([]));
    var e3 := [AdapterReturns(0, Ok([])), Advance(0), Advance(0), Advance(0)];
    var s3 := Run(s2, e3).value;
    RunToGate(s3, Owner(1, 0), raw);
    var e4 := [Enter(Owner(1, 0), raw), Advance(|s3.calls|), Advance(|s3.calls|)];
    var s4 := Run(s3, e4).value;
    RunStaleZero(s4, 0);
    var e5 := [BeginShutdown, PublishShutdown(0), Advance(0)];
    RunAppend(s, e1, e2);
    RunAppend(s, e1 + e2, e3);
    RunAppend(s, e1 + e2 + e3, e4);
    RunAppend(s, e1 + e2 + e3 + e4, e5);
  }
}
