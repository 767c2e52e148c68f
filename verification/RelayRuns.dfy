/** Concrete stretches of runs of the relay stack, for showing that something can happen. */
module RelayRuns {
  import opened Sequences
  import opened Relay

  /** One step of a run, for following a concrete run. */
  lemma RunCons(s: State, events: seq<Event>, next: State)
    requires events != [] && Step(s, events[0]) == Some(next)
    ensures Run(s, events) == Run(next, events[1..])
  {
  }

  lemma RunOne(s: State, e: Event, next: State)
    requires Step(s, e) == Some(next)
    ensures Run(s, [e]) == Some(next)
  {
    RunCons(s, [e], next);
    assert [e][1..] == [];
  }

  /** The two steps of a fresh call through the open gate. */
  lemma EnteringStep(s: State, id: nat)
    requires id < |s.calls| && s.calls[id].phase.Entering? && s.gate.accepting && s.gate.active < USIZE_MAX
    ensures Step(s, Advance(id))
            == Some(Move(s, id, Admitted(s.gate.active + 1)).(gate := s.gate.(active := s.gate.active + 1)))
  {
  }

  lemma AdmittedStep(s: State, id: nat)
    requires id < |s.calls| && s.calls[id].phase.Admitted?
    ensures Step(s, Advance(id)) == Some(Move(s, id, Gated).(watch := s.calls[id].phase.value))
  {
  }

  lemma EnterStep(s: State, owner: Owner, raw: Bytes)
    ensures Step(s, Enter(owner, raw)) == Some(s.(calls := s.calls + [RelayCall(owner, raw, Entering)]))
  {
  }

  /** A fresh call is admitted and publishes the new count. */
  lemma RunToGate(s: State, owner: Owner, raw: Bytes)
    requires s.gate.accepting && s.gate.active < USIZE_MAX
    ensures var events := [Enter(owner, raw), Advance(|s.calls|), Advance(|s.calls|)];
            Run(s, events) == Some(s.(gate := s.gate.(active := s.gate.active + 1), watch := s.gate.active + 1,
                                      calls := s.calls + [RelayCall(owner, raw, Gated)]))
  {
    hide Run, Step;
    var id := |s.calls|;
    EnterStep(s, owner, raw);
    var a := Step(s, Enter(owner, raw)).value;
    EnteringStep(a, id);
    var b := Step(a, Advance(id)).value;
    AdmittedStep(b, id);
    var c := Step(b, Advance(id)).value;
    RunOne(b, Advance(id), c);
    RunCons(a, [Advance(id), Advance(id)], b);
    assert [Advance(id), Advance(id)][1..] == [Advance(id)];
    RunCons(s, [Enter(owner, raw), Advance(id), Advance(id)], a);
    assert [Enter(owner, raw), Advance(id), Advance(id)][1..] == [Advance(id), Advance(id)];
    assert c.calls == s.calls + [RelayCall(owner, raw, Gated)];
  }

  /** The three steps of a gated call into the adapter. */
  lemma GatedStep(s: State, id: nat)
    requires id < |s.calls| && s.calls[id].phase.Gated? && |s.calls[id].raw| <= U32_MAX && s.requests > 0
    ensures Step(s, Advance(id)) == Some(Move(s, id, Requested).(requests := s.requests - 1))
  {
  }

  lemma RequestedStep(s: State, id: nat)
    requires id < |s.calls| && s.calls[id].phase.Requested? && s.payload >= |s.calls[id].raw|
    ensures Step(s, Advance(id)) == Some(Move(s, id, Holding).(payload := s.payload - |s.calls[id].raw|))
  {
  }

  lemma HoldingStep(s: State, id: nat)
    requires id < |s.calls| && s.calls[id].phase.Holding?
    ensures Step(s, Advance(id)) == Some(Move(s, id, InAdapter).(log := s.log.(invoked := s.log.invoked + [id])))
  {
  }

  /** A gated call gets both permits and enters the adapter. */
  lemma RunToAdapter(s: State, id: nat)
    requires id < |s.calls| && s.calls[id].phase.Gated?
    requires |s.calls[id].raw| <= U32_MAX && s.requests > 0 && s.payload >= |s.calls[id].raw|
    ensures var events := [Advance(id), Advance(id), Advance(id)];
            Run(s, events) == Some(Move(s, id, InAdapter).(
              requests := s.requests - 1, payload := s.payload - |s.calls[id].raw|,
              log := s.log.(invoked := s.log.invoked + [id])))
  {
    hide Run, Step;
    GatedStep(s, id);
    var a := Step(s, Advance(id)).value;
    RequestedStep(a, id);
    var b := Step(a, Advance(id)).value;
    HoldingStep(b, id);
    var c := Step(b, Advance(id)).value;
    RunOne(b, Advance(id), c);
    RunCons(a, [Advance(id), Advance(id)], b);
    assert [Advance(id), Advance(id)][1..] == [Advance(id)];
    RunCons(s, [Advance(id), Advance(id), Advance(id)], a);
    assert [Advance(id), Advance(id), Advance(id)][1..] == [Advance(id), Advance(id)];
    assert c.calls == Move(s, id, InAdapter).calls;
  }

  /** A gated call that gets a request permit but not its payload permits is refused. */
  lemma RunToRefusal(s: State, id: nat)
    requires id < |s.calls| && s.calls[id].phase.Gated?
    requires |s.calls[id].raw| <= U32_MAX && s.requests > 0 && s.payload < |s.calls[id].raw|
    ensures var events := [Advance(id), Advance(id)];
            Run(s, events) == Some(Move(s, id, ReleasingRequest(REFUSED)).(
              requests := s.requests - 1, log := s.log.(noPayload := s.log.noPayload + 1)))
  {
    hide Run;
    var a := Step(s, Advance(id)).value;
    var b := Step(a, Advance(id)).value;
    RunOne(a, Advance(id), b);
    RunCons(s, [Advance(id), Advance(id)], a);
    assert [Advance(id), Advance(id)][1..] == [Advance(id)];
    assert b.calls == Move(s, id, ReleasingRequest(REFUSED)).calls;
  }
}
