/** The process-wide relay stack: the draining gate around the limiter around one adapter. Any number
    of calls run through it at once; each can be cancelled where it awaits the adapter. */
module Relay {
  import opened Sequences
  import opened RelayApi

  const U32_MAX := 0xFFFF_FFFF
  const USIZE_MAX := 0xFFFF_FFFF_FFFF_FFFF

  // ---------------------------------------------------------------- the lock sections of the gate

  datatype Gate = Gate(accepting: bool, active: nat)

  /** Admission: the new active count, or nothing if the call is refused. */
  function Admit(gate: Gate): (Gate, Option<nat>) {
    if !gate.accepting || gate.active >= USIZE_MAX then (gate, None)
    else (gate.(active := gate.active + 1), Some(gate.active + 1))
  }

  function Leave(gate: Gate): Gate {
    if gate.active > 0 then gate.(active := gate.active - 1) else gate
  }

  function Stop(gate: Gate): Gate {
    gate.(accepting := false)
  }

  /** The shared state of the gate, changed under its mutex, and the watch value, published outside
      it. */
  class SharedDrainState {
    var accepting: bool
    var active: nat
    var watch: nat

    constructor ()
      ensures View() == Gate(true, 0) && watch == 0
    {
      accepting, active, watch := true, 0, 0;
    }

    ghost function View(): Gate reads this { Gate(accepting, active) }

    method AdmitSection() returns (admitted: bool, value: nat)
      modifies this`active
      ensures (View(), if admitted then Some(value) else None) == Admit(old(View()))
    {
      admitted, value := false, 0;
      if !accepting || active >= USIZE_MAX {
        return;
      }
      active := active + 1;
      admitted, value := true, active;
    }

    method LeaveSection() returns (value: nat)
      modifies this`active
      ensures View() == Leave(old(View())) && value == View().active
    {
      if active > 0 {
        active := active - 1;
      }
      value := active;
    }

    method StopSection() returns (value: nat)
      modifies this`accepting
      ensures View() == Stop(old(View())) && value == View().active
    {
      accepting := false;
      value := active;
    }

    method Publish(value: nat)
      modifies this`watch
      ensures watch == value
    {
      watch := value;
    }
  }

  // ---------------------------------------------------------------- the limiter on its own

  /** How a call ends: it returns, or its future is dropped. */
  datatype Outcome = Returned(result: RelayResult) | Cancelled

  const REFUSED := Returned(Failed(false))

  class Semaphore {
    var available: nat

    constructor (permits: nat)
      ensures available == permits
    {
      available := permits;
    }

    method TryAcquire(n: nat) returns (ok: bool)
      modifies this
      ensures ok <==> n <= old(available)
      ensures available == if ok then old(available) - n else old(available)
    {
      ok := n <= available;
      if ok {
        available := available - n;
      }
    }

    method Release(n: nat)
      modifies this
      ensures available == old(available) + n
    {
      available := available + n;
    }
  }

  class LimitedRelay {
    const requests: Semaphore
    const payload: Semaphore

    constructor (limit: nat, budget: nat)
      ensures fresh(requests) && fresh(payload) && requests != payload
      ensures requests.available == limit && payload.available == budget
    {
      requests := new Semaphore(limit);
      payload := new Semaphore(budget);
    }

    /** One call by itself, which the adapter answers or in which it is cancelled: the adapter is
        reached exactly when both budgets allow it, the answer is the adapter's or a failure, and every
        permit is back afterwards. */
    method Broadcast(raw: Bytes, adapter: Outcome) returns (outcome: Outcome, called: bool)
      requires requests != payload
      modifies requests, payload
      ensures called <==> |raw| <= U32_MAX && old(requests.available) >= 1 && old(payload.available) >= |raw|
      ensures outcome == if called then adapter else REFUSED
      ensures requests.available == old(requests.available) && payload.available == old(payload.available)
    {
      outcome, called := REFUSED, false;
      if |raw| > U32_MAX {
        return;
      }
      var slot := requests.TryAcquire(1);
      if !slot {
        return;
      }
      var room := payload.TryAcquire(|raw|);
      if room {
        outcome, called := adapter, true;
        payload.Release(|raw|);
      }
      requests.Release(1);
    }
  }

  // ---------------------------------------------------------------- interleaved calls

  datatype Limits = Limits(requests: nat, payload: nat)

  /** Where a call stands. Only in `InAdapter` does it await, so only there can it be cancelled. */
  datatype Phase =
    | Entering
    | Admitted(value: nat)                    // counted, watch value not yet published
    | Gated                                   // guard in place, about to enter the limiter
    | Requested                               // holds a request permit
    | Holding                                 // holds both permits
    | InAdapter
    | ReleasingPayload(outcome: Outcome)
    | ReleasingRequest(outcome: Outcome)
    | Leaving(outcome: Outcome)               // only the guard left to drop
    | Departing(value: nat, outcome: Outcome) // uncounted, watch value not yet published
    | Finished(outcome: Outcome)

  /** Which wallet frame a call stands for: a connection and the position among its relay calls. */
  datatype Owner = Owner(connection: nat, position: nat)

  datatype RelayCall = RelayCall(owner: Owner, raw: Bytes, phase: Phase)

  /** One call of `begin_shutdown`: the gate is closed, then the count it found is published. */
  datatype Shutdown = Publishing(value: nat) | Published

  /** Adapter invocations, what the adapter returned, and how often the limiter refused a call for
      its size or for want of payload permits. */
  datatype Log = Log(invoked: seq<nat>, returned: map<nat, RelayResult>, tooLarge: nat, noPayload: nat)

  datatype State = State(
    gate: Gate,
    watch: nat,
    requests: nat,
    payload: nat,
    calls: seq<RelayCall>,
    shutdowns: seq<Shutdown>,
    log: Log)

  datatype Event =
    | Enter(owner: Owner, raw: Bytes)
    | Advance(id: nat)
    | AdapterReturns(id: nat, result: RelayResult)
    | Cancel(id: nat)
    | BeginShutdown
    | PublishShutdown(i: nat)

  function Init(limits: Limits): State {
    State(Gate(true, 0), 0, limits.requests, limits.payload, [], [], Log([], map[], 0, 0))
  }

  function Move(s: State, id: nat, phase: Phase): State
    requires id < |s.calls|
  {
    s.(calls := s.calls[id := s.calls[id].(phase := phase)])
  }

  /** The next synchronous step of a call. */
  function Progress(s: State, id: nat): Option<State>
    requires id < |s.calls|
  {
    var size := |s.calls[id].raw|;
    match s.calls[id].phase
    case Entering =>
      var (gate, admitted) := Admit(s.gate);
      Some(if admitted.None? then Move(s, id, Finished(REFUSED))
           else Move(s, id, Admitted(admitted.value)).(gate := gate))
    case Admitted(value) => Some(Move(s, id, Gated).(watch := value))
    case Gated =>
      Some(if size > U32_MAX then Move(s, id, Leaving(REFUSED)).(log := s.log.(tooLarge := s.log.tooLarge + 1))
           else if s.requests == 0 then Move(s, id, Leaving(REFUSED))
           else Move(s, id, Requested).(requests := s.requests - 1))
    case Requested =>
      Some(if s.payload < size
          then Move(s, id, ReleasingRequest(REFUSED)).(log := s.log.(noPayload := s.log.noPayload + 1))
           else Move(s, id, Holding).(payload := s.payload - size))
    case Holding => Some(Move(s, id, InAdapter).(log := s.log.(invoked := s.log.invoked + [id])))
    case InAdapter => None
    case ReleasingPayload(outcome) => Some(Move(s, id, ReleasingRequest(outcome)).(payload := s.payload + size))
    case ReleasingRequest(outcome) => Some(Move(s, id, Leaving(outcome)).(requests := s.requests + 1))
    case Leaving(outcome) =>
      var gate := Leave(s.gate);
      Some(Move(s, id, Departing(gate.active, outcome)).(gate := gate))
    case Departing(value, outcome) => Some(Move(s, id, Finished(outcome)).(watch := value))
    case Finished(_) => None
  }

  function Step(s: State, e: Event): Option<State> {
    match e
    case Enter(owner, raw) => Some(s.(calls := s.calls + [RelayCall(owner, raw, Entering)]))
    case Advance(id) => if id < |s.calls| then Progress(s, id) else None
    case AdapterReturns(id, result) =>
      if id < |s.calls| && s.calls[id].phase.InAdapter?
      then Some(Move(s, id, ReleasingPayload(Returned(result))).(
                  log := s.log.(returned := s.log.returned[id := result])))
      else None
    case Cancel(id) =>
      if id < |s.calls| && s.calls[id].phase.InAdapter? then Some(Move(s, id, ReleasingPayload(Cancelled))) else None
    case BeginShutdown => Some(s.(gate := Stop(s.gate), shutdowns := s.shutdowns + [Publishing(s.gate.active)]))
    case PublishShutdown(i) =>
      if i < |s.shutdowns| && s.shutdowns[i].Publishing?
      then Some(s.(watch := s.shutdowns[i].value, shutdowns := s.shutdowns[i := Published])) else None
  }

  function Run(s: State, events: seq<Event>): Option<State>
    decreases |events|
  {
    if events == [] then Some(s)
    else match Step(s, events[0]) {
      case None => None
      case Some(next) => Run(next, events[1..])
    }
  }

  lemma {:induction false} RunAppend(s: State, a: seq<Event>, b: seq<Event>)
    requires Run(s, a).Some?
    ensures Run(s, a + b) == Run(Run(s, a).value, b)
    decreases |a|
  {
    if a == [] {
      assert a + b == b;
    } else {
      RunAppend(Step(s, a[0]).value, a[1..], b);
      assert (a + b)[1..] == a[1..] + b;
    }
  }

  // ---------------------------------------------------------------- permits and counts

  predicate HoldsRequest(phase: Phase) {
    phase.Requested? || phase.Holding? || phase.InAdapter? || phase.ReleasingPayload? || phase.ReleasingRequest?
  }

  predicate HoldsPayload(phase: Phase) {
    phase.Holding? || phase.InAdapter? || phase.ReleasingPayload?
  }

  predicate IsActive(phase: Phase) {
    phase.Admitted? || phase.Gated? || HoldsRequest(phase) || phase.Leaving?
  }

  function RequestWeight(): RelayCall -> nat { (c: RelayCall) => if HoldsRequest(c.phase) then 1 else 0 }
  function PayloadWeight(): RelayCall -> nat { (c: RelayCall) => if HoldsPayload(c.phase) then |c.raw| else 0 }
  function ActiveWeight(): RelayCall -> nat { (c: RelayCall) => if IsActive(c.phase) then 1 else 0 }
  function FlightWeight(): RelayCall -> nat { (c: RelayCall) => if c.phase.InAdapter? then 1 else 0 }
  function FlightPayload(): RelayCall -> nat { (c: RelayCall) => if c.phase.InAdapter? then |c.raw| else 0 }

  /** Permits in the semaphores plus permits held by calls never change, and the gate counts exactly
      the calls that were admitted and have not been dropped. */
  ghost predicate Conserved(limits: Limits, s: State) {
    && s.requests + Total(s.calls, RequestWeight()) == limits.requests
    && s.payload + Total(s.calls, PayloadWeight()) == limits.payload
    && s.gate.active == Total(s.calls, ActiveWeight())
  }

  lemma MoveTotals(s: State, id: nat, phase: Phase)
    requires id < |s.calls|
    ensures var before, after := s.calls[id], s.calls[id].(phase := phase);
            var calls := Move(s, id, phase).calls;
            && Total(calls, RequestWeight()) + RequestWeight()(before)
                == Total(s.calls, RequestWeight()) + RequestWeight()(after)
            && Total(calls, PayloadWeight()) + PayloadWeight()(before)
                == Total(s.calls, PayloadWeight()) + PayloadWeight()(after)
            && Total(calls, ActiveWeight()) + ActiveWeight()(before)
                == Total(s.calls, ActiveWeight()) + ActiveWeight()(after)
  {
    var after := s.calls[id].(phase := phase);
    TotalUpdate(s.calls, id, after, RequestWeight());
    TotalUpdate(s.calls, id, after, PayloadWeight());
    TotalUpdate(s.calls, id, after, ActiveWeight());
  }

  lemma ConservedByProgress(limits: Limits, s: State, id: nat)
    requires Conserved(limits, s) && id < |s.calls| && Progress(s, id).Some?
    ensures Conserved(limits, Progress(s, id).value)
  {
    hide Total;
    var t := Progress(s, id).value;
    MoveTotals(s, id, t.calls[id].phase);
    TotalAtLeast(s.calls, id, ActiveWeight());
    assert t.calls == Move(s, id, t.calls[id].phase).calls;
  }

  lemma ConservedByStep(limits: Limits, s: State, e: Event)
    requires Conserved(limits, s) && Step(s, e).Some?
    ensures Conserved(limits, Step(s, e).value)
  {
    hide Total, Progress;
    match e
    case Advance(id) => ConservedByProgress(limits, s, id);
    case Enter(owner, raw) =>
      var call := RelayCall(owner, raw, Entering);
      TotalSnoc(s.calls, call, RequestWeight());
      TotalSnoc(s.calls, call, PayloadWeight());
      TotalSnoc(s.calls, call, ActiveWeight());
    case AdapterReturns(id, result) => MoveTotals(s, id, ReleasingPayload(Returned(result)));
    case Cancel(id) => MoveTotals(s, id, ReleasingPayload(Cancelled));
    case _ =>
  }

  lemma {:induction false} ConservedByRun(limits: Limits, s: State, events: seq<Event>)
    requires Conserved(limits, s) && Run(s, events).Some?
    ensures Conserved(limits, Run(s, events).value)
    decreases |events|
  {
    hide Step, Conserved;
    if events != [] {
      ConservedByStep(limits, s, events[0]);
      ConservedByRun(limits, Step(s, events[0]).value, events[1..]);
    }
  }

  /** In every reachable state, adapter calls in flight never exceed the limit and their payloads
      never exceed the budget, however calls interleave, fail or are cancelled. */
  lemma FlightBounded(limits: Limits, events: seq<Event>)
    requires Run(Init(limits), events).Some?
    ensures var t := Run(Init(limits), events).value;
            && Conserved(limits, t)
            && Total(t.calls, FlightWeight()) <= limits.requests
            && Total(t.calls, FlightPayload()) <= limits.payload
  {
    hide Run;
    ConservedByRun(limits, Init(limits), events);
    FlightInState(limits, Run(Init(limits), events).value);
  }

  lemma FlightInState(limits: Limits, s: State)
    requires Conserved(limits, s)
    ensures Total(s.calls, FlightWeight()) <= limits.requests && Total(s.calls, FlightPayload()) <= limits.payload
  {
    TotalBound(s.calls, FlightWeight(), RequestWeight(), 1);
    TotalBound(s.calls, FlightPayload(), PayloadWeight(), 1);
  }

  /** Dropping a guard always finds itself counted: the test before the decrement never fails. */
  lemma GuardIsCounted(limits: Limits, s: State, id: nat)
    requires Conserved(limits, s) && id < |s.calls| && IsActive(s.calls[id].phase)
    ensures s.gate.active > 0
  {
    TotalAtLeast(s.calls, id, ActiveWeight());
  }

  // ---------------------------------------------------------------- when the payload budget cannot bind

  ghost predicate PayloadsAtMost(s: State, m: nat) {
    forall i | 0 <= i < |s.calls| :: |s.calls[i].raw| <= m
  }

  /** If the request limit times the largest payload fits the budget, a call that got its request
      permit always finds its payload permits: every payload holder also holds a request permit, and
      this call is one more. */
  lemma PayloadAlwaysFits(limits: Limits, s: State, id: nat, m: nat)
    requires Conserved(limits, s) && PayloadsAtMost(s, m) && limits.requests * m <= limits.payload
    requires id < |s.calls| && s.calls[id].phase.Requested?
    ensures |s.calls[id].raw| <= s.payload
  {
    hide Total;
    var others := Move(s, id, Finished(Cancelled));
    MoveTotals(s, id, Finished(Cancelled));
    TotalBound(others.calls, PayloadWeight(), RequestWeight(), m);
    var held := Total(others.calls, RequestWeight());
    assert held + 1 <= limits.requests;
    assert m * held + m == m * (held + 1) <= m * limits.requests by {
      MultiplyMonotone(m, held + 1, limits.requests);
    }
  }

  lemma MultiplyMonotone(m: nat, a: nat, b: nat)
    requires a <= b
    ensures m * a <= m * b && m * a + m == m * (a + 1)
  {
  }

  lemma NeverRefusedForSize(limits: Limits, s: State, e: Event, m: nat)
    requires Conserved(limits, s) && PayloadsAtMost(s, m) && limits.requests * m <= limits.payload && m <= U32_MAX
    requires Step(s, e).Some?
    ensures var t := Step(s, e).value; t.log.noPayload == s.log.noPayload && t.log.tooLarge == s.log.tooLarge
  {
    hide Conserved;
    if e.Advance? && e.id < |s.calls| && s.calls[e.id].phase.Requested? {
      PayloadAlwaysFits(limits, s, e.id, m);
    }
  }

  // ---------------------------------------------------------------- the adapter's log

  /** Whether a call has got past the point where the adapter is invoked, if it ever does. */
  predicate BeforeAdapter(phase: Phase) {
    phase.Entering? || phase.Admitted? || phase.Gated? || phase.Requested? || phase.Holding?
  }

  /** The outcome a call carries once it has one. */
  function OutcomeOf(phase: Phase): Option<Outcome> {
    match phase
    case ReleasingPayload(outcome) => Some(outcome)
    case ReleasingRequest(outcome) => Some(outcome)
    case Leaving(outcome) => Some(outcome)
    case Departing(_, outcome) => Some(outcome)
    case Finished(outcome) => Some(outcome)
    case _ => None
  }

  /** A call that returns brings back exactly what the adapter returned to it, success or failure; one
      that never got there brings back the plain failure; and one that was cancelled was in the adapter,
      which had not returned. */
  ghost predicate Logged(log: Log, id: nat, phase: Phase) {
    && (id in log.invoked ==> !BeforeAdapter(phase))
    && (id in log.returned ==> id in log.invoked)
    && (phase.InAdapter? ==> id in log.invoked)
    && match OutcomeOf(phase)
       case None => id !in log.returned
       case Some(Cancelled) => id in log.invoked && id !in log.returned
       case Some(Returned(result)) =>
         if id in log.invoked then id in log.returned && log.returned[id] == result else result == Failed(false)
  }

  /** No call invokes the adapter twice, and every outcome is the adapter's or a refusal. */
  ghost predicate LogKept(s: State) {
    && (forall i, j | 0 <= i < j < |s.log.invoked| :: s.log.invoked[i] != s.log.invoked[j])
    && (forall id | id in s.log.invoked :: id < |s.calls|)
    && (forall id | id in s.log.returned :: id < |s.calls|)
    && (forall id | 0 <= id < |s.calls| :: Logged(s.log, id, s.calls[id].phase))
  }

  lemma LogKeptByStep(s: State, e: Event)
    requires LogKept(s) && Step(s, e).Some?
    ensures LogKept(Step(s, e).value)
  {
    hide Admit, Leave, Stop;
    match e
    case Advance(id) => LogKeptByProgress(s, id);
    case _ =>
  }

  lemma LogKeptByProgress(s: State, id: nat)
    requires LogKept(s) && id < |s.calls| && Progress(s, id).Some?
    ensures LogKept(Progress(s, id).value)
  {
    hide Admit, Leave;
    var t := Progress(s, id).value;
    assert Logged(s.log, id, s.calls[id].phase);
    forall other | 0 <= other < |t.calls| ensures Logged(t.log, other, t.calls[other].phase) {
      LoggedByProgress(s, id, other);
    }
    hide Logged, Progress;
    LogGrowth(s, id);
  }

  lemma LoggedByProgress(s: State, id: nat, other: nat)
    requires id < |s.calls| && other < |s.calls| && Progress(s, id).Some? && Logged(s.log, other, s.calls[other].phase)
    ensures var t := Progress(s, id).value; |t.calls| == |s.calls| && Logged(t.log, other, t.calls[other].phase)
  {
    hide Admit, Leave;
    if other != id {
      hide Logged;
      ProgressElsewhere(s, id, other);
      LoggedElsewhere(s.log, Progress(s, id).value.log, id, other, s.calls[other].phase);
    }
  }

  lemma ProgressElsewhere(s: State, id: nat, other: nat)
    requires id < |s.calls| && other < |s.calls| && other != id && Progress(s, id).Some?
    ensures var t := Progress(s, id).value;
            && |t.calls| == |s.calls| && t.calls[other] == s.calls[other]
            && t.log.returned == s.log.returned
            && (t.log.invoked == s.log.invoked || t.log.invoked == s.log.invoked + [id])
  {
    hide Admit, Leave;
  }

  lemma LoggedElsewhere(log: Log, log': Log, id: nat, other: nat, phase: Phase)
    requires other != id && Logged(log, other, phase)
    requires log'.returned == log.returned && (log'.invoked == log.invoked || log'.invoked == log.invoked + [id])
    ensures Logged(log', other, phase)
  {
  }

  lemma LogGrowth(s: State, id: nat)
    requires id < |s.calls| && Progress(s, id).Some?
    ensures var t := Progress(s, id).value;
            && |t.calls| == |s.calls|
            && t.log.invoked == if s.calls[id].phase.Holding? then s.log.invoked + [id] else s.log.invoked
  {
    hide Admit, Leave;
  }

  lemma {:induction false} LogKeptByRun(s: State, events: seq<Event>)
    requires LogKept(s) && Run(s, events).Some?
    ensures LogKept(Run(s, events).value)
    decreases |events|
  {
    hide Step, LogKept;
    if events != [] {
      LogKeptByStep(s, events[0]);
      LogKeptByRun(Step(s, events[0]).value, events[1..]);
    }
  }

  /** In every run, a call that has ended and was not cancelled returned exactly what the adapter returned
      to it if it got there, and the plain failure if it did not. */
  lemma ResultsPassUnchanged(limits: Limits, events: seq<Event>, id: nat)
    requires Run(Init(limits), events).Some? && id < |Run(Init(limits), events).value.calls|
    requires Run(Init(limits), events).value.calls[id].phase.Finished?
    ensures var t := Run(Init(limits), events).value;
            var outcome := t.calls[id].phase.outcome;
            && (outcome.Returned? && id in t.log.invoked ==>
                  id in t.log.returned && outcome.result == t.log.returned[id])
            && (outcome.Returned? && id !in t.log.invoked ==> outcome.result == Failed(false))
            && (outcome.Cancelled? ==> id in t.log.invoked && id !in t.log.returned)
  {
    hide Run;
    LogKeptByRun(Init(limits), events);
    var t := Run(Init(limits), events).value;
    assert Logged(t.log, id, t.calls[id].phase);
  }

  // ---------------------------------------------------------------- when a call is refused

  /** A call that is about to pass a check and does not get further. */
  predicate TurnedAway(s: State, id: nat)
    requires id < |s.calls| && Progress(s, id).Some?
  {
    OutcomeOf(s.calls[id].phase).None? && OutcomeOf(Progress(s, id).value.calls[id].phase) == Some(REFUSED)
  }

  /** A call is turned away exactly when the gate is closed or its counter exhausted, its length does not
      fit 32 bits, as many calls as allowed hold request permits, or the payloads of those that hold
      payload permits leave it no room. It is never queued, and never turned away otherwise. */
  lemma TurnedAwayExactly(limits: Limits, s: State, id: nat)
    requires Conserved(limits, s) && id < |s.calls| && Progress(s, id).Some?
    ensures var size := |s.calls[id].raw|;
            TurnedAway(s, id) <==>
              match s.calls[id].phase
              case Entering => !s.gate.accepting || Total(s.calls, ActiveWeight()) >= USIZE_MAX
              case Gated => size > U32_MAX || Total(s.calls, RequestWeight()) == limits.requests
              case Requested => Total(s.calls, PayloadWeight()) + size > limits.payload
              case _ => false
  {
    hide Total;
  }
}
