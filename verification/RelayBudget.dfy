/** The payload budget is a second, independent limit exactly when the request limit times the largest
    payload exceeds it. */
module RelayBudget {
  import opened Sequences
  import opened Relay
  import opened RelayRuns

  lemma PayloadsOnlyGrow(s: State, e: Event, m: nat)
    requires Step(s, e).Some? && PayloadsAtMost(Step(s, e).value, m)
    ensures PayloadsAtMost(s, m)
  {
    var t := Step(s, e).value;
    forall i | 0 <= i < |s.calls| ensures |s.calls[i].raw| <= m {
      assert |t.calls[i].raw| <= m;
      RawsAreKept(s, e, i);
    }
  }

  lemma RawsAreKept(s: State, e: Event, i: nat)
    requires Step(s, e).Some? && i < |s.calls|
    ensures i < |Step(s, e).value.calls| && Step(s, e).value.calls[i].raw == s.calls[i].raw
  {
  }

  lemma {:induction false} NoRefusalWithinBudget(limits: Limits, s: State, events: seq<Event>, m: nat)
    requires Conserved(limits, s) && Run(s, events).Some? && PayloadsAtMost(Run(s, events).value, m)
    requires limits.requests * m <= limits.payload && m <= U32_MAX
    ensures PayloadsAtMost(s, m) && Run(s, events).value.log.noPayload == s.log.noPayload
    decreases |events|
  {
    hide Step, Conserved, PayloadsAtMost;
    if events != [] {
      var n := Step(s, events[0]).value;
      ConservedByStep(limits, s, events[0]);
      NoRefusalWithinBudget(limits, n, events[1..], m);
      PayloadsOnlyGrow(s, events[0], m);
      NeverRefusedForSize(limits, s, events[0], m);
    }
  }

  /** So many calls with the same payload are inside the adapter at once. */
  ghost predicate Saturated(limits: Limits, s: State, k: nat, raw: Bytes) {
    && s.gate == Gate(true, k) && s.log.noPayload == 0
    && s.requests + k == limits.requests && s.payload + k * |raw| == limits.payload
    && forall i | 0 <= i < |s.calls| :: s.calls[i].raw == raw
  }

  lemma {:induction false} Saturate(limits: Limits, k: nat, raw: Bytes) returns (events: seq<Event>)
    requires k <= limits.requests <= USIZE_MAX && k * |raw| <= limits.payload && |raw| <= U32_MAX
    ensures Run(Init(limits), events).Some? && Saturated(limits, Run(Init(limits), events).value, k, raw)
  {
    hide Step;
    if k == 0 {
      events := [];
    } else {
      var less := Saturate(limits, k - 1, raw) by { MultiplyMonotone(|raw|, k - 1, k); }
      hide Run;
      var s := Run(Init(limits), less).value;
      MultiplyMonotone(|raw|, k - 1, k);
      var id := |s.calls|;
      var enter := [Enter(Owner(id, 0), raw), Advance(id), Advance(id)];
      RunToGate(s, Owner(id, 0), raw);
      var gated := Run(s, enter).value;
      RunToAdapter(gated, id);
      var more := [Advance(id), Advance(id), Advance(id)];
      RunAppend(Init(limits), less, enter);
      RunAppend(Init(limits), less + enter, more);
      events := less + enter + more;
    }
  }

  /** With the budget too small, enough concurrent calls of size `m` make the payload semaphore refuse
      one that holds a request permit. */
  lemma BudgetCanBind(limits: Limits, m: nat) returns (events: seq<Event>)
    requires limits.payload < limits.requests * m && m <= U32_MAX && limits.requests <= USIZE_MAX
    ensures Run(Init(limits), events).Some?
    ensures var t := Run(Init(limits), events).value; PayloadsAtMost(t, m) && t.log.noPayload == 1
  {
    hide Run, Step;
    var raw: Bytes := seq(m, _ => 48);
    var k := HowManyFit(limits, m);
    var full := Saturate(limits, k, raw);
    var s := Run(Init(limits), full).value;
    var id := |s.calls|;
    var enter := [Enter(Owner(id, 0), raw), Advance(id), Advance(id)];
    RunToGate(s, Owner(id, 0), raw);
    var gated := Run(s, enter).value;
    RunToRefusal(gated, id);
    RunAppend(Init(limits), full, enter);
    RunAppend(Init(limits), full + enter, [Advance(id), Advance(id)]);
    events := full + enter + [Advance(id), Advance(id)];
  }

  lemma HowManyFit(limits: Limits, m: nat) returns (k: nat)
    requires limits.payload < limits.requests * m
    ensures k * m <= limits.payload < k * m + m && k < limits.requests
  {
    k := limits.payload / m;
    if k >= limits.requests { MultiplyMonotone(m, limits.requests, k); }
  }

  ghost predicate NeverRefuses(limits: Limits, m: nat, events: seq<Event>) {
    Run(Init(limits), events).Some? && PayloadsAtMost(Run(Init(limits), events).value, m) ==>
      Run(Init(limits), events).value.log.noPayload == 0
  }

  /** The payload semaphore never refuses a call in any run with payloads of at most `m` bytes if and
      only if the request limit times `m` fits the budget: the configured product is exactly the bound. */
  lemma BudgetBindsExactly(limits: Limits, m: nat)
    requires m <= U32_MAX && limits.requests <= USIZE_MAX
    ensures (forall events :: NeverRefuses(limits, m, events)) <==> limits.requests * m <= limits.payload
  {
    hide Run;
    if limits.requests * m <= limits.payload {
      forall events ensures NeverRefuses(limits, m, events) {
        if Run(Init(limits), events).Some? && PayloadsAtMost(Run(Init(limits), events).value, m) {
          NoRefusalWithinBudget(limits, Init(limits), events, m);
        }
      }
    } else {
      var events := BudgetCanBind(limits, m);
      assert !NeverRefuses(limits, m, events);
    }
  }
}
