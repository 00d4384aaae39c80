/** A layer behind its breaker, with any number of calls at once. A call is admitted or rejected
    by the breaker; an admitted one runs its closure against the wrapped layer, and then reports
    to the breaker. Each of the three is one step, and other calls interleave freely. */
module GuardedLayer {
  import opened CacheTypes
  import opened Sums
  import opened Resilience
  import B = CircuitBreaker

  datatype Op = Get(key: Key) | Set(key: Key, value: Value, ttl: int) | Delete(key: Key)

  /** A call waiting for its closure, one whose closure has run, and one back at its caller.
      `seen` is what the wrapped layer held when the closure ran or the call was rejected. */
  datatype Call =
    | Admitted(op: Op, ticket: nat)
    | Ran(op: Op, ticket: nat, seen: Contents, fault: Option<Error>, tookEffect: bool)
    | Returned(op: Op, seen: Contents, weather: Weather)

  datatype State = State(breaker: B.Breaker, contents: Contents, calls: seq<Call>)

  datatype Step =
    | Begin(op: Op, deadlineExceeded: bool)
    | RunClosure(c: nat, fault: Option<Error>, tookEffect: bool)
    | Report(c: nat, deadlineExceeded: bool)
    | NewPeriod
    | CoolDown
    | Change(contents: Contents)

  function Init(start: nat, contents: Contents): State { State(B.Init(start), contents, []) }

  predicate Enabled(s: State, step: Step) {
    match step
    case Begin(_, _) => true
    case RunClosure(c, _, _) => c < |s.calls| && s.calls[c].Admitted?
    case Report(c, _) =>
      c < |s.calls| && s.calls[c].Ran? &&
      B.Enabled(s.breaker, B.Complete(s.calls[c].ticket, Succeeded(s.calls[c])))
    case NewPeriod => B.Enabled(s.breaker, B.NewPeriod)
    case CoolDown => B.Enabled(s.breaker, B.CoolDown)
    case Change(_) => true
  }

  /** What the closure tells the breaker: a miss is no failure, any other error is. */
  function Succeeded(call: Call): bool
    requires call.Ran?
  {
    if call.op.Get? then ReportedSuccess(InnerAnswer(call.seen, call.op.key, call.fault)) else call.fault.None?
  }

  /** What the wrapped layer holds after a call of its own. */
  function AfterOp(contents: Contents, op: Op): Contents {
    match op
    case Get(_) => contents
    case Set(key, value, ttl) => contents[key := Item(value, ttl)]
    case Delete(key) => contents - {key}
  }

  function Apply(s: State, step: Step): State
    requires Enabled(s, step)
  {
    match step
    case Begin(op, late) =>
      var call :=
        if !B.Rejects(s.breaker) then Admitted(op, |s.breaker.tickets|)
        else if s.breaker.phase.Open? then Returned(op, s.contents, RejectedOpen)
        else Returned(op, s.contents, RejectedTooMany(late));
      s.(breaker := B.Apply(s.breaker, B.Call), calls := s.calls + [call])
    case RunClosure(c, fault, tookEffect) =>
      var call := s.calls[c];
      s.(contents := if fault.None? || tookEffect then AfterOp(s.contents, call.op) else s.contents,
         calls := s.calls[c := Ran(call.op, call.ticket, s.contents, fault, tookEffect)])
    case Report(c, late) =>
      var call := s.calls[c];
      s.(breaker := B.Apply(s.breaker, B.Complete(call.ticket, Succeeded(call))),
         calls := s.calls[c := Returned(call.op, call.seen, Runs(call.fault, call.tookEffect, late))])
    case NewPeriod => s.(breaker := B.Apply(s.breaker, B.NewPeriod))
    case CoolDown => s.(breaker := B.Apply(s.breaker, B.CoolDown))
    case Change(contents) => s.(contents := contents)
  }

  predicate IsRun(s: State, steps: seq<Step>)
    decreases |steps|
  {
    steps == [] || (Enabled(s, steps[0]) && IsRun(Apply(s, steps[0]), steps[1..]))
  }

  function Exec(s: State, steps: seq<Step>): State
    requires IsRun(s, steps)
    decreases |steps|
  {
    if steps == [] then s else Exec(Apply(s, steps[0]), steps[1..])
  }

  /** What the caller of a read gets. */
  function ReplyTo(call: Call): Answer
    requires call.Returned? && call.op.Get?
  {
    GetAnswer(call.seen, call.op.key, call.weather)
  }

  // ---------------------------------------------------------------------------------------
  // The calls and the breaker fit together
  // ---------------------------------------------------------------------------------------

  predicate IsRunning(call: Call) { call.Admitted? || call.Ran? }

  /** Every unfinished call has a running ticket of its own. */
  ghost predicate TicketsFit(s: State) {
    && (forall c :: 0 <= c < |s.calls| && IsRunning(s.calls[c]) ==>
          s.calls[c].ticket < |s.breaker.tickets| && s.breaker.tickets[s.calls[c].ticket].Some?)
    && (forall c, d :: 0 <= c < d < |s.calls| && IsRunning(s.calls[c]) && IsRunning(s.calls[d]) ==>
          s.calls[c].ticket != s.calls[d].ticket)
  }

  ghost predicate Inv(s: State) { B.Inv(s.breaker) && TicketsFit(s) }

  lemma StepTicketsFit(s: State, step: Step)
    requires TicketsFit(s) && Enabled(s, step)
    ensures TicketsFit(Apply(s, step))
  {
  }

  lemma StepInv(s: State, step: Step)
    requires Inv(s) && Enabled(s, step)
    ensures Inv(Apply(s, step))
  {
    StepTicketsFit(s, step);
    match step {
      case Begin(_, _) => B.StepInv(s.breaker, B.Call);
      case Report(c, _) => B.StepInv(s.breaker, B.Complete(s.calls[c].ticket, Succeeded(s.calls[c])));
      case NewPeriod => B.StepInv(s.breaker, B.NewPeriod);
      case CoolDown => B.StepInv(s.breaker, B.CoolDown);
      case _ =>
    }
  }

  /** A call whose closure has run can always report. */
  lemma ReportIsEnabled(s: State, c: nat, late: bool)
    requires TicketsFit(s) && c < |s.calls| && s.calls[c].Ran?
    ensures Enabled(s, Report(c, late))
  {
    assert IsRunning(s.calls[c]);
  }

  /** What a report tells a closed breaker: an error of the wrapped layer other than a miss is a
      failure, which opens it exactly when the rule of 20 requests and 15 percent says so; a hit,
      a miss or a write that was taken is a success. */
  lemma ReportCounts(s: State, c: nat, late: bool)
    requires TicketsFit(s) && c < |s.calls| && s.calls[c].Ran?
    requires s.breaker.phase.Closed? && B.IsCurrent(s.breaker, s.calls[c].ticket)
    ensures Enabled(s, Report(c, late))
    ensures
      var call, b, t := s.calls[c], s.breaker, Apply(s, Report(c, late)).breaker;
      if call.fault.Some? && !(call.op.Get? && call.fault == Some(NotFound)) then
        && (t.phase.Open? <==> b.counts.requests >= 20 && 20 * (b.counts.totalFailures + 1) >= 3 * b.counts.requests)
        && (!t.phase.Open? ==> t.phase.Closed? && t.counts.totalFailures == b.counts.totalFailures + 1)
      else
        && t.phase.Closed? && t.counts.totalFailures == b.counts.totalFailures
        && t.counts.totalSuccesses == b.counts.totalSuccesses + 1
  {
    ReportIsEnabled(s, c, late);
    B.TripsIff(s.breaker, s.calls[c].ticket);
    B.ClosedSuccess(s.breaker, s.calls[c].ticket);
  }

  // ---------------------------------------------------------------------------------------
  // Hits and misses never trip the breaker
  // ---------------------------------------------------------------------------------------

  /** The wrapped layer only hits or misses, and takes its writes. */
  predicate IsHealthy(s: State, step: Step)
    requires Enabled(s, step)
  {
    step.RunClosure? ==> step.fault.None? || (s.calls[step.c].op.Get? && step.fault == Some(NotFound))
  }

  predicate HealthyRun(s: State, steps: seq<Step>)
    requires IsRun(s, steps)
    decreases |steps|
  {
    steps == [] || (IsHealthy(s, steps[0]) && HealthyRun(Apply(s, steps[0]), steps[1..]))
  }

  /** The call was not rejected and did not fail. */
  predicate HealthyCall(call: Call) {
    match call
    case Admitted(_, _) => true
    case Ran(op, _, _, fault, _) => fault.None? || (op.Get? && fault == Some(NotFound))
    case Returned(op, _, weather) =>
      weather.Runs? && (weather.fault.None? || (op.Get? && weather.fault == Some(NotFound)))
  }

  ghost predicate Healthy(s: State) {
    s.breaker.phase.Closed? && forall c :: 0 <= c < |s.calls| ==> HealthyCall(s.calls[c])
  }

  lemma {:induction false} RunHealthy(s: State, steps: seq<Step>)
    requires Healthy(s) && IsRun(s, steps) && HealthyRun(s, steps)
    ensures Healthy(Exec(s, steps))
    decreases |steps|
  {
    if steps != [] {
      assert steps[0].Report? ==> HealthyCall(s.calls[steps[0].c]);
      RunHealthy(Apply(s, steps[0]), steps[1..]);
    }
  }

  /** However high the rate of misses, and for any interleaving of calls: while the wrapped layer
      only hits or misses, the breaker stays closed, no call is rejected, and every read returns
      what the wrapped layer answered to it. */
  lemma MissesNeverTrip(start: nat, contents: Contents, steps: seq<Step>)
    requires IsRun(Init(start, contents), steps) && HealthyRun(Init(start, contents), steps)
    ensures
      var s := Exec(Init(start, contents), steps);
      && s.breaker.phase.Closed? && !B.Rejects(s.breaker)
      && forall c :: 0 <= c < |s.calls| && s.calls[c].Returned? ==>
           && s.calls[c].weather.Runs?
           && (s.calls[c].op.Get? ==>
                 ReplyTo(s.calls[c]) == InnerAnswer(s.calls[c].seen, s.calls[c].op.key, s.calls[c].weather.fault))
           && (!s.calls[c].op.Get? ==> WriteOutcome(s.calls[c].weather) == Ok)
  {
    RunHealthy(Init(start, contents), steps);
    var s := Exec(Init(start, contents), steps);
    forall c | 0 <= c < |s.calls| && s.calls[c].Returned?
      ensures s.calls[c].weather.Runs?
      ensures s.calls[c].op.Get? ==>
        ReplyTo(s.calls[c]) == InnerAnswer(s.calls[c].seen, s.calls[c].op.key, s.calls[c].weather.fault)
      ensures !s.calls[c].op.Get? ==> WriteOutcome(s.calls[c].weather) == Ok
    {
      assert HealthyCall(s.calls[c]);
    }
  }

  // ---------------------------------------------------------------------------------------
  // When a call is rejected as one too many
  // ---------------------------------------------------------------------------------------

  /** The step reports a failure that opens the closed breaker. */
  predicate Trips(s: State, step: Step)
    requires Enabled(s, step)
  {
    step.Report? && s.breaker.phase.Closed? && Apply(s, step).breaker.phase.Open?
  }

  predicate HasTripped(s: State, steps: seq<Step>)
    requires IsRun(s, steps)
    decreases |steps|
  {
    steps != [] && (Trips(s, steps[0]) || HasTripped(Apply(s, steps[0]), steps[1..]))
  }

  lemma {:induction false} OnlyTripsOpen(s: State, steps: seq<Step>)
    requires Inv(s) && IsRun(s, steps)
    ensures Inv(Exec(s, steps))
    ensures s.breaker.phase.Closed? && !Exec(s, steps).breaker.phase.Closed? ==> HasTripped(s, steps)
    decreases |steps|
  {
    if steps != [] {
      StepInv(s, steps[0]);
      OnlyTripsOpen(Apply(s, steps[0]), steps[1..]);
    }
  }

  /** The call that the step begins. */
  function Begun(s: State, op: Op, late: bool): Call { Apply(s, Begin(op, late)).calls[|s.calls|] }

  lemma RejectedIff(s: State, op: Op, late: bool)
    requires B.Inv(s.breaker)
    ensures Begun(s, op, late).Admitted? <==> !B.Rejects(s.breaker)
    ensures Begun(s, op, late) == Returned(op, s.contents, RejectedOpen) <==> s.breaker.phase.Open?
    ensures Begun(s, op, late) == Returned(op, s.contents, RejectedTooMany(late)) <==>
      s.breaker.phase.HalfOpen? && s.breaker.counts.requests == B.MAX_REQUESTS
  {
  }

  /** Whom the breaker rejects, in any reachable state: everyone while it is open; and while it is
      half-open exactly the calls that come when all its trial calls have been admitted. That
      takes a trip earlier in the run, and some trial call is then still on its way. */
  lemma RejectionsMean(start: nat, contents: Contents, steps: seq<Step>, op: Op, late: bool, s: State)
    requires IsRun(Init(start, contents), steps) && s == Exec(Init(start, contents), steps)
    ensures Begun(s, op, late) == Returned(op, s.contents, RejectedOpen) <==> s.breaker.phase.Open?
    ensures Begun(s, op, late) == Returned(op, s.contents, RejectedTooMany(late)) <==>
      s.breaker.phase.HalfOpen? && s.breaker.counts.requests == B.MAX_REQUESTS
    ensures !Begun(s, op, late).Admitted? ==> HasTripped(Init(start, contents), steps)
    ensures Begun(s, op, late) == Returned(op, s.contents, RejectedTooMany(late)) ==>
      Sum(s.breaker.tickets, B.IsOf(s.breaker.generation)) > 0
  {
    B.InitInv(start);
    OnlyTripsOpen(Init(start, contents), steps);
    RejectedIff(s, op, late);
  }

  predicate NotRejected(call: Call) { call.Returned? ==> call.weather.Runs? }

  /** Until the breaker trips for the first time no call is rejected. */
  lemma {:induction false} NoTripNoRejection(s: State, steps: seq<Step>)
    requires s.breaker.phase.Closed? && IsRun(s, steps) && !HasTripped(s, steps)
    requires forall c :: 0 <= c < |s.calls| ==> NotRejected(s.calls[c])
    ensures Exec(s, steps).breaker.phase.Closed?
    ensures forall c :: 0 <= c < |Exec(s, steps).calls| ==> NotRejected(Exec(s, steps).calls[c])
    decreases |steps|
  {
    if steps != [] {
      NoTripNoRejection(Apply(s, steps[0]), steps[1..]);
    }
  }

  /** A read returns the empty success, over a layer that stores no empty value, if and only if
      it was rejected as one too many; and that only happens in a run in which the breaker has
      tripped. */
  lemma EmptySuccessIff(start: nat, contents: Contents, steps: seq<Step>, c: nat)
    requires IsRun(Init(start, contents), steps)
    requires
      var s := Exec(Init(start, contents), steps);
      && c < |s.calls| && s.calls[c].Returned? && s.calls[c].op.Get?
      && forall k :: k in s.calls[c].seen ==> s.calls[c].seen[k].value != Nil
    ensures
      var call := Exec(Init(start, contents), steps).calls[c];
      && (ReplyTo(call) == Hit(Nil) <==> call.weather.RejectedTooMany?)
      && (ReplyTo(call) == Hit(Nil) ==> HasTripped(Init(start, contents), steps))
  {
    var call := Exec(Init(start, contents), steps).calls[c];
    GetAnswerMeans(call.seen, call.op.key, call.weather);
    if !HasTripped(Init(start, contents), steps) {
      NoTripNoRejection(Init(start, contents), steps);
      assert NotRejected(call);
    }
  }

  // ---------------------------------------------------------------------------------------
  // An uninterrupted call
  // ---------------------------------------------------------------------------------------

  /** What the breaker decides about a call. */
  function Verdict(b: B.Breaker, fault: Option<Error>, tookEffect: bool, late: bool): Weather {
    if !B.Rejects(b) then Runs(fault, tookEffect, late)
    else if b.phase.Open? then RejectedOpen
    else RejectedTooMany(late)
  }

  lemma {:induction false} Extend(s0: State, steps: seq<Step>, step: Step) returns (more: seq<Step>)
    requires IsRun(s0, steps) && Enabled(Exec(s0, steps), step)
    ensures more == steps + [step]
    ensures IsRun(s0, more) && Exec(s0, more) == Apply(Exec(s0, steps), step)
    decreases |steps|
  {
    more := steps + [step];
    if steps == [] {
      assert more[1..] == [];
    } else {
      var rest := Extend(Apply(s0, steps[0]), steps[1..], step);
      assert more[1..] == rest;
    }
  }

  /** A call with nothing in between is a run, in which the breaker's own state decides the
      weather that the layer's methods are given; it leaves the contents that they leave. */
  lemma UninterruptedCall(s: State, op: Op, fault: Option<Error>, tookEffect: bool, late: bool) returns (steps: seq<Step>)
    requires TicketsFit(s)
    ensures IsRun(s, steps)
    ensures
      var t, weather := Exec(s, steps), Verdict(s.breaker, fault, tookEffect, late);
      && t.calls == s.calls + [Returned(op, s.contents, weather)]
      && t.contents == if WriteApplies(weather) then AfterOp(s.contents, op) else s.contents
  {
    var c := |s.calls|;
    steps := Extend(s, [], Begin(op, late));
    if !B.Rejects(s.breaker) {
      steps := Extend(s, steps, RunClosure(c, fault, tookEffect));
      steps := Extend(s, steps, Report(c, late));
    }
  }
}
