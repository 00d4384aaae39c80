/** The circuit breaker's contract with the default trip rule: calls are admitted or rejected,
    admitted calls complete in any order, and counts start from zero in every generation. */
module CircuitBreaker {
  import opened CacheTypes
  import opened Sums

  datatype Counts = Counts(
    requests: nat,
    totalSuccesses: nat,
    totalFailures: nat,
    consecutiveSuccesses: nat,
    consecutiveFailures: nat)

  const ZERO := Counts(0, 0, 0, 0, 0)

  const MAX_REQUESTS := 5

  /** At least 20 requests, of which at least 15 percent failed. */
  predicate ReadyToTrip(counts: Counts) {
    if counts.requests < 20 then false
    else counts.totalFailures as real / counts.requests as real >= 0.15
  }

  /** The rate rule in whole numbers. */
  lemma ThresholdInIntegers(counts: Counts)
    ensures ReadyToTrip(counts) <==> counts.requests >= 20 && 20 * counts.totalFailures >= 3 * counts.requests
  {
    if counts.requests >= 20 {
      var f, r := counts.totalFailures as real, counts.requests as real;
      assert f / r >= 0.15 <==> f >= 0.15 * r by {
        var q := f / r;
        assert q * r == f;
        if q >= 0.15 { assert q * r >= 0.15 * r; }
        if q < 0.15 { assert q * r < 0.15 * r; }
      }
    }
  }

  datatype Phase = Closed | Open | HalfOpen

  /** `tickets` has one element per admitted call: while the call is running, the generation it
      was admitted in. */
  datatype Breaker = Breaker(phase: Phase, counts: Counts, generation: nat, tickets: seq<Option<nat>>)

  datatype Event =
    | Call
    | Complete(c: nat, success: bool)
    | NewPeriod
    | CoolDown

  /** A new breaker: closed, with nothing counted or running. */
  function Init(start: nat): Breaker { Breaker(Closed, ZERO, start, []) }

  predicate Enabled(b: Breaker, event: Event) {
    match event
    case Call => true
    case Complete(c, _) => c < |b.tickets| && b.tickets[c].Some?
    case NewPeriod => b.phase.Closed?
    case CoolDown => b.phase.Open?
  }

  predicate Rejects(b: Breaker) {
    b.phase.Open? || (b.phase.HalfOpen? && b.counts.requests >= MAX_REQUESTS)
  }

  /** Entering a phase starts a new generation with zero counts. */
  function Enter(b: Breaker, phase: Phase): Breaker {
    b.(phase := phase, counts := ZERO, generation := b.generation + 1)
  }

  function CountSuccess(counts: Counts): Counts {
    counts.(totalSuccesses := counts.totalSuccesses + 1,
            consecutiveSuccesses := counts.consecutiveSuccesses + 1, consecutiveFailures := 0)
  }

  function CountFailure(counts: Counts): Counts {
    counts.(totalFailures := counts.totalFailures + 1,
            consecutiveFailures := counts.consecutiveFailures + 1, consecutiveSuccesses := 0)
  }

  function Apply(b: Breaker, event: Event): Breaker
    requires Enabled(b, event)
  {
    match event
    case Call =>
      if Rejects(b) then b
      else b.(counts := b.counts.(requests := b.counts.requests + 1), tickets := b.tickets + [Some(b.generation)])
    case Complete(c, success) =>
      var t := b.(tickets := b.tickets[c := None]);
      if b.tickets[c] != Some(b.generation) then t
      else if success then
        var counted := t.(counts := CountSuccess(b.counts));
        if b.phase.HalfOpen? && counted.counts.consecutiveSuccesses >= MAX_REQUESTS then Enter(counted, Closed)
        else counted
      else
        var counted := t.(counts := CountFailure(b.counts));
        if b.phase.HalfOpen? || (b.phase.Closed? && ReadyToTrip(counted.counts)) then Enter(counted, Open)
        else counted
    case NewPeriod => Enter(b, Closed)
    case CoolDown => Enter(b, HalfOpen)
  }

  predicate Runs(b: Breaker, events: seq<Event>)
    decreases |events|
  {
    events == [] || (Enabled(b, events[0]) && Runs(Apply(b, events[0]), events[1..]))
  }

  function Exec(b: Breaker, events: seq<Event>): Breaker
    requires Runs(b, events)
    decreases |events|
  {
    if events == [] then b else Exec(Apply(b, events[0]), events[1..])
  }

  /** Running calls that were admitted in the generation. */
  function IsOf(generation: nat): Option<nat> -> nat {
    (ticket: Option<nat>) => if ticket == Some(generation) then 1 else 0
  }

  /** Every request of the generation is running, succeeded or failed; while closed the failures
      are few in number or in rate; while half-open there are few requests and no failure. */
  ghost predicate Inv(b: Breaker) {
    && NoneLater(b.tickets, b.generation)
    && b.counts.requests
         == b.counts.totalSuccesses + b.counts.totalFailures + Sum(b.tickets, IsOf(b.generation))
    && (b.phase.Closed? ==>
          b.counts.totalFailures <= 19 || 20 * b.counts.totalFailures < 3 * b.counts.requests)
    && (b.phase.HalfOpen? ==>
          && b.counts.requests <= MAX_REQUESTS && b.counts.totalFailures == 0
          && b.counts.consecutiveSuccesses == b.counts.totalSuccesses < MAX_REQUESTS)
  }

  ghost predicate NoneLater(tickets: seq<Option<nat>>, generation: nat) {
    forall i :: 0 <= i < |tickets| && tickets[i].Some? ==> tickets[i].value <= generation
  }

  lemma InitInv(start: nat)
    ensures Inv(Init(start))
  {
  }

  lemma EnterInv(b: Breaker, phase: Phase)
    requires NoneLater(b.tickets, b.generation)
    ensures Inv(Enter(b, phase))
  {
    SumZero(b.tickets, IsOf(b.generation + 1));
  }

  lemma CompleteInv(b: Breaker, c: nat, success: bool)
    requires Inv(b) && Enabled(b, Complete(c, success))
    ensures Inv(Apply(b, Complete(c, success)))
  {
    var t := b.(tickets := b.tickets[c := None]);
    SumUpdate(b.tickets, c, None, IsOf(b.generation));
    ThresholdInIntegers(CountFailure(b.counts));
    EnterInv(t.(counts := CountSuccess(b.counts)), Closed);
    EnterInv(t.(counts := CountFailure(b.counts)), Open);
  }

  lemma StepInv(b: Breaker, event: Event)
    requires Inv(b) && Enabled(b, event)
    ensures Inv(Apply(b, event))
  {
    match event {
      case Call => SumPush(b.tickets, Some(b.generation), IsOf(b.generation));
      case Complete(c, success) => CompleteInv(b, c, success);
      case NewPeriod => EnterInv(b, Closed);
      case CoolDown => EnterInv(b, HalfOpen);
    }
  }

  lemma {:induction false} RunInv(b: Breaker, events: seq<Event>)
    requires Inv(b) && Runs(b, events)
    ensures Inv(Exec(b, events))
    decreases |events|
  {
    if events != [] {
      StepInv(b, events[0]);
      RunInv(Apply(b, events[0]), events[1..]);
    }
  }

  /** For any interleaving of admissions, completions and periods: while the default breaker is
      closed, at most 19 calls failed since the last reset, or fewer than 15 percent did. */
  lemma ErrorBoundWhileClosed(start: nat, events: seq<Event>, b: Breaker)
    requires Runs(Init(start), events) && b == Exec(Init(start), events)
    requires b.phase.Closed?
    ensures b.counts.totalFailures <= 19 || 20 * b.counts.totalFailures < 3 * b.counts.requests
    ensures b.counts.totalSuccesses + b.counts.totalFailures <= b.counts.requests
  {
    InitInv(start);
    RunInv(Init(start), events);
  }

  /** Calls that all succeed, in any order, never open the breaker, so none is rejected. */
  lemma {:induction false} SuccessesKeepClosed(b: Breaker, events: seq<Event>)
    requires b.phase.Closed? && Runs(b, events)
    requires forall i :: 0 <= i < |events| && events[i].Complete? ==> events[i].success
    ensures Exec(b, events).phase.Closed? && !Rejects(Exec(b, events))
    decreases |events|
  {
    if events != [] {
      SuccessesKeepClosed(Apply(b, events[0]), events[1..]);
    }
  }

  // ---------------------------------------------------------------------------------------
  // When the breaker changes its state, in whole numbers
  // ---------------------------------------------------------------------------------------

  /** The call is running and was admitted in the current generation. */
  predicate IsCurrent(b: Breaker, c: nat) { c < |b.tickets| && b.tickets[c] == Some(b.generation) }

  /** A failure counted by a closed breaker opens it if and only if, with that failure, there are
      at least 20 requests and at least 15 percent of them failed; otherwise it is counted. */
  lemma TripsIff(b: Breaker, c: nat)
    requires b.phase.Closed? && IsCurrent(b, c)
    ensures
      var t := Apply(b, Complete(c, false));
      && (t.phase.Open? <==> b.counts.requests >= 20 && 20 * (b.counts.totalFailures + 1) >= 3 * b.counts.requests)
      && (!t.phase.Open? ==>
            && t.phase.Closed? && t.generation == b.generation && t.counts.requests == b.counts.requests
            && t.counts.totalFailures == b.counts.totalFailures + 1 && t.counts.totalSuccesses == b.counts.totalSuccesses)
  {
    ThresholdInIntegers(CountFailure(b.counts));
  }

  /** A success counted by a closed breaker is counted, and no more. */
  lemma ClosedSuccess(b: Breaker, c: nat)
    requires b.phase.Closed? && IsCurrent(b, c)
    ensures
      var t := Apply(b, Complete(c, true));
      && t.phase.Closed? && t.generation == b.generation && t.counts.requests == b.counts.requests
      && t.counts.totalSuccesses == b.counts.totalSuccesses + 1 && t.counts.totalFailures == b.counts.totalFailures
  {
  }

  /** Any failure counted by a half-open breaker opens it; a success closes it if and only if it
      is the fifth in a row. */
  lemma HalfOpenDecides(b: Breaker, c: nat)
    requires Inv(b) && b.phase.HalfOpen? && IsCurrent(b, c)
    ensures Apply(b, Complete(c, false)).phase.Open?
    ensures Apply(b, Complete(c, true)).phase.Closed? <==> b.counts.consecutiveSuccesses + 1 == 5
    ensures !Apply(b, Complete(c, true)).phase.Closed? ==>
      && Apply(b, Complete(c, true)).phase.HalfOpen?
      && Apply(b, Complete(c, true)).counts.consecutiveSuccesses == b.counts.consecutiveSuccesses + 1
  {
  }

  /** A call admitted in an earlier generation completes without being counted. */
  lemma StaleCompletion(b: Breaker, c: nat, success: bool)
    requires Enabled(b, Complete(c, success)) && !IsCurrent(b, c)
    ensures Apply(b, Complete(c, success)) == b.(tickets := b.tickets[c := None])
  {
  }

  /** Who is admitted: everyone while it is closed, nobody while it is open, and five calls of each
      half-open generation. An admitted call is counted as a request at once. */
  lemma AdmittedIff(b: Breaker)
    ensures Apply(b, Call).tickets == b.tickets + [Some(b.generation)] <==>
      b.phase.Closed? || (b.phase.HalfOpen? && b.counts.requests < 5)
    ensures Apply(b, Call) == b || Apply(b, Call).counts.requests == b.counts.requests + 1
  {
    if Rejects(b) {
      assert |b.tickets + [Some(b.generation)]| != |b.tickets|;
    }
  }

  /** Entering a state, and each new period of the closed state, starts counting from zero. */
  lemma ResetsCount(b: Breaker)
    ensures b.phase.Closed? ==>
      Apply(b, NewPeriod) == Breaker(Closed, Counts(0, 0, 0, 0, 0), b.generation + 1, b.tickets)
    ensures b.phase.Open? ==>
      Apply(b, CoolDown) == Breaker(HalfOpen, Counts(0, 0, 0, 0, 0), b.generation + 1, b.tickets)
    ensures forall event :: Enabled(b, event) && Apply(b, event).phase != b.phase ==>
      Apply(b, event).counts == Counts(0, 0, 0, 0, 0) && Apply(b, event).generation == b.generation + 1
  {
  }

  /** With n calls since the last reset, never as many as 20 before the next. */
  predicate FewCalls(events: seq<Event>, n: nat)
    decreases |events|
  {
    events == [] ||
    match events[0]
    case Call => n + 1 < 20 && FewCalls(events[1..], n + 1)
    case NewPeriod => FewCalls(events[1..], 0)
    case _ => FewCalls(events[1..], n)
  }

  /** While fewer than 20 calls were admitted since the last reset the breaker stays closed,
      however many of them fail. */
  lemma {:induction false} StaysClosedBelowTwenty(b: Breaker, events: seq<Event>, n: nat)
    requires b.phase.Closed? && b.counts.requests <= n < 20
    requires Runs(b, events) && FewCalls(events, n)
    ensures Exec(b, events).phase.Closed?
    decreases |events|
  {
    if events != [] {
      var m := match events[0] case Call => n + 1 case NewPeriod => 0 case _ => n;
      StaysClosedBelowTwenty(Apply(b, events[0]), events[1..], m);
    }
  }

  /** n calls are admitted one after the other, and all fail. */
  function FailingCalls(done: nat, n: nat): seq<Event>
    decreases n
  {
    if n == 0 then [] else [Call, Complete(done, false)] + FailingCalls(done + 1, n - 1)
  }

  /** From a new breaker, nothing but failures opens it with exactly the twentieth. */
  lemma {:induction false} TwentiethFailureOpens(b: Breaker, done: nat, n: nat)
    requires b.phase.Closed? && |b.tickets| == done && b.counts.requests == b.counts.totalFailures == done
    requires done + n <= 20
    ensures Runs(b, FailingCalls(done, n))
    ensures Exec(b, FailingCalls(done, n)).phase.Open? <==> n > 0 && done + n == 20
    ensures !Exec(b, FailingCalls(done, n)).phase.Open? ==> Exec(b, FailingCalls(done, n)).phase.Closed?
    decreases n
  {
    if n > 0 {
      var admitted := Apply(b, Call);
      var events := FailingCalls(done, n);
      assert events[1..] == [Complete(done, false)] + FailingCalls(done + 1, n - 1);
      assert events[1..][1..] == FailingCalls(done + 1, n - 1);
      TripsIff(admitted, done);
      var failed := Apply(admitted, Complete(done, false));
      if done + 1 < 20 {
        TwentiethFailureOpens(failed, done + 1, n - 1);
      } else {
        assert FailingCalls(done + 1, n - 1) == [] && failed.phase.Open?;
      }
      assert Runs(admitted, events[1..]);
      assert Exec(admitted, events[1..]) == Exec(failed, events[1..][1..]);
    }
  }
}
