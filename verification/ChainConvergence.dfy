/** Convergence of one key once its writes have stopped. */
module ChainConvergence {
  import opened CacheTypes
  import opened Sums
  import opened ChainProtocol

  /** The last layer keeps the value and no write of the key is in progress. */
  ghost predicate Steady(s: State, key: Key, value: Value) {
    && Shaped(s)
    && key in s.layers[|s.layers| - 1] && s.layers[|s.layers| - 1][key] == value
    && NoWriteOf(s, key)
  }

  /** A step that writes nothing under the key, keeps the last layer's entry, and whose reads
      of the key are not rejected as one too many. */
  predicate Quiet(s: State, step: Step, key: Key)
    requires Enabled(s, step)
  {
    match step
    case BeginSet(k, _) => k != key
    case BeginDelete(k) => k != key
    case WriteDirectly(_, k, _) => k != key
    case Forget(layer, k) => k == key ==> layer + 1 < |s.layers|
    case Probe(c, probe) => s.calls[c].key == key ==> !probe.RejectedTooMany?
    case _ => true
  }

  predicate QuietRun(s: State, steps: seq<Step>, key: Key)
    requires Runs(s, steps)
    decreases |steps|
  {
    steps == [] || (Quiet(s, steps[0], key) && QuietRun(Apply(s, steps[0]), steps[1..], key))
  }

  predicate StaleLayer(s: State, i: nat, key: Key, value: Value)
    requires i < |s.layers|
  {
    key in s.layers[i] && s.layers[i][key] != value
  }

  predicate StaleWarmUp(w: WarmUp, key: Key, value: Value) { w.key == key && w.value != value }

  predicate StaleReader(call: Call, key: Key, value: Value) {
    call.Warming? && call.key == key && call.value != value
  }

  /** No warm-up of another value is addressed to layer d or deeper, and no read that still has
      to warm layer d or deeper carries another value. */
  ghost predicate DrainedFrom(s: State, d: nat, key: Key, value: Value) {
    && (forall i, j :: d <= i < |s.pending| && 0 <= j < |s.pending[i]| ==>
          !StaleWarmUp(s.pending[i][j], key, value))
    && (forall c :: 0 <= c < |s.calls| && StaleReader(s.calls[c], key, value) ==> s.calls[c].next <= d)
  }

  ghost predicate LayersCleanFrom(s: State, d: nat, key: Key, value: Value) {
    forall i :: d <= i < |s.layers| ==> !StaleLayer(s, i, key, value)
  }

  /** Every position that carries another value is above layer d. */
  ghost predicate CleanFrom(s: State, d: nat, key: Key, value: Value) {
    LayersCleanFrom(s, d, key, value) && DrainedFrom(s, d, key, value)
  }

  lemma StepSteady(s: State, step: Step, key: Key, value: Value)
    requires Steady(s, key, value) && Enabled(s, step) && Quiet(s, step, key)
    ensures Steady(Apply(s, step), key, value)
  {
    StepShaped(s, step);
    if step.Visit? {
      assert !WriteOf(s.calls[step.c], key);
    }
  }

  /** Warm-ups and readers drained from depth d stay drained while the layers below d are clean. */
  lemma StepDrained(s: State, step: Step, d: nat, key: Key, value: Value)
    requires Steady(s, key, value) && Enabled(s, step) && Quiet(s, step, key)
    requires LayersCleanFrom(s, d + 1, key, value) && DrainedFrom(s, d, key, value)
    ensures DrainedFrom(Apply(s, step), d, key, value)
  {
    var t := Apply(s, step);
    forall i, j | d <= i < |t.pending| && 0 <= j < |t.pending[i]|
      ensures !StaleWarmUp(t.pending[i][j], key, value)
    {
      PendingAfter(s, step, i, j);
      if step.Offer? {
        assert StaleReader(s.calls[step.c], key, value) ==> s.calls[step.c].next <= d;
      }
    }
    forall c | 0 <= c < |t.calls| && StaleReader(t.calls[c], key, value)
      ensures t.calls[c].next <= d
    {
      assert c < |s.calls|;
      if step.Probe? && step.c == c {
        assert StaleLayer(s, s.calls[c].next, key, value);
      } else {
        assert StaleReader(s.calls[c], key, value);
      }
    }
  }

  lemma StepLayersClean(s: State, step: Step, d: nat, key: Key, value: Value)
    requires Steady(s, key, value) && Enabled(s, step) && Quiet(s, step, key)
    requires CleanFrom(s, d, key, value)
    ensures LayersCleanFrom(Apply(s, step), d, key, value)
  {
    var t := Apply(s, step);
    forall i | d <= i < |t.layers|
      ensures !StaleLayer(t, i, key, value)
    {
      assert !StaleLayer(s, i, key, value);
      if step.Visit? {
        assert !WriteOf(s.calls[step.c], key);
      } else if step.ApplyWarmUp? && step.layer == i {
        assert !StaleWarmUp(s.pending[i][step.j], key, value);
      }
    }
  }

  /** The deepest position carrying another value never gets deeper. */
  lemma {:induction false} NeverDeeper(s: State, steps: seq<Step>, d: nat, key: Key, value: Value)
    requires Steady(s, key, value) && Runs(s, steps) && QuietRun(s, steps, key)
    requires CleanFrom(s, d, key, value)
    ensures Steady(Exec(s, steps), key, value) && CleanFrom(Exec(s, steps), d, key, value)
    decreases |steps|
  {
    if steps != [] {
      StepSteady(s, steps[0], key, value);
      StepDrained(s, steps[0], d, key, value);
      StepLayersClean(s, steps[0], d, key, value);
      NeverDeeper(Apply(s, steps[0]), steps[1..], d, key, value);
    }
  }

  /** Once depth d has been drained, losing or replacing layer d's entry moves the deepest
      position that carries another value above d. */
  lemma ClearingMovesUp(s: State, step: Step, d: nat, key: Key, value: Value)
    requires Steady(s, key, value) && Enabled(s, step) && Quiet(s, step, key)
    requires LayersCleanFrom(s, d + 1, key, value) && DrainedFrom(s, d, key, value)
    requires Clears(s, step, d, key, value)
    ensures Steady(Apply(s, step), key, value) && CleanFrom(Apply(s, step), d, key, value)
  {
    var t := Apply(s, step);
    StepSteady(s, step, key, value);
    StepDrained(s, step, d, key, value);
    forall i | d <= i < |t.layers|
      ensures !StaleLayer(t, i, key, value)
    {
      if i > d {
        assert !StaleLayer(s, i, key, value);
      }
    }
  }

  /** Layer d's entry for the key expires, or is overwritten by a warm-up of the value. */
  predicate Clears(s: State, step: Step, d: nat, key: Key, value: Value)
    requires Enabled(s, step)
  {
    || step == Forget(d, key)
    || (step.ApplyWarmUp? && step.layer == d && step.applied &&
        s.pending[d][step.j] == WarmUp(key, value))
  }

  /** The last layer is never a stale position, nor the target of a stale warm-up. */
  lemma LastLayerIsClean(s: State, key: Key, value: Value)
    requires Steady(s, key, value)
    ensures CleanFrom(s, |s.layers| - 1, key, value)
  {
    forall c | 0 <= c < |s.calls| && StaleReader(s.calls[c], key, value)
      ensures s.calls[c].next <= |s.layers| - 1
    {
      assert CallShaped(s.calls[c], |s.layers|);
    }
  }

  // How much stale business is left at the deepest stale depth: it only ever shrinks, and
  // every event on it shrinks it, so it drains after boundedly many such events.

  function ReaderWeight(d: nat, key: Key, value: Value): Call -> nat {
    (call: Call) => if StaleReader(call, key, value) && call.next == d + 1 then 3 else 0
  }

  function WarmUpWeight(key: Key, value: Value): WarmUp -> nat {
    (w: WarmUp) => if StaleWarmUp(w, key, value) then 2 else 0
  }

  function StaleBusiness(s: State, d: nat, key: Key, value: Value): nat
    requires d < |s.layers| && d < |s.pending|
  {
    Sum(s.calls, ReaderWeight(d, key, value)) + Sum(s.pending[d], WarmUpWeight(key, value))
      + if StaleLayer(s, d, key, value) then 1 else 0
  }

  /** A stale reader at depth d offers its value, a stale warm-up of layer d is applied or
      fails, or layer d's stale entry is lost or replaced by the value. */
  predicate ActsAt(s: State, step: Step, d: nat, key: Key, value: Value)
    requires Enabled(s, step) && d < |s.layers| && d < |s.pending|
  {
    || (step.Offer? && StaleReader(s.calls[step.c], key, value) && s.calls[step.c].next == d + 1)
    || (step.ApplyWarmUp? && step.layer == d && StaleWarmUp(s.pending[d][step.j], key, value))
    || (StaleLayer(s, d, key, value) && Clears(s, step, d, key, value))
  }

  lemma OfferShrinks(s: State, c: nat, accepted: bool, d: nat, key: Key, value: Value)
    requires Steady(s, key, value) && Enabled(s, Offer(c, accepted))
    requires d < |s.layers| && CleanFrom(s, d + 1, key, value)
    ensures
      var t := Apply(s, Offer(c, accepted));
      var acted := if ActsAt(s, Offer(c, accepted), d, key, value) then 1 else 0;
      StaleBusiness(t, d, key, value) + acted <= StaleBusiness(s, d, key, value)
  {
    var t := Apply(s, Offer(c, accepted));
    SumUpdate(s.calls, c, t.calls[c], ReaderWeight(d, key, value));
    assert StaleReader(s.calls[c], key, value) ==> s.calls[c].next <= d + 1;
    if accepted && s.calls[c].next == d + 1 {
      SumPush(s.pending[d], WarmUp(s.calls[c].key, s.calls[c].value), WarmUpWeight(key, value));
    } else {
      assert t.pending[d] == s.pending[d];
    }
  }

  lemma ApplyShrinks(s: State, i: nat, j: nat, applied: bool, d: nat, key: Key, value: Value)
    requires Steady(s, key, value) && Enabled(s, ApplyWarmUp(i, j, applied)) && d < |s.layers|
    ensures
      var t := Apply(s, ApplyWarmUp(i, j, applied));
      var acted := if ActsAt(s, ApplyWarmUp(i, j, applied), d, key, value) then 1 else 0;
      StaleBusiness(t, d, key, value) + acted <= StaleBusiness(s, d, key, value)
  {
    if i == d {
      SumRemove(s.pending[d], j, WarmUpWeight(key, value));
    }
  }

  lemma ProbeShrinks(s: State, c: nat, probe: Probe, d: nat, key: Key, value: Value)
    requires Steady(s, key, value) && Enabled(s, Step.Probe(c, probe)) && Quiet(s, Step.Probe(c, probe), key)
    requires d < |s.layers| && CleanFrom(s, d + 1, key, value)
    ensures StaleBusiness(Apply(s, Step.Probe(c, probe)), d, key, value) <= StaleBusiness(s, d, key, value)
  {
    var t := Apply(s, Step.Probe(c, probe));
    SumUpdate(s.calls, c, t.calls[c], ReaderWeight(d, key, value));
    assert StaleLayer(s, s.calls[c].next, key, value) ==> s.calls[c].next < d + 1;
  }

  lemma StaleBusinessShrinks(s: State, step: Step, d: nat, key: Key, value: Value)
    requires Steady(s, key, value) && Enabled(s, step) && Quiet(s, step, key)
    requires d < |s.layers| && CleanFrom(s, d + 1, key, value)
    ensures
      var acted := if ActsAt(s, step, d, key, value) then 1 else 0;
      StaleBusiness(Apply(s, step), d, key, value) + acted <= StaleBusiness(s, d, key, value)
  {
    var t := Apply(s, step);
    var rw := ReaderWeight(d, key, value);
    match step {
      case BeginGet(_) => SumPush(s.calls, t.calls[|s.calls|], rw);
      case BeginSet(_, _) => SumPush(s.calls, t.calls[|s.calls|], rw);
      case BeginDelete(_) => SumPush(s.calls, t.calls[|s.calls|], rw);
      case Probe(c, probe) => ProbeShrinks(s, c, probe, d, key, value);
      case Offer(c, accepted) => OfferShrinks(s, c, accepted, d, key, value);
      case Visit(c, _, _) =>
        SumUpdate(s.calls, c, t.calls[c], rw);
        assert !WriteOf(s.calls[c], key);
      case Abort(c) => SumUpdate(s.calls, c, t.calls[c], rw);
      case ApplyWarmUp(i, j, applied) => ApplyShrinks(s, i, j, applied, d, key, value);
      case _ =>
    }
  }

  function EventsAt(s: State, steps: seq<Step>, d: nat, key: Key, value: Value): nat
    requires Shaped(s) && Runs(s, steps) && d < |s.layers|
    decreases |steps|
  {
    if steps == [] then 0
    else
      StepShaped(s, steps[0]);
      (if ActsAt(s, steps[0], d, key, value) then 1 else 0)
        + EventsAt(Apply(s, steps[0]), steps[1..], d, key, value)
  }

  /** At the deepest stale depth a quiet run sees at most StaleBusiness events; when that many
      have happened, or none is left, the depth is clean and the deepest position is higher. */
  lemma {:induction false} StaleBusinessDrains(s: State, steps: seq<Step>, d: nat, key: Key, value: Value)
    requires Steady(s, key, value) && Runs(s, steps) && QuietRun(s, steps, key)
    requires d < |s.layers| && CleanFrom(s, d + 1, key, value)
    ensures Steady(Exec(s, steps), key, value) && |Exec(s, steps).layers| == |s.layers|
    ensures EventsAt(s, steps, d, key, value) + StaleBusiness(Exec(s, steps), d, key, value)
            <= StaleBusiness(s, d, key, value)
    ensures StaleBusiness(Exec(s, steps), d, key, value) == 0 ==> CleanFrom(Exec(s, steps), d, key, value)
    decreases |steps|
  {
    if steps == [] {
      if StaleBusiness(s, d, key, value) == 0 {
        NoBusinessIsClean(s, d, key, value);
      }
    } else {
      StaleBusinessShrinks(s, steps[0], d, key, value);
      StepSteady(s, steps[0], key, value);
      StepDrained(s, steps[0], d + 1, key, value);
      StepLayersClean(s, steps[0], d + 1, key, value);
      StaleBusinessDrains(Apply(s, steps[0]), steps[1..], d, key, value);
    }
  }

  lemma NoBusinessIsClean(s: State, d: nat, key: Key, value: Value)
    requires Steady(s, key, value) && d < |s.layers| && CleanFrom(s, d + 1, key, value)
    requires StaleBusiness(s, d, key, value) == 0
    ensures CleanFrom(s, d, key, value)
  {
    forall i, j | d <= i < |s.pending| && 0 <= j < |s.pending[i]|
      ensures !StaleWarmUp(s.pending[i][j], key, value)
    {
      if i == d {
        SumAtLeast(s.pending[d], j, WarmUpWeight(key, value));
      }
    }
    forall c | 0 <= c < |s.calls| && StaleReader(s.calls[c], key, value)
      ensures s.calls[c].next <= d
    {
      SumAtLeast(s.calls, c, ReaderWeight(d, key, value));
    }
  }

  // ---------------------------------------------------------------------------------------
  // Every fair run converges
  // ---------------------------------------------------------------------------------------

  lemma CleanUpward(s: State, d: nat, e: nat, key: Key, value: Value)
    requires CleanFrom(s, d, key, value) && d <= e
    ensures CleanFrom(s, e, key, value)
  {
  }

  /** The smallest depth, at most d, from which on everything is clean. */
  ghost function DepthUpTo(s: State, d: nat, key: Key, value: Value): (r: nat)
    requires CleanFrom(s, d, key, value)
    ensures r <= d && CleanFrom(s, r, key, value)
    ensures r > 0 ==> !CleanFrom(s, r - 1, key, value)
  {
    if d > 0 && CleanFrom(s, d - 1, key, value) then DepthUpTo(s, d - 1, key, value) else d
  }

  /** How many layers, from the top, reach down to the deepest position that carries another
      value. At zero nothing does. */
  ghost function Depth(s: State, key: Key, value: Value): (d: nat)
    requires Steady(s, key, value)
    ensures d < |s.layers| && CleanFrom(s, d, key, value)
    ensures d > 0 ==> !CleanFrom(s, d - 1, key, value)
  {
    LastLayerIsClean(s, key, value);
    DepthUpTo(s, |s.layers| - 1, key, value)
  }

  lemma DepthIsLeast(s: State, d: nat, key: Key, value: Value)
    requires Steady(s, key, value) && CleanFrom(s, d, key, value)
    ensures Depth(s, key, value) <= d
  {
    if d < Depth(s, key, value) {
      CleanUpward(s, d, Depth(s, key, value) - 1, key, value);
    }
  }

  /** The stale business at the deepest stale depth. */
  ghost function Business(s: State, key: Key, value: Value): nat
    requires Steady(s, key, value)
  {
    var d := Depth(s, key, value);
    if d == 0 then 0 else StaleBusiness(s, d - 1, key, value)
  }

  /** The step is an event at the deepest stale depth. */
  ghost predicate ActsAtDeepest(s: State, step: Step, key: Key, value: Value)
    requires Steady(s, key, value) && Enabled(s, step)
  {
    Depth(s, key, value) > 0 && ActsAt(s, step, Depth(s, key, value) - 1, key, value)
  }

  /** Any quiet step leaves the deepest stale depth and the business there no greater, in
      lexicographic order, and an event at that depth makes the pair smaller. */
  lemma StepTowardConvergence(s: State, step: Step, key: Key, value: Value)
    requires Steady(s, key, value) && Enabled(s, step) && Quiet(s, step, key)
    ensures Steady(Apply(s, step), key, value)
    ensures Depth(Apply(s, step), key, value) <= Depth(s, key, value)
    ensures Depth(Apply(s, step), key, value) == Depth(s, key, value) ==>
      Business(Apply(s, step), key, value) + (if ActsAtDeepest(s, step, key, value) then 1 else 0)
        <= Business(s, key, value)
  {
    var d, t := Depth(s, key, value), Apply(s, step);
    StepSteady(s, step, key, value);
    StepDrained(s, step, d, key, value);
    StepLayersClean(s, step, d, key, value);
    DepthIsLeast(t, d, key, value);
    if d > 0 {
      StaleBusinessShrinks(s, step, d - 1, key, value);
    }
  }

  /** Until everything is clean an event at the deepest stale depth is possible. */
  lemma Progress(s: State, key: Key, value: Value) returns (step: Step)
    requires Steady(s, key, value) && Depth(s, key, value) > 0
    ensures Enabled(s, step) && Quiet(s, step, key) && ActsAtDeepest(s, step, key, value)
  {
    var d := Depth(s, key, value) - 1;
    if StaleLayer(s, d, key, value) {
      step := Forget(d, key);
    } else if j: nat :| j < |s.pending[d]| && StaleWarmUp(s.pending[d][j], key, value) {
      step := ApplyWarmUp(d, j, true);
    } else {
      assert LayersCleanFrom(s, d, key, value);
      assert forall i, j :: d + 1 <= i < |s.pending| && 0 <= j < |s.pending[i]| ==>
        !StaleWarmUp(s.pending[i][j], key, value);
      var c: nat :| c < |s.calls| && StaleReader(s.calls[c], key, value) && s.calls[c].next > d;
      step := Offer(c, true);
    }
  }

  /** From any steady state some quiet run reaches a state in which nothing is stale. */
  lemma {:induction false} CanConverge(s: State, key: Key, value: Value) returns (steps: seq<Step>)
    requires Steady(s, key, value)
    ensures Runs(s, steps) && QuietRun(s, steps, key)
    ensures Steady(Exec(s, steps), key, value) && CleanFrom(Exec(s, steps), 0, key, value)
    decreases Depth(s, key, value), Business(s, key, value)
  {
    steps := [];
    if Depth(s, key, value) > 0 {
      var step := Progress(s, key, value);
      StepTowardConvergence(s, step, key, value);
      var rest := CanConverge(Apply(s, step), key, value);
      steps := [step] + rest;
      assert steps[1..] == rest;
    }
  }

  /** An infinite quiet run: its states and the step taken in each. */
  ghost predicate IsQuietRun(states: nat -> State, steps: nat -> Step, key: Key) {
    forall i: nat ::
      && Enabled(states(i), steps(i)) && Quiet(states(i), steps(i), key)
      && states(i + 1) == Apply(states(i), steps(i))
  }

  /** At time i nothing is stale, or an event happens at the deepest stale depth. */
  ghost predicate Settles(states: nat -> State, steps: nat -> Step, i: nat, key: Key, value: Value)
    requires IsQuietRun(states, steps, key)
  {
    Steady(states(i), key, value) &&
    (Depth(states(i), key, value) == 0 || ActsAtDeepest(states(i), steps(i), key, value))
  }

  /** What is stale at the deepest depth does not stay there untouched for ever. */
  ghost predicate Fair(states: nat -> State, steps: nat -> Step, key: Key, value: Value)
    requires IsQuietRun(states, steps, key)
  {
    forall i: nat :: SettlesAfter(states, steps, i, key, value)
  }

  ghost predicate SettlesAfter(states: nat -> State, steps: nat -> Step, i: nat, key: Key, value: Value)
    requires IsQuietRun(states, steps, key)
  {
    exists j: nat :: i <= j && Settles(states, steps, j, key, value)
  }

  lemma {:induction false} MeasureNeverGrows(states: nat -> State, steps: nat -> Step, i: nat, j: nat, key: Key, value: Value)
    requires IsQuietRun(states, steps, key) && Steady(states(i), key, value) && i <= j
    ensures Steady(states(j), key, value)
    ensures Depth(states(j), key, value) <= Depth(states(i), key, value)
    ensures Depth(states(j), key, value) == Depth(states(i), key, value) ==>
      Business(states(j), key, value) <= Business(states(i), key, value)
    decreases j - i
  {
    if i < j {
      StepTowardConvergence(states(i), steps(i), key, value);
      MeasureNeverGrows(states, steps, i + 1, j, key, value);
    }
  }

  lemma {:induction false} EventuallyClean(states: nat -> State, steps: nat -> Step, i: nat, key: Key, value: Value) returns (n: nat)
    requires IsQuietRun(states, steps, key) && Fair(states, steps, key, value) && Steady(states(i), key, value)
    ensures i <= n && Steady(states(n), key, value) && Depth(states(n), key, value) == 0
    decreases Depth(states(i), key, value), Business(states(i), key, value)
  {
    assert SettlesAfter(states, steps, i, key, value);
    var j: nat :| i <= j && Settles(states, steps, j, key, value);
    MeasureNeverGrows(states, steps, i, j, key, value);
    if Depth(states(j), key, value) == 0 {
      n := j;
    } else {
      StepTowardConvergence(states(j), steps(j), key, value);
      n := EventuallyClean(states, steps, j + 1, key, value);
    }
  }

  /** Every layer that holds the key, and everything in flight, carries the value. */
  ghost predicate Converged(s: State, key: Key, value: Value) {
    && (forall i :: 0 <= i < |s.layers| && key in s.layers[i] ==> s.layers[i][key] == value)
    && (forall i, j :: 0 <= i < |s.pending| && 0 <= j < |s.pending[i]| && s.pending[i][j].key == key ==>
          s.pending[i][j].value == value)
    && (forall c :: 0 <= c < |s.calls| && s.calls[c].Warming? && s.calls[c].key == key ==>
          s.calls[c].value == value)
  }

  lemma CleanIsConverged(s: State, key: Key, value: Value)
    requires Steady(s, key, value)
    ensures CleanFrom(s, 0, key, value) <==> Converged(s, key, value)
  {
    if CleanFrom(s, 0, key, value) {
      forall i | 0 <= i < |s.layers| && key in s.layers[i]
        ensures s.layers[i][key] == value
      {
        assert !StaleLayer(s, i, key, value);
      }
      forall i, j | 0 <= i < |s.pending| && 0 <= j < |s.pending[i]| && s.pending[i][j].key == key
        ensures s.pending[i][j].value == value
      {
        assert !StaleWarmUp(s.pending[i][j], key, value);
      }
      forall c | 0 <= c < |s.calls| && s.calls[c].Warming? && s.calls[c].key == key
        ensures s.calls[c].value == value
      {
        assert CallShaped(s.calls[c], |s.layers|) && !StaleReader(s.calls[c], key, value);
      }
    }
  }

  /** Convergence. From any state, whatever stale copies it holds: once writes of the key have
      stopped and the last layer keeps the value, every run in which stale items at the deepest
      depth are not left alone for ever reaches a point after which every layer that holds the
      key holds the value, and so does everything in flight. */
  lemma Convergence(states: nat -> State, steps: nat -> Step, key: Key, value: Value) returns (n: nat)
    requires IsQuietRun(states, steps, key) && Fair(states, steps, key, value)
    requires Steady(states(0), key, value)
    ensures forall m: nat :: n <= m ==> Converged(states(m), key, value)
  {
    n := EventuallyClean(states, steps, 0, key, value);
    forall m: nat | n <= m
      ensures Converged(states(m), key, value)
    {
      MeasureNeverGrows(states, steps, n, m, key, value);
      CleanIsConverged(states(m), key, value);
    }
  }

  // ---------------------------------------------------------------------------------------
  // A run that serves every stale item is fair
  // ---------------------------------------------------------------------------------------

  /** A warm-up like this one leaves layer i's writer, applied or not. */
  predicate ServesWarmUp(s: State, step: Step, i: nat, w: WarmUp)
    requires Enabled(s, step)
  {
    step.ApplyWarmUp? && step.layer == i && s.pending[i][step.j] == w
  }

  /** Layer i's entry for the key is lost or overwritten. */
  predicate ServesEntry(s: State, step: Step, i: nat, key: Key)
    requires Enabled(s, step)
  {
    || step == Forget(i, key)
    || (step.ApplyWarmUp? && step.layer == i && step.applied && s.pending[i][step.j].key == key)
  }

  predicate IsOfferOf(step: Step, c: nat) { step.Offer? && step.c == c }

  ghost predicate WarmUpServed(states: nat -> State, steps: nat -> Step, n: nat, i: nat, w: WarmUp)
  {
    exists m: nat :: n <= m && Enabled(states(m), steps(m)) && ServesWarmUp(states(m), steps(m), i, w)
  }

  ghost predicate ReaderServed(steps: nat -> Step, n: nat, c: nat) {
    exists m: nat :: n <= m && IsOfferOf(steps(m), c)
  }

  ghost predicate EntryServed(states: nat -> State, steps: nat -> Step, n: nat, i: nat, key: Key) {
    exists m: nat :: n <= m && Enabled(states(m), steps(m)) && ServesEntry(states(m), steps(m), i, key)
  }

  /** Each stale warm-up is some time processed, each stale reader makes its next offer, and each
      stale entry expires or is replaced. */
  ghost predicate ServesEach(states: nat -> State, steps: nat -> Step, key: Key, value: Value) {
    && (forall n: nat, i: nat, w: WarmUp | i < |states(n).pending| && w in states(n).pending[i] && StaleWarmUp(w, key, value) ::
          WarmUpServed(states, steps, n, i, w))
    && (forall n: nat, c: nat | c < |states(n).calls| && StaleReader(states(n).calls[c], key, value) ::
          ReaderServed(steps, n, c))
    && (forall n: nat, i: nat | i < |states(n).layers| && StaleLayer(states(n), i, key, value) ::
          EntryServed(states, steps, n, i, key))
  }

  /** Nobody but the reader itself moves it. */
  lemma ReaderWaits(s: State, step: Step, c: nat)
    requires Enabled(s, step) && c < |s.calls| && s.calls[c].Warming? && !IsOfferOf(step, c)
    ensures c < |Apply(s, step).calls| && Apply(s, step).calls[c] == s.calls[c]
  {
  }

  lemma {:induction false} FirstOffer(states: nat -> State, steps: nat -> Step, n: nat, m: nat, c: nat, key: Key) returns (first: nat)
    requires IsQuietRun(states, steps, key) && n <= m && IsOfferOf(steps(m), c)
    requires c < |states(n).calls| && states(n).calls[c].Warming?
    ensures n <= first <= m && IsOfferOf(steps(first), c)
    ensures c < |states(first).calls| && states(first).calls[c] == states(n).calls[c]
    decreases m - n
  {
    first := n;
    if !IsOfferOf(steps(n), c) {
      ReaderWaits(states(n), steps(n), c);
      first := FirstOffer(states, steps, n + 1, m, c, key);
    }
  }

  /** Only expiry and warm-ups change the entry once writes have stopped. */
  lemma EntryWaits(s: State, step: Step, i: nat, key: Key, value: Value)
    requires Steady(s, key, value) && Enabled(s, step) && Quiet(s, step, key)
    requires i < |s.layers| && StaleLayer(s, i, key, value) && !ServesEntry(s, step, i, key)
    ensures i < |Apply(s, step).layers| && StaleLayer(Apply(s, step), i, key, value)
  {
    if step.Visit? {
      assert !WriteOf(s.calls[step.c], key);
    }
  }

  lemma {:induction false} FirstChange(states: nat -> State, steps: nat -> Step, n: nat, m: nat, i: nat, key: Key, value: Value)
    returns (first: nat)
    requires IsQuietRun(states, steps, key) && Steady(states(n), key, value) && n <= m
    requires Enabled(states(m), steps(m)) && ServesEntry(states(m), steps(m), i, key)
    requires i < |states(n).layers| && StaleLayer(states(n), i, key, value)
    ensures n <= first <= m && Enabled(states(first), steps(first)) && ServesEntry(states(first), steps(first), i, key)
    ensures i < |states(first).layers| && StaleLayer(states(first), i, key, value)
    decreases m - n
  {
    first := n;
    assert Enabled(states(n), steps(n)) && Quiet(states(n), steps(n), key);
    if !ServesEntry(states(n), steps(n), i, key) {
      EntryWaits(states(n), steps(n), i, key, value);
      StepSteady(states(n), steps(n), key, value);
      first := FirstChange(states, steps, n + 1, m, i, key, value);
    }
  }

  /** What keeps depth d from being clean. */
  lemma DeepestItem(s: State, key: Key, value: Value) returns (c: int, j: int)
    requires Steady(s, key, value) && Depth(s, key, value) > 0
    ensures
      var d := Depth(s, key, value) - 1;
      && d < |s.layers| == |s.pending|
      && (|| StaleLayer(s, d, key, value)
          || (0 <= j < |s.pending[d]| && StaleWarmUp(s.pending[d][j], key, value))
          || (0 <= c < |s.calls| && StaleReader(s.calls[c], key, value) && s.calls[c].next == d + 1))
  {
    var d := Depth(s, key, value) - 1;
    c, j := -1, -1;
    if StaleLayer(s, d, key, value) {
    } else if q :| 0 <= q < |s.pending[d]| && StaleWarmUp(s.pending[d][q], key, value) {
      j := q;
    } else {
      assert LayersCleanFrom(s, d, key, value);
      assert forall i, j :: d + 1 <= i < |s.pending| && 0 <= j < |s.pending[i]| ==>
        !StaleWarmUp(s.pending[i][j], key, value);
      c :| 0 <= c < |s.calls| && StaleReader(s.calls[c], key, value) && s.calls[c].next > d;
    }
  }

  /** At time m there is an event at depth d. */
  ghost predicate EventAt(states: nat -> State, steps: nat -> Step, m: nat, d: nat, key: Key, value: Value) {
    var s := states(m);
    && Enabled(s, steps(m)) && d < |s.layers| == |s.pending|
    && ActsAt(s, steps(m), d, key, value)
  }

  lemma EntryEvent(states: nat -> State, steps: nat -> Step, n: nat, d: nat, key: Key, value: Value) returns (m: nat)
    requires IsQuietRun(states, steps, key) && ServesEach(states, steps, key, value) && Steady(states(n), key, value)
    requires d < |states(n).layers| && StaleLayer(states(n), d, key, value)
    ensures n <= m && EventAt(states, steps, m, d, key, value)
  {
    assert EntryServed(states, steps, n, d, key);
    var later: nat :| n <= later && Enabled(states(later), steps(later)) && ServesEntry(states(later), steps(later), d, key);
    m := FirstChange(states, steps, n, later, d, key, value);
    SteadyStays(states, steps, n, m, key, value);
  }

  lemma WarmUpEvent(states: nat -> State, steps: nat -> Step, n: nat, d: nat, j: nat, key: Key, value: Value) returns (m: nat)
    requires IsQuietRun(states, steps, key) && ServesEach(states, steps, key, value) && Steady(states(n), key, value)
    requires d < |states(n).pending| && j < |states(n).pending[d]| && StaleWarmUp(states(n).pending[d][j], key, value)
    ensures n <= m && EventAt(states, steps, m, d, key, value)
  {
    var w := states(n).pending[d][j];
    assert w in states(n).pending[d];
    assert WarmUpServed(states, steps, n, d, w);
    m :| n <= m && Enabled(states(m), steps(m)) && ServesWarmUp(states(m), steps(m), d, w);
    SteadyStays(states, steps, n, m, key, value);
  }

  lemma ReaderEvent(states: nat -> State, steps: nat -> Step, n: nat, c: nat, key: Key, value: Value) returns (m: nat)
    requires IsQuietRun(states, steps, key) && ServesEach(states, steps, key, value) && Steady(states(n), key, value)
    requires c < |states(n).calls| && StaleReader(states(n).calls[c], key, value) && states(n).calls[c].next > 0
    ensures n <= m && EventAt(states, steps, m, states(n).calls[c].next - 1, key, value)
  {
    assert ReaderServed(steps, n, c);
    var later: nat :| n <= later && IsOfferOf(steps(later), c);
    m := FirstOffer(states, steps, n, later, c, key);
    SteadyStays(states, steps, n, m, key, value);
    assert Enabled(states(m), steps(m)) && CallShaped(states(m).calls[c], |states(m).layers|);
  }

  /** The deepest stale item is served some time. */
  lemma DeepestIsServed(states: nat -> State, steps: nat -> Step, n: nat, key: Key, value: Value) returns (m: nat)
    requires IsQuietRun(states, steps, key) && ServesEach(states, steps, key, value)
    requires Steady(states(n), key, value) && Depth(states(n), key, value) > 0
    ensures n <= m && EventAt(states, steps, m, Depth(states(n), key, value) - 1, key, value)
  {
    var s, d := states(n), Depth(states(n), key, value) - 1;
    var c, j := DeepestItem(s, key, value);
    if StaleLayer(s, d, key, value) {
      m := EntryEvent(states, steps, n, d, key, value);
    } else if 0 <= j < |s.pending[d]| && StaleWarmUp(s.pending[d][j], key, value) {
      m := WarmUpEvent(states, steps, n, d, j, key, value);
    } else {
      m := ReaderEvent(states, steps, n, c, key, value);
    }
  }

  lemma {:induction false} SteadyStays(states: nat -> State, steps: nat -> Step, n: nat, m: nat, key: Key, value: Value)
    requires IsQuietRun(states, steps, key) && Steady(states(n), key, value) && n <= m
    ensures Steady(states(m), key, value) && |states(m).layers| == |states(n).layers|
    decreases m - n
  {
    if n < m {
      StepSteady(states(n), steps(n), key, value);
      SteadyStays(states, steps, n + 1, m, key, value);
    }
  }

  lemma DeepestEventSettles(states: nat -> State, steps: nat -> Step, m: nat, d: nat, key: Key, value: Value)
    requires IsQuietRun(states, steps, key) && Steady(states(m), key, value)
    requires EventAt(states, steps, m, d, key, value) && Depth(states(m), key, value) == d + 1
    ensures Settles(states, steps, m, key, value)
  {
  }

  lemma DepthOnlyFalls(states: nat -> State, steps: nat -> Step, n: nat, m: nat, key: Key, value: Value)
    requires IsQuietRun(states, steps, key) && Steady(states(n), key, value) && n <= m
    ensures Steady(states(m), key, value) && Depth(states(m), key, value) <= Depth(states(n), key, value)
  {
    MeasureNeverGrows(states, steps, n, m, key, value);
  }

  lemma CleanSettles(states: nat -> State, steps: nat -> Step, n: nat, key: Key, value: Value)
    requires IsQuietRun(states, steps, key) && Steady(states(n), key, value) && Depth(states(n), key, value) == 0
    ensures Settles(states, steps, n, key, value)
  {
  }

  lemma {:induction false} ServedSettles(states: nat -> State, steps: nat -> Step, n: nat, d: nat, key: Key, value: Value)
    returns (j: nat)
    requires IsQuietRun(states, steps, key) && ServesEach(states, steps, key, value)
    requires Steady(states(n), key, value) && Depth(states(n), key, value) == d
    ensures n <= j && Settles(states, steps, j, key, value)
    decreases d
  {
    if d == 0 {
      CleanSettles(states, steps, n, key, value);
      j := n;
    } else {
      j := DeepestIsServed(states, steps, n, key, value);
      DepthOnlyFalls(states, steps, n, j, key, value);
      var d' := Depth(states(j), key, value);
      if d' == d {
        DeepestEventSettles(states, steps, j, d - 1, key, value);
      } else {
        j := ServedSettles(states, steps, j, d', key, value);
      }
    }
  }

  /** Fairness to the stale items, each on its own, is fairness at the deepest depth. */
  lemma ServedIsFair(states: nat -> State, steps: nat -> Step, key: Key, value: Value)
    requires IsQuietRun(states, steps, key) && ServesEach(states, steps, key, value) && Steady(states(0), key, value)
    ensures Fair(states, steps, key, value)
  {
    forall n: nat
      ensures SettlesAfter(states, steps, n, key, value)
    {
      DepthOnlyFalls(states, steps, 0, n, key, value);
      var j := ServedSettles(states, steps, n, Depth(states(n), key, value), key, value);
    }
  }

  /** Convergence, from fairness to each item: once writes of the key have stopped and the last
      layer keeps the value, if every stale warm-up is some time processed, every stale reader
      goes on, and every stale entry expires or is replaced, then from some point on every layer
      that holds the key holds the value, and so does everything in flight. */
  lemma ConvergenceOfItems(states: nat -> State, steps: nat -> Step, key: Key, value: Value) returns (n: nat)
    requires IsQuietRun(states, steps, key) && ServesEach(states, steps, key, value)
    requires Steady(states(0), key, value)
    ensures forall m: nat :: n <= m ==> Converged(states(m), key, value)
  {
    ServedIsFair(states, steps, key, value);
    n := Convergence(states, steps, key, value);
  }
}
