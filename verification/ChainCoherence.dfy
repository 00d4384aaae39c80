/** Coherence of one key: which reads, warm-ups and writes may overlap without ever leaving two
    layers in disagreement, and that any other overlap can. */
module ChainCoherence {
  import opened CacheTypes
  import opened ChainProtocol

  /** The value of the last write of the key, or none after a removal. */
  function LatestOf(s: State, key: Key): Option<Value> {
    if key in s.latest then Some(s.latest[key]) else None
  }

  /** No layer from the given one on, the first apart, holds another value of the key. */
  ghost predicate MeetsNone(s: State, first: nat, key: Key, target: Option<Value>) {
    forall i: nat :: first <= i < |s.layers| && 0 < i && key in s.layers[i] ==> Some(s.layers[i][key]) == target
  }

  /** The call carries no value of the key but the target, and as a reader cannot come to. A
      reader that meets another value in the first layer returns it and carries it nowhere. */
  ghost predicate CallHarmless(s: State, call: Call, key: Key, target: Option<Value>) {
    match call
    case Probing(k, next) => k == key ==> MeetsNone(s, next, key, target)
    case Warming(k, value, _) => k == key ==> Some(value) == target
    case Setting(k, value, _) => k == key ==> Some(value) == target
    case _ => true
  }

  ghost predicate WarmUpsHarmless(s: State, key: Key, target: Option<Value>) {
    forall i, j :: 0 <= i < |s.pending| && 0 <= j < |s.pending[i]| && s.pending[i][j].key == key ==>
      Some(s.pending[i][j].value) == target
  }

  /** Nothing unfinished can put another value than the target under the key. */
  ghost predicate Harmless(s: State, key: Key, target: Option<Value>) {
    && (forall c :: 0 <= c < |s.calls| ==> CallHarmless(s, s.calls[c], key, target))
    && WarmUpsHarmless(s, key, target)
  }

  /** The hypothesis on the callers and the layers, for one key and one step: a write of the key
      starts only when nothing unfinished can put another value than its own under the key, and
      a read only when no layer but the first holds another value than the latest; layer calls
      inside writes take effect and are not cut short; no read is rejected as one too many, and
      nothing is written to a layer directly. Other keys are unconstrained. */
  ghost predicate Disciplined(s: State, step: Step, key: Key)
    requires Enabled(s, step)
  {
    match step
    case BeginGet(k) => k == key ==> MeetsNone(s, 0, key, LatestOf(s, key))
    case BeginSet(k, value) => k == key ==> Harmless(s, key, Some(value))
    case BeginDelete(k) => k == key ==> Harmless(s, key, None)
    case Probe(c, probe) => s.calls[c].key == key ==> !probe.RejectedTooMany?
    case Visit(c, applied, _) => s.calls[c].key == key ==> applied
    case Abort(c) => !WriteOf(s.calls[c], key)
    case WriteDirectly(_, k, _) => k != key
    case _ => true
  }

  ghost predicate DisciplinedRun(s: State, steps: seq<Step>, key: Key)
    requires Runs(s, steps)
    decreases |steps|
  {
    steps == [] ||
    (Disciplined(s, steps[0], key) && DisciplinedRun(Apply(s, steps[0]), steps[1..], key))
  }

  /** Layer i holds the latest value of the key, or nothing. */
  ghost predicate Agrees(s: State, i: nat, key: Key)
    requires i < |s.layers|
  {
    key in s.layers[i] ==> Some(s.layers[i][key]) == LatestOf(s, key)
  }

  /** A write of the key in progress has still to visit layer i. */
  ghost predicate AwaitsWrite(s: State, i: nat, key: Key) {
    exists c :: 0 <= c < |s.calls| && WriteOf(s.calls[c], key) && s.calls[c].next <= i
  }

  ghost predicate LayersAgree(s: State, key: Key) {
    forall i :: 0 <= i < |s.layers| ==> Agrees(s, i, key) || AwaitsWrite(s, i, key)
  }

  ghost predicate Coherent(s: State, key: Key) {
    Harmless(s, key, LatestOf(s, key)) && LayersAgree(s, key)
  }

  // ---------------------------------------------------------------------------------------
  // Disciplined runs are coherent
  // ---------------------------------------------------------------------------------------

  /** A disciplined step that begins no write leaves the latest value alone. */
  predicate BeginsWrite(step: Step, key: Key) { (step.BeginSet? || step.BeginDelete?) && step.key == key }

  predicate Begins(step: Step, key: Key) { BeginsWrite(step, key) || (step.BeginGet? && step.key == key) }

  lemma StepMeetsNone(s: State, step: Step, key: Key, first: nat)
    requires Shaped(s) && Coherent(s, key) && Enabled(s, step) && Disciplined(s, step, key)
    requires !BeginsWrite(step, key) && MeetsNone(s, first, key, LatestOf(s, key))
    ensures MeetsNone(Apply(s, step), first, key, LatestOf(s, key))
  {
    var t := Apply(s, step);
    forall i: nat | first <= i < |t.layers| && 0 < i && key in t.layers[i]
      ensures Some(t.layers[i][key]) == LatestOf(s, key)
    {
      if step.Visit? {
        assert CallHarmless(s, s.calls[step.c], key, LatestOf(s, key));
      }
    }
  }

  lemma StepCallsHarmless(s: State, step: Step, key: Key, c: nat)
    requires Shaped(s) && Coherent(s, key) && Enabled(s, step) && Disciplined(s, step, key)
    requires !BeginsWrite(step, key) && c < |Apply(s, step).calls|
    ensures CallHarmless(Apply(s, step), Apply(s, step).calls[c], key, LatestOf(s, key))
  {
    var t := Apply(s, step);
    if c < |s.calls| {
      assert CallHarmless(s, s.calls[c], key, LatestOf(s, key));
    }
    if t.calls[c].Probing? && t.calls[c].key == key {
      StepMeetsNone(s, step, key, t.calls[c].next);
    }
  }

  lemma StepWarmUpsHarmless(s: State, step: Step, key: Key)
    requires Shaped(s) && Coherent(s, key) && Enabled(s, step)
    ensures WarmUpsHarmless(Apply(s, step), key, LatestOf(s, key))
  {
    var t := Apply(s, step);
    forall i, j | 0 <= i < |t.pending| && 0 <= j < |t.pending[i]| && t.pending[i][j].key == key
      ensures Some(t.pending[i][j].value) == LatestOf(s, key)
    {
      PendingAfter(s, step, i, j);
      if step.Offer? {
        assert CallHarmless(s, s.calls[step.c], key, LatestOf(s, key));
      }
    }
  }

  /** After the step that begins a write everything still is as harmless to it as before. */
  lemma BeginHarmless(s: State, step: Step, key: Key)
    requires Enabled(s, step) && BeginsWrite(step, key) && Disciplined(s, step, key)
    ensures Harmless(Apply(s, step), key, LatestOf(Apply(s, step), key))
  {
    var t := Apply(s, step);
    forall c | 0 <= c < |t.calls|
      ensures CallHarmless(t, t.calls[c], key, LatestOf(t, key))
    {
      if c < |s.calls| {
        assert CallHarmless(s, s.calls[c], key, LatestOf(t, key));
      }
    }
  }

  lemma StepHarmless(s: State, step: Step, key: Key)
    requires Shaped(s) && Coherent(s, key) && Enabled(s, step) && Disciplined(s, step, key)
    ensures Harmless(Apply(s, step), key, LatestOf(Apply(s, step), key))
  {
    if BeginsWrite(step, key) {
      BeginHarmless(s, step, key);
    } else {
      var t := Apply(s, step);
      forall c | 0 <= c < |t.calls|
        ensures CallHarmless(t, t.calls[c], key, LatestOf(t, key))
      {
        StepCallsHarmless(s, step, key, c);
      }
      StepWarmUpsHarmless(s, step, key);
    }
  }

  lemma StepLayersAgree(s: State, step: Step, key: Key)
    requires Shaped(s) && Coherent(s, key) && Enabled(s, step) && Disciplined(s, step, key)
    ensures LayersAgree(Apply(s, step), key)
  {
    var t := Apply(s, step);
    forall i | 0 <= i < |t.layers|
      ensures Agrees(t, i, key) || AwaitsWrite(t, i, key)
    {
      if BeginsWrite(step, key) {
        assert WriteOf(t.calls[|s.calls|], key) && t.calls[|s.calls|].next <= i;
      } else if AwaitsWrite(s, i, key) {
        var c :| 0 <= c < |s.calls| && WriteOf(s.calls[c], key) && s.calls[c].next <= i;
        AwaitedLayer(s, step, key, i, c);
      } else {
        AgreedLayer(s, step, key, i);
      }
    }
  }

  lemma AwaitedLayer(s: State, step: Step, key: Key, i: nat, c: nat)
    requires Shaped(s) && Coherent(s, key) && Enabled(s, step) && Disciplined(s, step, key) && !BeginsWrite(step, key)
    requires i < |s.layers| && c < |s.calls| && WriteOf(s.calls[c], key) && s.calls[c].next <= i
    ensures Agrees(Apply(s, step), i, key) || AwaitsWrite(Apply(s, step), i, key)
  {
    var t := Apply(s, step);
    if step.Visit? && step.c == c {
      assert CallHarmless(s, s.calls[c], key, LatestOf(s, key));
      if s.calls[c].next < i {
        assert WriteOf(t.calls[c], key) && t.calls[c].next <= i;
      }
    } else {
      assert t.calls[c] == s.calls[c];
    }
  }

  lemma AgreedLayer(s: State, step: Step, key: Key, i: nat)
    requires Shaped(s) && Coherent(s, key) && Enabled(s, step) && Disciplined(s, step, key) && !BeginsWrite(step, key)
    requires i < |s.layers| && Agrees(s, i, key)
    ensures Agrees(Apply(s, step), i, key)
  {
    if step.Visit? {
      assert CallHarmless(s, s.calls[step.c], key, LatestOf(s, key));
    }
  }

  lemma {:induction false} RunCoherent(s: State, steps: seq<Step>, key: Key)
    requires Shaped(s) && Coherent(s, key) && Runs(s, steps) && DisciplinedRun(s, steps, key)
    ensures Shaped(Exec(s, steps)) && Coherent(Exec(s, steps), key)
    decreases |steps|
  {
    if steps != [] {
      StepShaped(s, steps[0]);
      StepHarmless(s, steps[0], key);
      StepLayersAgree(s, steps[0], key);
      RunCoherent(Apply(s, steps[0]), steps[1..], key);
    }
  }

  /** The last write of the key that a run started, unless a removal started after it. */
  function LastStarted(steps: seq<Step>, key: Key): Option<Value> {
    if steps == [] then None
    else
      var last := steps[|steps| - 1];
      if last.BeginSet? && last.key == key then Some(last.value)
      else if last.BeginDelete? && last.key == key then None
      else LastStarted(steps[..|steps| - 1], key)
  }

  lemma {:induction false} LatestIsLastStarted(layers: nat, steps: seq<Step>, key: Key)
    requires Runs(Init(layers), steps)
    ensures
      var s := Exec(Init(layers), steps);
      LastStarted(steps, key) == LatestOf(s, key)
    decreases |steps|
  {
    if steps != [] {
      var front := steps[..|steps| - 1];
      var last := steps[|steps| - 1];
      assert steps == front + [last];
      RunSplit(Init(layers), front, [last]);
      LatestIsLastStarted(layers, front, key);
      assert Exec(Init(layers), steps) == Apply(Exec(Init(layers), front), last);
    }
  }

  /** In every disciplined run: whenever no write of the key is unfinished, every layer holding
      the key holds the value of the last Set with no Delete since, so after a Delete none
      holds it. With or without such a write, a layer below the first that answers a read
      answers with that value, and every reader and every warm-up on its way up carries it; so
      does the first layer's answer, unless a write has still to visit it. */
  lemma Coherence(layers: nat, steps: seq<Step>, key: Key)
    requires layers > 0 && Runs(Init(layers), steps) && DisciplinedRun(Init(layers), steps, key)
    ensures
      var s := Exec(Init(layers), steps);
      && (NoWriteOf(s, key) ==> forall i :: 0 <= i < |s.layers| && key in s.layers[i] ==>
            LastStarted(steps, key) == Some(s.layers[i][key]))
      && (forall c :: 0 <= c < |s.calls| && Enabled(s, Probe(c, Answered)) && s.calls[c].key == key ==>
            || LastStarted(steps, key) == Some(s.layers[s.calls[c].next][key])
            || (s.calls[c].next == 0 && AwaitsWrite(s, 0, key)))
      && (forall c :: 0 <= c < |s.calls| && s.calls[c].Warming? && s.calls[c].key == key ==>
            LastStarted(steps, key) == Some(s.calls[c].value))
      && (forall i, j :: 0 <= i < |s.pending| && 0 <= j < |s.pending[i]| && s.pending[i][j].key == key ==>
            LastStarted(steps, key) == Some(s.pending[i][j].value))
  {
    RunCoherent(Init(layers), steps, key);
    LatestIsLastStarted(layers, steps, key);
    var s := Exec(Init(layers), steps);
    forall i | 0 <= i < |s.layers| && key in s.layers[i] && NoWriteOf(s, key)
      ensures LastStarted(steps, key) == Some(s.layers[i][key])
    {
      assert Agrees(s, i, key) || AwaitsWrite(s, i, key);
    }
    forall c | 0 <= c < |s.calls|
      ensures CallHarmless(s, s.calls[c], key, LastStarted(steps, key))
    {
    }
    assert Agrees(s, 0, key) || AwaitsWrite(s, 0, key);
  }

  /** A disciplined chain is one map that may only forget: the value that a read returns is, at
      the step that returns it, the value of the last Set with no Delete since; unless the read
      has overtaken, at the first layer, a write that it overlaps. */
  lemma ReadsAreLatest(layers: nat, steps: seq<Step>, step: Step, c: nat)
    requires layers > 0 && Runs(Init(layers), steps) && Enabled(Exec(Init(layers), steps), step)
    requires
      var s, t := Exec(Init(layers), steps), Apply(Exec(Init(layers), steps), step);
      && c < |t.calls| && t.calls[c].Returned? && t.calls[c].answer.Hit?
      && (c < |s.calls| ==> s.calls[c] != t.calls[c])
      && DisciplinedRun(Init(layers), steps, t.calls[c].key) && Disciplined(s, step, t.calls[c].key)
    ensures
      var s, t := Exec(Init(layers), steps), Apply(Exec(Init(layers), steps), step);
      || LastStarted(steps, t.calls[c].key) == Some(t.calls[c].answer.value)
      || (step == Probe(c, Answered) && s.calls[c].next == 0 && AwaitsWrite(s, 0, t.calls[c].key))
  {
    var s, t := Exec(Init(layers), steps), Apply(Exec(Init(layers), steps), step);
    Coherence(layers, steps, t.calls[c].key);
    assert c < |s.calls| && (step == Probe(c, Answered) || (step.Offer? && step.c == c));
  }

  // ---------------------------------------------------------------------------------------
  // Every other overlap can leave two layers in disagreement
  // ---------------------------------------------------------------------------------------

  /** A disciplined run from one state to another. */
  ghost predicate Follows(s0: State, steps: seq<Step>, s: State, key: Key) {
    Runs(s0, steps) && DisciplinedRun(s0, steps, key) && Exec(s0, steps) == s
  }

  lemma {:induction false} Then(s0: State, steps: seq<Step>, s: State, step: Step, key: Key) returns (more: seq<Step>)
    requires Follows(s0, steps, s, key) && Enabled(s, step) && Disciplined(s, step, key)
    ensures more == steps + [step] && Follows(s0, more, Apply(s, step), key)
    decreases |steps|
  {
    more := steps + [step];
    if steps == [] {
      assert more[1..] == [] && Runs(Apply(s, step), []);
    } else {
      var rest := Then(Apply(s0, steps[0]), steps[1..], s, step, key);
      assert more[1..] == rest;
    }
  }

  /** What finishing writes of the key leaves alone. */
  ghost predicate OnlyWritesMoved(s: State, t: State) {
    |t.layers| == |s.layers| && |t.calls| == |s.calls| && t.pending == s.pending && t.latest == s.latest
  }

  /** Lets one write of the key visit the rest of its layers. */
  lemma {:induction false} FinishOne(s0: State, steps: seq<Step>, s: State, c: nat, key: Key) returns (more: seq<Step>, t: State)
    requires Follows(s0, steps, s, key) && Shaped(s) && c < |s.calls| && WriteOf(s.calls[c], key)
    ensures Follows(s0, more, t, key) && Shaped(t) && OnlyWritesMoved(s, t)
    ensures t.calls == s.calls[c := Finished]
    ensures s.calls[c].Setting? ==>
      var last := |t.layers| - 1;
      key in t.layers[last] && t.layers[last][key] == s.calls[c].value
    decreases |s.layers| - s.calls[c].next
  {
    var step := Visit(c, true, true);
    more := Then(s0, steps, s, step, key);
    t := Apply(s, step);
    StepShaped(s, step);
    if s.calls[c].next + 1 < |s.layers| {
      more, t := FinishOne(s0, more, t, c, key);
    }
  }

  /** Lets the first n calls finish those that are writes of the key, except call `kept`. */
  lemma {:induction false} FinishWrites(s0: State, steps: seq<Step>, s: State, n: nat, kept: int, key: Key)
    returns (more: seq<Step>, t: State)
    requires Follows(s0, steps, s, key) && Shaped(s) && n <= |s.calls|
    ensures Follows(s0, more, t, key) && Shaped(t) && OnlyWritesMoved(s, t)
    ensures forall d :: 0 <= d < n && d != kept ==> !WriteOf(t.calls[d], key)
    ensures forall d :: n <= d < |s.calls| || d == kept ==> 0 <= d < |s.calls| ==> t.calls[d] == s.calls[d]
    decreases n
  {
    more, t := steps, s;
    if n > 0 {
      more, t := FinishWrites(s0, steps, s, n - 1, kept, key);
      if n - 1 != kept && WriteOf(t.calls[n - 1], key) {
        more, t := FinishOne(s0, more, t, n - 1, key);
      }
    }
  }

  /** No write of the key is unfinished, and some layer holds another value than the latest. */
  ghost predicate Disagrees(s: State, key: Key) {
    NoWriteOf(s, key) && exists i :: 0 <= i < |s.layers| && !Agrees(s, i, key)
  }

  /** A queued warm-up of another value, applied after all writes have finished. */
  lemma WarmUpHarms(s0: State, steps: seq<Step>, s: State, i: nat, j: nat, key: Key) returns (more: seq<Step>)
    requires Follows(s0, steps, s, key) && Shaped(s) && i < |s.pending| && j < |s.pending[i]|
    requires s.pending[i][j].key == key && Some(s.pending[i][j].value) != LatestOf(s, key)
    ensures exists t :: Follows(s0, more, t, key) && Disagrees(t, key)
  {
    var t;
    more, t := FinishWrites(s0, steps, s, |s.calls|, -1, key);
    var step := ApplyWarmUp(i, j, true);
    more := Then(s0, more, t, step, key);
    assert !Agrees(Apply(t, step), i, key);
    assert Disagrees(Apply(t, step), key);
  }

  /** A reader that carries another value queues such a warm-up. */
  lemma ReaderHarms(s0: State, steps: seq<Step>, s: State, c: nat, key: Key) returns (more: seq<Step>)
    requires Follows(s0, steps, s, key) && Shaped(s) && c < |s.calls| && s.calls[c].Warming?
    requires s.calls[c].key == key && Some(s.calls[c].value) != LatestOf(s, key)
    ensures exists t :: Follows(s0, more, t, key) && Disagrees(t, key)
  {
    var step, i := Offer(c, true), s.calls[c].next - 1;
    var t := Apply(s, step);
    assert CallShaped(s.calls[c], |s.layers|);
    StepShaped(s, step);
    more := Then(s0, steps, s, step, key);
    assert t.pending[i][|s.pending[i]|] == WarmUp(key, s.calls[c].value);
    more := WarmUpHarms(s0, more, t, i, |s.pending[i]|, key);
  }

  /** A reader that can meet another value below the first layer comes to carry it. */
  lemma {:induction false} ProbeHarms(s0: State, steps: seq<Step>, s: State, c: nat, i: nat, key: Key) returns (more: seq<Step>)
    requires Follows(s0, steps, s, key) && Shaped(s) && c < |s.calls| && s.calls[c].Probing?
    requires s.calls[c].key == key && s.calls[c].next <= i < |s.layers| && 0 < i
    requires key in s.layers[i] && Some(s.layers[i][key]) != LatestOf(s, key)
    ensures exists t :: Follows(s0, more, t, key) && Disagrees(t, key)
    decreases i - s.calls[c].next
  {
    var step := Probe(c, if s.calls[c].next == i then Answered else NoAnswer(Timeout));
    var t := Apply(s, step);
    StepShaped(s, step);
    more := Then(s0, steps, s, step, key);
    if s.calls[c].next == i {
      more := ReaderHarms(s0, more, t, c, key);
    } else {
      more := ProbeHarms(s0, more, t, c, i, key);
    }
  }

  /** An unfinished Set of another value, finished after all other writes. */
  lemma WriteHarms(s0: State, steps: seq<Step>, s: State, c: nat, key: Key) returns (more: seq<Step>)
    requires Follows(s0, steps, s, key) && Shaped(s) && c < |s.calls| && s.calls[c].Setting?
    requires s.calls[c].key == key && Some(s.calls[c].value) != LatestOf(s, key)
    ensures exists t :: Follows(s0, more, t, key) && Disagrees(t, key)
  {
    var t;
    more, t := FinishWrites(s0, steps, s, |s.calls|, c, key);
    more, t := FinishOne(s0, more, t, c, key);
    assert !Agrees(t, |t.layers| - 1, key);
    assert Disagrees(t, key);
  }

  /** From any state in which something unfinished is not harmless to the latest value, some
      disciplined continuation leaves the layers in disagreement. */
  lemma HarmIsDone(s: State, key: Key) returns (steps: seq<Step>)
    requires Shaped(s) && !Harmless(s, key, LatestOf(s, key))
    ensures exists t :: Follows(s, steps, t, key) && Disagrees(t, key)
  {
    assert Follows(s, [], s, key);
    if c :| 0 <= c < |s.calls| && !CallHarmless(s, s.calls[c], key, LatestOf(s, key)) {
      match s.calls[c] {
        case Probing(_, next) =>
          var i: nat :| next <= i < |s.layers| && 0 < i && key in s.layers[i]
                     && Some(s.layers[i][key]) != LatestOf(s, key);
          steps := ProbeHarms(s, [], s, c, i, key);
        case Warming(_, _, _) => steps := ReaderHarms(s, [], s, c, key);
        case Setting(_, _, _) => steps := WriteHarms(s, [], s, c, key);
      }
    } else {
      var i, j :| 0 <= i < |s.pending| && 0 <= j < |s.pending[i]| && s.pending[i][j].key == key
               && Some(s.pending[i][j].value) != LatestOf(s, key);
      steps := WarmUpHarms(s, [], s, i, j, key);
    }
  }

  /** After the first step of a call of the key, what was not harmless to it still is not. */
  lemma UndisciplinedBegin(s: State, step: Step, key: Key)
    requires Enabled(s, step) && Begins(step, key) && !Disciplined(s, step, key)
    ensures !Harmless(Apply(s, step), key, LatestOf(Apply(s, step), key))
  {
    var t := Apply(s, step);
    if step.BeginGet? {
      assert !CallHarmless(t, t.calls[|s.calls|], key, LatestOf(t, key));
    } else if c :| 0 <= c < |s.calls| && !CallHarmless(s, s.calls[c], key, LatestOf(t, key)) {
      assert !CallHarmless(t, t.calls[c], key, LatestOf(t, key));
    }
  }

  /** In every continuation of the state, the layers agree once no write is unfinished. */
  ghost predicate StaysInAgreement(s: State, key: Key) {
    forall steps, t :: Follows(s, steps, t, key) ==> !Disagrees(t, key)
  }

  /** The discipline is exact. From a coherent state, the layers stay in agreement over every
      disciplined continuation of a read, Set or Delete of the key if and only if the call
      begins when the discipline allows it: nothing unfinished carries another value of the key
      than the one it will have, and no reader can meet one below the first layer. */
  lemma CoherenceIff(s: State, step: Step, key: Key)
    requires Shaped(s) && Coherent(s, key) && Enabled(s, step) && Begins(step, key)
    ensures StaysInAgreement(Apply(s, step), key) <==> Disciplined(s, step, key)
  {
    var t := Apply(s, step);
    StepShaped(s, step);
    if Disciplined(s, step, key) {
      StepHarmless(s, step, key);
      StepLayersAgree(s, step, key);
      forall steps, u | Follows(t, steps, u, key)
        ensures !Disagrees(u, key)
      {
        RunCoherent(t, steps, key);
        if i :| 0 <= i < |u.layers| && !Agrees(u, i, key) {
          assert AwaitsWrite(u, i, key);
        }
      }
    } else {
      UndisciplinedBegin(s, step, key);
      var steps := HarmIsDone(t, key);
    }
  }

  /** A read of the last layer's value whose warm-up of the first layer is still queued. */
  lemma ReadWithWarmUpQueued(key: Key, before: Value) returns (steps: seq<Step>)
    ensures Runs(Init(2), steps)
    ensures Exec(Init(2), steps)
         == State([map[], map[key := before]], [[WarmUp(key, before)], []], [Returned(key, Hit(before))],
                  {(key, before)}, map[])
  {
    InitOfTwo();
    var bottom, none, w := [map[], map[key := before]], [[], []], {(key, before)};
    var s0 := State([map[], map[]], none, [], {}, map[]);
    var s1 := State(bottom, none, [], w, map[]);
    var s2 := State(bottom, none, [Probing(key, 0)], w, map[]);
    var s3 := State(bottom, none, [Probing(key, 1)], w, map[]);
    var s4 := State(bottom, none, [Warming(key, before, 1)], w, map[]);
    var s5 := State(bottom, [[WarmUp(key, before)], []], [Returned(key, Hit(before))], w, map[]);
    steps := [];
    steps := Extend(s0, steps, WriteDirectly(1, key, before), s0, s1);
    steps := Extend(s0, steps, BeginGet(key), s1, s2);
    steps := Extend(s0, steps, Probe(0, NoAnswer(NotFound)), s2, s3);
    steps := Extend(s0, steps, Probe(0, Answered), s3, s4);
    assert s4.pending[0] + [WarmUp(key, before)] == s5.pending[0];
    steps := Extend(s0, steps, Offer(0, true), s4, s5);
  }

  /** A complete Set of another value while that warm-up is still queued. */
  lemma SetWhileWarmUpQueued(key: Key, before: Value, after: Value) returns (steps: seq<Step>)
    ensures Runs(Init(2), steps)
    ensures Exec(Init(2), steps)
         == State([map[key := after], map[key := after]], [[WarmUp(key, before)], []],
                  [Returned(key, Hit(before)), Finished], {(key, before)} + {(key, after)}, map[key := after])
  {
    var answered, stale, l := Returned(key, Hit(before)), [[WarmUp(key, before)], []], map[key := after];
    var w := {(key, before)};
    var w' := w + {(key, after)};
    var bottom := [map[], map[key := before]];
    var s5 := State(bottom, stale, [answered], w, map[]);
    var s6 := State(bottom, stale, [answered, Setting(key, after, 0)], w, l);
    var s7 := State([map[key := after], map[key := before]], stale, [answered, Setting(key, after, 1)], w', l);
    var s8 := State([map[key := after], map[key := after]], stale, [answered, Finished], w', l);
    steps := ReadWithWarmUpQueued(key, before);
    steps := Extend(Init(2), steps, BeginSet(key, after), s5, s6);
    steps := Extend(Init(2), steps, Visit(1, true, true), s6, s7);
    assert w' + {(key, after)} == w';
    assert s7.layers[1][key := after] == s8.layers[1];
    steps := Extend(Init(2), steps, Visit(1, true, true), s7, s8);
  }

  /** Without the discipline the chain can stay stale: a warm-up of the old value, read before
      a complete Set of a new one, lands after it. Everything has finished and the two layers
      disagree. */
  lemma LateWarmUpLeavesStaleLayer(key: Key, before: Value, after: Value) returns (steps: seq<Step>)
    requires before != after
    ensures Runs(Init(2), steps)
    ensures Exec(Init(2), steps)
         == State([map[key := before], map[key := after]], [[], []], [Returned(key, Hit(before)), Finished],
                  {(key, before)} + {(key, after)}, map[key := after])
  {
    var calls, l := [Returned(key, Hit(before)), Finished], map[key := after];
    var w := {(key, before)} + {(key, after)};
    var s8 := State([map[key := after], map[key := after]], [[WarmUp(key, before)], []], calls, w, l);
    var s9 := State([map[key := before], map[key := after]], [[], []], calls, w, l);
    steps := SetWhileWarmUpQueued(key, before, after);
    assert s8.pending[0][..0] + s8.pending[0][1..] == s9.pending[0];
    assert s8.layers[0][key := before] == s9.layers[0];
    steps := Extend(Init(2), steps, ApplyWarmUp(0, 0, true), s8, s9);
  }
}
