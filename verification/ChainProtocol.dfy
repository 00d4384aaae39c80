/** The chain as a protocol: reads that fall through the layers and then offer their value to
    the layers above, writes and removals that visit every layer, and warm-ups that are applied
    later by other goroutines. Layer calls and queue operations are atomic; everything else
    interleaves freely, and any layer may forget any entry at any time (expiry, eviction). */
module ChainProtocol {
  import opened CacheTypes
  import opened Sums

  datatype WarmUp = WarmUp(key: Key, value: Value)

  /** A call in progress. `next` is the layer to visit; for a read that has its value it is the
      number of upper layers still to be offered that value. */
  datatype Call =
    | Probing(key: Key, next: nat)
    | Warming(key: Key, value: Value, next: nat)
    | Setting(key: Key, value: Value, next: nat)
    | Deleting(key: Key, next: nat)
    | Returned(key: Key, answer: Answer)
    | Finished

  /** How a layer answered a read: with its entry, without one (miss, error, timeout, open
      circuit), or with the empty success of a call the breaker rejected as one too many. */
  datatype Probe = Answered | NoAnswer(error: Error) | RejectedTooMany

  /** `pending[i]` holds the warm-ups queued or in flight at writer i. `written`
      records every pair a caller's write stored in some layer, and `latest` the last write of
      each key with no removal since. */
  datatype State = State(
    layers: seq<map<Key, Value>>,
    pending: seq<seq<WarmUp>>,
    calls: seq<Call>,
    written: set<(Key, Value)>,
    latest: map<Key, Value>)

  datatype Step =
    | BeginGet(key: Key)
    | BeginSet(key: Key, value: Value)
    | BeginDelete(key: Key)
    | Probe(c: nat, probe: Probe)
    | Offer(c: nat, accepted: bool)
    | Visit(c: nat, applied: bool, ok: bool)
    | Abort(c: nat)
    | ApplyWarmUp(layer: nat, j: nat, applied: bool)
    | Forget(layer: nat, key: Key)
    | WriteDirectly(layer: nat, key: Key, value: Value)

  function Init(layers: nat): State {
    State(seq(layers, _ => map[]), seq(layers, _ => []), [], {}, map[])
  }

  predicate Enabled(s: State, step: Step) {
    match step
    case BeginGet(_) => true
    case BeginSet(_, _) => true
    case BeginDelete(_) => true
    case Probe(c, probe) =>
      c < |s.calls| && s.calls[c].Probing? && s.calls[c].next < |s.layers| &&
      (probe.Answered? ==> s.calls[c].key in s.layers[s.calls[c].next])
    case Offer(c, _) =>
      c < |s.calls| && s.calls[c].Warming? && 0 < s.calls[c].next <= |s.pending|
    case Visit(c, applied, ok) =>
      c < |s.calls| && (s.calls[c].Setting? || s.calls[c].Deleting?) && s.calls[c].next < |s.layers| &&
      (ok ==> applied)
    case Abort(c) =>
      c < |s.calls| && (s.calls[c].Probing? || s.calls[c].Setting? || s.calls[c].Deleting?)
    case ApplyWarmUp(layer, j, _) =>
      layer < |s.pending| && layer < |s.layers| && j < |s.pending[layer]|
    case Forget(layer, _) => layer < |s.layers|
    case WriteDirectly(layer, _, _) => layer < |s.layers|
  }

  function Put(s: State, layer: nat, key: Key, value: Value): State
    requires layer < |s.layers|
  {
    s.(layers := s.layers[layer := s.layers[layer][key := value]])
  }

  function Drop(s: State, layer: nat, key: Key): State
    requires layer < |s.layers|
  {
    s.(layers := s.layers[layer := s.layers[layer] - {key}])
  }

  function Become(s: State, c: nat, call: Call): State
    requires c < |s.calls|
  {
    s.(calls := s.calls[c := call])
  }

  /** A read that found its value at layer `hit`: the layers above are offered it first. */
  function AfterHit(key: Key, value: Value, hit: nat): Call {
    if hit == 0 then Returned(key, Hit(value)) else Warming(key, value, hit)
  }

  function Apply(s: State, step: Step): State
    requires Enabled(s, step)
  {
    match step
    case BeginGet(key) => s.(calls := s.calls + [Probing(key, 0)])
    case BeginSet(key, value) =>
      s.(calls := s.calls + [Setting(key, value, 0)],
         latest := s.latest[key := value])
    case BeginDelete(key) =>
      s.(calls := s.calls + [Deleting(key, 0)], latest := s.latest - {key})
    case Probe(c, probe) =>
      var call := s.calls[c];
      Become(s, c,
        match probe
        case Answered => AfterHit(call.key, s.layers[call.next][call.key], call.next)
        case RejectedTooMany => AfterHit(call.key, Nil, call.next)
        case NoAnswer(error) =>
          if call.next + 1 < |s.layers| then Probing(call.key, call.next + 1)
          else Returned(call.key, Failed(error)))
    case Offer(c, accepted) =>
      var call := s.calls[c];
      var t := Become(s, c, AfterHit(call.key, call.value, call.next - 1));
      if accepted
      then t.(pending := t.pending[call.next - 1 := t.pending[call.next - 1] + [WarmUp(call.key, call.value)]])
      else t
    case Visit(c, applied, _) =>
      var call := s.calls[c];
      var t :=
        if !applied then s
        else if call.Setting? then
          Put(s, call.next, call.key, call.value).(written := s.written + {(call.key, call.value)})
        else Drop(s, call.next, call.key);
      Become(t, c,
        if call.next + 1 == |s.layers| then Finished
        else if call.Setting? then Setting(call.key, call.value, call.next + 1)
        else Deleting(call.key, call.next + 1))
    case Abort(c) =>
      Become(s, c, if s.calls[c].Probing? then Returned(s.calls[c].key, Failed(Cancelled)) else Finished)
    case ApplyWarmUp(layer, j, applied) =>
      var op := s.pending[layer][j];
      var t := s.(pending := s.pending[layer := s.pending[layer][..j] + s.pending[layer][j + 1..]]);
      if applied then Put(t, layer, op.key, op.value) else t
    case Forget(layer, key) => Drop(s, layer, key)
    case WriteDirectly(layer, key, value) =>
      Put(s, layer, key, value).(written := s.written + {(key, value)})
  }

  predicate Runs(s: State, steps: seq<Step>)
    decreases |steps|
  {
    steps == [] || (Enabled(s, steps[0]) && Runs(Apply(s, steps[0]), steps[1..]))
  }

  function Exec(s: State, steps: seq<Step>): State
    requires Runs(s, steps)
    decreases |steps|
  {
    if steps == [] then s else Exec(Apply(s, steps[0]), steps[1..])
  }

  lemma {:induction false} RunSplit(s: State, first: seq<Step>, second: seq<Step>)
    requires Runs(s, first + second)
    ensures Runs(s, first) && Runs(Exec(s, first), second)
    ensures Exec(s, first + second) == Exec(Exec(s, first), second)
    decreases |first|
  {
    if first == [] {
      assert first + second == second;
    } else {
      assert (first + second)[1..] == first[1..] + second;
      RunSplit(Apply(s, first[0]), first[1..], second);
    }
  }

  lemma {:induction false} RunExtends(s: State, steps: seq<Step>, step: Step)
    requires Runs(s, steps) && Enabled(Exec(s, steps), step)
    ensures Runs(s, steps + [step]) && Exec(s, steps + [step]) == Apply(Exec(s, steps), step)
    decreases |steps|
  {
    if steps == [] {
      assert steps + [step] == [step];
      assert Runs(Apply(s, step), []);
    } else {
      assert (steps + [step])[1..] == steps[1..] + [step];
      RunExtends(Apply(s, steps[0]), steps[1..], step);
    }
  }

  // ---------------------------------------------------------------------------------------
  // Shape: warm-ups only travel upward
  // ---------------------------------------------------------------------------------------

  ghost predicate CallShaped(call: Call, layers: nat) {
    match call
    case Probing(_, next) => next < layers
    case Warming(_, _, next) => 0 < next < layers
    case Setting(_, _, next) => next < layers
    case Deleting(_, next) => next < layers
    case _ => true
  }

  /** No warm-up is ever addressed to the last layer. */
  ghost predicate Shaped(s: State) {
    && |s.layers| == |s.pending| > 0
    && s.pending[|s.pending| - 1] == []
    && forall c :: 0 <= c < |s.calls| ==> CallShaped(s.calls[c], |s.layers|)
  }

  lemma StepShaped(s: State, step: Step)
    requires Shaped(s) && Enabled(s, step)
    ensures Shaped(Apply(s, step))
  {
  }

  /** The layers that call c has offered its value to, in the order of a run. */
  function OfferedBy(s: State, steps: seq<Step>, c: nat): seq<nat>
    requires Runs(s, steps)
    decreases |steps|
  {
    if steps == [] then []
    else
      (if steps[0].Offer? && steps[0].c == c then [s.calls[c].next - 1] else [])
        + OfferedBy(Apply(s, steps[0]), steps[1..], c)
  }

  /** h-1, h-2, ..., l */
  function Descending(h: nat, l: nat): seq<nat>
    requires l <= h
  {
    if h == l then [] else [h - 1] + Descending(h - 1, l)
  }

  /** How many layers a read that has its value has still to offer it to. */
  function Left(call: Call): nat { if call.Warming? then call.next else 0 }

  predicate HasValue(call: Call) { call.Warming? || call.Returned? }

  lemma StepWarms(s: State, step: Step, c: nat)
    requires Enabled(s, step) && c < |s.calls| && HasValue(s.calls[c])
    ensures c < |Apply(s, step).calls| && HasValue(Apply(s, step).calls[c])
    ensures
      var left := Left(Apply(s, step).calls[c]);
      if step.Offer? && step.c == c then left + 1 == Left(s.calls[c]) == s.calls[c].next else left == Left(s.calls[c])
  {
  }

  /** Whatever else happens, a read that hit at layer h offers its value to layers h-1, ..., 0,
      each once and in that order, and to no other; once it has returned, to all of them. */
  lemma {:induction false} WarmUpsGoUp(s: State, steps: seq<Step>, c: nat)
    requires Runs(s, steps) && c < |s.calls| && HasValue(s.calls[c])
    ensures c < |Exec(s, steps).calls| && HasValue(Exec(s, steps).calls[c])
    ensures Left(Exec(s, steps).calls[c]) <= Left(s.calls[c])
    ensures OfferedBy(s, steps, c) == Descending(Left(s.calls[c]), Left(Exec(s, steps).calls[c]))
    decreases |steps|
  {
    if steps != [] {
      StepWarms(s, steps[0], c);
      WarmUpsGoUp(Apply(s, steps[0]), steps[1..], c);
    }
  }

  // ---------------------------------------------------------------------------------------
  // A read asks the layers in order and returns what it found
  // ---------------------------------------------------------------------------------------

  /** What a read was told by a layer that it asked. */
  datatype Asked = Asked(layer: nat, answer: Answer)

  function AnswerTo(s: State, c: nat, probe: Probe): Answer
    requires Enabled(s, Step.Probe(c, probe))
  {
    match probe
    case Answered => Hit(s.layers[s.calls[c].next][s.calls[c].key])
    case RejectedTooMany => Hit(Nil)
    case NoAnswer(error) => Failed(error)
  }

  /** The layers that call c has asked, in the order of a run, and what each held then. */
  function ProbedBy(s: State, steps: seq<Step>, c: nat): seq<Asked>
    requires Runs(s, steps)
    decreases |steps|
  {
    if steps == [] then []
    else
      (if steps[0].Probe? && steps[0].c == c then [Asked(s.calls[c].next, AnswerTo(s, c, steps[0].probe))] else [])
        + ProbedBy(Apply(s, steps[0]), steps[1..], c)
  }

  /** A read that has its value keeps it, asks no more layers, and offers it upward. */
  lemma {:induction false} ReadCarriesOn(s: State, steps: seq<Step>, c: nat, key: Key, value: Value, h: nat)
    requires Runs(s, steps) && c < |s.calls| && s.calls[c] == AfterHit(key, value, h)
    ensures ProbedBy(s, steps, c) == []
    ensures c < |Exec(s, steps).calls|
    ensures Exec(s, steps).calls[c] == AfterHit(key, value, Left(Exec(s, steps).calls[c]))
    decreases |steps|
  {
    if steps != [] {
      var left := Left(Apply(s, steps[0]).calls[c]);
      StepWarms(s, steps[0], c);
      ReadCarriesOn(Apply(s, steps[0]), steps[1..], c, key, value, left);
    }
  }

  lemma {:induction false} ReadHasFailed(s: State, steps: seq<Step>, c: nat)
    requires Runs(s, steps) && c < |s.calls| && s.calls[c].Returned?
    ensures ProbedBy(s, steps, c) == [] && OfferedBy(s, steps, c) == []
    ensures c < |Exec(s, steps).calls| && Exec(s, steps).calls[c] == s.calls[c]
    decreases |steps|
  {
    if steps != [] {
      ReadHasFailed(Apply(s, steps[0]), steps[1..], c);
    }
  }

  /** All answers but perhaps the last are failures. */
  predicate FailedBefore(asked: seq<Asked>) {
    forall i :: 0 <= i < |asked| - 1 ==> asked[i].answer.Failed?
  }

  predicate InOrder(asked: seq<Asked>, first: nat) {
    forall i :: 0 <= i < |asked| ==> asked[i].layer == first + i
  }

  /** The state of a read of the key in terms of what it was told, from layer `first` on, and of
      the layers it has offered its value to. */
  predicate ReadIsAt(call: Call, key: Key, first: nat, layers: nat, asked: seq<Asked>, offered: seq<nat>) {
    && InOrder(asked, first) && FailedBefore(asked)
    && (if asked != [] && asked[|asked| - 1].answer.Hit? then
          var h := asked[|asked| - 1].layer;
          && call == AfterHit(key, asked[|asked| - 1].answer.value, Left(call))
          && Left(call) <= h && offered == Descending(h, Left(call))
        else
          && offered == []
          && (|| call == Probing(key, first + |asked|)
              || call == Returned(key, Failed(Cancelled))
              || (asked != [] && first + |asked| == layers && call == Returned(key, asked[|asked| - 1].answer))))
  }

  /** One more failed answer in front. */
  lemma FailedFirst(call: Call, key: Key, first: nat, layers: nat, asked: seq<Asked>, offered: seq<nat>, error: Error)
    requires ReadIsAt(call, key, first + 1, layers, asked, offered)
    ensures ReadIsAt(call, key, first, layers, [Asked(first, Failed(error))] + asked, offered)
  {
    var all := [Asked(first, Failed(error))] + asked;
    assert forall i :: 0 < i < |all| ==> all[i] == asked[i - 1];
    assert asked != [] ==> all[|all| - 1] == asked[|asked| - 1];
  }

  /** The step that asks a layer on behalf of a read, and any other step but its cancellation. */
  lemma StepOfRead(s: State, step: Step, c: nat, key: Key, first: nat)
    requires Enabled(s, step) && c < |s.calls| && s.calls[c] == Probing(key, first) && step != Abort(c)
    ensures |Apply(s, step).layers| == |s.layers| && c < |Apply(s, step).calls|
    ensures !(step.Offer? && step.c == c)
    ensures
      var call := Apply(s, step).calls[c];
      if step.Probe? && step.c == c then
        var answer := AnswerTo(s, c, step.probe);
        call == if answer.Hit? then AfterHit(key, answer.value, first)
                else if first + 1 < |s.layers| then Probing(key, first + 1)
                else Returned(key, answer)
      else call == s.calls[c]
  {
  }

  /** The read is answered by the layer that it asks first. */
  lemma ReadHits(s: State, steps: seq<Step>, c: nat, key: Key, value: Value, first: nat, layers: nat)
    requires Runs(s, steps) && c < |s.calls| && s.calls[c] == AfterHit(key, value, first)
    ensures c < |Exec(s, steps).calls|
    ensures ReadIsAt(Exec(s, steps).calls[c], key, first, layers,
                     [Asked(first, Hit(value))] + ProbedBy(s, steps, c), OfferedBy(s, steps, c))
  {
    ReadCarriesOn(s, steps, c, key, value, first);
    WarmUpsGoUp(s, steps, c);
  }

  ghost predicate ReadRuns(s: State, steps: seq<Step>, c: nat, key: Key, first: nat) {
    && Runs(s, steps) && c < |Exec(s, steps).calls|
    && ReadIsAt(Exec(s, steps).calls[c], key, first, |s.layers|, ProbedBy(s, steps, c), OfferedBy(s, steps, c))
  }

  /** The read asks a layer now. */
  lemma ReadProbes(s: State, steps: seq<Step>, c: nat, key: Key, first: nat)
    requires Runs(s, steps) && steps != [] && c < |s.calls| && s.calls[c] == Probing(key, first) && first < |s.layers|
    requires steps[0].Probe? && steps[0].c == c
    requires first + 1 < |s.layers| && steps[0].probe.NoAnswer? ==>
      ReadRuns(Apply(s, steps[0]), steps[1..], c, key, first + 1)
    ensures ReadRuns(s, steps, c, key, first)
  {
    var t, rest, answer := Apply(s, steps[0]), steps[1..], AnswerTo(s, c, steps[0].probe);
    StepOfRead(s, steps[0], c, key, first);
    if answer.Hit? {
      ReadHits(t, rest, c, key, answer.value, first, |s.layers|);
    } else if first + 1 < |s.layers| {
      FailedFirst(Exec(t, rest).calls[c], key, first, |s.layers|, ProbedBy(t, rest, c), OfferedBy(t, rest, c), answer.error);
    } else {
      ReadHasFailed(t, rest, c);
    }
  }

  lemma ReadAborts(s: State, steps: seq<Step>, c: nat, key: Key, first: nat)
    requires Runs(s, steps) && steps != [] && c < |s.calls| && s.calls[c] == Probing(key, first)
    requires steps[0] == Abort(c)
    ensures ReadRuns(s, steps, c, key, first)
  {
    ReadHasFailed(Apply(s, steps[0]), steps[1..], c);
  }

  lemma ReadWaits(s: State, steps: seq<Step>, c: nat, key: Key, first: nat)
    requires Runs(s, steps) && steps != [] && c < |s.calls| && s.calls[c] == Probing(key, first)
    requires steps[0] != Abort(c) && !(steps[0].Probe? && steps[0].c == c)
    requires ReadRuns(Apply(s, steps[0]), steps[1..], c, key, first)
    ensures ReadRuns(s, steps, c, key, first)
  {
    StepOfRead(s, steps[0], c, key, first);
  }

  lemma {:induction false} ReadIsAtFrom(s: State, steps: seq<Step>, c: nat, key: Key, first: nat)
    requires Runs(s, steps) && c < |s.calls| && s.calls[c] == Probing(key, first) && first < |s.layers|
    ensures ReadRuns(s, steps, c, key, first)
    decreases |steps|
  {
    if steps != [] {
      if steps[0] == Abort(c) {
        ReadAborts(s, steps, c, key, first);
      } else {
        StepOfRead(s, steps[0], c, key, first);
        if !(steps[0].Probe? && steps[0].c == c) {
          ReadIsAtFrom(Apply(s, steps[0]), steps[1..], c, key, first);
          ReadWaits(s, steps, c, key, first);
        } else {
          if first + 1 < |s.layers| && steps[0].probe.NoAnswer? {
            ReadIsAtFrom(Apply(s, steps[0]), steps[1..], c, key, first + 1);
          }
          ReadProbes(s, steps, c, key, first);
        }
      }
    }
  }

  /** Over all interleavings: a read asks layers 0, 1, ... in order, each once, and stops at the
      first that answers; it returns what that layer h held when it was asked, and offers it to
      exactly the layers h-1, ..., 0 before it returns. If none answers it returns the last
      layer's error, and if its context ends first, that. */
  lemma ReadAsksInOrder(s: State, steps: seq<Step>, key: Key)
    requires |s.layers| > 0 && Runs(s, [BeginGet(key)] + steps)
    ensures
      var begun := Apply(s, BeginGet(key));
      var c := |s.calls|;
      && Runs(begun, steps) && c < |Exec(begun, steps).calls|
      && ReadIsAt(Exec(begun, steps).calls[c], key, 0, |s.layers|, ProbedBy(begun, steps, c), OfferedBy(begun, steps, c))
  {
    assert ([BeginGet(key)] + steps)[1..] == steps;
    ReadIsAtFrom(Apply(s, BeginGet(key)), steps, |s.calls|, key, 0);
  }

  // ---------------------------------------------------------------------------------------
  // Provenance
  // ---------------------------------------------------------------------------------------

  /** The value was written for this key, or it is the empty value of a rejected read. */
  ghost predicate Sourced(s: State, key: Key, value: Value, rejections: bool) {
    (key, value) in s.written || (rejections && value == Nil)
  }

  ghost predicate CallSourced(s: State, call: Call, rejections: bool) {
    match call
    case Warming(key, value, _) => Sourced(s, key, value, rejections)
    case Returned(key, answer) => answer.Hit? ==> Sourced(s, key, answer.value, rejections)
    case _ => true
  }

  /** Every value anywhere, under any key, was written for that key. */
  ghost predicate AllSourced(s: State, rejections: bool) {
    && (forall i, key :: 0 <= i < |s.layers| && key in s.layers[i] ==>
          Sourced(s, key, s.layers[i][key], rejections))
    && (forall i, j :: 0 <= i < |s.pending| && 0 <= j < |s.pending[i]| ==>
          Sourced(s, s.pending[i][j].key, s.pending[i][j].value, rejections))
    && (forall c :: 0 <= c < |s.calls| ==> CallSourced(s, s.calls[c], rejections))
  }

  predicate IsRejection(step: Step) { step.Probe? && step.probe.RejectedTooMany? }

  lemma StepSourcedLayers(s: State, step: Step, rejections: bool)
    requires AllSourced(s, rejections) && Enabled(s, step)
    ensures
      var t := Apply(s, step);
      forall i, key :: 0 <= i < |t.layers| && key in t.layers[i] ==> Sourced(t, key, t.layers[i][key], rejections)
  {
    var t := Apply(s, step);
    forall i, key | 0 <= i < |t.layers| && key in t.layers[i]
      ensures Sourced(t, key, t.layers[i][key], rejections)
    {
      if step.Visit? && step.applied && s.calls[step.c].Setting? {
        assert (s.calls[step.c].key, s.calls[step.c].value) in t.written;
      } else if step.ApplyWarmUp? {
        var op := s.pending[step.layer][step.j];
        assert Sourced(s, op.key, op.value, rejections);
      }
    }
  }

  lemma StepSourcedPending(s: State, step: Step, rejections: bool)
    requires AllSourced(s, rejections) && Enabled(s, step)
    ensures
      var t := Apply(s, step);
      forall i, j :: 0 <= i < |t.pending| && 0 <= j < |t.pending[i]| ==>
        Sourced(t, t.pending[i][j].key, t.pending[i][j].value, rejections)
  {
    var t := Apply(s, step);
    forall i, j | 0 <= i < |t.pending| && 0 <= j < |t.pending[i]|
      ensures Sourced(t, t.pending[i][j].key, t.pending[i][j].value, rejections)
    {
      if step.ApplyWarmUp? && i == step.layer && j >= step.j {
        assert t.pending[i][j] == s.pending[i][j + 1];
      } else if step.Offer? && i < |s.pending| && j >= |s.pending[i]| {
        assert CallSourced(s, s.calls[step.c], rejections);
      } else {
        assert t.pending[i][j] == s.pending[i][j];
      }
    }
  }

  lemma StepSourcedCalls(s: State, step: Step, rejections: bool)
    requires AllSourced(s, rejections) && Enabled(s, step)
    requires IsRejection(step) ==> rejections
    ensures
      var t := Apply(s, step);
      forall c :: 0 <= c < |t.calls| ==> CallSourced(t, t.calls[c], rejections)
  {
    var t := Apply(s, step);
    forall c | 0 <= c < |t.calls|
      ensures CallSourced(t, t.calls[c], rejections)
    {
      if c < |s.calls| {
        assert CallSourced(s, s.calls[c], rejections);
      }
    }
  }

  lemma StepSourced(s: State, step: Step, rejections: bool)
    requires AllSourced(s, rejections) && Enabled(s, step)
    requires IsRejection(step) ==> rejections
    ensures AllSourced(Apply(s, step), rejections)
  {
    StepSourcedLayers(s, step, rejections);
    StepSourcedPending(s, step, rejections);
    StepSourcedCalls(s, step, rejections);
  }

  lemma {:induction false} RunSourced(s: State, steps: seq<Step>, rejections: bool)
    requires AllSourced(s, rejections) && Runs(s, steps)
    requires forall p :: 0 <= p < |steps| && IsRejection(steps[p]) ==> rejections
    ensures AllSourced(Exec(s, steps), rejections)
    decreases |steps|
  {
    if steps != [] {
      StepSourced(s, steps[0], rejections);
      RunSourced(Apply(s, steps[0]), steps[1..], rejections);
    }
  }

  /** Over all interleavings, a value that a read returns for a key was written for that key
      on some layer; only a run with a half-open rejection can also return the empty value. */
  lemma Provenance(layers: nat, steps: seq<Step>, c: nat)
    requires layers > 0 && Runs(Init(layers), steps)
    requires c < |Exec(Init(layers), steps).calls|
    requires Exec(Init(layers), steps).calls[c].Returned? && Exec(Init(layers), steps).calls[c].answer.Hit?
    ensures
      var s := Exec(Init(layers), steps);
      var call := s.calls[c];
      || (call.key, call.answer.value) in s.written
      || (call.answer.value == Nil && exists p :: 0 <= p < |steps| && IsRejection(steps[p]))
  {
    var rejections := exists p :: 0 <= p < |steps| && IsRejection(steps[p]);
    RunSourced(Init(layers), steps, rejections);
    var s := Exec(Init(layers), steps);
    assert CallSourced(s, s.calls[c], rejections);
  }

  /** The empty two-layer chain, and one step of a run written out state by state. */
  lemma InitOfTwo()
    ensures Init(2) == State([map[], map[]], [[], []], [], {}, map[])
  {
    assert Init(2).layers == [map[], map[]];
    assert Init(2).pending == [[], []];
  }

  lemma Extend(s0: State, steps: seq<Step>, step: Step, s: State, t: State) returns (more: seq<Step>)
    requires Runs(s0, steps) && Exec(s0, steps) == s
    requires Enabled(s, step) && Apply(s, step) == t
    ensures Runs(s0, more) && Exec(s0, more) == t && more == steps + [step]
  {
    RunExtends(s0, steps, step);
    more := steps + [step];
  }

  /** A complete Set of one key over the empty chain of two layers. */
  lemma SetReachesBothLayers(key: Key, value: Value) returns (steps: seq<Step>)
    ensures Runs(Init(2), steps)
    ensures Exec(Init(2), steps)
         == State([map[key := value], map[key := value]], [[], []], [Finished], {(key, value)}, map[key := value])
  {
    InitOfTwo();
    var s0 := State([map[], map[]], [[], []], [], {}, map[]);
    var s1 := State([map[], map[]], [[], []], [Setting(key, value, 0)], {}, map[key := value]);
    var s2 := State([map[key := value], map[]], [[], []], [Setting(key, value, 1)], {(key, value)}, map[key := value]);
    var s3 := State([map[key := value], map[key := value]], [[], []], [Finished], {(key, value)}, map[key := value]);
    steps := [];
    steps := Extend(s0, steps, BeginSet(key, value), s0, s1);
    steps := Extend(s0, steps, Visit(0, true, true), s1, s2);
    steps := Extend(s0, steps, Visit(0, true, true), s2, s3);
  }

  /** A read of a key that both layers hold times out at the first layer and is rejected as one
      too many at the second. */
  lemma RejectedReadHits(key: Key, value: Value) returns (steps: seq<Step>)
    ensures Runs(Init(2), steps)
    ensures Exec(Init(2), steps)
         == State([map[key := value], map[key := value]], [[], []], [Finished, Warming(key, Nil, 1)],
                  {(key, value)}, map[key := value])
  {
    var both, w, l := [map[key := value], map[key := value]], {(key, value)}, map[key := value];
    var s0 := State(both, [[], []], [Finished], w, l);
    var s1 := State(both, [[], []], [Finished, Probing(key, 0)], w, l);
    var s2 := State(both, [[], []], [Finished, Probing(key, 1)], w, l);
    var s3 := State(both, [[], []], [Finished, Warming(key, Nil, 1)], w, l);
    steps := SetReachesBothLayers(key, value);
    steps := Extend(Init(2), steps, BeginGet(key), s0, s1);
    steps := Extend(Init(2), steps, Probe(1, NoAnswer(Timeout)), s1, s2);
    steps := Extend(Init(2), steps, Probe(1, RejectedTooMany), s2, s3);
  }

  /** What one half-open rejection does: a read of a key that every layer holds returns the
      empty value, and later reads get it from the first layer. */
  lemma RejectionPoisonsUpperLayers(key: Key, value: Value) returns (steps: seq<Step>)
    requires value != Nil
    ensures Runs(Init(2), steps)
    ensures Exec(Init(2), steps)
         == State([map[key := Nil], map[key := value]], [[], []], [Finished, Returned(key, Hit(Nil))],
                  {(key, value)}, map[key := value])
  {
    var both, w, l := [map[key := value], map[key := value]], {(key, value)}, map[key := value];
    var s3 := State(both, [[], []], [Finished, Warming(key, Nil, 1)], w, l);
    var s4 := State(both, [[WarmUp(key, Nil)], []], [Finished, Returned(key, Hit(Nil))], w, l);
    var s5 := State([map[key := Nil], map[key := value]], [[], []], [Finished, Returned(key, Hit(Nil))], w, l);
    steps := RejectedReadHits(key, value);
    assert s3.pending[0] + [WarmUp(key, Nil)] == s4.pending[0];
    steps := Extend(Init(2), steps, Offer(1, true), s3, s4);
    assert s4.pending[0][..0] + s4.pending[0][1..] == s5.pending[0];
    assert s4.layers[0][key := Nil] == s5.layers[0];
    steps := Extend(Init(2), steps, ApplyWarmUp(0, 0, true), s4, s5);
  }

  // ---------------------------------------------------------------------------------------
  // Calls and warm-ups of one key
  // ---------------------------------------------------------------------------------------

  predicate ReadOf(call: Call, key: Key) { (call.Probing? || call.Warming?) && call.key == key }
  predicate WriteOf(call: Call, key: Key) { (call.Setting? || call.Deleting?) && call.key == key }

  ghost predicate NoWriteOf(s: State, key: Key) {
    forall c :: 0 <= c < |s.calls| ==> !WriteOf(s.calls[c], key)
  }

  ghost predicate NoReadOf(s: State, key: Key) {
    forall c :: 0 <= c < |s.calls| ==> !ReadOf(s.calls[c], key)
  }

  ghost predicate NoWarmUpOf(s: State, key: Key) {
    forall i, j :: 0 <= i < |s.pending| && 0 <= j < |s.pending[i]| ==> s.pending[i][j].key != key
  }

  lemma PendingAfter(s: State, step: Step, i: nat, j: nat)
    requires Shaped(s) && Enabled(s, step)
    requires i < |s.pending| && j < |Apply(s, step).pending[i]|
    ensures Apply(s, step).pending[i][j] in s.pending[i] ||
            (step.Offer? && Apply(s, step).pending[i][j] == WarmUp(s.calls[step.c].key, s.calls[step.c].value))
  {
    if step.ApplyWarmUp? && i == step.layer && j >= step.j {
      assert Apply(s, step).pending[i][j] == s.pending[i][j + 1];
    }
  }
}
