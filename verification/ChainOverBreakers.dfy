/** The chain with a breaker in front of every layer: what a layer answers to a read, a write or
    a warm-up is decided by its own breaker, which learns of the outcome some time later. Every
    run of this system is a run of the chain protocol, in which a rejection is no longer a free
    choice. */
module ChainOverBreakers {
  import opened CacheTypes
  import opened Resilience
  import opened P = ChainProtocol
  import B = CircuitBreaker
  import GuardedLayer
  import ChainCoherence

  /** A call that layer's breaker has admitted, with the outcome that it will report. */
  datatype Admitted = Admitted(layer: nat, ticket: nat, success: bool)

  datatype System = System(chain: P.State, breakers: seq<B.Breaker>, admitted: seq<Admitted>)

  datatype Move =
    | Own(step: P.Step)
    | Ask(c: nat, fault: Option<Error>, late: bool)
    | Write(c: nat, fault: Option<Error>, tookEffect: bool)
    | WarmUp(layer: nat, j: nat, fault: Option<Error>, tookEffect: bool)
    | Report(r: nat)
    | NewPeriod(layer: nat)
    | CoolDown(layer: nat)

  function Init(layers: nat, start: nat): System {
    System(P.Init(layers), seq(layers, _ => B.Init(start)), [])
  }

  /** The steps of the chain that call no layer. */
  predicate CallsNoLayer(step: P.Step) { !step.Probe? && !step.Visit? && !step.ApplyWarmUp? }

  predicate Fits(y: System) { |y.breakers| == |y.chain.layers| }

  /** The layer that a move calls, if any. */
  function LayerOf(y: System, move: Move): Option<nat> {
    match move
    case Ask(c, _, _) => if c < |y.chain.calls| && y.chain.calls[c].Probing? then Some(y.chain.calls[c].next) else None
    case Write(c, _, _) =>
      if c < |y.chain.calls| && (y.chain.calls[c].Setting? || y.chain.calls[c].Deleting?)
      then Some(y.chain.calls[c].next) else None
    case WarmUp(layer, j, _, _) => if layer < |y.chain.pending| && j < |y.chain.pending[layer]| then Some(layer) else None
    case _ => None
  }

  predicate CallsLayer(move: Move) { move.Ask? || move.Write? || move.WarmUp? }

  predicate Enabled(y: System, move: Move) {
    Fits(y) &&
    match move
    case Own(step) => CallsNoLayer(step) && P.Enabled(y.chain, step)
    case Report(r) =>
      r < |y.admitted| && y.admitted[r].layer < |y.breakers| &&
      B.Enabled(y.breakers[y.admitted[r].layer], B.Complete(y.admitted[r].ticket, y.admitted[r].success))
    case NewPeriod(layer) => layer < |y.breakers| && B.Enabled(y.breakers[layer], B.NewPeriod)
    case CoolDown(layer) => layer < |y.breakers| && B.Enabled(y.breakers[layer], B.CoolDown)
    case _ => LayerOf(y, move).Some? && LayerOf(y, move).value < |y.breakers|
  }

  /** What the layer's breaker makes of the call. */
  function WeatherOf(y: System, move: Move): Weather
    requires Enabled(y, move) && CallsLayer(move)
  {
    var b := y.breakers[LayerOf(y, move).value];
    match move
    case Ask(_, fault, late) => GuardedLayer.Verdict(b, fault, false, late)
    case Write(_, fault, tookEffect) => GuardedLayer.Verdict(b, fault, tookEffect, false)
    case WarmUp(_, _, fault, tookEffect) => GuardedLayer.Verdict(b, fault, tookEffect, false)
  }

  /** The layer as the resilient layer sees it; times to live do not matter to an answer. */
  function Holding(layer: map<Key, Value>): Contents {
    map k | k in layer :: Item(layer[k], 0)
  }

  /** The read's answer as a step of the chain. */
  function ProbeOf(answer: Answer, weather: Weather): P.Probe {
    if weather.RejectedTooMany? then P.RejectedTooMany
    else match answer
      case Hit(_) => P.Answered
      case Failed(error) => P.NoAnswer(error)
  }

  /** The step that the chain takes. */
  function StepOf(y: System, move: Move): Option<P.Step>
    requires Enabled(y, move)
  {
    match move
    case Own(step) => Some(step)
    case Ask(c, _, _) =>
      var call, weather := y.chain.calls[c], WeatherOf(y, move);
      Some(P.Step.Probe(c, ProbeOf(GetAnswer(Holding(y.chain.layers[call.next]), call.key, weather), weather)))
    case Write(c, _, _) =>
      Some(P.Visit(c, WriteApplies(WeatherOf(y, move)), WriteOutcome(WeatherOf(y, move)).Ok?))
    case WarmUp(layer, j, _, _) => Some(P.ApplyWarmUp(layer, j, WriteApplies(WeatherOf(y, move))))
    case _ => None
  }

  lemma StepIsEnabled(y: System, move: Move)
    requires Enabled(y, move)
    ensures StepOf(y, move).Some? ==> P.Enabled(y.chain, StepOf(y, move).value)
  {
  }

  /** Whether an admitted call will be counted as a success. */
  function Succeeds(y: System, move: Move): bool
    requires Enabled(y, move) && CallsLayer(move)
  {
    var contents := Holding(y.chain.layers[LayerOf(y, move).value]);
    GuardedLayer.Succeeded(GuardedLayer.Ran(OpOf(y, move), 0, contents, move.fault, false))
  }

  /** What the layer is called for. */
  function OpOf(y: System, move: Move): GuardedLayer.Op
    requires Enabled(y, move) && CallsLayer(move)
  {
    match move
    case Ask(c, _, _) => GuardedLayer.Get(y.chain.calls[c].key)
    case Write(c, _, _) =>
      var call := y.chain.calls[c];
      if call.Setting? then GuardedLayer.Set(call.key, call.value, 0) else GuardedLayer.Delete(call.key)
    case WarmUp(layer, j, _, _) =>
      var w := y.chain.pending[layer][j];
      GuardedLayer.Set(w.key, w.value, 0)
  }

  function Update(y: System, layer: nat, event: B.Event): seq<B.Breaker>
    requires layer < |y.breakers| && B.Enabled(y.breakers[layer], event)
  {
    y.breakers[layer := B.Apply(y.breakers[layer], event)]
  }

  function Apply(y: System, move: Move): System
    requires Enabled(y, move)
  {
    StepIsEnabled(y, move);
    var chain := if StepOf(y, move).Some? then P.Apply(y.chain, StepOf(y, move).value) else y.chain;
    match move
    case Own(_) => y.(chain := chain)
    case Report(r) =>
      var a := y.admitted[r];
      y.(breakers := Update(y, a.layer, B.Complete(a.ticket, a.success)))
    case NewPeriod(layer) => y.(breakers := Update(y, layer, B.NewPeriod))
    case CoolDown(layer) => y.(breakers := Update(y, layer, B.CoolDown))
    case _ =>
      var layer := LayerOf(y, move).value;
      var b := y.breakers[layer];
      System(chain, Update(y, layer, B.Call),
             if B.Rejects(b) then y.admitted
             else y.admitted + [Admitted(layer, |b.tickets|, Succeeds(y, move))])
  }

  predicate IsRun(y: System, moves: seq<Move>)
    decreases |moves|
  {
    moves == [] || (Enabled(y, moves[0]) && IsRun(Apply(y, moves[0]), moves[1..]))
  }

  function Exec(y: System, moves: seq<Move>): System
    requires IsRun(y, moves)
    decreases |moves|
  {
    if moves == [] then y else Exec(Apply(y, moves[0]), moves[1..])
  }

  // ---------------------------------------------------------------------------------------
  // Every run is a run of the chain
  // ---------------------------------------------------------------------------------------

  function ChainSteps(y: System, moves: seq<Move>): seq<P.Step>
    requires IsRun(y, moves)
    decreases |moves|
  {
    if moves == [] then []
    else
      (if StepOf(y, moves[0]).Some? then [StepOf(y, moves[0]).value] else [])
        + ChainSteps(Apply(y, moves[0]), moves[1..])
  }

  lemma {:induction false} IsChainRun(y: System, moves: seq<Move>)
    requires IsRun(y, moves)
    ensures P.Runs(y.chain, ChainSteps(y, moves))
    ensures P.Exec(y.chain, ChainSteps(y, moves)) == Exec(y, moves).chain
    decreases |moves|
  {
    if moves != [] {
      StepIsEnabled(y, moves[0]);
      var rest := ChainSteps(Apply(y, moves[0]), moves[1..]);
      IsChainRun(Apply(y, moves[0]), moves[1..]);
      if StepOf(y, moves[0]).Some? {
        assert ChainSteps(y, moves)[1..] == rest;
      } else {
        assert ChainSteps(y, moves) == rest;
      }
    }
  }

  // ---------------------------------------------------------------------------------------
  // Layers that only hit or miss
  // ---------------------------------------------------------------------------------------

  /** The layer hits or misses, and takes its writes. */
  predicate IsHealthy(move: Move) {
    match move
    case Ask(_, fault, _) => fault.None? || fault == Some(NotFound)
    case Write(_, fault, _) => fault.None?
    case WarmUp(_, _, fault, _) => fault.None?
    case _ => true
  }

  predicate AllHealthy(moves: seq<Move>) { forall i :: 0 <= i < |moves| ==> IsHealthy(moves[i]) }

  ghost predicate Healthy(y: System) {
    && (forall i :: 0 <= i < |y.breakers| ==> y.breakers[i].phase.Closed?)
    && (forall r :: 0 <= r < |y.admitted| ==> y.admitted[r].success)
  }

  lemma StepHealthy(y: System, move: Move)
    requires Healthy(y) && Enabled(y, move) && IsHealthy(move)
    ensures Healthy(Apply(y, move))
    ensures CallsLayer(move) ==> WeatherOf(y, move).Runs?
  {
  }

  /** The chain's view of such a move: no rejection, and writes take effect without an error. */
  predicate IsHealthyStep(step: P.Step) {
    && !P.IsRejection(step)
    && (step.Visit? ==> step.applied && step.ok)
    && (step.ApplyWarmUp? ==> step.applied)
  }

  lemma {:induction false} HealthySteps(y: System, moves: seq<Move>)
    requires Healthy(y) && IsRun(y, moves) && AllHealthy(moves)
    ensures Healthy(Exec(y, moves))
    ensures forall p :: 0 <= p < |ChainSteps(y, moves)| ==> IsHealthyStep(ChainSteps(y, moves)[p])
    decreases |moves|
  {
    if moves != [] {
      StepHealthy(y, moves[0]);
      HealthySteps(Apply(y, moves[0]), moves[1..]);
    }
  }

  /** Over layers that only hit or miss and take their writes, whatever the interleaving, no
      breaker leaves the closed state and no read is rejected; so a value that a read returns
      was written for its key. */
  lemma HealthyProvenance(layers: nat, start: nat, moves: seq<Move>, c: nat)
    requires layers > 0 && IsRun(Init(layers, start), moves) && AllHealthy(moves)
    requires c < |Exec(Init(layers, start), moves).chain.calls|
    requires
      var call := Exec(Init(layers, start), moves).chain.calls[c];
      call.Returned? && call.answer.Hit?
    ensures
      var y := Exec(Init(layers, start), moves);
      && (y.chain.calls[c].key, y.chain.calls[c].answer.value) in y.chain.written
      && forall i :: 0 <= i < |y.breakers| ==> y.breakers[i].phase.Closed?
  {
    var y := Init(layers, start);
    HealthySteps(y, moves);
    IsChainRun(y, moves);
    P.Provenance(layers, ChainSteps(y, moves), c);
  }

  /** What is left of the discipline of one key once its layers are healthy: when its calls
      begin, and that nothing cuts its writes short or goes to a layer directly. */
  ghost predicate WellTimed(y: System, moves: seq<Move>, key: Key)
    requires IsRun(y, moves)
    decreases |moves|
  {
    moves == [] ||
    ((moves[0].Own? ==> ChainCoherence.Disciplined(y.chain, moves[0].step, key)) &&
     WellTimed(Apply(y, moves[0]), moves[1..], key))
  }

  lemma {:induction false} WellTimedIsDisciplined(y: System, moves: seq<Move>, key: Key)
    requires Healthy(y) && IsRun(y, moves) && AllHealthy(moves) && WellTimed(y, moves, key)
    ensures P.Runs(y.chain, ChainSteps(y, moves))
    ensures ChainCoherence.DisciplinedRun(y.chain, ChainSteps(y, moves), key)
    decreases |moves|
  {
    IsChainRun(y, moves);
    if moves != [] {
      StepIsEnabled(y, moves[0]);
      StepHealthy(y, moves[0]);
      var rest := ChainSteps(Apply(y, moves[0]), moves[1..]);
      WellTimedIsDisciplined(Apply(y, moves[0]), moves[1..], key);
      if StepOf(y, moves[0]).Some? {
        assert ChainSteps(y, moves)[1..] == rest;
      } else {
        assert ChainSteps(y, moves) == rest;
      }
    }
  }

  /** Over healthy layers a key whose calls are well timed is coherent: whenever no write of it
      is unfinished, every layer that holds it holds the last Set's value. */
  lemma HealthyCoherence(layers: nat, start: nat, moves: seq<Move>, key: Key)
    requires layers > 0 && IsRun(Init(layers, start), moves) && AllHealthy(moves)
    requires WellTimed(Init(layers, start), moves, key)
    ensures
      var s := Exec(Init(layers, start), moves).chain;
      P.NoWriteOf(s, key) ==> forall i :: 0 <= i < |s.layers| && key in s.layers[i] ==>
        ChainCoherence.LastStarted(ChainSteps(Init(layers, start), moves), key) == Some(s.layers[i][key])
  {
    var y := Init(layers, start);
    IsChainRun(y, moves);
    WellTimedIsDisciplined(y, moves, key);
    ChainCoherence.Coherence(layers, ChainSteps(y, moves), key);
  }
}
