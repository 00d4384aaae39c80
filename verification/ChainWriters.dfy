/** The chain with an asynchronous writer per layer: a read that warms upper layers calls Write,
    and a warm-up reaches its layer when a worker's layer.Set returns. Every run of this system
    is a run of the chain protocol, in which the warm-ups of a layer are exactly the ops that
    its writer has accepted and not finished, in accept order. */
module ChainWriters {
  import opened CacheTypes
  import A = AsyncWriterProtocol
  import P = ChainProtocol

  /** owners[i][p] is the chain's call that makes call number p of Write at writer i. */
  datatype System = System(chain: P.State, writers: seq<A.State>, owners: seq<seq<nat>>)

  datatype Move =
    | Own(step: P.Step)
    | BeginOffer(c: nat, ttl: int, callerDone: bool)
    | Writer(i: nat, action: A.Step, tookEffect: bool)

  datatype Size = Size(capacity: nat, workers: nat)

  function Init(sizes: seq<Size>): System {
    System(P.Init(|sizes|),
           seq(|sizes|, i requires 0 <= i < |sizes| => A.Init(sizes[i].capacity, sizes[i].workers)),
           seq(|sizes|, _ => []))
  }

  // ---------------------------------------------------------------------------------------
  // A writer's unfinished ops
  // ---------------------------------------------------------------------------------------

  function WarmUpOf(op: A.WriteOp): P.WarmUp { P.WarmUp(op.key, op.value) }

  /** Those of the first n accepted ops that have not been through layer.Set, in order. */
  function Unfinished(accepted: seq<A.WriteOp>, finished: seq<nat>, n: nat): seq<P.WarmUp>
    requires n <= |accepted|
  {
    if n == 0 then []
    else Unfinished(accepted, finished, n - 1) + if n - 1 in finished then [] else [WarmUpOf(accepted[n - 1])]
  }

  function Backlog(s: A.State): seq<P.WarmUp> {
    Unfinished(s.hist.accepted, s.hist.finished, |s.hist.accepted|)
  }

  /** The place of op number i in the backlog. */
  function PlaceOf(s: A.State, i: nat): nat
    requires i <= |s.hist.accepted|
  {
    |Unfinished(s.hist.accepted, s.hist.finished, i)|
  }

  lemma {:induction false} UnfinishedOfPrefix(accepted: seq<A.WriteOp>, op: A.WriteOp, finished: seq<nat>, n: nat)
    requires n <= |accepted|
    ensures Unfinished(accepted + [op], finished, n) == Unfinished(accepted, finished, n)
  {
    if n > 0 {
      UnfinishedOfPrefix(accepted, op, finished, n - 1);
    }
  }

  lemma {:induction false} LaterDoesNotCount(accepted: seq<A.WriteOp>, finished: seq<nat>, i: nat, n: nat)
    requires n <= i && n <= |accepted|
    ensures Unfinished(accepted, finished + [i], n) == Unfinished(accepted, finished, n)
  {
    if n > 0 {
      LaterDoesNotCount(accepted, finished, i, n - 1);
    }
  }

  /** Finishing op i takes it out of the backlog, and nothing else. */
  lemma {:induction false} FinishTakesOut(accepted: seq<A.WriteOp>, finished: seq<nat>, i: nat, n: nat)
    requires i < n <= |accepted| && i !in finished
    ensures
      var before, j := Unfinished(accepted, finished, n), |Unfinished(accepted, finished, i)|;
      && j < |before| && before[j] == WarmUpOf(accepted[i])
      && Unfinished(accepted, finished + [i], n) == before[..j] + before[j + 1..]
  {
    LaterDoesNotCount(accepted, finished, i, i);
    if i < n - 1 {
      FinishTakesOut(accepted, finished, i, n - 1);
    }
  }

  /** The writer is in a state that it can reach. */
  ghost predicate Reached(w: A.State) {
    exists capacity: nat, workers: nat, steps :: IsReachedBy(w, capacity, workers, steps)
  }

  ghost predicate IsReachedBy(w: A.State, capacity: nat, workers: nat, steps: seq<A.Step>) {
    workers > 0 && A.Runs(A.Init(capacity, workers), steps) && A.Exec(A.Init(capacity, workers), steps) == w
  }

  lemma ReachedInv(w: A.State)
    requires Reached(w)
    ensures A.Inv(w)
  {
    var capacity: nat, workers: nat, steps :| IsReachedBy(w, capacity, workers, steps);
    A.ReachableInv(capacity, workers, steps);
  }

  lemma StepReached(w: A.State, step: A.Step)
    requires Reached(w) && A.Enabled(w, step)
    ensures Reached(A.Apply(w, step))
  {
    var capacity: nat, workers: nat, steps :| IsReachedBy(w, capacity, workers, steps);
    A.RunExtends(A.Init(capacity, workers), steps, step);
    assert IsReachedBy(A.Apply(w, step), capacity, workers, steps + [step]);
  }

  lemma EnqueueBacklog(s: A.State, p: nat)
    requires Reached(s) && A.Enabled(s, A.Enqueue(p))
    ensures Backlog(A.Apply(s, A.Enqueue(p))) == Backlog(s) + [WarmUpOf(s.producers[p].op)]
  {
    var n := |s.hist.accepted|;
    ReachedInv(s);
    UnfinishedOfPrefix(s.hist.accepted, s.producers[p].op, s.hist.finished, n);
    A.FinishedOccurs(s.hist.finished, n);
  }

  lemma ReturnBacklog(s: A.State, w: nat, ok: bool)
    requires Reached(s) && A.Enabled(s, A.SetReturns(w, ok))
    ensures
      var i := s.workers[w].index;
      && i < |s.hist.accepted|
      && var j := PlaceOf(s, i);
      && j < |Backlog(s)| && Backlog(s)[j] == WarmUpOf(s.workers[w].op)
      && Backlog(A.Apply(s, A.SetReturns(w, ok))) == Backlog(s)[..j] + Backlog(s)[j + 1..]
  {
    var i := s.workers[w].index;
    ReachedInv(s);
    A.CarriedIsInFlight(s.workers, i);
    A.FinishedOccurs(s.hist.finished, i);
    FinishTakesOut(s.hist.accepted, s.hist.finished, i, |s.hist.accepted|);
  }

  /** A step of the writer that is neither leaves the backlog alone. */
  lemma OtherBacklog(s: A.State, step: A.Step)
    requires A.Enabled(s, step) && !step.Enqueue? && !step.SetReturns?
    ensures Backlog(A.Apply(s, step)) == Backlog(s)
  {
  }

  // ---------------------------------------------------------------------------------------
  // The system
  // ---------------------------------------------------------------------------------------

  predicate Fits(y: System) {
    && |y.writers| == |y.owners| == |y.chain.layers| == |y.chain.pending|
    && forall i :: 0 <= i < |y.writers| ==> |y.owners[i]| == |y.writers[i].producers|
  }

  /** The read is waiting for its call of Write at writer i. */
  predicate IsOffering(y: System, c: nat, i: nat)
    requires Fits(y) && i < |y.writers|
  {
    exists p :: 0 <= p < |y.owners[i]| && y.owners[i][p] == c && y.writers[i].producers[p].Gated?
  }

  predicate Enabled(y: System, move: Move) {
    Fits(y) &&
    match move
    case Own(step) => !step.Offer? && !step.ApplyWarmUp? && P.Enabled(y.chain, step)
    case BeginOffer(c, _, _) =>
      && c < |y.chain.calls| && y.chain.calls[c].Warming? && 0 < y.chain.calls[c].next <= |y.writers|
      && !IsOffering(y, c, y.chain.calls[c].next - 1)
    case Writer(i, step, tookEffect) =>
      && i < |y.writers| && !step.Arrive? && A.Enabled(y.writers[i], step)
      && (step.SetReturns? && step.ok ==> tookEffect)
  }

  /** The step that the chain takes: a Write that has sent its op, or has given up, is an offer,
      and the return of layer.Set is the application of a warm-up. */
  function StepOf(y: System, move: Move): Option<P.Step>
    requires Enabled(y, move)
  {
    match move
    case Own(step) => Some(step)
    case BeginOffer(c, _, callerDone) =>
      if y.writers[y.chain.calls[c].next - 1].cancelled || callerDone then Some(P.Offer(c, false)) else None
    case Writer(i, step, tookEffect) =>
      match step
      case Enqueue(p) => Some(P.Offer(y.owners[i][p], true))
      case TimeOut(p) => Some(P.Offer(y.owners[i][p], false))
      case CallerGivesUp(p) => Some(P.Offer(y.owners[i][p], false))
      case SeeClosed(p) => Some(P.Offer(y.owners[i][p], false))
      case SetReturns(w, _) =>
        if y.writers[i].workers[w].index <= |y.writers[i].hist.accepted|
        then Some(P.ApplyWarmUp(i, PlaceOf(y.writers[i], y.writers[i].workers[w].index), tookEffect))
        else None
      case _ => None
  }

  /** A warming read's offer as a call of Write. */
  function ArriveOf(y: System, c: nat, ttl: int, callerDone: bool): A.Step
    requires c < |y.chain.calls| && y.chain.calls[c].Warming?
  {
    A.Arrive(A.WriteOp(y.chain.calls[c].key, y.chain.calls[c].value, ttl), callerDone)
  }

  function Apply(y: System, move: Move): System
    requires Enabled(y, move)
    requires StepOf(y, move).Some? ==> P.Enabled(y.chain, StepOf(y, move).value)
  {
    var chain := if StepOf(y, move).Some? then P.Apply(y.chain, StepOf(y, move).value) else y.chain;
    match move
    case Own(_) => y.(chain := chain)
    case BeginOffer(c, ttl, callerDone) =>
      var i := y.chain.calls[c].next - 1;
      System(chain, y.writers[i := A.Apply(y.writers[i], ArriveOf(y, c, ttl, callerDone))],
             y.owners[i := y.owners[i] + [c]])
    case Writer(i, step, _) => y.(chain := chain, writers := y.writers[i := A.Apply(y.writers[i], step)])
  }

  // ---------------------------------------------------------------------------------------
  // The relation that every move keeps
  // ---------------------------------------------------------------------------------------

  /** Writer i as the chain knows it. */
  ghost predicate WriterFits(chain: P.State, w: A.State, owners: seq<nat>, i: nat)
    requires i < |chain.pending|
  {
    && chain.pending[i] == Backlog(w)
    && |owners| == |w.producers|
    && (forall p :: 0 <= p < |owners| && w.producers[p].Gated? ==>
          && owners[p] < |chain.calls|
          && chain.calls[owners[p]] == P.Warming(w.producers[p].op.key, w.producers[p].op.value, i + 1))
    && (forall p, q :: 0 <= p < q < |owners| && w.producers[p].Gated? && w.producers[q].Gated? ==> owners[p] != owners[q])
  }

  ghost predicate Related(y: System) {
    && Fits(y) && P.Shaped(y.chain)
    && (forall i :: 0 <= i < |y.writers| ==> Reached(y.writers[i]))
    && (forall i :: 0 <= i < |y.writers| ==> WriterFits(y.chain, y.writers[i], y.owners[i], i))
  }

  lemma StepIsEnabled(y: System, move: Move)
    requires Related(y) && Enabled(y, move)
    ensures StepOf(y, move).Some? ==> P.Enabled(y.chain, StepOf(y, move).value)
  {
    match move {
      case Own(_) =>
      case BeginOffer(_, _, _) =>
      case Writer(i, step, _) =>
        assert WriterFits(y.chain, y.writers[i], y.owners[i], i);
        if step.SetReturns? {
          ReturnBacklog(y.writers[i], step.w, step.ok);
        }
    }
  }

  /** A chain step that neither queues nor applies a warm-up leaves every writer fitting. */
  lemma OwnKeepsFit(chain: P.State, step: P.Step, w: A.State, owners: seq<nat>, i: nat)
    requires P.Enabled(chain, step) && !step.Offer? && !step.ApplyWarmUp?
    requires i < |chain.pending| && WriterFits(chain, w, owners, i)
    ensures i < |P.Apply(chain, step).pending| && WriterFits(P.Apply(chain, step), w, owners, i)
  {
  }

  /** An offer made elsewhere leaves the writer fitting. */
  lemma OfferElsewhere(chain: P.State, c: nat, accepted: bool, w: A.State, owners: seq<nat>, i: nat)
    requires P.Enabled(chain, P.Offer(c, accepted)) && chain.calls[c].next != i + 1
    requires i < |chain.pending| && WriterFits(chain, w, owners, i)
    ensures i < |P.Apply(chain, P.Offer(c, accepted)).pending|
    ensures WriterFits(P.Apply(chain, P.Offer(c, accepted)), w, owners, i)
  {
  }

  /** The application of a warm-up elsewhere leaves the writer fitting. */
  lemma ApplyElsewhere(chain: P.State, layer: nat, j: nat, applied: bool, w: A.State, owners: seq<nat>, i: nat)
    requires P.Enabled(chain, P.ApplyWarmUp(layer, j, applied)) && layer != i
    requires i < |chain.pending| && WriterFits(chain, w, owners, i)
    ensures i < |P.Apply(chain, P.ApplyWarmUp(layer, j, applied)).pending|
    ensures WriterFits(P.Apply(chain, P.ApplyWarmUp(layer, j, applied)), w, owners, i)
  {
  }

  /** A Write that sends its op, or gives up, at writer i. */
  lemma SelectFits(chain: P.State, w: A.State, step: A.Step, owners: seq<nat>, i: nat)
    requires i < |chain.pending| && WriterFits(chain, w, owners, i)
    requires Reached(w) && A.OfWrite(step) && !step.CountWrite? && A.Enabled(w, step) && step.p < |owners|
    requires P.Enabled(chain, P.Offer(owners[step.p], step.Enqueue?))
    ensures WriterFits(P.Apply(chain, P.Offer(owners[step.p], step.Enqueue?)), A.Apply(w, step), owners, i)
  {
    if step.Enqueue? {
      EnqueueBacklog(w, step.p);
    } else {
      OtherBacklog(w, step);
    }
  }

  /** layer.Set returns at writer i. */
  lemma ReturnFits(chain: P.State, w: A.State, step: A.Step, tookEffect: bool, owners: seq<nat>, i: nat)
    requires i < |chain.pending| && i < |chain.layers| && WriterFits(chain, w, owners, i)
    requires Reached(w) && step.SetReturns? && A.Enabled(w, step) && w.workers[step.w].index <= |w.hist.accepted|
    ensures P.Enabled(chain, P.ApplyWarmUp(i, PlaceOf(w, w.workers[step.w].index), tookEffect))
    ensures WriterFits(P.Apply(chain, P.ApplyWarmUp(i, PlaceOf(w, w.workers[step.w].index), tookEffect)), A.Apply(w, step), owners, i)
  {
    ReturnBacklog(w, step.w, step.ok);
  }

  /** Any other step of writer i that is no new call. */
  lemma StutterFits(chain: P.State, w: A.State, step: A.Step, owners: seq<nat>, i: nat)
    requires i < |chain.pending| && WriterFits(chain, w, owners, i)
    requires A.Enabled(w, step) && !step.Arrive? && !step.SetReturns? && (A.OfWrite(step) ==> step.CountWrite?)
    ensures WriterFits(chain, A.Apply(w, step), owners, i)
  {
    OtherBacklog(w, step);
  }

  /** A new call of Write that gets past the gate. */
  lemma ArriveFits(chain: P.State, w: A.State, op: A.WriteOp, c: nat, owners: seq<nat>, i: nat)
    requires i < |chain.pending| && WriterFits(chain, w, owners, i) && !w.cancelled
    requires c < |chain.calls| && chain.calls[c] == P.Warming(op.key, op.value, i + 1)
    requires forall p :: 0 <= p < |owners| && owners[p] == c ==> !w.producers[p].Gated?
    ensures WriterFits(chain, A.Apply(w, A.Arrive(op, false)), owners + [c], i)
  {
    OtherBacklog(w, A.Arrive(op, false));
  }

  /** A new call of Write that is refused at the gate. */
  lemma RefusedFits(chain: P.State, w: A.State, op: A.WriteOp, callerDone: bool, c: nat, owners: seq<nat>, i: nat)
    requires i < |chain.pending| && WriterFits(chain, w, owners, i) && (w.cancelled || callerDone)
    requires P.Enabled(chain, P.Offer(c, false)) && chain.calls[c].next == i + 1
    requires forall p :: 0 <= p < |owners| && owners[p] == c ==> !w.producers[p].Gated?
    ensures WriterFits(P.Apply(chain, P.Offer(c, false)), A.Apply(w, A.Arrive(op, callerDone)), owners + [c], i)
  {
    OtherBacklog(w, A.Arrive(op, callerDone));
  }

  /** A call of Write that comes to the gate of its writer. */
  lemma BeginFits(y: System, c: nat, ttl: int, callerDone: bool)
    requires Related(y) && Enabled(y, BeginOffer(c, ttl, callerDone))
    requires StepOf(y, BeginOffer(c, ttl, callerDone)).Some? ==>
      P.Enabled(y.chain, StepOf(y, BeginOffer(c, ttl, callerDone)).value)
    ensures
      var z := Apply(y, BeginOffer(c, ttl, callerDone));
      Fits(z) && forall i :: 0 <= i < |z.writers| ==> WriterFits(z.chain, z.writers[i], z.owners[i], i)
  {
    var z, k := Apply(y, BeginOffer(c, ttl, callerDone)), y.chain.calls[c].next - 1;
    var op := A.WriteOp(y.chain.calls[c].key, y.chain.calls[c].value, ttl);
    forall i | 0 <= i < |z.writers|
      ensures WriterFits(z.chain, z.writers[i], z.owners[i], i)
    {
      assert WriterFits(y.chain, y.writers[i], y.owners[i], i);
      if i == k && !y.writers[k].cancelled && !callerDone {
        ArriveFits(y.chain, y.writers[k], op, c, y.owners[k], k);
      } else if i == k {
        RefusedFits(y.chain, y.writers[k], op, callerDone, c, y.owners[k], k);
      } else if y.writers[k].cancelled || callerDone {
        OfferElsewhere(y.chain, c, false, y.writers[i], y.owners[i], i);
      }
    }
  }

  /** A step of a writer as the chain sees it. */
  lemma WriterMoveFits(y: System, k: nat, action: A.Step, tookEffect: bool, i: nat)
    requires Related(y) && Enabled(y, Writer(k, action, tookEffect)) && i < |y.writers|
    requires StepOf(y, Writer(k, action, tookEffect)).Some? ==>
      P.Enabled(y.chain, StepOf(y, Writer(k, action, tookEffect)).value)
    ensures
      var z := Apply(y, Writer(k, action, tookEffect));
      Fits(z) && WriterFits(z.chain, z.writers[i], z.owners[i], i)
  {
    var z := Apply(y, Writer(k, action, tookEffect));
    assert WriterFits(y.chain, y.writers[i], y.owners[i], i) && WriterFits(y.chain, y.writers[k], y.owners[k], k);
    if action.SetReturns? {
      ReturnBacklog(y.writers[k], action.w, action.ok);
      if i == k {
        ReturnFits(y.chain, y.writers[k], action, tookEffect, y.owners[k], k);
      } else {
        ApplyElsewhere(y.chain, k, PlaceOf(y.writers[k], y.writers[k].workers[action.w].index), tookEffect,
                       y.writers[i], y.owners[i], i);
      }
    } else if A.OfWrite(action) && !action.CountWrite? {
      if i == k {
        SelectFits(y.chain, y.writers[k], action, y.owners[k], k);
      } else {
        OfferElsewhere(y.chain, y.owners[k][action.p], action.Enqueue?, y.writers[i], y.owners[i], i);
      }
    } else if i == k {
      StutterFits(y.chain, y.writers[k], action, y.owners[k], k);
    }
  }

  lemma MoveIsReached(y: System, move: Move)
    requires Related(y) && Enabled(y, move)
    requires StepOf(y, move).Some? ==> P.Enabled(y.chain, StepOf(y, move).value)
    ensures forall i :: 0 <= i < |Apply(y, move).writers| ==> Reached(Apply(y, move).writers[i])
  {
    match move {
      case Own(_) =>
      case BeginOffer(c, ttl, callerDone) => StepReached(y.writers[y.chain.calls[c].next - 1], ArriveOf(y, c, ttl, callerDone));
      case Writer(i, action, _) => StepReached(y.writers[i], action);
    }
  }

  lemma MoveKeepsShape(y: System, move: Move)
    requires Related(y) && Enabled(y, move)
    requires StepOf(y, move).Some? ==> P.Enabled(y.chain, StepOf(y, move).value)
    ensures P.Shaped(Apply(y, move).chain)
  {
    if StepOf(y, move).Some? {
      P.StepShaped(y.chain, StepOf(y, move).value);
    }
  }

  /** Each move of the system is a step of the chain, or none at all. */
  lemma MoveRefines(y: System, move: Move)
    requires Related(y) && Enabled(y, move)
    ensures StepOf(y, move).Some? ==> P.Enabled(y.chain, StepOf(y, move).value)
    ensures Related(Apply(y, move))
  {
    StepIsEnabled(y, move);
    MoveIsReached(y, move);
    MoveKeepsShape(y, move);
    match move {
      case Own(step) =>
        forall i | 0 <= i < |y.writers|
          ensures i < |Apply(y, move).chain.pending| && WriterFits(Apply(y, move).chain, y.writers[i], y.owners[i], i)
        {
          OwnKeepsFit(y.chain, step, y.writers[i], y.owners[i], i);
        }
      case BeginOffer(c, ttl, callerDone) => BeginFits(y, c, ttl, callerDone);
      case Writer(k, action, tookEffect) =>
        forall i | 0 <= i < |y.writers|
          ensures Fits(Apply(y, move)) && WriterFits(Apply(y, move).chain, Apply(y, move).writers[i], Apply(y, move).owners[i], i)
        {
          WriterMoveFits(y, k, action, tookEffect, i);
        }
    }
  }

  // ---------------------------------------------------------------------------------------
  // Every run is a run of the chain
  // ---------------------------------------------------------------------------------------

  ghost predicate IsRun(y: System, moves: seq<Move>)
    requires Related(y)
    decreases |moves|
  {
    moves == [] || (Enabled(y, moves[0]) && (MoveRefines(y, moves[0]); IsRun(Apply(y, moves[0]), moves[1..])))
  }

  ghost function Exec(y: System, moves: seq<Move>): System
    requires Related(y) && IsRun(y, moves)
    decreases |moves|
  {
    if moves == [] then y
    else
      MoveRefines(y, moves[0]);
      Exec(Apply(y, moves[0]), moves[1..])
  }

  ghost function ChainSteps(y: System, moves: seq<Move>): seq<P.Step>
    requires Related(y) && IsRun(y, moves)
    decreases |moves|
  {
    if moves == [] then []
    else
      MoveRefines(y, moves[0]);
      (if StepOf(y, moves[0]).Some? then [StepOf(y, moves[0]).value] else [])
        + ChainSteps(Apply(y, moves[0]), moves[1..])
  }

  lemma {:induction false} IsChainRun(y: System, moves: seq<Move>)
    requires Related(y) && IsRun(y, moves)
    ensures Related(Exec(y, moves))
    ensures P.Runs(y.chain, ChainSteps(y, moves))
    ensures P.Exec(y.chain, ChainSteps(y, moves)) == Exec(y, moves).chain
    decreases |moves|
  {
    if moves != [] {
      MoveRefines(y, moves[0]);
      var rest := ChainSteps(Apply(y, moves[0]), moves[1..]);
      IsChainRun(Apply(y, moves[0]), moves[1..]);
      if StepOf(y, moves[0]).Some? {
        assert ChainSteps(y, moves)[1..] == rest;
      } else {
        assert ChainSteps(y, moves) == rest;
      }
    }
  }

  ghost predicate WellSized(sizes: seq<Size>) {
    sizes != [] && forall i :: 0 <= i < |sizes| ==> sizes[i].workers > 0
  }

  lemma InitRelated(sizes: seq<Size>)
    requires WellSized(sizes)
    ensures Related(Init(sizes))
  {
    forall i | 0 <= i < |sizes|
      ensures Reached(Init(sizes).writers[i])
    {
      assert IsReachedBy(Init(sizes).writers[i], sizes[i].capacity, sizes[i].workers, []);
    }
  }

  ghost predicate IsRunFromInit(sizes: seq<Size>, moves: seq<Move>)
    requires WellSized(sizes)
  {
    InitRelated(sizes);
    IsRun(Init(sizes), moves)
  }

  /** The chain over its writers is a run of the chain protocol, for any sizes of queues and
      pools; and the warm-ups waiting for a layer are the ops its writer has accepted and not
      finished, in accept order. */
  lemma WritersRefinePending(sizes: seq<Size>, moves: seq<Move>)
    requires WellSized(sizes) && IsRunFromInit(sizes, moves)
    ensures Related(Init(sizes)) && IsRun(Init(sizes), moves)
    ensures
      var y, steps := Exec(Init(sizes), moves), ChainSteps(Init(sizes), moves);
      && P.Runs(P.Init(|sizes|), steps) && P.Exec(P.Init(|sizes|), steps) == y.chain
      && |y.writers| == |y.chain.pending|
      && forall i :: 0 <= i < |y.writers| ==> y.chain.pending[i] == Backlog(y.writers[i])
  {
    InitRelated(sizes);
    IsChainRun(Init(sizes), moves);
    var y := Exec(Init(sizes), moves);
    forall i | 0 <= i < |y.writers|
      ensures y.chain.pending[i] == Backlog(y.writers[i])
    {
      assert WriterFits(y.chain, y.writers[i], y.owners[i], i);
    }
  }
}
