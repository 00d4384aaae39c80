/** The asynchronous writer as a protocol: producers that pass a "closed?" gate and then
    select, a bounded queue, a pool of workers, and a cancel-then-wait shutdown. One channel
    operation or one atomic counter update is one step; steps of different goroutines
    interleave freely. */
module AsyncWriterProtocol {
  import opened CacheTypes
  import opened Sums

  datatype WriteOp = WriteOp(key: Key, value: Value, ttl: int)

  /** A call of Write: past the gate, enqueued but not yet counted, or back at its caller. */
  datatype Producer =
    | Gated(op: WriteOp)
    | Enqueued
    | Returned(outcome: Outcome)

  /** A worker goroutine. `index` is the position of its op among all dequeued ops and
      `draining` says which of the two receive loops it is in. */
  datatype Worker =
    | Receiving
    | Setting(op: WriteOp, index: nat, draining: bool)
    | CountingFailure(draining: bool)
    | Draining
    | Exited

  /** What happened so far; no step reads it. Accepted op number i came from producer
      sources[i]; the two snapshots of the producers are taken at the cancellation and when the
      last worker exits. */
  datatype History = History(
    accepted: seq<WriteOp>,
    sources: seq<nat>,
    dequeued: seq<WriteOp>,
    finished: seq<nat>,
    failures: nat,
    workersAtTake: seq<seq<Worker>>,
    acceptedAtCancel: nat,
    producersAtCancel: seq<Producer>,
    acceptedAtLastExit: nat,
    producersAtLastExit: seq<Producer>)

  datatype State = State(
    capacity: nat,
    queue: seq<WriteOp>,
    producers: seq<Producer>,
    workers: seq<Worker>,
    cancelled: bool,
    closed: bool,
    totalWrites: nat,
    droppedWrites: nat,
    failedWrites: nat,
    hist: History)

  datatype Step =
    | Arrive(op: WriteOp, callerDone: bool)
    | Enqueue(p: nat)
    | CountWrite(p: nat)
    | TimeOut(p: nat)
    | CallerGivesUp(p: nat)
    | SeeClosed(p: nat)
    | Receive(w: nat)
    | SetReturns(w: nat, ok: bool)
    | CountFailure(w: nat)
    | SeeCancel(w: nat)
    | Exit(w: nat)
    | Cancel
    | CloseReturns

  function Init(capacity: nat, workers: nat): State {
    State(capacity, [], [], seq(workers, _ => Receiving), false, false, 0, 0, 0,
          History([], [], [], [], 0, [], 0, [], 0, []))
  }

  predicate AllExited(workers: seq<Worker>) {
    forall i :: 0 <= i < |workers| ==> workers[i].Exited?
  }

  /** Some worker is inside layer.Set for the op dequeued as number i. */
  predicate InFlight(workers: seq<Worker>, i: nat) {
    exists w :: 0 <= w < |workers| && workers[w].Setting? && workers[w].index == i
  }

  predicate HasGated(s: State, p: nat) { p < |s.producers| && s.producers[p].Gated? }

  predicate Enabled(s: State, step: Step) {
    match step
    case Arrive(_, _) => true
    case Enqueue(p) => HasGated(s, p) && |s.queue| < s.capacity
    case CountWrite(p) => p < |s.producers| && s.producers[p].Enqueued?
    case TimeOut(p) => HasGated(s, p)
    case CallerGivesUp(p) => HasGated(s, p)
    case SeeClosed(p) => HasGated(s, p) && s.cancelled
    case Receive(w) =>
      w < |s.workers| && (s.workers[w].Receiving? || s.workers[w].Draining?) && s.queue != []
    case SetReturns(w, _) => w < |s.workers| && s.workers[w].Setting?
    case CountFailure(w) => w < |s.workers| && s.workers[w].CountingFailure?
    case SeeCancel(w) => w < |s.workers| && s.workers[w].Receiving? && s.cancelled
    case Exit(w) => w < |s.workers| && s.workers[w].Draining? && s.queue == []
    case Cancel => !s.cancelled
    case CloseReturns => s.cancelled && AllExited(s.workers) && !s.closed
  }

  function Resume(draining: bool): Worker {
    if draining then Draining else Receiving
  }

  function Answered(s: State, p: nat, outcome: Outcome): State
    requires p < |s.producers|
  {
    s.(producers := s.producers[p := Returned(outcome)])
  }

  function Apply(s: State, step: Step): State
    requires Enabled(s, step)
  {
    match step
    case Arrive(op, callerDone) =>
      var p :=
        if s.cancelled then Returned(Err(WriterClosed))
        else if callerDone then Returned(Err(Cancelled))
        else Gated(op);
      s.(producers := s.producers + [p])
    case Enqueue(p) =>
      s.(queue := s.queue + [s.producers[p].op],
         producers := s.producers[p := Enqueued],
         hist := s.hist.(accepted := s.hist.accepted + [s.producers[p].op], sources := s.hist.sources + [p]))
    case CountWrite(p) => Answered(s, p, Ok).(totalWrites := s.totalWrites + 1)
    case TimeOut(p) => Answered(s, p, Err(QueueFull)).(droppedWrites := s.droppedWrites + 1)
    case CallerGivesUp(p) => Answered(s, p, Err(Cancelled))
    case SeeClosed(p) => Answered(s, p, Err(WriterClosed))
    case Receive(w) =>
      s.(queue := s.queue[1..],
         workers := s.workers[w := Setting(s.queue[0], |s.hist.dequeued|, s.workers[w].Draining?)],
         hist := s.hist.(dequeued := s.hist.dequeued + [s.queue[0]],
                         workersAtTake := s.hist.workersAtTake + [s.workers]))
    case SetReturns(w, ok) =>
      var draining := s.workers[w].draining;
      s.(workers := s.workers[w := if ok then Resume(draining) else CountingFailure(draining)],
         hist := s.hist.(finished := s.hist.finished + [s.workers[w].index],
                         failures := s.hist.failures + if ok then 0 else 1))
    case CountFailure(w) =>
      s.(workers := s.workers[w := Resume(s.workers[w].draining)], failedWrites := s.failedWrites + 1)
    case SeeCancel(w) => s.(workers := s.workers[w := Draining])
    case Exit(w) =>
      var workers := s.workers[w := Exited];
      s.(workers := workers,
         hist := if !AllExited(workers) then s.hist
                 else s.hist.(acceptedAtLastExit := |s.hist.accepted|,
                              producersAtLastExit := s.producers))
    case Cancel =>
      s.(cancelled := true,
         hist := s.hist.(acceptedAtCancel := |s.hist.accepted|,
                         producersAtCancel := s.producers))
    case CloseReturns => s.(closed := true)
  }

  predicate Runs(s: State, steps: seq<Step>)
    decreases |steps|
  {
    steps == [] || (Enabled(s, steps[0]) && Runs(Apply(s, steps[0]), steps[1..]))
  }

  function Exec(s: State, steps: seq<Step>): State
    requires Runs(s, steps)
    decreases |steps|
  {
    if steps == [] then s else Exec(Apply(s, steps[0]), steps[1..])
  }

  // Weights: how many producers or workers are in a given mode.

  function GatedWeight(p: Producer): nat { if p.Gated? then 1 else 0 }
  function EnqueuedWeight(p: Producer): nat { if p.Enqueued? then 1 else 0 }
  function DroppedWeight(p: Producer): nat { if p == Returned(Err(QueueFull)) then 1 else 0 }
  function SettingWeight(w: Worker): nat { if w.Setting? then 1 else 0 }
  function FailingWeight(w: Worker): nat { if w.CountingFailure? then 1 else 0 }

  /** Occurrences of position i among finished ops, and among the workers' current ops. */
  function IsAt(i: nat): nat -> nat { (x: nat) => if x == i then 1 else 0 }
  function Carries(i: nat): Worker -> nat { (w: Worker) => if w.Setting? && w.index == i then 1 else 0 }

  // ---------------------------------------------------------------------------------------
  // Invariants
  // ---------------------------------------------------------------------------------------

  /** Conservation: the queue is FIFO, and every dequeued op is finished or in flight, not
      both, by one worker, once. */
  ghost predicate Conserved(s: State) {
    && s.hist.accepted == s.hist.dequeued + s.queue
    && |s.queue| <= s.capacity
    && (forall i: nat ::
          Sum(s.hist.finished, IsAt(i)) + Sum(s.workers, Carries(i)) == if i < |s.hist.dequeued| then 1 else 0)
    && |s.hist.finished| + Sum(s.workers, SettingWeight) == |s.hist.dequeued|
    && (forall w :: 0 <= w < |s.workers| && s.workers[w].Setting? ==>
          s.workers[w].index < |s.hist.dequeued| && s.workers[w].op == s.hist.dequeued[s.workers[w].index])
  }

  /** The counters reported by Stats. */
  ghost predicate Counted(s: State) {
    && s.totalWrites + Sum(s.producers, EnqueuedWeight) == |s.hist.accepted|
    && s.droppedWrites == Sum(s.producers, DroppedWeight)
    && s.failedWrites + Sum(s.workers, FailingWeight) == s.hist.failures
    && s.hist.failures <= |s.hist.finished|
  }

  /** i was finished before j was (j may be unfinished). */
  ghost predicate FinishedBefore(finished: seq<nat>, i: nat, j: nat) {
    exists q :: 0 <= q < |finished| && finished[q] == i &&
      forall p :: 0 <= p < |finished| && finished[p] == j ==> q < p
  }

  /** A later op can only overtake an op that was in flight when the later one was taken. */
  ghost predicate Ordered(s: State) {
    && |s.hist.workersAtTake| == |s.hist.dequeued|
    && (forall i, j :: 0 <= i < j < |s.hist.dequeued| ==>
          InFlight(s.hist.workersAtTake[j], i) || FinishedBefore(s.hist.finished, i, j))
  }

  /** Shutdown bookkeeping. */
  ghost predicate DrainInv(s: State) {
    && (forall w :: 0 <= w < |s.workers| && s.workers[w].Draining? ==> s.cancelled)
    && (forall w :: 0 <= w < |s.workers| && s.workers[w].Setting? && s.workers[w].draining ==> s.cancelled)
    && (forall w :: 0 <= w < |s.workers| && s.workers[w].CountingFailure? && s.workers[w].draining ==> s.cancelled)
    && (s.cancelled ==>
          s.hist.acceptedAtCancel <= |s.hist.accepted| &&
          Sum(s.producers, GatedWeight) + |s.hist.accepted|
            <= Sum(s.hist.producersAtCancel, GatedWeight) + s.hist.acceptedAtCancel)
    && (forall w :: 0 <= w < |s.workers| && s.workers[w].Exited? ==>
          s.cancelled && s.hist.acceptedAtCancel <= |s.hist.dequeued|)
    && (s.closed ==> s.cancelled && AllExited(s.workers))
    && (AllExited(s.workers) && |s.workers| > 0 ==>
          && s.hist.acceptedAtLastExit == |s.hist.dequeued|
          && Sum(s.producers, GatedWeight) + |s.queue| <= Sum(s.hist.producersAtLastExit, GatedWeight)
          && Sum(s.hist.producersAtLastExit, GatedWeight) <= Sum(s.hist.producersAtCancel, GatedWeight))
  }

  /** Each accepted op came from a Write of its own: one that has returned no error, or is about
      to. */
  ghost predicate Traced(s: State) {
    && |s.hist.sources| == |s.hist.accepted|
    && (forall i :: 0 <= i < |s.hist.sources| ==> s.hist.sources[i] < |s.producers|)
    && (forall i, j :: 0 <= i < j < |s.hist.sources| ==> s.hist.sources[i] != s.hist.sources[j])
    && (forall p: nat :: p < |s.producers| ==>
          (p in s.hist.sources <==> s.producers[p].Enqueued? || s.producers[p] == Returned(Ok)))
  }

  /** Since the snapshot no Write has passed the gate, and each op accepted after the first n
      came from a Write that was past the gate then. */
  ghost predicate CameFrom(s: State, snapshot: seq<Producer>, n: nat) {
    && (forall p :: 0 <= p < |s.producers| && s.producers[p].Gated? ==>
          p < |snapshot| && snapshot[p] == s.producers[p])
    && (forall i :: n <= i < |s.hist.accepted| && i < |s.hist.sources| ==>
          s.hist.sources[i] < |snapshot| && snapshot[s.hist.sources[i]] == Gated(s.hist.accepted[i]))
  }

  ghost predicate Originated(s: State) {
    && (s.cancelled ==> CameFrom(s, s.hist.producersAtCancel, s.hist.acceptedAtCancel))
    && (AllExited(s.workers) && |s.workers| > 0 ==>
          && s.cancelled
          && CameFrom(s, s.hist.producersAtLastExit, s.hist.acceptedAtLastExit)
          && StillGated(s.hist.producersAtLastExit, s.hist.producersAtCancel))
  }

  /** Every Write past the gate in the later snapshot was there, with its op, in the earlier. */
  ghost predicate StillGated(later: seq<Producer>, earlier: seq<Producer>) {
    forall p :: 0 <= p < |later| && later[p].Gated? ==> p < |earlier| && earlier[p] == later[p]
  }

  ghost predicate Inv(s: State) {
    Conserved(s) && Counted(s) && Ordered(s) && DrainInv(s) && Traced(s) && Originated(s)
  }

  // ---------------------------------------------------------------------------------------
  // Occurrence counts
  // ---------------------------------------------------------------------------------------

  lemma CarriedIsInFlight(workers: seq<Worker>, i: nat)
    ensures Sum(workers, Carries(i)) > 0 <==> InFlight(workers, i)
  {
    if Sum(workers, Carries(i)) > 0 && !InFlight(workers, i) {
      SumZero(workers, Carries(i));
    }
    if w :| 0 <= w < |workers| && workers[w].Setting? && workers[w].index == i {
      SumAtLeast(workers, w, Carries(i));
    }
  }

  lemma FinishedOccurs(finished: seq<nat>, i: nat)
    ensures Sum(finished, IsAt(i)) > 0 <==> i in finished
  {
    if Sum(finished, IsAt(i)) > 0 && i !in finished {
      SumZero(finished, IsAt(i));
    }
    if q :| 0 <= q < |finished| && finished[q] == i {
      SumAtLeast(finished, q, IsAt(i));
    }
  }

  // ---------------------------------------------------------------------------------------
  // Every step keeps the invariants
  // ---------------------------------------------------------------------------------------

  lemma InitInv(capacity: nat, workers: nat)
    requires workers > 0
    ensures Inv(Init(capacity, workers))
  {
    var s := Init(capacity, workers);
    forall i: nat
      ensures Sum(s.hist.finished, IsAt(i)) + Sum(s.workers, Carries(i)) == 0
    {
      SumZero(s.workers, Carries(i));
    }
    SumZero(s.workers, SettingWeight);
    SumZero(s.workers, FailingWeight);
    assert !s.workers[0].Exited?;
  }

  lemma WorkerUpdate(workers: seq<Worker>, w: nat, x: Worker)
    requires w < |workers|
    ensures forall i: nat :: Sum(workers[w := x], Carries(i)) + Carries(i)(workers[w])
                             == Sum(workers, Carries(i)) + Carries(i)(x)
    ensures Sum(workers[w := x], SettingWeight) + SettingWeight(workers[w])
            == Sum(workers, SettingWeight) + SettingWeight(x)
    ensures Sum(workers[w := x], FailingWeight) + FailingWeight(workers[w])
            == Sum(workers, FailingWeight) + FailingWeight(x)
  {
    forall i: nat
      ensures Sum(workers[w := x], Carries(i)) + Carries(i)(workers[w]) == Sum(workers, Carries(i)) + Carries(i)(x)
    {
      SumUpdate(workers, w, x, Carries(i));
    }
    SumUpdate(workers, w, x, SettingWeight);
    SumUpdate(workers, w, x, FailingWeight);
  }

  lemma ReceiveConserved(s: State, w: nat)
    requires Conserved(s) && Enabled(s, Receive(w))
    ensures Conserved(Apply(s, Receive(w)))
  {
    var t := Apply(s, Receive(w));
    WorkerUpdate(s.workers, w, t.workers[w]);
    assert s.hist.dequeued + s.queue == t.hist.dequeued + t.queue;
  }

  lemma ReturnConserved(s: State, w: nat, ok: bool)
    requires Conserved(s) && Enabled(s, SetReturns(w, ok))
    ensures Conserved(Apply(s, SetReturns(w, ok)))
  {
    var t := Apply(s, SetReturns(w, ok));
    WorkerUpdate(s.workers, w, t.workers[w]);
    forall i: nat
      ensures Sum(t.hist.finished, IsAt(i)) == Sum(s.hist.finished, IsAt(i)) + IsAt(i)(s.workers[w].index)
    {
      SumPush(s.hist.finished, s.workers[w].index, IsAt(i));
    }
  }

  /** A worker that neither takes an op nor finishes one. */
  lemma IdleConserved(s: State, step: Step)
    requires Conserved(s) && Enabled(s, step) && (step.CountFailure? || step.SeeCancel? || step.Exit?)
    ensures Conserved(Apply(s, step))
  {
    WorkerUpdate(s.workers, step.w, Apply(s, step).workers[step.w]);
  }

  lemma EnqueueConserved(s: State, p: nat)
    requires Conserved(s) && Enabled(s, Enqueue(p))
    ensures Conserved(Apply(s, Enqueue(p)))
  {
  }

  /** Steps that touch neither the queue nor a worker. */
  lemma ElsewhereConserved(s: State, step: Step)
    requires Conserved(s) && Enabled(s, step) && !OfWorker(step) && !step.Enqueue?
    ensures Conserved(Apply(s, step))
  {
  }

  lemma StepConserved(s: State, step: Step)
    requires Conserved(s) && Enabled(s, step)
    ensures Conserved(Apply(s, step))
  {
    match step {
      case Receive(w) => ReceiveConserved(s, w);
      case SetReturns(w, ok) => ReturnConserved(s, w, ok);
      case Enqueue(p) => EnqueueConserved(s, p);
      case _ =>
        if OfWorker(step) {
          IdleConserved(s, step);
        } else {
          ElsewhereConserved(s, step);
        }
    }
  }

  /** A step of a call of Write that has passed its gate. */
  predicate OfWrite(step: Step) {
    step.Enqueue? || step.CountWrite? || step.TimeOut? || step.CallerGivesUp? || step.SeeClosed?
  }

  /** A step of a worker. */
  predicate OfWorker(step: Step) {
    step.Receive? || step.SetReturns? || step.CountFailure? || step.SeeCancel? || step.Exit?
  }

  lemma ArriveCounted(s: State, step: Step)
    requires Counted(s) && Enabled(s, step) && step.Arrive?
    ensures Counted(Apply(s, step))
  {
    var t := Apply(s, step);
    SumPush(s.producers, t.producers[|s.producers|], EnqueuedWeight);
    SumPush(s.producers, t.producers[|s.producers|], DroppedWeight);
  }

  lemma WriteCounted(s: State, step: Step)
    requires Counted(s) && Enabled(s, step) && OfWrite(step)
    ensures Counted(Apply(s, step))
  {
    ProducerUpdate(s, step.p, Apply(s, step).producers[step.p]);
  }

  lemma WorkerCounted(s: State, step: Step)
    requires Counted(s) && Enabled(s, step) && OfWorker(step)
    ensures Counted(Apply(s, step))
  {
    WorkerUpdate(s.workers, step.w, Apply(s, step).workers[step.w]);
  }

  lemma StepCounted(s: State, step: Step)
    requires Counted(s) && Enabled(s, step)
    ensures Counted(Apply(s, step))
  {
    if step.Arrive? {
      ArriveCounted(s, step);
    } else if OfWrite(step) {
      WriteCounted(s, step);
    } else if OfWorker(step) {
      WorkerCounted(s, step);
    }
  }

  lemma ProducerUpdate(s: State, p: nat, q: Producer)
    requires p < |s.producers|
    ensures Sum(s.producers[p := q], EnqueuedWeight) + EnqueuedWeight(s.producers[p])
            == Sum(s.producers, EnqueuedWeight) + EnqueuedWeight(q)
    ensures Sum(s.producers[p := q], DroppedWeight) + DroppedWeight(s.producers[p])
            == Sum(s.producers, DroppedWeight) + DroppedWeight(q)
    ensures Sum(s.producers[p := q], GatedWeight) + GatedWeight(s.producers[p])
            == Sum(s.producers, GatedWeight) + GatedWeight(q)
  {
    SumUpdate(s.producers, p, q, EnqueuedWeight);
    SumUpdate(s.producers, p, q, DroppedWeight);
    SumUpdate(s.producers, p, q, GatedWeight);
  }

  lemma FinishedBeforeExtends(finished: seq<nat>, x: nat, i: nat, j: nat)
    requires FinishedBefore(finished, i, j)
    ensures FinishedBefore(finished + [x], i, j)
  {
    var q :| 0 <= q < |finished| && finished[q] == i &&
      forall p :: 0 <= p < |finished| && finished[p] == j ==> q < p;
    assert (finished + [x])[q] == i;
  }

  lemma StepOrdered(s: State, step: Step)
    requires Conserved(s) && Ordered(s) && Enabled(s, step)
    ensures Ordered(Apply(s, step))
  {
    var t := Apply(s, step);
    if step.Receive? {
      TakeOrdered(s, step.w);
    } else if step.SetReturns? {
      forall i, j | 0 <= i < j < |t.hist.dequeued| && !InFlight(t.hist.workersAtTake[j], i)
        ensures FinishedBefore(t.hist.finished, i, j)
      {
        FinishedBeforeExtends(s.hist.finished, s.workers[step.w].index, i, j);
      }
    }
  }

  /** When op j is taken, every earlier op is finished or in flight, and j is unfinished. */
  lemma TakeOrdered(s: State, w: nat)
    requires Conserved(s) && Ordered(s) && Enabled(s, Receive(w))
    ensures Ordered(Apply(s, Receive(w)))
  {
    var n := |s.hist.dequeued|;
    forall i | 0 <= i < n && !InFlight(s.workers, i)
      ensures FinishedBefore(s.hist.finished, i, n)
    {
      CarriedIsInFlight(s.workers, i);
      FinishedOccurs(s.hist.finished, i);
      FinishedOccurs(s.hist.finished, n);
      var q :| 0 <= q < |s.hist.finished| && s.hist.finished[q] == i;
      assert forall p :: 0 <= p < |s.hist.finished| && s.hist.finished[p] == n ==> q < p;
    }
  }

  lemma ArriveDrain(s: State, step: Step)
    requires DrainInv(s) && Enabled(s, step) && step.Arrive?
    ensures DrainInv(Apply(s, step))
  {
    var t := Apply(s, step);
    SumPush(s.producers, t.producers[|s.producers|], GatedWeight);
    assert AllExited(s.workers) && |s.workers| > 0 ==> s.workers[0].Exited?;
  }

  lemma WriteDrain(s: State, step: Step)
    requires DrainInv(s) && Enabled(s, step) && OfWrite(step)
    ensures DrainInv(Apply(s, step))
  {
    ProducerUpdate(s, step.p, Apply(s, step).producers[step.p]);
  }

  lemma WorkerDrain(s: State, step: Step)
    requires Conserved(s) && DrainInv(s) && Enabled(s, step) && OfWorker(step)
    ensures DrainInv(Apply(s, step))
  {
    if step.Exit? {
      assert s.hist.accepted == s.hist.dequeued + s.queue;
    } else {
      assert !s.workers[step.w].Exited? && !Apply(s, step).workers[step.w].Exited?;
    }
  }

  lemma StepDrain(s: State, step: Step)
    requires Conserved(s) && DrainInv(s) && Enabled(s, step)
    ensures DrainInv(Apply(s, step))
  {
    if step.Arrive? {
      ArriveDrain(s, step);
    } else if OfWrite(step) {
      WriteDrain(s, step);
    } else if OfWorker(step) {
      WorkerDrain(s, step);
    }
  }

  lemma StepTraced(s: State, step: Step)
    requires Traced(s) && Enabled(s, step)
    ensures Traced(Apply(s, step))
  {
    if step.Enqueue? {
      assert step.p !in s.hist.sources;
    }
  }

  lemma StepCameFrom(s: State, step: Step, snapshot: seq<Producer>, n: nat)
    requires Traced(s) && s.cancelled && CameFrom(s, snapshot, n) && Enabled(s, step)
    ensures CameFrom(Apply(s, step), snapshot, n)
  {
  }

  /** Only an exit can be the last one. */
  lemma LastExitIsAnExit(s: State, step: Step)
    requires Enabled(s, step) && !step.Exit?
    ensures AllExited(Apply(s, step).workers) ==> Apply(s, step).workers == s.workers
  {
    if OfWorker(step) {
      assert !Apply(s, step).workers[step.w].Exited?;
    }
  }

  lemma StepOriginated(s: State, step: Step)
    requires Traced(s) && DrainInv(s) && Originated(s) && Enabled(s, step)
    ensures Originated(Apply(s, step))
  {
    var t := Apply(s, step);
    if s.cancelled {
      StepCameFrom(s, step, s.hist.producersAtCancel, s.hist.acceptedAtCancel);
    }
    if AllExited(t.workers) && |t.workers| > 0 {
      if step.Exit? {
        assert s.cancelled;
      } else {
        LastExitIsAnExit(s, step);
        StepCameFrom(s, step, s.hist.producersAtLastExit, s.hist.acceptedAtLastExit);
      }
    }
  }

  lemma StepInv(s: State, step: Step)
    requires Inv(s) && Enabled(s, step)
    ensures Inv(Apply(s, step))
  {
    StepConserved(s, step);
    StepCounted(s, step);
    StepOrdered(s, step);
    StepDrain(s, step);
    StepTraced(s, step);
    StepOriginated(s, step);
  }

  lemma {:induction false} RunInv(s: State, steps: seq<Step>)
    requires Inv(s) && Runs(s, steps)
    ensures Inv(Exec(s, steps))
    decreases |steps|
  {
    if steps != [] {
      StepInv(s, steps[0]);
      RunInv(Apply(s, steps[0]), steps[1..]);
    }
  }

  /** A run can be prolonged by any enabled step. */
  lemma {:induction false} RunExtends(s: State, steps: seq<Step>, step: Step)
    requires Runs(s, steps) && Enabled(Exec(s, steps), step)
    ensures Runs(s, steps + [step]) && Exec(s, steps + [step]) == Apply(Exec(s, steps), step)
    decreases |steps|
  {
    if steps == [] {
      assert steps + [step] == [step];
      assert Runs(Apply(s, step), []);
    } else {
      assert (steps + [step])[1..] == steps[1..] + [step];
      RunExtends(Apply(s, steps[0]), steps[1..], step);
    }
  }

  lemma {:induction false} RunKeepsPool(s: State, steps: seq<Step>)
    requires Runs(s, steps)
    ensures |Exec(s, steps).workers| == |s.workers|
    ensures s.cancelled ==> Exec(s, steps).cancelled
    decreases |steps|
  {
    if steps != [] {
      RunKeepsPool(Apply(s, steps[0]), steps[1..]);
    }
  }

  lemma {:induction false} RunKeepsCapacity(s: State, steps: seq<Step>)
    requires Runs(s, steps)
    ensures Exec(s, steps).capacity == s.capacity
    decreases |steps|
  {
    if steps != [] {
      RunKeepsCapacity(Apply(s, steps[0]), steps[1..]);
    }
  }

  lemma ReachableInv(capacity: nat, workers: nat, steps: seq<Step>)
    requires workers > 0 && Runs(Init(capacity, workers), steps)
    ensures Inv(Exec(Init(capacity, workers), steps))
    ensures |Exec(Init(capacity, workers), steps).workers| == workers
    ensures Exec(Init(capacity, workers), steps).capacity == capacity
  {
    InitInv(capacity, workers);
    RunInv(Init(capacity, workers), steps);
    RunKeepsPool(Init(capacity, workers), steps);
    RunKeepsCapacity(Init(capacity, workers), steps);
  }

  // ---------------------------------------------------------------------------------------
  // Conservation, order and statistics in every reachable state
  // ---------------------------------------------------------------------------------------

  /** Nothing is lost or duplicated: accepted ops are the dequeued ones followed by the queue,
      and each dequeued op is either finished exactly once or in flight, never both. */
  lemma Conservation(capacity: nat, workers: nat, steps: seq<Step>, i: nat)
    requires workers > 0 && Runs(Init(capacity, workers), steps)
    ensures
      var s := Exec(Init(capacity, workers), steps);
      && s.hist.accepted == s.hist.dequeued + s.queue
      && |s.queue| <= capacity
      && |s.hist.dequeued| <= |s.hist.finished| + workers
      && (i < |s.hist.dequeued| ==> (i in s.hist.finished <==> !InFlight(s.workers, i)))
      && (i in s.hist.finished || InFlight(s.workers, i) ==> i < |s.hist.dequeued|)
      && Sum(s.hist.finished, IsAt(i)) <= 1
  {
    var s := Exec(Init(capacity, workers), steps);
    ReachableInv(capacity, workers, steps);
    CarriedIsInFlight(s.workers, i);
    FinishedOccurs(s.hist.finished, i);
    SumBound(s.workers, SettingWeight, 1);
  }

  /** With any number of workers, op j returns from layer.Set before an earlier accepted op i
      only if some worker was already inside layer.Set for i when j was dequeued. */
  lemma OvertakingNeedsOverlap(capacity: nat, workers: nat, steps: seq<Step>, i: nat, j: nat)
    requires workers > 0 && Runs(Init(capacity, workers), steps)
    requires i < j < |Exec(Init(capacity, workers), steps).hist.dequeued|
    requires !FinishedBefore(Exec(Init(capacity, workers), steps).hist.finished, i, j)
    ensures |Exec(Init(capacity, workers), steps).hist.workersAtTake| > j
    ensures InFlight(Exec(Init(capacity, workers), steps).hist.workersAtTake[j], i)
  {
    ReachableInv(capacity, workers, steps);
  }

  /** Two accepted writes of one key return from layer.Set in the order they were accepted. */
  ghost predicate KeyOrder(s: State) {
    forall i, j | 0 <= i < j < |s.hist.dequeued| && s.hist.dequeued[i].key == s.hist.dequeued[j].key ::
      j in s.hist.finished ==> FinishedBefore(s.hist.finished, i, j)
  }

  ghost predicate InAcceptOrder(s: State) {
    forall p :: 0 <= p < |s.hist.finished| ==> s.hist.finished[p] == p
  }

  lemma SingleWorkerStep(s: State, step: Step)
    requires Inv(s) && Enabled(s, step) && |s.workers| == 1 && InAcceptOrder(s)
    ensures InAcceptOrder(Apply(s, step))
  {
    if step.SetReturns? {
      var i := s.workers[0].index;
      CarriedIsInFlight(s.workers, i);
      FinishedOccurs(s.hist.finished, i);
      assert i !in s.hist.finished;
      forall p: nat | p < |s.hist.finished|
        ensures p in s.hist.finished
      {
        assert s.hist.finished[p] == p;
      }
      SumAtLeast(s.workers, 0, SettingWeight);
    }
  }

  lemma {:induction false} SingleWorkerRun(s: State, steps: seq<Step>)
    requires Inv(s) && Runs(s, steps) && |s.workers| == 1 && InAcceptOrder(s)
    ensures InAcceptOrder(Exec(s, steps))
    decreases |steps|
  {
    if steps != [] {
      SingleWorkerStep(s, steps[0]);
      StepInv(s, steps[0]);
      SingleWorkerRun(Apply(s, steps[0]), steps[1..]);
    }
  }

  /** One worker writes to its layer exactly in accept order. */
  lemma SingleWorkerIsFifo(capacity: nat, steps: seq<Step>)
    requires Runs(Init(capacity, 1), steps)
    ensures InAcceptOrder(Exec(Init(capacity, 1), steps))
    ensures KeyOrder(Exec(Init(capacity, 1), steps))
  {
    InitInv(capacity, 1);
    SingleWorkerRun(Init(capacity, 1), steps);
    var s := Exec(Init(capacity, 1), steps);
    forall i, j | 0 <= i < j < |s.hist.dequeued| && j in s.hist.finished
      ensures FinishedBefore(s.hist.finished, i, j)
    {
      assert s.hist.finished[i] == i;
    }
  }

  /** Two writes of one key overtake each other as soon as there are two workers. */
  lemma TwoWorkersReorder(capacity: nat, workers: nat, op: WriteOp) returns (steps: seq<Step>)
    requires capacity > 0 && workers > 1
    ensures Runs(Init(capacity, workers), steps)
    ensures !KeyOrder(Exec(Init(capacity, workers), steps))
  {
    var s0 := Init(capacity, workers);
    steps := [];
    RunExtends(s0, steps, Arrive(op, false));
    steps := steps + [Arrive(op, false)];
    RunExtends(s0, steps, Enqueue(0));
    steps := steps + [Enqueue(0)];
    RunExtends(s0, steps, Receive(0));
    steps := steps + [Receive(0)];
    RunExtends(s0, steps, Arrive(op, false));
    steps := steps + [Arrive(op, false)];
    RunExtends(s0, steps, Enqueue(1));
    steps := steps + [Enqueue(1)];
    RunExtends(s0, steps, Receive(1));
    steps := steps + [Receive(1)];
    RunExtends(s0, steps, SetReturns(1, true));
    steps := steps + [SetReturns(1, true)];
    var s := Exec(s0, steps);
    assert s.hist.dequeued == [op, op] && s.hist.finished == [1];
    assert 1 in s.hist.finished && !FinishedBefore(s.hist.finished, 0, 1);
  }

  /** The ordering promise for one key holds in every run if and only if there is one worker. */
  lemma KeyOrderIffOneWorker(capacity: nat, workers: nat, op: WriteOp)
    requires capacity > 0 && workers > 0
    ensures (forall steps :: Runs(Init(capacity, workers), steps) ==>
               KeyOrder(Exec(Init(capacity, workers), steps))) <==> workers == 1
  {
    if workers == 1 {
      forall steps | Runs(Init(capacity, workers), steps)
        ensures KeyOrder(Exec(Init(capacity, workers), steps))
      {
        SingleWorkerIsFifo(capacity, steps);
      }
    } else {
      var steps := TwoWorkersReorder(capacity, workers, op);
    }
  }

  /** The counters, in every reachable state, against what really happened. */
  lemma Statistics(capacity: nat, workers: nat, steps: seq<Step>)
    requires workers > 0 && Runs(Init(capacity, workers), steps)
    ensures
      var s := Exec(Init(capacity, workers), steps);
      && s.totalWrites + Sum(s.producers, EnqueuedWeight)
           == |s.queue| + Sum(s.workers, SettingWeight) + |s.hist.finished|
      && s.droppedWrites == Sum(s.producers, DroppedWeight)
      && s.failedWrites <= s.hist.failures <= s.failedWrites + workers
      && s.hist.failures <= |s.hist.finished|
  {
    ReachableInv(capacity, workers, steps);
    SumBound(Exec(Init(capacity, workers), steps).workers, FailingWeight, 1);
  }

  /** Flush returns nil at a poll that finds the queue empty. Then all but at most `workers`
      accepted ops are finished, and all of them are if and only if no worker is mid-Set. */
  lemma FlushMeans(capacity: nat, workers: nat, steps: seq<Step>)
    requires workers > 0 && Runs(Init(capacity, workers), steps)
    requires Exec(Init(capacity, workers), steps).queue == []
    ensures
      var s := Exec(Init(capacity, workers), steps);
      && |s.hist.finished| <= |s.hist.accepted| <= |s.hist.finished| + workers
      && ((forall i :: 0 <= i < |s.hist.accepted| ==> i in s.hist.finished)
          <==> (forall w :: 0 <= w < |s.workers| ==> !s.workers[w].Setting?))
  {
    var s := Exec(Init(capacity, workers), steps);
    Conservation(capacity, workers, steps, 0);
    Statistics(capacity, workers, steps);
    ReachableInv(capacity, workers, steps);
    assert s.hist.accepted == s.hist.dequeued;
    forall i | 0 <= i < |s.hist.accepted|
      ensures i in s.hist.finished <==> !InFlight(s.workers, i)
    {
      Conservation(capacity, workers, steps, i);
    }
    forall w | 0 <= w < |s.workers| && s.workers[w].Setting?
      ensures InFlight(s.workers, s.workers[w].index)
    {
    }
  }

  /** The waiting promised for Flush is not what an empty queue means: the op below is
      accepted, the queue is empty, and layer.Set has not returned. */
  lemma FlushCanReturnEarly(capacity: nat, workers: nat, op: WriteOp) returns (steps: seq<Step>)
    requires capacity > 0 && workers > 0
    ensures Runs(Init(capacity, workers), steps)
    ensures
      var s := Exec(Init(capacity, workers), steps);
      s.queue == [] && s.hist.accepted == [op] && s.hist.finished == []
  {
    var s0 := Init(capacity, workers);
    steps := [];
    RunExtends(s0, steps, Arrive(op, false));
    steps := steps + [Arrive(op, false)];
    RunExtends(s0, steps, Enqueue(0));
    steps := steps + [Enqueue(0)];
    RunExtends(s0, steps, Receive(0));
    steps := steps + [Receive(0)];
  }

  /** What the other goroutines do between two polls of Flush, pause by pause. */
  predicate PausesRun(s: State, pauses: seq<seq<Step>>)
    decreases |pauses|
  {
    pauses == [] || (Runs(s, pauses[0]) && PausesRun(Exec(s, pauses[0]), pauses[1..]))
  }

  /** The first poll that finds the queue empty, or the last one before the deadline. */
  function Polled(s: State, pauses: seq<seq<Step>>): (r: (bool, State))
    requires PausesRun(s, pauses)
    ensures r.0 <==> r.1.queue == []
    decreases |pauses|
  {
    if s.queue == [] then (true, s)
    else if pauses == [] then (false, s)
    else Polled(Exec(s, pauses[0]), pauses[1..])
  }

  /** The state after the first k pauses. */
  function AfterPauses(s: State, pauses: seq<seq<Step>>, k: nat): State
    requires PausesRun(s, pauses) && k <= |pauses|
    decreases k
  {
    if k == 0 then s else AfterPauses(Exec(s, pauses[0]), pauses[1..], k - 1)
  }

  /** Flush polls after every pause until the queue is empty, and gives up only after the last. */
  lemma {:induction false} PolledAtEachPause(s: State, pauses: seq<seq<Step>>) returns (k: nat)
    requires PausesRun(s, pauses)
    ensures k <= |pauses| && Polled(s, pauses).1 == AfterPauses(s, pauses, k)
    ensures forall j: nat :: j < k ==> AfterPauses(s, pauses, j).queue != []
    ensures !Polled(s, pauses).0 ==> k == |pauses|
    decreases |pauses|
  {
    k := 0;
    if s.queue != [] && pauses != [] {
      k := PolledAtEachPause(Exec(s, pauses[0]), pauses[1..]);
      k := k + 1;
      forall j: nat | j < k
        ensures AfterPauses(s, pauses, j).queue != []
      {
        assert j > 0 ==> AfterPauses(s, pauses, j) == AfterPauses(Exec(s, pauses[0]), pauses[1..], j - 1);
      }
    }
  }

  lemma {:induction false} RunConcat(s: State, first: seq<Step>, second: seq<Step>)
    requires Runs(s, first) && Runs(Exec(s, first), second)
    ensures Runs(s, first + second) && Exec(s, first + second) == Exec(Exec(s, first), second)
    decreases |first|
  {
    if first == [] {
      assert first + second == second;
    } else {
      assert (first + second)[1..] == first[1..] + second;
      RunConcat(Apply(s, first[0]), first[1..], second);
    }
  }

  lemma {:induction false} AcceptedGrows(s: State, steps: seq<Step>)
    requires Runs(s, steps)
    ensures s.hist.accepted <= Exec(s, steps).hist.accepted
    decreases |steps|
  {
    if steps != [] {
      AcceptedGrows(Apply(s, steps[0]), steps[1..]);
    }
  }

  /** Where Flush ends is reached by a run that prolongs the one before it. */
  lemma {:induction false} PolledIsReached(s0: State, steps: seq<Step>, pauses: seq<seq<Step>>) returns (more: seq<Step>)
    requires Runs(s0, steps) && PausesRun(Exec(s0, steps), pauses)
    ensures Runs(s0, more) && Exec(s0, more) == Polled(Exec(s0, steps), pauses).1
    ensures Exec(s0, steps).hist.accepted <= Exec(s0, more).hist.accepted
    decreases |pauses|
  {
    var s := Exec(s0, steps);
    if s.queue == [] || pauses == [] {
      more := steps;
    } else {
      RunConcat(s0, steps, pauses[0]);
      AcceptedGrows(s, pauses[0]);
      more := PolledIsReached(s0, steps + pauses[0], pauses[1..]);
    }
  }

  /** Flush against any schedule: when it reports success, every op accepted before it was
      called is finished or still inside layer.Set, and at most `workers` are the latter. */
  lemma FlushPromises(capacity: nat, workers: nat, steps: seq<Step>, pauses: seq<seq<Step>>)
    requires workers > 0 && Runs(Init(capacity, workers), steps)
    requires PausesRun(Exec(Init(capacity, workers), steps), pauses)
    requires Polled(Exec(Init(capacity, workers), steps), pauses).0
    ensures
      var t := Polled(Exec(Init(capacity, workers), steps), pauses).1;
      && |t.hist.finished| <= |t.hist.accepted| <= |t.hist.finished| + workers
      && (forall i :: 0 <= i < |Exec(Init(capacity, workers), steps).hist.accepted| ==>
            (i in t.hist.finished <==> !InFlight(t.workers, i)))
  {
    var more := PolledIsReached(Init(capacity, workers), steps, pauses);
    FlushMeans(capacity, workers, more);
    var t := Exec(Init(capacity, workers), more);
    forall i: nat | i < |t.hist.dequeued|
      ensures i in t.hist.finished <==> !InFlight(t.workers, i)
    {
      Conservation(capacity, workers, more, i);
    }
    Conservation(capacity, workers, more, 0);
  }

  // ---------------------------------------------------------------------------------------
  // Shutdown
  // ---------------------------------------------------------------------------------------

  /** When Close returns, every op enqueued before the cancellation has been through layer.Set.
      What is still queued was enqueued after the last worker had exited. Each stranded op came
      from a Write of its own that had passed the gate then, and before the cancellation, so
      there are no more of them than of such Writes. */
  lemma DrainOnClose(capacity: nat, workers: nat, steps: seq<Step>)
    requires workers > 0 && Runs(Init(capacity, workers), steps)
    requires Exec(Init(capacity, workers), steps).closed
    ensures
      var s := Exec(Init(capacity, workers), steps);
      var h := s.hist;
      && h.acceptedAtCancel <= |h.dequeued| <= |h.accepted| == |h.sources|
      && (forall i :: 0 <= i < |h.dequeued| ==> i in h.finished)
      && h.acceptedAtLastExit == |h.dequeued|
      && s.queue == h.accepted[h.acceptedAtLastExit..]
      && (forall i :: h.acceptedAtLastExit <= i < |h.accepted| ==> GatedIn(h.producersAtLastExit, h.sources[i], h.accepted[i]))
      && (forall i, j :: 0 <= i < j < |h.sources| ==> h.sources[i] != h.sources[j])
      && StillGated(h.producersAtLastExit, h.producersAtCancel)
      && |s.queue| <= Sum(h.producersAtLastExit, GatedWeight) <= Sum(h.producersAtCancel, GatedWeight)
  {
    var s := Exec(Init(capacity, workers), steps);
    ReachableInv(capacity, workers, steps);
    assert s.workers[0].Exited?;
    assert s.hist.acceptedAtLastExit == |s.hist.dequeued|;
    forall i | 0 <= i < |s.hist.dequeued|
      ensures i in s.hist.finished
    {
      Conservation(capacity, workers, steps, i);
    }
  }

  /** In the snapshot the Write had passed the gate with this op. */
  predicate GatedIn(snapshot: seq<Producer>, p: nat, op: WriteOp) {
    p < |snapshot| && snapshot[p] == Gated(op)
  }

  /** Every worker has exited and the queue is empty. */
  predicate IsDrained(s: State) { s.cancelled && AllExited(s.workers) && s.queue == [] }

  predicate CanStrand(s: State) { s.capacity > 0 && exists p :: 0 <= p < |s.producers| && s.producers[p].Gated? }

  lemma {:induction false} NothingToStrand(s: State, steps: seq<Step>)
    requires IsDrained(s) && !CanStrand(s) && Runs(s, steps)
    ensures Exec(s, steps).queue == []
    decreases |steps|
  {
    if steps != [] {
      NothingToStrand(Apply(s, steps[0]), steps[1..]);
    }
  }

  /** Once all workers have exited with an empty queue, some continuation strands an op if and
      only if there is room and some Write has passed the gate and not yet selected. */
  lemma StrandingIff(s: State)
    requires IsDrained(s)
    ensures (exists steps :: Runs(s, steps) && Exec(s, steps).queue != []) <==> CanStrand(s)
  {
    if CanStrand(s) {
      var p: nat :| p < |s.producers| && s.producers[p].Gated?;
      RunExtends(s, [], Enqueue(p));
      assert Exec(s, [] + [Enqueue(p)]).queue == [s.producers[p].op];
    } else {
      forall steps | Runs(s, steps)
        ensures Exec(s, steps).queue == []
      {
        NothingToStrand(s, steps);
      }
    }
  }

  /** Lets workers n, n+1, ... notice the cancellation and exit, one after the other. */
  lemma ExitAll(s0: State, steps: seq<Step>, n: nat) returns (more: seq<Step>)
    requires Runs(s0, steps)
    requires Exec(s0, steps).cancelled && Exec(s0, steps).queue == [] && n <= |Exec(s0, steps).workers|
    requires forall w :: 0 <= w < n ==> Exec(s0, steps).workers[w].Exited?
    requires forall w :: n <= w < |Exec(s0, steps).workers| ==> Exec(s0, steps).workers[w].Receiving?
    ensures Runs(s0, more) && AllExited(Exec(s0, more).workers)
    ensures Exec(s0, more).queue == [] && Exec(s0, more).producers == Exec(s0, steps).producers
    ensures Exec(s0, more).cancelled && Exec(s0, more).closed == Exec(s0, steps).closed
    ensures Exec(s0, more).capacity == Exec(s0, steps).capacity
    decreases |Exec(s0, steps).workers| - n
  {
    if n == |Exec(s0, steps).workers| {
      more := steps;
    } else {
      RunExtends(s0, steps, SeeCancel(n));
      var noticed := steps + [SeeCancel(n)];
      RunExtends(s0, noticed, Exit(n));
      more := ExitAll(s0, noticed + [Exit(n)], n + 1);
    }
  }

  /** An accepted write can be stranded: a Write that passed the gate before the cancellation
      enqueues after the last worker has gone, and Close has returned. */
  lemma GatedWriteCanStrand(capacity: nat, workers: nat, op: WriteOp) returns (steps: seq<Step>)
    requires capacity > 0 && workers > 0
    ensures Runs(Init(capacity, workers), steps)
    ensures Exec(Init(capacity, workers), steps).closed
    ensures Exec(Init(capacity, workers), steps).queue == [op]
  {
    var s0 := Init(capacity, workers);
    steps := [];
    RunExtends(s0, steps, Arrive(op, false));
    steps := steps + [Arrive(op, false)];
    RunExtends(s0, steps, Cancel);
    steps := steps + [Cancel];
    steps := ExitAll(s0, steps, 0);
    RunExtends(s0, steps, CloseReturns);
    steps := steps + [CloseReturns];
    RunExtends(s0, steps, Enqueue(0));
    steps := steps + [Enqueue(0)];
  }

  function ProducerCost(p: Producer): nat {
    match p
    case Gated(_) => 5
    case Enqueued => 1
    case Returned(_) => 0
  }

  function WorkerCost(w: Worker): nat {
    match w
    case Receiving => 2
    case Setting(_, _, draining) => if draining then 3 else 4
    case CountingFailure(draining) => if draining then 2 else 3
    case Draining => 1
    case Exited => 0
  }

  /** The work left before everything is quiet. */
  function Measure(s: State): nat {
    Sum(s.producers, ProducerCost) + 3 * |s.queue| + Sum(s.workers, WorkerCost)
      + if s.closed then 0 else 1
  }

  /** Steps of goroutines already past the gate; new calls of Write and Close itself are not. */
  predicate Active(step: Step) { !step.Arrive? && !step.Cancel? }

  function ActiveWeight(step: Step): nat { if Active(step) then 1 else 0 }

  lemma WriteDecreases(s: State, step: Step)
    requires Enabled(s, step) && OfWrite(step)
    ensures Measure(Apply(s, step)) < Measure(s)
  {
    SumUpdate(s.producers, step.p, Apply(s, step).producers[step.p], ProducerCost);
  }

  lemma WorkerDecreases(s: State, step: Step)
    requires Enabled(s, step) && OfWorker(step)
    ensures Measure(Apply(s, step)) < Measure(s)
  {
    SumUpdate(s.workers, step.w, Apply(s, step).workers[step.w], WorkerCost);
  }

  lemma StepDecreasesMeasure(s: State, step: Step)
    requires Enabled(s, step)
    ensures Active(step) ==> Measure(Apply(s, step)) < Measure(s)
    ensures s.cancelled ==> Measure(Apply(s, step)) <= Measure(s)
  {
    if step.Arrive? {
      SumPush(s.producers, Apply(s, step).producers[|s.producers|], ProducerCost);
    } else if OfWrite(step) {
      WriteDecreases(s, step);
    } else if OfWorker(step) {
      WorkerDecreases(s, step);
    }
  }

  /** After the cancellation at most Measure(s) further steps happen, whatever the schedule. */
  lemma {:induction false} ShutdownIsBounded(s: State, steps: seq<Step>)
    requires s.cancelled && Runs(s, steps)
    ensures Sum(steps, ActiveWeight) + Measure(Exec(s, steps)) <= Measure(s)
    decreases |steps|
  {
    if steps != [] {
      StepDecreasesMeasure(s, steps[0]);
      ShutdownIsBounded(Apply(s, steps[0]), steps[1..]);
    }
  }

  /** A cancelled writer is never stuck: unless Close has returned and every Write is back at
      its caller, some goroutine can move. Together with the bound, Close always returns. */
  lemma ShutdownNeverSticks(s: State)
    requires s.cancelled
    requires forall step :: Active(step) ==> !Enabled(s, step)
    ensures s.closed && AllExited(s.workers)
    ensures forall p :: 0 <= p < |s.producers| ==> s.producers[p].Returned?
  {
    forall w | 0 <= w < |s.workers|
      ensures s.workers[w].Exited?
    {
      assert !Enabled(s, SeeCancel(w)) && !Enabled(s, SetReturns(w, true)) && !Enabled(s, CountFailure(w));
      assert !Enabled(s, Receive(w)) && !Enabled(s, Exit(w));
    }
    assert !Enabled(s, CloseReturns);
    forall p | 0 <= p < |s.producers|
      ensures s.producers[p].Returned?
    {
      assert !Enabled(s, TimeOut(p)) && !Enabled(s, CountWrite(p));
    }
  }
}
