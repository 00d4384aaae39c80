/** The asynchronous writer with its state updated in place: Write, the workers' loop, Flush and
    Close, each interleaved with any steps of the other goroutines. Every call is proved to be
    a run of the protocol, so what holds in every run holds of the object. */
module AsyncWriterObject {
  import opened CacheTypes
  import opened AsyncWriterProtocol

  /** Which case of Write's select fires. */
  datatype Choice = Send | TimerFires | CallerDone | WriterDone

  /** Whose code is being followed; all other goroutines interfere with it. */
  datatype Goroutine = Caller(p: nat) | PoolWorker(w: nat)

  predicate IsOwn(step: Step, me: Goroutine) {
    match me
    case Caller(p) => OfWrite(step) && step.p == p
    case PoolWorker(w) => OfWorker(step) && step.w == w
  }

  /** What the steps of others leave to a goroutine. */
  ghost predicate LeftTo(me: Goroutine, s: State, t: State) {
    match me
    case Caller(p) => p < |s.producers| ==> p < |t.producers| && t.producers[p] == s.producers[p]
    case PoolWorker(w) => w < |s.workers| ==> w < |t.workers| && t.workers[w] == s.workers[w]
  }

  /** What never shrinks or is never taken back. */
  ghost predicate Grown(s: State, t: State) {
    && t.capacity == s.capacity && |t.workers| == |s.workers|
    && s.hist.accepted <= t.hist.accepted && s.hist.sources <= t.hist.sources
    && s.hist.dequeued <= t.hist.dequeued && s.hist.finished <= t.hist.finished
    && |t.hist.accepted| - |s.hist.accepted| == |t.hist.sources| - |s.hist.sources|
    && |s.producers| <= |t.producers|
    && (s.cancelled ==>
          && t.cancelled
          && t.hist.producersAtCancel == s.hist.producersAtCancel
          && t.hist.acceptedAtCancel == s.hist.acceptedAtCancel)
  }

  /** What a Write with this outcome changes by itself. */
  ghost predicate OnlyThisWrite(s: State, t: State, op: WriteOp, r: Outcome) {
    && t.queue == (if r.Ok? then s.queue + [op] else s.queue)
    && t.totalWrites == s.totalWrites + (if r.Ok? then 1 else 0)
    && t.droppedWrites == s.droppedWrites + (if r == Err(QueueFull) then 1 else 0)
    && t.failedWrites == s.failedWrites && t.workers == s.workers && t.cancelled == s.cancelled
  }

  /** One of the ops accepted after the first n came from this call. */
  predicate AcceptedSince(h: History, n: nat, op: WriteOp, p: nat) {
    exists i :: n <= i < |h.accepted| && i < |h.sources| && h.accepted[i] == op && h.sources[i] == p
  }

  /** The ops at the head of the queue, none or more, have been taken and finished in order. */
  ghost predicate TookFirst(s: State, t: State) {
    && t.hist.dequeued + t.queue == s.hist.dequeued + s.queue && |t.queue| <= |s.queue|
    && t.hist.finished == s.hist.finished + seq(|s.queue| - |t.queue|, i => |s.hist.dequeued| + i)
  }

  /** The op that was at the head of the queue has been dequeued next and finished. */
  ghost predicate HeadIsServed(s: State, t: State)
    requires s.queue != []
  {
    var i := |s.hist.dequeued|;
    i < |t.hist.dequeued| && t.hist.dequeued[i] == s.queue[0] && i in t.hist.finished
  }

  lemma TookOneMore(s: State, t: State, u: State)
    requires TookFirst(s, t) && t.queue != [] && u.queue == t.queue[1..]
    requires u.hist.dequeued == t.hist.dequeued + [t.queue[0]]
    requires u.hist.finished == t.hist.finished + [|t.hist.dequeued|]
    ensures TookFirst(s, u)
  {
    assert t.queue == [t.queue[0]] + t.queue[1..];
    assert |t.hist.dequeued| == |s.hist.dequeued| + (|s.queue| - |t.queue|);
  }

  lemma TookBoth(s: State, t: State, u: State)
    requires TookFirst(s, t) && TookFirst(t, u)
    ensures TookFirst(s, u)
  {
    assert |t.hist.dequeued| == |s.hist.dequeued| + (|s.queue| - |t.queue|);
  }

  lemma StillServed(s: State, t: State, u: State)
    requires s.queue != [] && HeadIsServed(s, t)
    requires t.hist.dequeued <= u.hist.dequeued && t.hist.finished <= u.hist.finished
    ensures HeadIsServed(s, u)
  {
  }

  /** A round that found something took it; a round that found nothing changed nothing. */
  lemma RoundTook(s: State, t: State, u: State, took: bool)
    requires took ==> TookFirst(s, t)
    requires took && t.queue != [] ==>
      && u.queue == t.queue[1..] && u.hist.dequeued == t.hist.dequeued + [t.queue[0]]
      && u.hist.finished == t.hist.finished + [|t.hist.dequeued|]
    requires took && t.queue == [] ==> u.queue == [] && u.hist == t.hist
    ensures took ==> TookFirst(s, u)
    ensures took ==> |u.queue| == if t.queue == [] then 0 else |t.queue| - 1
  {
    if took && t.queue != [] {
      TookOneMore(s, t, u);
    }
  }

  lemma StepGrows(s: State, step: Step)
    requires Enabled(s, step)
    ensures Grown(s, Apply(s, step))
  {
  }

  lemma OthersLeave(s: State, step: Step, me: Goroutine)
    requires Enabled(s, step) && !IsOwn(step, me)
    ensures LeftTo(me, s, Apply(s, step))
  {
  }

  /** A run and one more step. */
  lemma Prolong(s0: State, steps: seq<Step>, s: State, step: Step) returns (more: seq<Step>)
    requires Runs(s0, steps) && Exec(s0, steps) == s && Enabled(s, step)
    ensures more == steps + [step] && Runs(s0, more) && Exec(s0, more) == Apply(s, step)
    ensures Grown(s, Apply(s, step))
  {
    RunExtends(s0, steps, step);
    StepGrows(s, step);
    more := steps + [step];
  }

  class AsyncWriter {
    const capacity: nat
    var queue: seq<WriteOp>
    var producers: seq<Producer>
    var workers: seq<Worker>
    var cancelled: bool
    var closed: bool
    var totalWrites: nat
    var droppedWrites: nat
    var failedWrites: nat
    /** What happened so far. No action looks at it. */
    var hist: History

    function Now(): State
      reads this
    {
      State(capacity, queue, producers, workers, cancelled, closed, totalWrites, droppedWrites, failedWrites, hist)
    }

    ghost predicate Valid()
      reads this
    {
      Inv(Now()) && |workers| > 0
    }

    /** Non-positive sizes are replaced by the defaults: 1000 places and 2 workers. */
    constructor (queueSize: int, workerCount: int)
      ensures Valid()
      ensures Now() == Init(if queueSize <= 0 then 1000 else queueSize, if workerCount <= 0 then 2 else workerCount)
    {
      capacity := if queueSize <= 0 then 1000 else queueSize;
      var n: nat := if workerCount <= 0 then 2 else workerCount;
      queue, producers, workers := [], [], seq(n, _ => Receiving);
      cancelled, closed := false, false;
      totalWrites, droppedWrites, failedWrites := 0, 0, 0;
      hist := Init(0, 0).hist;
      new;
      InitInv(capacity, n);
    }

    // -------------------------------------------------------------------------------------
    // Interference
    // -------------------------------------------------------------------------------------

    /** One step of another goroutine. */
    method Perform(step: Step)
      requires Enabled(Now(), step)
      modifies this
      ensures Now() == Apply(old(Now()), step)
    {
      var t := Apply(Now(), step);
      queue, producers, workers, cancelled, closed := t.queue, t.producers, t.workers, t.cancelled, t.closed;
      totalWrites, droppedWrites, failedWrites, hist := t.totalWrites, t.droppedWrites, t.failedWrites, t.hist;
    }

    /** Any number of steps of goroutines other than this one; none if it is alone. */
    method OthersMove(me: Goroutine, alone: bool, ghost s0: State, ghost steps: seq<Step>) returns (ghost more: seq<Step>)
      requires Runs(s0, steps) && Exec(s0, steps) == Now()
      modifies this
      ensures Runs(s0, more) && Exec(s0, more) == Now()
      ensures LeftTo(me, old(Now()), Now()) && Grown(old(Now()), Now())
      ensures alone ==> Now() == old(Now())
    {
      more := steps;
      var n: int := *;
      while n > 0 && !alone
        invariant Runs(s0, more) && Exec(s0, more) == Now()
        invariant LeftTo(me, old(Now()), Now()) && Grown(old(Now()), Now())
        invariant alone ==> Now() == old(Now())
      {
        n := n - 1;
        var step: Step := *;
        if Enabled(Now(), step) && !IsOwn(step, me) {
          OthersLeave(Now(), step, me);
          more := Prolong(s0, more, Now(), step);
          Perform(step);
        }
      }
    }

    // -------------------------------------------------------------------------------------
    // Write
    // -------------------------------------------------------------------------------------

    /** Which cases of Write's select are ready. */
    predicate IsReady(choice: Choice, timerFired: bool, callerLeft: bool)
      reads this
    {
      match choice
      case Send => |queue| < capacity
      case TimerFires => timerFired
      case CallerDone => callerLeft
      case WriterDone => cancelled
    }

    /** One call of Write. Its select is looked at until some case is ready: the timer is at look
        number `patience`, and the caller's context is done from look number `callerLeavesAt` on,
        if it ends at all. The call succeeds if and only if its op was accepted, once, during the
        call. It reports a full queue only when the timer has fired, a cancellation only when the
        caller's context is done, and a closed writer only when it is. Undisturbed, with room in
        the queue, it sends at once; with none, it gives up when the timer fires. */
    method Write(op: WriteOp, callerDone: bool, alone: bool, patience: nat, callerLeavesAt: Option<nat>)
      returns (r: Outcome, p: nat, waited: nat, ghost steps: seq<Step>)
      requires Valid()
      modifies this
      ensures Valid() && Runs(old(Now()), steps) && Exec(old(Now()), steps) == Now()
      ensures p == |old(producers)| < |producers| && producers[p] == Returned(r)
      ensures r.Ok? ==> AcceptedSince(hist, |old(hist).accepted|, op, p)
      ensures r.Err? ==> p !in hist.sources
      ensures r.Ok? || r.error == WriterClosed || r.error == Cancelled || r.error == QueueFull
      ensures old(cancelled) ==> r == Err(WriterClosed)
      ensures r == Err(WriterClosed) ==> cancelled
      ensures !old(cancelled) && callerDone ==> r == Err(Cancelled)
      ensures r == Err(QueueFull) ==> waited == patience
      ensures r == Err(Cancelled) ==> callerDone || (callerLeavesAt.Some? && callerLeavesAt.value <= waited)
      ensures alone && !old(cancelled) && !callerDone && |old(queue)| < capacity && patience > 0 && callerLeavesAt != Some(0)
              ==> r == Ok && waited == 0
      ensures alone && !old(cancelled) && !callerDone && |old(queue)| >= capacity
              && (callerLeavesAt.Some? ==> callerLeavesAt.value > patience)
              ==> r == Err(QueueFull) && waited == patience
      ensures alone ==> queue == if r.Ok? then old(queue) + [op] else old(queue)
      ensures alone ==> totalWrites == old(totalWrites) + if r.Ok? then 1 else 0
      ensures alone ==> droppedWrites == old(droppedWrites) + if r == Err(QueueFull) then 1 else 0
      ensures alone ==> failedWrites == old(failedWrites) && workers == old(workers) && cancelled == old(cancelled)
    {
      r, p, waited, steps := GateAndSelect(op, callerDone, alone, patience, callerLeavesAt);
      RunInv(old(Now()), steps);
    }

    /** The body of Write: the closed check, the caller's context, then the select. */
    method GateAndSelect(op: WriteOp, callerDone: bool, alone: bool, patience: nat, callerLeavesAt: Option<nat>)
      returns (r: Outcome, p: nat, waited: nat, ghost steps: seq<Step>)
      requires |hist.accepted| == |hist.sources|
      modifies this
      ensures Runs(old(Now()), steps) && Exec(old(Now()), steps) == Now() && Grown(old(Now()), Now())
      ensures p == |old(producers)| < |producers| && producers[p] == Returned(r)
      ensures r.Ok? ==> AcceptedSince(hist, |old(hist).accepted|, op, p)
      ensures r.Ok? || r.error == WriterClosed || r.error == Cancelled || r.error == QueueFull
      ensures old(cancelled) ==> r == Err(WriterClosed)
      ensures r == Err(WriterClosed) ==> cancelled
      ensures !old(cancelled) && callerDone ==> r == Err(Cancelled)
      ensures r == Err(QueueFull) ==> waited == patience
      ensures r == Err(Cancelled) ==> callerDone || (callerLeavesAt.Some? && callerLeavesAt.value <= waited)
      ensures alone && !old(cancelled) && !callerDone && |old(queue)| < capacity && patience > 0 && callerLeavesAt != Some(0)
              ==> r == Ok && waited == 0
      ensures alone && !old(cancelled) && !callerDone && |old(queue)| >= capacity
              && (callerLeavesAt.Some? ==> callerLeavesAt.value > patience)
              ==> r == Err(QueueFull) && waited == patience
      ensures alone ==> OnlyThisWrite(old(Now()), Now(), op, r)
    {
      p, waited := |producers|, 0;
      ghost var s0 := Now();
      steps := Prolong(s0, [], s0, Arrive(op, callerDone));
      if cancelled {
        r := Err(WriterClosed);
        producers := producers + [Returned(r)];
        return;
      }
      if callerDone {
        r := Err(Cancelled);
        producers := producers + [Returned(r)];
        return;
      }
      producers := producers + [Gated(op)];
      r, waited, steps := Select(op, p, alone, patience, callerLeavesAt, s0, steps);
    }

    /** The select of Write: it waits until some case is ready, and takes one that is. */
    method Select(op: WriteOp, p: nat, alone: bool, patience: nat, callerLeavesAt: Option<nat>,
                  ghost s0: State, ghost steps: seq<Step>)
      returns (r: Outcome, waited: nat, ghost more: seq<Step>)
      requires Runs(s0, steps) && Exec(s0, steps) == Now()
      requires p < |producers| && producers[p] == Gated(op) && |hist.accepted| == |hist.sources|
      modifies this
      ensures Runs(s0, more) && Exec(s0, more) == Now() && Grown(old(Now()), Now())
      ensures p < |producers| && producers[p] == Returned(r)
      ensures r.Ok? ==> AcceptedSince(hist, |old(hist).accepted|, op, p)
      ensures r.Ok? || r.error == WriterClosed || r.error == Cancelled || r.error == QueueFull
      ensures r == Err(WriterClosed) ==> cancelled
      ensures r == Err(QueueFull) ==> waited == patience
      ensures r == Err(Cancelled) ==> callerLeavesAt.Some? && callerLeavesAt.value <= waited
      ensures alone && !old(cancelled) && |old(queue)| < capacity && patience > 0 && callerLeavesAt != Some(0)
              ==> r == Ok && waited == 0
      ensures alone && !old(cancelled) && |old(queue)| >= capacity
              && (callerLeavesAt.Some? ==> callerLeavesAt.value > patience)
              ==> r == Err(QueueFull) && waited == patience
      ensures alone ==> OnlyThisWrite(old(Now()), Now(), op, r)
    {
      waited, more := 0, steps;
      while true
        invariant Runs(s0, more) && Exec(s0, more) == Now() && Grown(old(Now()), Now())
        invariant p < |producers| && producers[p] == Gated(op) && waited <= patience
        invariant |hist.accepted| == |hist.sources|
        invariant alone ==> Now() == old(Now())
        invariant alone && waited > 0 ==> |queue| >= capacity
        decreases patience - waited
      {
        var timerFired, callerLeft := waited == patience, callerLeavesAt.Some? && callerLeavesAt.value <= waited;
        var taken;
        taken, r, more := Look(op, p, alone, timerFired, callerLeft, s0, more);
        if taken {
          return;
        }
        waited := waited + 1;
      }
    }

    /** One look at the select: if some case is ready, one that is is taken. */
    method Look(op: WriteOp, p: nat, alone: bool, timerFired: bool, callerLeft: bool, ghost s0: State, ghost steps: seq<Step>)
      returns (taken: bool, r: Outcome, ghost more: seq<Step>)
      requires Runs(s0, steps) && Exec(s0, steps) == Now()
      requires p < |producers| && producers[p] == Gated(op) && |hist.accepted| == |hist.sources|
      modifies this
      ensures Runs(s0, more) && Exec(s0, more) == Now() && Grown(old(Now()), Now())
      ensures p < |producers| && producers[p] == if taken then Returned(r) else Gated(op)
      ensures !taken ==> |queue| >= capacity && !cancelled && !timerFired && !callerLeft
      ensures taken && r.Ok? ==> AcceptedSince(hist, |old(hist).accepted|, op, p)
      ensures taken && r.Err? ==>
        || (r.error == WriterClosed && cancelled)
        || (r.error == QueueFull && timerFired)
        || (r.error == Cancelled && callerLeft)
      ensures alone && taken ==> OnlyThisWrite(old(Now()), Now(), op, r) && (r.Ok? ==> |old(queue)| < capacity)
      ensures alone && !taken ==> Now() == old(Now())
    {
      more := OthersMove(Caller(p), alone, s0, steps);
      if choice: Choice :| IsReady(choice, timerFired, callerLeft) {
        r, more := TakeCase(op, p, choice, timerFired, callerLeft, alone, s0, more);
        return true, r, more;
      }
      assert !IsReady(Send, timerFired, callerLeft) && !IsReady(TimerFires, timerFired, callerLeft);
      assert !IsReady(CallerDone, timerFired, callerLeft) && !IsReady(WriterDone, timerFired, callerLeft);
      taken, r := false, Ok;
    }

    /** The case of the select that was ready and chosen. */
    method TakeCase(op: WriteOp, p: nat, choice: Choice, timerFired: bool, callerLeft: bool, alone: bool,
                    ghost s0: State, ghost steps: seq<Step>)
      returns (r: Outcome, ghost more: seq<Step>)
      requires Runs(s0, steps) && Exec(s0, steps) == Now()
      requires p < |producers| && producers[p] == Gated(op) && |hist.accepted| == |hist.sources|
      requires IsReady(choice, timerFired, callerLeft)
      modifies this
      ensures Runs(s0, more) && Exec(s0, more) == Now() && Grown(old(Now()), Now())
      ensures p < |producers| && producers[p] == Returned(r)
      ensures r.Ok? ==> AcceptedSince(hist, |old(hist).accepted|, op, p)
      ensures r == match choice
                   case Send => Ok
                   case TimerFires => Err(QueueFull)
                   case CallerDone => Err(Cancelled)
                   case WriterDone => Err(WriterClosed)
      ensures choice.WriterDone? ==> cancelled
      ensures alone ==> OnlyThisWrite(old(Now()), Now(), op, r)
    {
      match choice {
        case Send =>
          more := SendAndCount(op, p, alone, s0, steps);
          return Ok, more;
        case TimerFires =>
          more := Prolong(s0, steps, Now(), TimeOut(p));
          droppedWrites := droppedWrites + 1;
          r := Err(QueueFull);
        case CallerDone =>
          more := Prolong(s0, steps, Now(), CallerGivesUp(p));
          r := Err(Cancelled);
        case WriterDone =>
          more := Prolong(s0, steps, Now(), SeeClosed(p));
          r := Err(WriterClosed);
      }
      producers := producers[p := Returned(r)];
    }

    /** The send, and the count of accepted writes that follows it. */
    method SendAndCount(op: WriteOp, p: nat, alone: bool, ghost s0: State, ghost steps: seq<Step>) returns (ghost more: seq<Step>)
      requires Runs(s0, steps) && Exec(s0, steps) == Now()
      requires p < |producers| && producers[p] == Gated(op) && |queue| < capacity
      requires |hist.accepted| == |hist.sources|
      modifies this
      ensures Runs(s0, more) && Exec(s0, more) == Now() && Grown(old(Now()), Now())
      ensures p < |producers| && producers[p] == Returned(Ok)
      ensures AcceptedSince(hist, |old(hist).accepted|, op, p)
      ensures alone ==> OnlyThisWrite(old(Now()), Now(), op, Ok)
    {
      ghost var n := |hist.accepted|;
      more := Prolong(s0, steps, Now(), Enqueue(p));
      EnqueueOp(p);
      assert hist.accepted[n] == op && hist.sources[n] == p;
      more := OthersMove(Caller(p), alone, s0, more);
      assert hist.accepted[n] == op && hist.sources[n] == p;
      more := Prolong(s0, more, Now(), CountWrite(p));
      Count(p);
    }

    method EnqueueOp(p: nat)
      requires Enabled(Now(), Enqueue(p))
      modifies this
      ensures Now() == Apply(old(Now()), Enqueue(p))
    {
      var op := producers[p].op;
      queue := queue + [op];
      producers := producers[p := Enqueued];
      hist := hist.(accepted := hist.accepted + [op], sources := hist.sources + [p]);
    }

    method Count(p: nat)
      requires Enabled(Now(), CountWrite(p))
      modifies this
      ensures Now() == Apply(old(Now()), CountWrite(p))
    {
      totalWrites := totalWrites + 1;
      producers := producers[p := Returned(Ok)];
    }

    // -------------------------------------------------------------------------------------
    // Workers
    // -------------------------------------------------------------------------------------

    /** A worker, followed for some rounds of its loop. It exits only after a cancellation, and
        then every op enqueued before it has been taken; until then it is back at its receive.
        Undisturbed, it takes and finishes one op a round, in order, as long as there are any;
        and in a cancelled writer, with rounds enough, it empties the queue and exits. */
    method RunWorker(w: nat, rounds: nat, alone: bool) returns (exited: bool, ghost steps: seq<Step>)
      requires Valid() && w < |workers| && workers[w].Receiving?
      modifies this
      ensures Valid() && Runs(old(Now()), steps) && Exec(old(Now()), steps) == Now()
      ensures w < |workers| && (if exited then workers[w].Exited? else workers[w].Receiving? || workers[w].Draining?)
      ensures exited ==> cancelled && hist.acceptedAtCancel <= |hist.dequeued|
      ensures alone ==> TookFirst(old(Now()), Now())
      ensures alone && !old(cancelled) ==>
        !exited && workers == old(workers) && |queue| == if rounds < |old(queue)| then |old(queue)| - rounds else 0
      ensures alone && old(cancelled) && rounds >= |old(queue)| + 2 ==>
        exited && queue == [] && workers == old(workers)[w := Exited]
    {
      exited, steps := ReceiveLoop(w, rounds, alone);
      RunInv(old(Now()), steps);
    }

    method ReceiveLoop(w: nat, rounds: nat, alone: bool) returns (exited: bool, ghost steps: seq<Step>)
      requires w < |workers| && workers[w].Receiving?
      modifies this
      ensures Runs(old(Now()), steps) && Exec(old(Now()), steps) == Now() && |workers| == |old(workers)|
      ensures w < |workers| && (if exited then workers[w].Exited? else workers[w].Receiving? || workers[w].Draining?)
      ensures alone ==> TookFirst(old(Now()), Now())
      ensures alone && !old(cancelled) ==>
        !exited && workers == old(workers) && |queue| == if rounds < |old(queue)| then |old(queue)| - rounds else 0
      ensures alone && old(cancelled) && rounds >= |old(queue)| + 2 ==>
        exited && queue == [] && workers == old(workers)[w := Exited]
    {
      ghost var s0 := Now();
      var noticed, left;
      noticed, left, steps := ReceiveRounds(w, rounds, alone);
      ghost var middle := Now();
      exited := false;
      if noticed {
        exited, steps := Drain(w, left, alone, s0, steps);
        if alone {
          TookBoth(s0, middle, Now());
        }
      }
    }

    /** The rounds of the main loop, up to the one that notices a cancellation. */
    method ReceiveRounds(w: nat, rounds: nat, alone: bool) returns (noticed: bool, left: nat, ghost steps: seq<Step>)
      requires w < |workers| && workers[w].Receiving?
      modifies this
      ensures Runs(old(Now()), steps) && Exec(old(Now()), steps) == Now()
      ensures w < |workers| == |old(workers)| && (if noticed then workers[w].Draining? else workers[w].Receiving?)
      ensures alone ==> TookFirst(old(Now()), Now()) && cancelled == old(cancelled)
      ensures alone ==> workers == if noticed then old(workers)[w := Draining] else old(workers)
      ensures alone && !old(cancelled) ==>
        !noticed && |queue| == if rounds < |old(queue)| then |old(queue)| - rounds else 0
      ensures alone && old(cancelled) && rounds >= |old(queue)| + 2 ==> noticed && left > |queue|
    {
      ghost var s0 := Now();
      steps := [];
      left := rounds;
      while left > 0
        invariant Runs(s0, steps) && Exec(s0, steps) == Now() && left <= rounds
        invariant w < |workers| == |old(workers)| && workers[w].Receiving?
        invariant alone ==> TookFirst(s0, Now()) && workers == old(workers) && cancelled == old(cancelled)
        invariant alone && !cancelled ==>
          |queue| == if rounds - left < |old(queue)| then |old(queue)| - (rounds - left) else 0
        invariant alone && cancelled && rounds >= |old(queue)| + 2 ==> left >= |queue| + 2
      {
        left := left - 1;
        ghost var before, found := Now(), Now();
        noticed, found, steps := ReceiveRound(w, alone, s0, steps);
        if noticed {
          return;
        }
        RoundTook(s0, before, Now(), alone);
      }
      noticed := false;
    }

    /** One round of the main loop. With an op in the queue of an open writer at its receive, the
        worker takes the head and finishes it; with an empty queue it notices a cancellation, or
        waits. */
    method ReceiveRound(w: nat, alone: bool, ghost s0: State, ghost steps: seq<Step>)
      returns (noticed: bool, ghost found: State, ghost more: seq<Step>)
      requires Runs(s0, steps) && Exec(s0, steps) == Now()
      requires w < |workers| && workers[w].Receiving?
      modifies this
      ensures Runs(s0, more) && Exec(s0, more) == Now()
      ensures w < |workers| == |old(workers)| && (if noticed then workers[w].Draining? else workers[w].Receiving?)
      ensures Grown(old(Now()), found) && (alone ==> found == old(Now()))
      ensures !found.cancelled && found.queue != [] ==> !noticed && HeadIsServed(found, Now())
      ensures !found.cancelled && found.queue == [] ==> !noticed && Now() == found
      ensures found.cancelled && found.queue == [] ==> noticed
      ensures alone && !noticed ==> cancelled == old(cancelled) && workers == old(workers)
      ensures alone && !noticed && old(queue) == [] ==> queue == [] && hist == old(hist)
      ensures alone && !noticed && old(queue) != [] ==>
        && queue == old(queue)[1..] && hist.dequeued == old(hist).dequeued + [old(queue)[0]]
        && hist.finished == old(hist).finished + [|old(hist).dequeued|]
      ensures alone && noticed ==>
        && cancelled && cancelled == old(cancelled)
        && queue == old(queue) && hist == old(hist) && workers == old(workers)[w := Draining]
    {
      more := OthersMove(PoolWorker(w), alone, s0, steps);
      found := Now();
      var receives: bool := *;
      noticed := false;
      if queue != [] && (receives || !cancelled) {
        more := Process(w, alone, s0, more);
      } else if cancelled {
        more := Prolong(s0, more, Now(), SeeCancel(w));
        workers := workers[w := Draining];
        noticed := true;
      }
    }

    /** The loop of a worker that has seen the cancellation. Undisturbed, with rounds enough, it
        takes everything that is queued, in order, passes each op to layer.Set, and exits. */
    method Drain(w: nat, rounds: nat, alone: bool, ghost s0: State, ghost steps: seq<Step>)
      returns (exited: bool, ghost more: seq<Step>)
      requires Runs(s0, steps) && Exec(s0, steps) == Now()
      requires w < |workers| && workers[w].Draining?
      modifies this
      ensures Runs(s0, more) && Exec(s0, more) == Now()
      ensures w < |workers| == |old(workers)| && (if exited then workers[w].Exited? else workers[w].Draining?)
      ensures alone ==> TookFirst(old(Now()), Now())
      ensures alone && rounds > |old(queue)| ==> exited && queue == [] && workers == old(workers)[w := Exited]
    {
      ghost var start := Now();
      more := steps;
      var left := rounds;
      while left > 0
        invariant Runs(s0, more) && Exec(s0, more) == Now()
        invariant w < |workers| == |old(workers)| && workers[w].Draining?
        invariant alone ==> TookFirst(start, Now()) && workers == old(workers)
        invariant alone && rounds > |old(queue)| ==> left > |queue|
      {
        left := left - 1;
        more := OthersMove(PoolWorker(w), alone, s0, more);
        if queue == [] {
          more := Prolong(s0, more, Now(), Exit(w));
          Leave(w);
          return true, more;
        }
        ghost var before := Now();
        more := Process(w, alone, s0, more);
        if alone {
          TookOneMore(start, before, Now());
        }
      }
      exited := false;
    }

    /** One op, from the receive to the count of its failure. */
    method Process(w: nat, alone: bool, ghost s0: State, ghost steps: seq<Step>) returns (ghost more: seq<Step>)
      requires Runs(s0, steps) && Exec(s0, steps) == Now()
      requires w < |workers| && (workers[w].Receiving? || workers[w].Draining?) && queue != []
      modifies this
      ensures Runs(s0, more) && Exec(s0, more) == Now()
      ensures w < |workers| == |old(workers)| && workers[w] == old(workers[w])
      ensures HeadIsServed(old(Now()), Now())
      ensures alone ==>
        && queue == old(queue)[1..] && hist.dequeued == old(hist).dequeued + [old(queue)[0]]
        && hist.finished == old(hist).finished + [|old(hist).dequeued|]
        && workers == old(workers) && cancelled == old(cancelled)
    {
      var ok;
      ok, more := ServeHead(w, alone, s0, steps);
      if !ok {
        ghost var served := Now();
        more := OthersMove(PoolWorker(w), alone, s0, more);
        more := Prolong(s0, more, Now(), CountFailure(w));
        CountFailed(w);
        StillServed(old(Now()), served, Now());
      }
    }

    /** From the receive to the return of layer.Set. */
    method ServeHead(w: nat, alone: bool, ghost s0: State, ghost steps: seq<Step>) returns (ok: bool, ghost more: seq<Step>)
      requires Runs(s0, steps) && Exec(s0, steps) == Now()
      requires w < |workers| && (workers[w].Receiving? || workers[w].Draining?) && queue != []
      modifies this
      ensures Runs(s0, more) && Exec(s0, more) == Now()
      ensures w < |workers| == |old(workers)|
      ensures workers[w] == if ok then old(workers[w]) else CountingFailure(old(workers[w].Draining?))
      ensures HeadIsServed(old(Now()), Now())
      ensures alone ==>
        && queue == old(queue)[1..] && hist.dequeued == old(hist).dequeued + [old(queue)[0]]
        && hist.finished == old(hist).finished + [|old(hist).dequeued|]
        && workers == old(workers)[w := workers[w]] && cancelled == old(cancelled)
    {
      more := Prolong(s0, steps, Now(), Receive(w));
      TakeOp(w);
      ghost var taken := Now();
      more := OthersMove(PoolWorker(w), alone, s0, more);
      ok := *;
      more := Prolong(s0, more, Now(), SetReturns(w, ok));
      Return(w, ok);
      assert hist.finished[|hist.finished| - 1] == |old(hist).dequeued|;
      assert taken.hist.dequeued[|old(hist).dequeued|] == old(queue)[0];
    }

    method TakeOp(w: nat)
      requires Enabled(Now(), Receive(w))
      modifies this
      ensures Now() == Apply(old(Now()), Receive(w))
    {
      var op := queue[0];
      var index := |hist.dequeued|;
      hist := hist.(dequeued := hist.dequeued + [op], workersAtTake := hist.workersAtTake + [workers]);
      queue := queue[1..];
      workers := workers[w := Setting(op, index, workers[w].Draining?)];
    }

    /** layer.Set returns to the worker that called it. */
    method Return(w: nat, ok: bool)
      requires Enabled(Now(), SetReturns(w, ok))
      modifies this
      ensures Now() == Apply(old(Now()), SetReturns(w, ok))
    {
      var index, draining := workers[w].index, workers[w].draining;
      if ok {
        workers := workers[w := if draining then Draining else Receiving];
      } else {
        workers := workers[w := CountingFailure(draining)];
        hist := hist.(failures := hist.failures + 1);
      }
      hist := hist.(finished := hist.finished + [index]);
    }

    method CountFailed(w: nat)
      requires Enabled(Now(), CountFailure(w))
      modifies this
      ensures Now() == Apply(old(Now()), CountFailure(w))
    {
      failedWrites := failedWrites + 1;
      workers := workers[w := if workers[w].draining then Draining else Receiving];
    }

    method Leave(w: nat)
      requires Enabled(Now(), Exit(w))
      modifies this
      ensures Now() == Apply(old(Now()), Exit(w))
    {
      workers := workers[w := Exited];
      if forall i | 0 <= i < |workers| :: workers[i].Exited? {
        hist := hist.(acceptedAtLastExit := |hist.accepted|, producersAtLastExit := producers);
      }
    }

    // -------------------------------------------------------------------------------------
    // Flush and Close
    // -------------------------------------------------------------------------------------

    /** Flush, while in each pause between its polls the other goroutines make any steps they
        can. It polls after each pause, succeeds at the first poll that finds the queue empty, and
        fails only after the last. When it succeeds, each op accepted before the call has been
        through layer.Set or is just there. */
    method Flush(pauses: seq<seq<Step>>) returns (flushed: bool, ghost polls: nat)
      requires Valid() && PausesRun(Now(), pauses)
      modifies this
      ensures Valid() && (flushed, Now()) == Polled(old(Now()), pauses)
      ensures flushed <==> queue == []
      ensures polls <= |pauses| && Now() == AfterPauses(old(Now()), pauses, polls)
      ensures forall j: nat :: j < polls ==> AfterPauses(old(Now()), pauses, j).queue != []
      ensures !flushed ==> polls == |pauses|
      ensures flushed ==> forall i :: 0 <= i < |old(hist).accepted| ==> i in hist.finished || InFlight(workers, i)
    {
      flushed := Poll(pauses);
      polls := PolledAtEachPause(old(Now()), pauses);
      PolledMeans(old(Now()), pauses);
    }

    /** Polls the queue until it is empty or the deadline, after the last pause, has passed. */
    method Poll(pauses: seq<seq<Step>>) returns (flushed: bool)
      requires PausesRun(Now(), pauses)
      modifies this
      ensures (flushed, Now()) == Polled(old(Now()), pauses)
      ensures flushed <==> queue == []
    {
      ghost var start := Now();
      var left := pauses;
      while queue != []
        invariant PausesRun(Now(), left) && Polled(Now(), left) == Polled(start, pauses)
        decreases |left|
      {
        if left == [] {
          return false;
        }
        Pause(left[0]);
        left := left[1..];
      }
      flushed := true;
    }

    method Pause(steps: seq<Step>)
      requires Runs(Now(), steps)
      modifies this
      ensures Now() == Exec(old(Now()), steps)
    {
      for i := 0 to |steps|
        invariant Runs(Now(), steps[i..]) && Exec(Now(), steps[i..]) == Exec(old(Now()), steps)
      {
        Perform(steps[i]);
        assert steps[i..][1..] == steps[i + 1..];
      }
    }

    /** Cancels and waits for the workers. Whatever the schedule, it returns; then every op that
        was accepted before the call has been through layer.Set, and an op that is still queued
        came from a Write that was past its gate when Close was called. */
    method Close() returns (ghost steps: seq<Step>)
      requires Valid() && !cancelled
      modifies this
      ensures Valid() && Runs(old(Now()), steps) && Exec(old(Now()), steps) == Now()
      ensures closed && AllExited(workers)
      ensures forall i :: 0 <= i < |old(hist).accepted| ==> i in hist.finished
      ensures |hist.dequeued| <= |hist.accepted| <= |hist.sources| && queue == hist.accepted[|hist.dequeued|..]
      ensures forall i :: |hist.dequeued| <= i < |hist.accepted| ==>
        GatedIn(old(producers), hist.sources[i], hist.accepted[i])
    {
      steps := CancelAndWait();
      RunInv(old(Now()), steps);
      ClosedMeans(Now());
    }

    method CancelAndWait() returns (ghost steps: seq<Step>)
      requires !cancelled && !closed
      modifies this
      ensures Runs(old(Now()), steps) && Exec(old(Now()), steps) == Now()
      ensures cancelled && closed && AllExited(workers) && |workers| == |old(workers)|
      ensures hist.acceptedAtCancel == |old(hist).accepted| && hist.producersAtCancel == old(producers)
    {
      ghost var s0 := Now();
      steps := Prolong(s0, [], s0, Cancel);
      CancelAll();
      ghost var atCancel := Now();
      while !AllExited(workers)
        invariant Runs(s0, steps) && Exec(s0, steps) == Now()
        invariant Grown(atCancel, Now()) && cancelled && !closed
        decreases Measure(Now())
      {
        steps := SomeoneMoves(s0, steps);
      }
      steps := Prolong(s0, steps, Now(), CloseReturns);
      closed := true;
    }

    method CancelAll()
      requires Enabled(Now(), Cancel)
      modifies this
      ensures Now() == Apply(old(Now()), Cancel)
    {
      cancelled := true;
      hist := hist.(acceptedAtCancel := |hist.accepted|, producersAtCancel := producers);
    }

    /** While Close waits some goroutine takes a step, and new calls of Write may come in. */
    method SomeoneMoves(ghost s0: State, ghost steps: seq<Step>) returns (ghost more: seq<Step>)
      requires Runs(s0, steps) && Exec(s0, steps) == Now()
      requires cancelled && !closed && !AllExited(workers)
      modifies this
      ensures Runs(s0, more) && Exec(s0, more) == Now()
      ensures Grown(old(Now()), Now()) && !closed
      ensures Measure(Now()) < Measure(old(Now()))
    {
      more := CallsComeIn(s0, steps);
      var step: Step := *;
      if !(Enabled(Now(), step) && Active(step) && !step.CloseReturns?) {
        var w :| 0 <= w < |workers| && !workers[w].Exited?;
        step := NextOf(w);
      }
      StepDecreasesMeasure(Now(), step);
      more := Prolong(s0, more, Now(), step);
      Perform(step);
    }

    method CallsComeIn(ghost s0: State, ghost steps: seq<Step>) returns (ghost more: seq<Step>)
      requires Runs(s0, steps) && Exec(s0, steps) == Now() && cancelled
      modifies this
      ensures Runs(s0, more) && Exec(s0, more) == Now()
      ensures Grown(old(Now()), Now()) && closed == old(closed) && workers == old(workers)
      ensures Measure(Now()) <= Measure(old(Now()))
    {
      more := steps;
      var n: int := *;
      while n > 0
        invariant Runs(s0, more) && Exec(s0, more) == Now()
        invariant Grown(old(Now()), Now()) && closed == old(closed) && workers == old(workers)
        invariant Measure(Now()) <= Measure(old(Now()))
      {
        n := n - 1;
        var step: Step := *;
        if step.Arrive? {
          StepDecreasesMeasure(Now(), step);
          more := Prolong(s0, more, Now(), step);
          Perform(step);
        }
      }
    }

    /** A worker of a cancelled writer can always move. */
    function NextOf(w: nat): (step: Step)
      requires w < |workers| && !workers[w].Exited? && cancelled
      reads this
      ensures Enabled(Now(), step) && OfWorker(step)
    {
      match workers[w]
      case Receiving => SeeCancel(w)
      case Setting(_, _, _) => SetReturns(w, true)
      case CountingFailure(_) => CountFailure(w)
      case Draining => if queue == [] then Exit(w) else Receive(w)
    }
  }

  lemma {:induction false} PolledMeans(s: State, pauses: seq<seq<Step>>)
    requires Inv(s) && PausesRun(s, pauses)
    ensures
      var (flushed, t) := Polled(s, pauses);
      && Inv(t) && |t.workers| == |s.workers| && s.hist.accepted <= t.hist.accepted
      && (flushed ==> forall i :: 0 <= i < |t.hist.accepted| ==> i in t.hist.finished || InFlight(t.workers, i))
    decreases |pauses|
  {
    if s.queue == [] {
      forall i | 0 <= i < |s.hist.accepted|
        ensures i in s.hist.finished || InFlight(s.workers, i)
      {
        CarriedIsInFlight(s.workers, i);
        FinishedOccurs(s.hist.finished, i);
      }
    } else if pauses != [] {
      RunInv(s, pauses[0]);
      RunKeepsPool(s, pauses[0]);
      AcceptedGrows(s, pauses[0]);
      PolledMeans(Exec(s, pauses[0]), pauses[1..]);
    }
  }

  /** What a closed writer has done, and where its stranded ops came from. */
  lemma ClosedMeans(s: State)
    requires Inv(s) && s.closed && |s.workers| > 0
    ensures forall i :: 0 <= i < s.hist.acceptedAtCancel ==> i in s.hist.finished
    ensures |s.hist.dequeued| <= |s.hist.accepted| <= |s.hist.sources|
    ensures s.queue == s.hist.accepted[|s.hist.dequeued|..]
    ensures forall i :: |s.hist.dequeued| <= i < |s.hist.accepted| ==>
      GatedIn(s.hist.producersAtCancel, s.hist.sources[i], s.hist.accepted[i])
  {
    assert s.workers[0].Exited?;
    forall i | 0 <= i < s.hist.acceptedAtCancel
      ensures i in s.hist.finished
    {
      CarriedIsInFlight(s.workers, i);
      FinishedOccurs(s.hist.finished, i);
    }
  }
}
