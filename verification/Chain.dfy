/** One call of the chain, on values: which layer answers, what is recorded, what is offered
    to the layers above, and what a write leaves in every layer. */
module ChainCalls {
  import opened CacheTypes
  import opened Metrics
  import opened Resilience
  import opened AsyncWriterProtocol
  import ChainProtocol

  /** The chain as it looks to one call: layer names and contents, top layer first. */
  datatype View = View(names: seq<string>, contents: seq<Contents>)

  predicate Fits(view: View, weathers: seq<Weather>) {
    |view.names| == |view.contents| == |weathers| > 0
  }

  function AnswerAt(view: View, key: Key, weathers: seq<Weather>, i: nat): Answer
    requires Fits(view, weathers) && i < |weathers|
  {
    GetAnswer(view.contents[i], key, weathers[i])
  }

  /** The first layer from `from` on whose answer is a hit, or the number of layers. */
  function FirstHit(view: View, key: Key, weathers: seq<Weather>, from: nat): (h: nat)
    requires Fits(view, weathers) && from <= |weathers|
    ensures from <= h <= |weathers|
    ensures forall i :: from <= i < h ==> AnswerAt(view, key, weathers, i).Failed?
    ensures h < |weathers| ==> AnswerAt(view, key, weathers, h).Hit?
    decreases |weathers| - from
  {
    if from == |weathers| then from
    else if AnswerAt(view, key, weathers, from).Hit? then from
    else FirstHit(view, key, weathers, from + 1)
  }

  predicate IsFirstHit(view: View, key: Key, weathers: seq<Weather>, h: nat)
    requires Fits(view, weathers) && h < |weathers|
  {
    && AnswerAt(view, key, weathers, h).Hit?
    && forall i :: 0 <= i < h ==> AnswerAt(view, key, weathers, i).Failed?
  }

  /** A read whose context is cancelled before layer cancelAt is asked. */
  function ChainAnswer(view: View, key: Key, weathers: seq<Weather>, cancelAt: nat): Answer
    requires Fits(view, weathers)
  {
    var h := FirstHit(view, key, weathers, 0);
    if h < |weathers| && h < cancelAt then AnswerAt(view, key, weathers, h)
    else if cancelAt < |weathers| then Failed(Cancelled)
    else AnswerAt(view, key, weathers, |weathers| - 1)
  }

  function ProbeRecords(view: View, key: Key, weathers: seq<Weather>, n: nat): seq<Record>
    requires Fits(view, weathers) && n <= |weathers|
  {
    if n == 0 then []
    else ProbeRecords(view, key, weathers, n - 1)
           + GetRecords(view.names[n - 1], view.contents[n - 1], key, weathers[n - 1])
  }

  /** All records of one read: one probe per layer down to the hit, then the chain's own. */
  function ChainGetRecords(view: View, key: Key, weathers: seq<Weather>, cancelAt: nat): seq<Record>
    requires Fits(view, weathers)
  {
    var h := FirstHit(view, key, weathers, 0);
    if h < |weathers| && h < cancelAt then
      ProbeRecords(view, key, weathers, h + 1) + [ChainGetRecord(true, h)]
    else if cancelAt < |weathers| then
      ProbeRecords(view, key, weathers, cancelAt) + [ChainGetRecord(false, 0)]
    else
      ProbeRecords(view, key, weathers, |weathers|) + [ChainGetRecord(false, 0)]
  }

  /** The loop over the layers ends at the first hit, at the cancellation, or after the last
      layer, whichever comes first, having asked exactly the layers before that. */
  predicate StoppedAt(view: View, key: Key, weathers: seq<Weather>, cancelAt: nat, i: nat, r: Answer)
    requires Fits(view, weathers)
  {
    if r.Hit? then
      i < |weathers| && i < cancelAt && i == FirstHit(view, key, weathers, 0) && r == AnswerAt(view, key, weathers, i)
    else
      && i <= FirstHit(view, key, weathers, 0)
      && (|| (i < |weathers| && i == cancelAt && r == Failed(Cancelled))
          || (i == |weathers| <= cancelAt && r == AnswerAt(view, key, weathers, i - 1)))
  }

  /** Where the loop stopped decides the answer, the records and the warm-ups. */
  lemma StoppingDecides(view: View, key: Key, weathers: seq<Weather>, cancelAt: nat, i: nat, r: Answer)
    requires Fits(view, weathers) && StoppedAt(view, key, weathers, cancelAt, i, r)
    ensures r == ChainAnswer(view, key, weathers, cancelAt)
    ensures WarmDepth(view, key, weathers, cancelAt) == if r.Hit? then i else 0
    ensures i <= |weathers| && (r.Hit? ==> i < |weathers|)
    ensures ChainGetRecords(view, key, weathers, cancelAt)
         == ProbeRecords(view, key, weathers, if r.Hit? then i + 1 else i)
              + [if r.Hit? then ChainGetRecord(true, i) else ChainGetRecord(false, 0)]
  {
  }

  /** The number of upper layers a read offers its value to. */
  function WarmDepth(view: View, key: Key, weathers: seq<Weather>, cancelAt: nat): nat
    requires Fits(view, weathers)
  {
    var h := FirstHit(view, key, weathers, 0);
    if h < |weathers| && h < cancelAt then h else 0
  }

  /** The writer queues after layers from, ..., depth-1 were offered the value; `accepts` says
      which writers took it. */
  function Warmed(queues: seq<seq<WriteOp>>, key: Key, value: Value, ttls: seq<int>, from: nat, depth: nat, accepts: seq<bool>)
    : seq<seq<WriteOp>>
    requires |queues| == |ttls| == |accepts|
  {
    seq(|queues|, j requires 0 <= j < |queues| =>
      if from <= j < depth && accepts[j] then queues[j] + [WriteOp(key, value, ttls[j])] else queues[j])
  }

  lemma DescendingNext(done: seq<nat>, i: nat)
    ensures done + ChainProtocol.Descending(i + 1, 0) == (done + [i]) + ChainProtocol.Descending(i, 0)
  {
  }

  lemma WarmedNone(queues: seq<seq<WriteOp>>, key: Key, value: Value, ttls: seq<int>, depth: nat, accepts: seq<bool>)
    requires |queues| == |ttls| == |accepts|
    ensures Warmed(queues, key, value, ttls, depth, depth, accepts) == queues
  {
  }

  lemma WarmedNext(queues: seq<seq<WriteOp>>, key: Key, value: Value, ttls: seq<int>, i: nat, depth: nat, accepts: seq<bool>)
    requires |queues| == |ttls| == |accepts| && i < depth <= |queues|
    ensures
      var before := Warmed(queues, key, value, ttls, i + 1, depth, accepts);
      Warmed(queues, key, value, ttls, i, depth, accepts)
        == if accepts[i] then before[i := before[i] + [WriteOp(key, value, ttls[i])]] else before
  {
  }

  /** The contents after a write reached the first n layers. */
  function AfterSet(contents: seq<Contents>, key: Key, value: Value, ttls: seq<int>, weathers: seq<Weather>, n: nat)
    : (r: seq<Contents>)
    requires |contents| == |ttls| == |weathers| && n <= |contents|
  {
    seq(|contents|, i requires 0 <= i < |contents| =>
      if i < n && WriteApplies(weathers[i]) then contents[i][key := Item(value, ttls[i])] else contents[i])
  }

  function AfterDelete(contents: seq<Contents>, key: Key, weathers: seq<Weather>, n: nat): seq<Contents>
    requires |contents| == |weathers| && n <= |contents|
  {
    seq(|contents|, i requires 0 <= i < |contents| =>
      if i < n && WriteApplies(weathers[i]) then contents[i] - {key} else contents[i])
  }

  lemma AfterSetNext(contents: seq<Contents>, key: Key, value: Value, ttls: seq<int>, weathers: seq<Weather>, i: nat)
    requires |contents| == |ttls| == |weathers| && i < |contents|
    ensures
      var before := AfterSet(contents, key, value, ttls, weathers, i);
      AfterSet(contents, key, value, ttls, weathers, i + 1)
        == before[i := if WriteApplies(weathers[i]) then before[i][key := Item(value, ttls[i])] else before[i]]
  {
  }

  lemma AfterDeleteNext(contents: seq<Contents>, key: Key, weathers: seq<Weather>, i: nat)
    requires |contents| == |weathers| && i < |contents|
    ensures
      var before := AfterDelete(contents, key, weathers, i);
      AfterDelete(contents, key, weathers, i + 1)
        == before[i := if WriteApplies(weathers[i]) then before[i] - {key} else before[i]]
  {
  }

  /** The last failure among the first n layers, if any. */
  function LastFailure(weathers: seq<Weather>, n: nat): Outcome
    requires n <= |weathers|
  {
    if n == 0 then Ok
    else if WriteOutcome(weathers[n - 1]).Err? then WriteOutcome(weathers[n - 1])
    else LastFailure(weathers, n - 1)
  }

  function WriteResult(weathers: seq<Weather>, cancelAt: nat): Outcome {
    if cancelAt < |weathers| then Err(Cancelled) else LastFailure(weathers, |weathers|)
  }

  /** The layers a write visits before its context is cancelled. */
  function Visited(weathers: seq<Weather>, cancelAt: nat): nat {
    if cancelAt < |weathers| then cancelAt else |weathers|
  }

  function SetRecordsUpTo(names: seq<string>, weathers: seq<Weather>, n: nat): seq<Record>
    requires |names| == |weathers| && n <= |weathers|
  {
    if n == 0 then [] else SetRecordsUpTo(names, weathers, n - 1) + SetRecords(names[n - 1], weathers[n - 1])
  }

  function DeleteRecordsUpTo(names: seq<string>, weathers: seq<Weather>, n: nat): seq<Record>
    requires |names| == |weathers| && n <= |weathers|
  {
    if n == 0 then [] else DeleteRecordsUpTo(names, weathers, n - 1) + DeleteRecords(names[n - 1], weathers[n - 1])
  }

  // ---------------------------------------------------------------------------------------
  // What one call means
  // ---------------------------------------------------------------------------------------

  /** An uncancelled read returns the answer of the lowest-index layer that has one, and when
      none has, the last layer's error. */
  lemma LowestLayerAnswers(view: View, key: Key, weathers: seq<Weather>, cancelAt: nat, i: nat)
    requires Fits(view, weathers) && cancelAt >= |weathers| && i < |weathers|
    ensures
      var r := ChainAnswer(view, key, weathers, cancelAt);
      && (AnswerAt(view, key, weathers, i).Hit?
            && (forall j :: 0 <= j < i ==> AnswerAt(view, key, weathers, j).Failed?)
          ==> r == AnswerAt(view, key, weathers, i) && WarmDepth(view, key, weathers, cancelAt) == i)
      && ((forall j :: 0 <= j < |weathers| ==> AnswerAt(view, key, weathers, j).Failed?)
          <==> r.Failed?)
      && (r.Failed? ==> r == AnswerAt(view, key, weathers, |weathers| - 1))
  {
    var h := FirstHit(view, key, weathers, 0);
  }

  /** A read gets the first answer if its context is alive until that layer is asked, and otherwise
      the cancellation; without any answer, the last layer's error. */
  lemma CancelledOrAnswered(view: View, key: Key, weathers: seq<Weather>, cancelAt: nat)
    requires Fits(view, weathers)
    ensures
      var r := ChainAnswer(view, key, weathers, cancelAt);
      && (forall h: nat :: h < |weathers| && IsFirstHit(view, key, weathers, h) ==>
            if h < cancelAt
            then r == AnswerAt(view, key, weathers, h) && WarmDepth(view, key, weathers, cancelAt) == h
            else r == Failed(Cancelled))
      && ((forall i :: 0 <= i < |weathers| ==> AnswerAt(view, key, weathers, i).Failed?) ==>
            r == if cancelAt < |weathers| then Failed(Cancelled) else AnswerAt(view, key, weathers, |weathers| - 1))
  {
    var first := FirstHit(view, key, weathers, 0);
    forall h: nat | h < |weathers| && IsFirstHit(view, key, weathers, h)
      ensures h == first
    {
    }
  }

  /** A write returns no error if and only if its context stayed alive and every layer took it;
      then every layer holds the value. */
  lemma WriteSucceedsIff(contents: seq<Contents>, key: Key, value: Value, ttls: seq<int>, weathers: seq<Weather>, cancelAt: nat)
    requires |contents| == |ttls| == |weathers|
    ensures WriteResult(weathers, cancelAt).Ok? <==>
              cancelAt >= |weathers| && forall i :: 0 <= i < |weathers| ==> WriteOutcome(weathers[i]).Ok?
    ensures WriteResult(weathers, cancelAt).Ok? ==>
              forall i :: 0 <= i < |contents| ==>
                AfterSet(contents, key, value, ttls, weathers, Visited(weathers, cancelAt))[i]
                  == contents[i][key := Item(value, ttls[i])]
  {
    LastFailureIff(weathers, |weathers|);
  }

  lemma {:induction false} LastFailureIff(weathers: seq<Weather>, n: nat)
    requires n <= |weathers|
    ensures LastFailure(weathers, n).Ok? <==> forall i :: 0 <= i < n ==> WriteOutcome(weathers[i]).Ok?
  {
    if n > 0 {
      LastFailureIff(weathers, n - 1);
    }
  }

  /** An error is that of a layer after which every layer took the write; without one all did. */
  ghost predicate ReportsLastFailure(r: Outcome, weathers: seq<Weather>) {
    if r.Ok? then forall i :: 0 <= i < |weathers| ==> WriteOutcome(weathers[i]).Ok?
    else exists i :: 0 <= i < |weathers| && r == WriteOutcome(weathers[i])
           && forall j :: i < j < |weathers| ==> WriteOutcome(weathers[j]).Ok?
  }

  /** A write that was not cancelled and fails reports the failure of the last layer that failed. */
  lemma FailureIsTheLast(weathers: seq<Weather>, cancelAt: nat)
    ensures cancelAt < |weathers| ==> WriteResult(weathers, cancelAt) == Err(Cancelled)
    ensures cancelAt >= |weathers| ==> ReportsLastFailure(WriteResult(weathers, cancelAt), weathers)
  {
    LastFailureIff(weathers, |weathers|);
    if LastFailure(weathers, |weathers|).Err? {
      var i := LastToFail(weathers, |weathers|);
    }
  }

  lemma {:induction false} LastToFail(weathers: seq<Weather>, n: nat) returns (i: nat)
    requires n <= |weathers| && LastFailure(weathers, n).Err?
    ensures i < n && LastFailure(weathers, n) == WriteOutcome(weathers[i])
    ensures forall j :: i < j < n ==> WriteOutcome(weathers[j]).Ok?
  {
    if WriteOutcome(weathers[n - 1]).Err? {
      i := n - 1;
    } else {
      i := LastToFail(weathers, n - 1);
    }
  }

  /** Read your write: after a Set that returned no error, a read in which some layer answers
      and none is rejected as one too many returns the value, whatever the other layers do. */
  lemma SetThenGet(view: View, key: Key, value: Value, ttls: seq<int>, setWeathers: seq<Weather>, setCancelAt: nat,
                   weathers: seq<Weather>, cancelAt: nat)
    requires Fits(view, weathers) && Fits(view, setWeathers) && |ttls| == |weathers| && cancelAt >= |weathers|
    requires WriteResult(setWeathers, setCancelAt).Ok?
    requires forall i :: 0 <= i < |weathers| ==> !weathers[i].RejectedTooMany?
    requires exists i :: 0 <= i < |weathers| && weathers[i].Runs? && weathers[i].fault.None?
    ensures
      var after := AfterSet(view.contents, key, value, ttls, setWeathers, Visited(setWeathers, setCancelAt));
      ChainAnswer(view.(contents := after), key, weathers, cancelAt) == Hit(value)
  {
    WriteSucceedsIff(view.contents, key, value, ttls, setWeathers, setCancelAt);
    var after := view.(contents := AfterSet(view.contents, key, value, ttls, setWeathers, Visited(setWeathers, setCancelAt)));
    var i :| 0 <= i < |weathers| && weathers[i].Runs? && weathers[i].fault.None?;
    assert AnswerAt(after, key, weathers, i).Hit?;
    var h := FirstHit(after, key, weathers, 0);
    assert h <= i;
  }

  /** After a Delete that returned no error no layer holds the key, so no layer answers. */
  lemma DeleteThenGet(view: View, key: Key, deleteWeathers: seq<Weather>, deleteCancelAt: nat,
                      weathers: seq<Weather>, cancelAt: nat)
    requires Fits(view, weathers) && Fits(view, deleteWeathers)
    requires WriteResult(deleteWeathers, deleteCancelAt).Ok?
    requires forall i :: 0 <= i < |weathers| ==> !weathers[i].RejectedTooMany?
    ensures
      var after := AfterDelete(view.contents, key, deleteWeathers, Visited(deleteWeathers, deleteCancelAt));
      ChainAnswer(view.(contents := after), key, weathers, cancelAt).Failed?
  {
    LastFailureIff(deleteWeathers, |deleteWeathers|);
  }
}

/** The chain itself: a list of resilient layers over backing layers that are updated in place,
    one writer queue per layer, and the shared metrics collector. */
module Chain {
  import opened CacheTypes
  import opened Metrics
  import opened Resilience
  import opened AsyncWriterProtocol
  import opened ChainCalls
  import ChainProtocol

  /** The time to live of a warm-up before the layer's own adjustment: one hour. */
  const WARM_UP_TTL := 3600

  class CacheChain {
    const layers: seq<ResilientLayer>
    const collector: MemoryCollector
    const ttlOf: (nat, int) -> int
    var queues: seq<seq<WriteOp>>
    ghost var attempts: seq<nat>

    predicate Valid()
      reads this
    {
      && |queues| == |layers| > 0
      && (forall i :: 0 <= i < |layers| ==> layers[i].collector == collector)
      && (forall i, j :: 0 <= i < j < |layers| ==> layers[i].layer != layers[j].layer)
    }

    function Backing(): set<BackingLayer> {
      set i | 0 <= i < |layers| :: layers[i].layer
    }

    function Look(): View
      reads Backing()
    {
      View(
        seq(|layers|, i requires 0 <= i < |layers| => layers[i].layer.name),
        seq(|layers|, i requires 0 <= i < |layers| reads Backing() => layers[i].layer.contents))
    }

    function Ttls(ttl: int): seq<int> {
      seq(|layers|, i requires 0 <= i < |layers| => ttlOf(i, ttl))
    }

    constructor (backing: seq<BackingLayer>, collector: MemoryCollector, wrapped: seq<ResilientLayer>, ttlOf: (nat, int) -> int)
      requires |backing| == |wrapped| > 0
      requires forall i :: 0 <= i < |wrapped| ==> wrapped[i].layer == backing[i] && wrapped[i].collector == collector
      requires forall i, j :: 0 <= i < j < |backing| ==> backing[i] != backing[j]
      ensures Valid() && layers == wrapped && this.collector == collector && this.ttlOf == ttlOf
      ensures forall i :: 0 <= i < |queues| ==> queues[i] == []
    {
      layers, this.collector, this.ttlOf := wrapped, collector, ttlOf;
      queues := seq(|wrapped|, _ => []);
      attempts := [];
    }

    /** Offers the value to the writers of layers hitIndex-1, ..., 0; each may drop it. */
    method WarmUpperLayers(key: Key, value: Value, hitIndex: nat, accepts: seq<bool>)
      requires Valid() && hitIndex < |layers| && |accepts| == |layers|
      modifies this`queues, this`attempts
      ensures Valid()
      ensures attempts == old(attempts) + ChainProtocol.Descending(hitIndex, 0)
      ensures forall j :: 0 <= j < |layers| ==>
        queues[j] ==
          if j < hitIndex && accepts[j] then old(queues)[j] + [WriteOp(key, value, ttlOf(j, 3600))] else old(queues)[j]
      ensures queues == Warmed(old(queues), key, value, Ttls(WARM_UP_TTL), 0, hitIndex, accepts)
    {
      ghost var before, ttls := queues, Ttls(WARM_UP_TTL);
      var i := hitIndex;
      WarmedNone(before, key, value, ttls, hitIndex, accepts);
      while i > 0
        invariant 0 <= i <= hitIndex && Valid()
        invariant attempts + ChainProtocol.Descending(i, 0) == old(attempts) + ChainProtocol.Descending(hitIndex, 0)
        invariant queues == Warmed(before, key, value, ttls, i, hitIndex, accepts)
      {
        i := i - 1;
        DescendingNext(attempts, i);
        Offer(i, WriteOp(key, value, ttlOf(i, WARM_UP_TTL)), accepts[i]);
        WarmedNext(before, key, value, ttls, i, hitIndex, accepts);
      }
    }

    /** One call of a layer's writer, which may drop the op. */
    method Offer(i: nat, op: WriteOp, accepted: bool)
      requires Valid() && i < |layers|
      modifies this`queues, this`attempts
      ensures Valid()
      ensures attempts == old(attempts) + [i]
      ensures queues == if accepted then old(queues)[i := old(queues)[i] + [op]] else old(queues)
    {
      attempts := attempts + [i];
      if accepted {
        queues := queues[i := queues[i] + [op]];
      }
    }

    /** Asks the layers in order until one answers, then warms the layers above it. */
    method GetWithFallback(key: Key, weathers: seq<Weather>, accepts: seq<bool>, cancelAt: nat) returns (r: Answer)
      requires Valid() && |weathers| == |accepts| == |layers|
      modifies this`queues, this`attempts, collector
      ensures Valid()
      ensures r == ChainAnswer(Look(), key, weathers, cancelAt)
      ensures forall h: nat :: h < |layers| && IsFirstHit(Look(), key, weathers, h) ==>
        if h < cancelAt
        then r == AnswerAt(Look(), key, weathers, h) && attempts == old(attempts) + ChainProtocol.Descending(h, 0)
        else r == Failed(Cancelled)
      ensures (forall i :: 0 <= i < |layers| ==> AnswerAt(Look(), key, weathers, i).Failed?) ==>
        r == if cancelAt < |layers| then Failed(Cancelled) else AnswerAt(Look(), key, weathers, |layers| - 1)
      ensures collector.View() == Replay(old(collector.View()), ChainGetRecords(Look(), key, weathers, cancelAt))
      ensures attempts == old(attempts) + ChainProtocol.Descending(WarmDepth(Look(), key, weathers, cancelAt), 0)
      ensures r.Failed? ==> queues == old(queues)
      ensures r.Hit? ==> queues == Warmed(old(queues), key, r.value, Ttls(WARM_UP_TTL), 0,
                                          WarmDepth(Look(), key, weathers, cancelAt), accepts)
    {
      ghost var before, view := collector.View(), Look();
      var hitLayer;
      hitLayer, r := FallThrough(key, weathers, cancelAt, view, before);
      StoppingDecides(view, key, weathers, cancelAt, hitLayer, r);
      ReplayPush(before, ProbeRecords(view, key, weathers, if r.Hit? then hitLayer + 1 else hitLayer),
                 if r.Hit? then ChainGetRecord(true, hitLayer) else ChainGetRecord(false, 0));
      CancelledOrAnswered(view, key, weathers, cancelAt);
      if r.Hit? {
        FinishHit(key, r.value, hitLayer, accepts);
      } else {
        FinishMiss();
      }
      assert Look() == view;
    }

    /** The end of a read that found no value. */
    method FinishMiss()
      modifies collector
      ensures Look() == old(Look())
      ensures collector.View() == Metrics.Apply(old(collector.View()), ChainGetRecord(false, 0))
    {
      collector.RecordChainGet(false, 0);
    }

    /** The end of a read that found its value. */
    method FinishHit(key: Key, value: Value, hitLayer: nat, accepts: seq<bool>)
      requires Valid() && hitLayer < |layers| && |accepts| == |layers|
      modifies this`queues, this`attempts, collector
      ensures Valid() && Look() == old(Look())
      ensures collector.View() == Metrics.Apply(old(collector.View()), ChainGetRecord(true, hitLayer))
      ensures attempts == old(attempts) + ChainProtocol.Descending(hitLayer, 0)
      ensures queues == Warmed(old(queues), key, value, Ttls(WARM_UP_TTL), 0, hitLayer, accepts)
    {
      if hitLayer > 0 {
        WarmUpperLayers(key, value, hitLayer, accepts);
      } else {
        WarmedNone(queues, key, value, Ttls(WARM_UP_TTL), 0, accepts);
      }
      collector.RecordChainGet(true, hitLayer);
    }

    /** The loop over the layers: where it stopped, and with what. */
    method FallThrough(key: Key, weathers: seq<Weather>, cancelAt: nat, ghost view: View, ghost before: Snapshot)
      returns (i: nat, r: Answer)
      requires Valid() && |weathers| == |layers| && Look() == view && collector.View() == before
      modifies collector
      ensures Look() == view
      ensures StoppedAt(view, key, weathers, cancelAt, i, r)
      ensures collector.View() == Replay(before, ProbeRecords(view, key, weathers, if r.Hit? then i + 1 else i))
    {
      var lastErr := NotFound;
      i := 0;
      while i < |layers|
        invariant 0 <= i <= |layers| && i <= cancelAt
        invariant Look() == view
        invariant FirstHit(view, key, weathers, 0) == FirstHit(view, key, weathers, i)
        invariant i > 0 ==> AnswerAt(view, key, weathers, i - 1) == Failed(lastErr)
        invariant collector.View() == Replay(before, ProbeRecords(view, key, weathers, i))
      {
        if i == cancelAt {
          return i, Failed(Cancelled);
        }
        var answer := ProbeLayer(key, weathers, i, view, before);
        if answer.Hit? {
          return i, answer;
        }
        lastErr := answer.error;
        i := i + 1;
      }
      r := Failed(lastErr);
    }

    /** One layer call of a read; the records so far are those of the layers before it. */
    method ProbeLayer(key: Key, weathers: seq<Weather>, i: nat, ghost view: View, ghost before: Snapshot)
      returns (answer: Answer)
      requires Valid() && |weathers| == |layers| && i < |layers| && Look() == view
      requires collector.View() == Replay(before, ProbeRecords(view, key, weathers, i))
      modifies collector
      ensures Look() == view
      ensures answer == AnswerAt(view, key, weathers, i)
      ensures collector.View() == Replay(before, ProbeRecords(view, key, weathers, i + 1))
    {
      answer := layers[i].Get(key, weathers[i]);
      ReplayConcat(before, ProbeRecords(view, key, weathers, i),
                   GetRecords(view.names[i], view.contents[i], key, weathers[i]));
    }

    method SetLayer(i: nat, key: Key, value: Value, ttl: int, weather: Weather) returns (r: Outcome)
      requires Valid() && i < |layers|
      modifies layers[i].layer, collector
      ensures r == WriteOutcome(weather)
      ensures Look().names == old(Look()).names
      ensures Look().contents == old(Look()).contents[i :=
        if WriteApplies(weather) then old(Look()).contents[i][key := Item(value, ttl)] else old(Look()).contents[i]]
      ensures collector.View() == Replay(old(collector.View()), SetRecords(Look().names[i], weather))
    {
      r := layers[i].Set(key, value, ttl, weather);
    }

    method DeleteLayer(i: nat, key: Key, weather: Weather) returns (r: Outcome)
      requires Valid() && i < |layers|
      modifies layers[i].layer, collector
      ensures r == WriteOutcome(weather)
      ensures Look().names == old(Look()).names
      ensures Look().contents == old(Look()).contents[i :=
        if WriteApplies(weather) then old(Look()).contents[i] - {key} else old(Look()).contents[i]]
      ensures collector.View() == Replay(old(collector.View()), DeleteRecords(Look().names[i], weather))
    {
      r := layers[i].Delete(key, weather);
    }

    /** One layer call of a Set; the layers before it have been visited. */
    method SetNext(i: nat, key: Key, value: Value, ttl: int, weathers: seq<Weather>, ghost view: View, ghost before: Snapshot)
      returns (r: Outcome)
      requires Valid() && |weathers| == |view.names| == |view.contents| == |layers| && i < |layers|
      requires Look() == View(view.names, AfterSet(view.contents, key, value, Ttls(ttl), weathers, i))
      requires collector.View() == Replay(before, SetRecordsUpTo(view.names, weathers, i))
      modifies layers[i].layer, collector
      ensures r == WriteOutcome(weathers[i])
      ensures Look() == View(view.names, AfterSet(view.contents, key, value, Ttls(ttl), weathers, i + 1))
      ensures collector.View() == Replay(before, SetRecordsUpTo(view.names, weathers, i + 1))
    {
      var layerTtl := ttlOf(i, ttl);
      r := SetLayer(i, key, value, layerTtl, weathers[i]);
      AfterSetNext(view.contents, key, value, Ttls(ttl), weathers, i);
      ReplayConcat(before, SetRecordsUpTo(view.names, weathers, i), SetRecords(view.names[i], weathers[i]));
    }

    /** One layer call of a Delete; the layers before it have been visited. */
    method DeleteNext(i: nat, key: Key, weathers: seq<Weather>, ghost view: View, ghost before: Snapshot)
      returns (r: Outcome)
      requires Valid() && |weathers| == |view.names| == |view.contents| == |layers| && i < |layers|
      requires Look() == View(view.names, AfterDelete(view.contents, key, weathers, i))
      requires collector.View() == Replay(before, DeleteRecordsUpTo(view.names, weathers, i))
      modifies layers[i].layer, collector
      ensures r == WriteOutcome(weathers[i])
      ensures Look() == View(view.names, AfterDelete(view.contents, key, weathers, i + 1))
      ensures collector.View() == Replay(before, DeleteRecordsUpTo(view.names, weathers, i + 1))
    {
      r := DeleteLayer(i, key, weathers[i]);
      AfterDeleteNext(view.contents, key, weathers, i);
      ReplayConcat(before, DeleteRecordsUpTo(view.names, weathers, i), DeleteRecords(view.names[i], weathers[i]));
    }

    /** Writes every layer in order, each with its own time to live, whatever the earlier ones
        answered, and reports the last failure; a cancelled context ends the call there. */
    method Set(key: Key, value: Value, ttl: int, weathers: seq<Weather>, cancelAt: nat) returns (r: Outcome)
      requires Valid() && |weathers| == |layers|
      modifies Backing(), collector
      ensures Valid()
      ensures cancelAt < |layers| ==> r == Err(Cancelled)
      ensures cancelAt >= |layers| ==> ReportsLastFailure(r, weathers)
      ensures forall i :: 0 <= i < |layers| ==>
        layers[i].layer.contents ==
          if i < cancelAt && WriteApplies(weathers[i])
          then old(layers[i].layer.contents)[key := Item(value, ttlOf(i, ttl))] else old(layers[i].layer.contents)
      ensures r == WriteResult(weathers, cancelAt)
      ensures Look().contents
           == AfterSet(old(Look()).contents, key, value, Ttls(ttl), weathers, Visited(weathers, cancelAt))
      ensures Look().names == old(Look()).names
      ensures collector.View()
           == Replay(old(collector.View()), SetRecordsUpTo(Look().names, weathers, Visited(weathers, cancelAt)))
    {
      ghost var view := Look();
      r := SetEach(key, value, ttl, weathers, cancelAt);
      FailureIsTheLast(weathers, cancelAt);
      forall i | 0 <= i < |layers|
        ensures layers[i].layer.contents ==
          if i < cancelAt && WriteApplies(weathers[i])
          then old(layers[i].layer.contents)[key := Item(value, ttlOf(i, ttl))] else old(layers[i].layer.contents)
      {
        assert Look().contents[i] == layers[i].layer.contents && view.contents[i] == old(layers[i].layer.contents);
      }
    }

    /** The loop of Set. */
    method SetEach(key: Key, value: Value, ttl: int, weathers: seq<Weather>, cancelAt: nat) returns (r: Outcome)
      requires Valid() && |weathers| == |layers|
      modifies Backing(), collector
      ensures Valid()
      ensures r == WriteResult(weathers, cancelAt)
      ensures Look().contents
           == AfterSet(old(Look()).contents, key, value, Ttls(ttl), weathers, Visited(weathers, cancelAt))
      ensures Look().names == old(Look()).names
      ensures collector.View()
           == Replay(old(collector.View()), SetRecordsUpTo(Look().names, weathers, Visited(weathers, cancelAt)))
    {
      ghost var before, view, ttls := collector.View(), Look(), Ttls(ttl);
      var lastErr := Ok;
      var i := 0;
      assert AfterSet(view.contents, key, value, ttls, weathers, 0) == view.contents;
      while i < |layers|
        invariant 0 <= i <= |layers| && i <= cancelAt
        invariant lastErr == LastFailure(weathers, i)
        invariant Look() == View(view.names, AfterSet(view.contents, key, value, ttls, weathers, i))
        invariant collector.View() == Replay(before, SetRecordsUpTo(view.names, weathers, i))
      {
        if i == cancelAt {
          return Err(Cancelled);
        }
        var outcome := SetNext(i, key, value, ttl, weathers, view, before);
        if outcome.Err? {
          lastErr := outcome;
        }
        i := i + 1;
      }
      r := lastErr;
    }

    /** Removes the key from every layer in order, whatever the earlier ones answered, and reports
        the last failure; a cancelled context ends the call there. */
    method Delete(key: Key, weathers: seq<Weather>, cancelAt: nat) returns (r: Outcome)
      requires Valid() && |weathers| == |layers|
      modifies Backing(), collector
      ensures Valid()
      ensures cancelAt < |layers| ==> r == Err(Cancelled)
      ensures cancelAt >= |layers| ==> ReportsLastFailure(r, weathers)
      ensures forall i :: 0 <= i < |layers| ==>
        layers[i].layer.contents ==
          if i < cancelAt && WriteApplies(weathers[i])
          then old(layers[i].layer.contents) - {key} else old(layers[i].layer.contents)
      ensures r == WriteResult(weathers, cancelAt)
      ensures Look().contents == AfterDelete(old(Look()).contents, key, weathers, Visited(weathers, cancelAt))
      ensures Look().names == old(Look()).names
      ensures collector.View()
           == Replay(old(collector.View()), DeleteRecordsUpTo(Look().names, weathers, Visited(weathers, cancelAt)))
    {
      ghost var view := Look();
      r := DeleteEach(key, weathers, cancelAt);
      FailureIsTheLast(weathers, cancelAt);
      forall i | 0 <= i < |layers|
        ensures layers[i].layer.contents ==
          if i < cancelAt && WriteApplies(weathers[i])
          then old(layers[i].layer.contents) - {key} else old(layers[i].layer.contents)
      {
        assert Look().contents[i] == layers[i].layer.contents && view.contents[i] == old(layers[i].layer.contents);
      }
    }

    /** The loop of Delete. */
    method DeleteEach(key: Key, weathers: seq<Weather>, cancelAt: nat) returns (r: Outcome)
      requires Valid() && |weathers| == |layers|
      modifies Backing(), collector
      ensures Valid()
      ensures r == WriteResult(weathers, cancelAt)
      ensures Look().contents == AfterDelete(old(Look()).contents, key, weathers, Visited(weathers, cancelAt))
      ensures Look().names == old(Look()).names
      ensures collector.View()
           == Replay(old(collector.View()), DeleteRecordsUpTo(Look().names, weathers, Visited(weathers, cancelAt)))
    {
      ghost var before, view := collector.View(), Look();
      var lastErr := Ok;
      var i := 0;
      assert AfterDelete(view.contents, key, weathers, 0) == view.contents;
      while i < |layers|
        invariant 0 <= i <= |layers| && i <= cancelAt
        invariant lastErr == LastFailure(weathers, i)
        invariant Look() == View(view.names, AfterDelete(view.contents, key, weathers, i))
        invariant collector.View() == Replay(before, DeleteRecordsUpTo(view.names, weathers, i))
      {
        if i == cancelAt {
          return Err(Cancelled);
        }
        var outcome := DeleteNext(i, key, weathers, view, before);
        if outcome.Err? {
          lastErr := outcome;
        }
        i := i + 1;
      }
      r := lastErr;
    }
  }
}
