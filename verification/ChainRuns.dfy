/** The two models of the chain agree: a call of the chain object, left alone and perhaps cut
    short by its context, is a run of the protocol that ends with the same answer, the same
    layer contents and the same warm-ups. */
module ChainRuns {
  import opened CacheTypes
  import opened Resilience
  import opened ChainCalls
  import opened P = ChainProtocol

  /** A layer's contents without the times to live, which the protocol does not track. */
  function ValuesOf(contents: Contents): map<Key, Value> {
    map k | k in contents :: contents[k].value
  }

  function AllValuesOf(contents: seq<Contents>): seq<map<Key, Value>> {
    seq(|contents|, i requires 0 <= i < |contents| => ValuesOf(contents[i]))
  }

  ghost predicate Matches(s: P.State, contents: seq<Contents>) {
    |s.layers| == |s.pending| == |contents| && s.layers == AllValuesOf(contents)
  }

  /** How the protocol sees the answer of layer i. */
  function ProbeOf(view: View, key: Key, weathers: seq<Weather>, i: nat): P.Probe
    requires Fits(view, weathers) && i < |weathers|
  {
    if weathers[i].RejectedTooMany? then P.RejectedTooMany
    else match AnswerAt(view, key, weathers, i)
      case Hit(_) => Answered
      case Failed(error) => NoAnswer(error)
  }

  /** Asking layers i, i+1, ... of the protocol until one answers or the context is cancelled. */
  lemma FallThroughRun(s0: P.State, steps: seq<Step>, s: P.State, c: nat, view: View, key: Key, weathers: seq<Weather>, cancelAt: nat, i: nat)
    returns (more: seq<Step>)
    requires Fits(view, weathers) && Matches(s, view.contents) && i < |weathers|
    requires P.Runs(s0, steps) && Exec(s0, steps) == s
    requires c < |s.calls| && s.calls[c] == Probing(key, i)
    requires FirstHit(view, key, weathers, 0) >= i && i <= cancelAt
    ensures P.Runs(s0, more)
    ensures Exec(s0, more) == Become(s, c, AfterFallThrough(view, key, weathers, cancelAt))
    decreases |weathers| - i
  {
    if i == cancelAt {
      more := Extend(s0, steps, Abort(c), s, Apply(s, Abort(c)));
    } else {
      var h := FirstHit(view, key, weathers, 0);
      var step := Step.Probe(c, ProbeOf(view, key, weathers, i));
      assert s.layers[i] == ValuesOf(view.contents[i]);
      assert i < h ==> AnswerAt(view, key, weathers, i).Failed?;
      var t := Apply(s, step);
      more := Extend(s0, steps, step, s, t);
      if i < h && i + 1 < |weathers| {
        more := FallThroughRun(s0, more, t, c, view, key, weathers, cancelAt, i + 1);
      }
    }
  }

  /** The state of a read once its loop over the layers has ended. */
  function AfterFallThrough(view: View, key: Key, weathers: seq<Weather>, cancelAt: nat): P.Call
    requires Fits(view, weathers)
  {
    var r := ChainAnswer(view, key, weathers, cancelAt);
    if r.Hit? then AfterHit(key, r.value, WarmDepth(view, key, weathers, cancelAt)) else P.Returned(key, r)
  }

  /** The pending warm-ups after layers 0, ..., depth-1 were offered the value. */
  function WarmedPending(pending: seq<seq<WarmUp>>, key: Key, value: Value, depth: nat, accepts: seq<bool>): seq<seq<WarmUp>>
    requires |pending| == |accepts|
  {
    seq(|pending|, j requires 0 <= j < |pending| =>
      if j < depth && accepts[j] then pending[j] + [WarmUp(key, value)] else pending[j])
  }

  lemma WarmedPendingNext(pending: seq<seq<WarmUp>>, key: Key, value: Value, depth: nat, accepts: seq<bool>)
    requires |pending| == |accepts| && depth < |pending|
    ensures
      var offered := if accepts[depth] then pending[depth := pending[depth] + [WarmUp(key, value)]] else pending;
      WarmedPending(pending, key, value, depth + 1, accepts) == WarmedPending(offered, key, value, depth, accepts)
  {
  }

  lemma OneOffer(s: P.State, c: nat, key: Key, value: Value, depth: nat, accepted: bool)
    requires 0 < depth <= |s.pending| && c < |s.calls| && s.calls[c] == AfterHit(key, value, depth)
    ensures Enabled(s, Offer(c, accepted))
    ensures
      var i := depth - 1;
      var pending := if accepted then s.pending[i := s.pending[i] + [WarmUp(key, value)]] else s.pending;
      Apply(s, Offer(c, accepted)) == Become(s, c, AfterHit(key, value, i)).(pending := pending)
  {
  }

  lemma WarmUpRun(s0: P.State, steps: seq<Step>, s: P.State, c: nat, key: Key, value: Value, depth: nat, accepts: seq<bool>)
    returns (more: seq<Step>)
    requires P.Runs(s0, steps) && Exec(s0, steps) == s && |accepts| == |s.pending| && depth <= |s.pending|
    requires c < |s.calls| && s.calls[c] == AfterHit(key, value, depth)
    ensures P.Runs(s0, more)
    ensures Exec(s0, more) == Become(s, c, P.Returned(key, Hit(value))).(
                                pending := WarmedPending(s.pending, key, value, depth, accepts))
    decreases depth
  {
    if depth == 0 {
      more := steps;
      assert WarmedPending(s.pending, key, value, depth, accepts) == s.pending;
    } else {
      var step := Offer(c, accepts[depth - 1]);
      OneOffer(s, c, key, value, depth, accepts[depth - 1]);
      var t := Apply(s, step);
      more := Extend(s0, steps, step, s, t);
      WarmedPendingNext(s.pending, key, value, depth - 1, accepts);
      more := WarmUpRun(s0, more, t, c, key, value, depth - 1, accepts);
    }
  }

  /** An uninterrupted read of the chain is a run of the protocol. */
  lemma GetIsARun(s: P.State, view: View, key: Key, weathers: seq<Weather>, cancelAt: nat, accepts: seq<bool>)
    returns (steps: seq<Step>)
    requires Fits(view, weathers) && Matches(s, view.contents) && |accepts| == |weathers|
    ensures P.Runs(s, steps)
    ensures
      var r := ChainAnswer(view, key, weathers, cancelAt);
      var t := Exec(s, steps);
      && t.layers == s.layers
      && t.calls == s.calls + [P.Returned(key, r)]
      && (r.Failed? ==> t.pending == s.pending)
      && (r.Hit? ==>
            t.pending == WarmedPending(s.pending, key, r.value, WarmDepth(view, key, weathers, cancelAt), accepts))
  {
    var c, r := |s.calls|, ChainAnswer(view, key, weathers, cancelAt);
    var begun := Apply(s, BeginGet(key));
    steps := Extend(s, [], BeginGet(key), s, begun);
    steps := FallThroughRun(s, steps, begun, c, view, key, weathers, cancelAt, 0);
    var found := Exec(s, steps);
    if r.Hit? {
      steps := WarmUpRun(s, steps, found, c, key, r.value, WarmDepth(view, key, weathers, cancelAt), accepts);
    }
    assert Exec(s, steps).calls == s.calls + [P.Returned(key, r)];
  }

  /** One layer call of a write takes effect or not, and the write goes on either way. */
  function VisitOf(c: nat, weather: Weather): Step {
    Visit(c, WriteApplies(weather), WriteOutcome(weather).Ok?)
  }

  /** A Set that has come to layer i visits the rest of its layers, or is cut short. */
  lemma SetVisits(s0: P.State, steps: seq<Step>, s: P.State, c: nat, contents: seq<Contents>, key: Key, value: Value,
                  ttls: seq<int>, weathers: seq<Weather>, cancelAt: nat, i: nat)
    returns (more: seq<Step>)
    requires |contents| == |ttls| == |weathers| && i < |weathers| && i <= cancelAt
    requires Matches(s, AfterSet(contents, key, value, ttls, weathers, i))
    requires P.Runs(s0, steps) && Exec(s0, steps) == s
    requires c < |s.calls| && s.calls[c] == Setting(key, value, i)
    ensures P.Runs(s0, more)
    ensures
      var t := Exec(s0, more);
      && Matches(t, AfterSet(contents, key, value, ttls, weathers, Visited(weathers, cancelAt)))
      && t.calls == s.calls[c := Finished] && t.pending == s.pending && t.latest == s.latest
    decreases |weathers| - i
  {
    if i == cancelAt {
      more := Extend(s0, steps, Abort(c), s, Apply(s, Abort(c)));
    } else {
      var step := VisitOf(c, weathers[i]);
      var t := Apply(s, step);
      more := Extend(s0, steps, step, s, t);
      SetVisitMatches(s, t, c, contents, key, value, ttls, weathers, i);
      if i + 1 < |weathers| {
        more := SetVisits(s0, more, t, c, contents, key, value, ttls, weathers, cancelAt, i + 1);
      }
    }
  }

  lemma SetVisitMatches(s: P.State, t: P.State, c: nat, contents: seq<Contents>, key: Key, value: Value,
                        ttls: seq<int>, weathers: seq<Weather>, i: nat)
    requires |contents| == |ttls| == |weathers| && i < |weathers|
    requires Matches(s, AfterSet(contents, key, value, ttls, weathers, i))
    requires c < |s.calls| && s.calls[c] == Setting(key, value, i)
    requires t == Apply(s, VisitOf(c, weathers[i]))
    ensures Matches(t, AfterSet(contents, key, value, ttls, weathers, i + 1))
  {
    var before := AfterSet(contents, key, value, ttls, weathers, i);
    var after := AfterSet(contents, key, value, ttls, weathers, i + 1);
    AfterSetNext(contents, key, value, ttls, weathers, i);
    assert s.layers[i] == ValuesOf(before[i]);
    assert ValuesOf(before[i][key := Item(value, ttls[i])]) == ValuesOf(before[i])[key := value];
    assert t.layers == AllValuesOf(after);
  }

  /** An uninterrupted write of the chain is a run of the protocol. */
  lemma SetIsARun(s: P.State, contents: seq<Contents>, key: Key, value: Value, ttls: seq<int>, weathers: seq<Weather>, cancelAt: nat)
    returns (steps: seq<Step>)
    requires |contents| == |ttls| == |weathers| > 0 && Matches(s, contents)
    ensures P.Runs(s, steps)
    ensures
      var t := Exec(s, steps);
      && Matches(t, AfterSet(contents, key, value, ttls, weathers, Visited(weathers, cancelAt)))
      && t.calls == s.calls + [Finished] && t.pending == s.pending
      && t.latest == s.latest[key := value]
  {
    var c := |s.calls|;
    var begun := Apply(s, BeginSet(key, value));
    steps := Extend(s, [], BeginSet(key, value), s, begun);
    assert AfterSet(contents, key, value, ttls, weathers, 0) == contents;
    steps := SetVisits(s, steps, begun, c, contents, key, value, ttls, weathers, cancelAt, 0);
    assert begun.calls[c := Finished] == s.calls + [Finished];
  }

  /** A Delete that has come to layer i visits the rest of its layers, or is cut short. */
  lemma DeleteVisits(s0: P.State, steps: seq<Step>, s: P.State, c: nat, contents: seq<Contents>, key: Key,
                     weathers: seq<Weather>, cancelAt: nat, i: nat)
    returns (more: seq<Step>)
    requires |contents| == |weathers| && i < |weathers| && i <= cancelAt
    requires Matches(s, AfterDelete(contents, key, weathers, i))
    requires P.Runs(s0, steps) && Exec(s0, steps) == s
    requires c < |s.calls| && s.calls[c] == Deleting(key, i)
    ensures P.Runs(s0, more)
    ensures
      var t := Exec(s0, more);
      && Matches(t, AfterDelete(contents, key, weathers, Visited(weathers, cancelAt)))
      && t.calls == s.calls[c := Finished] && t.pending == s.pending && t.latest == s.latest
    decreases |weathers| - i
  {
    if i == cancelAt {
      more := Extend(s0, steps, Abort(c), s, Apply(s, Abort(c)));
    } else {
      var step := VisitOf(c, weathers[i]);
      var t := Apply(s, step);
      more := Extend(s0, steps, step, s, t);
      DeleteVisitMatches(s, t, c, contents, key, weathers, i);
      if i + 1 < |weathers| {
        more := DeleteVisits(s0, more, t, c, contents, key, weathers, cancelAt, i + 1);
      }
    }
  }

  lemma DeleteVisitMatches(s: P.State, t: P.State, c: nat, contents: seq<Contents>, key: Key, weathers: seq<Weather>, i: nat)
    requires |contents| == |weathers| && i < |weathers|
    requires Matches(s, AfterDelete(contents, key, weathers, i))
    requires c < |s.calls| && s.calls[c] == Deleting(key, i)
    requires t == Apply(s, VisitOf(c, weathers[i]))
    ensures Matches(t, AfterDelete(contents, key, weathers, i + 1))
  {
    var before := AfterDelete(contents, key, weathers, i);
    var after := AfterDelete(contents, key, weathers, i + 1);
    AfterDeleteNext(contents, key, weathers, i);
    assert s.layers[i] == ValuesOf(before[i]);
    assert ValuesOf(before[i] - {key}) == ValuesOf(before[i]) - {key};
    assert t.layers == AllValuesOf(after);
  }

  /** An uninterrupted removal of the chain is a run of the protocol. */
  lemma DeleteIsARun(s: P.State, contents: seq<Contents>, key: Key, weathers: seq<Weather>, cancelAt: nat)
    returns (steps: seq<Step>)
    requires |contents| == |weathers| > 0 && Matches(s, contents)
    ensures P.Runs(s, steps)
    ensures
      var t := Exec(s, steps);
      && Matches(t, AfterDelete(contents, key, weathers, Visited(weathers, cancelAt)))
      && t.calls == s.calls + [Finished] && t.pending == s.pending
      && t.latest == s.latest - {key}
  {
    var c := |s.calls|;
    var begun := Apply(s, BeginDelete(key));
    steps := Extend(s, [], BeginDelete(key), s, begun);
    assert AfterDelete(contents, key, weathers, 0) == contents;
    steps := DeleteVisits(s, steps, begun, c, contents, key, weathers, cancelAt, 0);
    assert begun.calls[c := Finished] == s.calls + [Finished];
  }
}
