/** The negative cache under concurrency, over a layer that others may write behind its back. A
    Get checks the map, asks the layer, and then remembers a miss or drops the entry of a hit; a
    Set drops the entry and then writes; a Delete removes and then remembers. Each locked region
    of the map and each call of the wrapped layer is one step. */
module NegativeConcurrent {
  import opened CacheTypes
  import opened Resilience
  import MemoryTable
  import Wrappers

  /** A call in progress or done. `seen` is what the wrapped layer held when it was asked, or
      when the check answered in its place, and `fault` how it failed. `cachedAt` is the time
      of the last caching of the key before the check. */
  datatype Call =
    | Asking(key: Key, checkedAt: int, cachedAt: Option<int>)
    | ToDrop(key: Key, seen: Contents, checkedAt: int, cachedAt: Option<int>)
    | ToRemember(key: Key, reader: Option<Call>)
    | ToWrite(key: Key, item: Item)
    | Got(key: Key, answer: Answer, masked: bool, seen: Contents, fault: Option<Error>, checkedAt: int, cachedAt: Option<int>)
    | Finished

  /** `negative` holds expiry times. `cached` records when each key was last cached as missing,
      whether or not the entry is still there; only the records of calls use it. */
  datatype State = State(
    ttl: nat,
    now: int,
    negative: map<Key, int>,
    cached: map<Key, int>,
    contents: Contents,
    calls: seq<Call>)

  datatype Step =
    | Tick(elapsed: nat)
    | Check(key: Key)
    | Ask(c: nat, fault: Option<Error>)
    | Drop(c: nat)
    | Remember(c: nat)
    | DropForSet(key: Key, item: Item)
    | Write(c: nat, fault: Option<Error>, tookEffect: bool)
    | Remove(key: Key, fault: Option<Error>, tookEffect: bool)
    | CleanUp
    | WriteDirectly(key: Key, item: Item)
    | Forget(key: Key)

  function Init(ttl: nat, now: int, contents: Contents): State {
    State(ttl, now, map[], map[], contents, [])
  }

  predicate Masks(s: State, key: Key) { key in s.negative && s.now <= s.negative[key] }

  /** A layer that holds a key does not report it missing. */
  predicate Enabled(s: State, step: Step) {
    match step
    case Ask(c, fault) => c < |s.calls| && s.calls[c].Asking? && fault != Some(NotFound)
    case Drop(c) => c < |s.calls| && s.calls[c].ToDrop?
    case Remember(c) => c < |s.calls| && s.calls[c].ToRemember?
    case Write(c, _, _) => c < |s.calls| && s.calls[c].ToWrite?
    case _ => true
  }

  function LastCached(s: State, key: Key): Option<int> {
    if key in s.cached then Some(s.cached[key]) else None
  }

  /** A Get whose layer has answered. */
  function AfterAsk(call: Call, contents: Contents, fault: Option<Error>): Call
    requires call.Asking?
  {
    var answer := InnerAnswer(contents, call.key, fault);
    var got := Got(call.key, answer, false, contents, fault, call.checkedAt, call.cachedAt);
    if answer.Hit? then ToDrop(call.key, contents, call.checkedAt, call.cachedAt)
    else if answer.error == NotFound then ToRemember(call.key, Some(got))
    else got
  }

  function Apply(s: State, step: Step): State
    requires Enabled(s, step)
  {
    match step
    case Tick(elapsed) => s.(now := s.now + elapsed)
    case Check(key) =>
      var call :=
        if Masks(s, key) then Got(key, Failed(NotFound), true, s.contents, None, s.now, LastCached(s, key))
        else Asking(key, s.now, LastCached(s, key));
      s.(calls := s.calls + [call])
    case Ask(c, fault) => s.(calls := s.calls[c := AfterAsk(s.calls[c], s.contents, fault)])
    case Drop(c) =>
      var call := s.calls[c];
      var answer := InnerAnswer(call.seen, call.key, None);
      s.(negative := s.negative - {call.key},
         calls := s.calls[c := Got(call.key, answer, false, call.seen, None, call.checkedAt, call.cachedAt)])
    case Remember(c) =>
      var call := s.calls[c];
      s.(negative := s.negative[call.key := s.now + s.ttl],
         cached := s.cached[call.key := s.now],
         calls := s.calls[c := if call.reader.Some? then call.reader.value else Finished])
    case DropForSet(key, item) =>
      s.(negative := s.negative - {key}, calls := s.calls + [ToWrite(key, item)])
    case Write(c, fault, tookEffect) =>
      var call := s.calls[c];
      s.(contents := if fault.None? || tookEffect then s.contents[call.key := call.item] else s.contents,
         calls := s.calls[c := Finished])
    case Remove(key, fault, tookEffect) =>
      s.(contents := if fault.None? || tookEffect then s.contents - {key} else s.contents,
         calls := s.calls + [if fault.None? then ToRemember(key, None) else Finished])
    case CleanUp => s.(negative := map k | k in s.negative && s.now <= s.negative[k] :: s.negative[k])
    case WriteDirectly(key, item) => s.(contents := s.contents[key := item])
    case Forget(key) => s.(contents := s.contents - {key})
  }

  predicate IsRun(s: State, steps: seq<Step>)
    decreases |steps|
  {
    steps == [] || (Enabled(s, steps[0]) && IsRun(Apply(s, steps[0]), steps[1..]))
  }

  function Exec(s: State, steps: seq<Step>): State
    requires IsRun(s, steps)
    decreases |steps|
  {
    if steps == [] then s else Exec(Apply(s, steps[0]), steps[1..])
  }

  // ---------------------------------------------------------------------------------------
  // Bounded masking, whatever the interleaving
  // ---------------------------------------------------------------------------------------

  /** The Get's answer is the wrapped layer's own, at the moment that it was asked. */
  predicate IsLayersAnswer(call: Call)
    requires call.Got?
  {
    call.answer == InnerAnswer(call.seen, call.key, call.fault)
  }

  /** A Get answered by the map was checked within one lifetime of the key's last caching; any
      other Get was answered by the layer. */
  predicate BoundedGet(call: Call, ttl: nat)
    requires call.Got?
  {
    if call.masked then call.cachedAt.Some? && call.checkedAt <= call.cachedAt.value + ttl
    else IsLayersAnswer(call)
  }

  predicate BoundedCall(call: Call, ttl: nat) {
    match call
    case ToDrop(key, seen, _, _) => key in seen
    case ToRemember(key, reader) =>
      reader.Some? ==>
        reader.value.Got? && reader.value.key == key && !reader.value.masked && BoundedGet(reader.value, ttl)
    case Got(_, _, _, _, _, _, _) => BoundedGet(call, ttl)
    case _ => true
  }

  /** A negative entry expires one lifetime after the last caching of its key. */
  ghost predicate Bounded(s: State) {
    && (forall k :: k in s.negative ==> k in s.cached && s.negative[k] == s.cached[k] + s.ttl)
    && (forall c :: 0 <= c < |s.calls| ==> BoundedCall(s.calls[c], s.ttl))
  }

  lemma StepBounded(s: State, step: Step)
    requires Bounded(s) && Enabled(s, step)
    ensures Bounded(Apply(s, step)) && Apply(s, step).ttl == s.ttl
  {
    var t := Apply(s, step);
    forall c | 0 <= c < |t.calls|
      ensures BoundedCall(t.calls[c], t.ttl)
    {
      if c < |s.calls| {
        assert BoundedCall(s.calls[c], s.ttl);
      }
    }
  }

  lemma {:induction false} RunBounded(s: State, steps: seq<Step>)
    requires Bounded(s) && IsRun(s, steps)
    ensures Bounded(Exec(s, steps)) && Exec(s, steps).ttl == s.ttl
    decreases |steps|
  {
    if steps != [] {
      StepBounded(s, steps[0]);
      RunBounded(Apply(s, steps[0]), steps[1..]);
    }
  }

  /** When the key was last cached as missing in the run, if at all. */
  function LastRemembered(s: State, steps: seq<Step>, key: Key): Option<int>
    requires IsRun(s, steps)
    decreases |steps|
  {
    if steps == [] then None
    else
      var later := LastRemembered(Apply(s, steps[0]), steps[1..], key);
      if later.Some? then later
      else if steps[0].Remember? && s.calls[steps[0].c].key == key then Some(s.now)
      else None
  }

  lemma {:induction false} CachedIsLastRemembered(s: State, steps: seq<Step>, key: Key)
    requires IsRun(s, steps)
    ensures
      var last := LastRemembered(s, steps, key);
      LastCached(Exec(s, steps), key) == if last.Some? then last else LastCached(s, key)
    decreases |steps|
  {
    if steps != [] {
      CachedIsLastRemembered(Apply(s, steps[0]), steps[1..], key);
    }
  }

  /** A check that comes more than one lifetime after the key was last cached as missing in the
      run is not answered by the map. */
  lemma LateCheckAsks(ttl: nat, now: int, contents: Contents, steps: seq<Step>, key: Key)
    requires IsRun(Init(ttl, now, contents), steps)
    requires
      var last := LastRemembered(Init(ttl, now, contents), steps, key);
      last.Some? ==> Exec(Init(ttl, now, contents), steps).now > last.value + ttl
    ensures !Masks(Exec(Init(ttl, now, contents), steps), key)
  {
    RunBounded(Init(ttl, now, contents), steps);
    CachedIsLastRemembered(Init(ttl, now, contents), steps, key);
  }

  /** In every run, whatever is written behind the cache's back: a Get whose check comes more
      than one lifetime after the last time its key was cached as missing, or that finds the
      key never cached, answers what the wrapped layer held when the Get asked it. */
  lemma MaskingIsBounded(ttl: nat, now: int, contents: Contents, steps: seq<Step>, c: nat)
    requires IsRun(Init(ttl, now, contents), steps)
    requires
      var s := Exec(Init(ttl, now, contents), steps);
      && c < |s.calls| && s.calls[c].Got?
      && (s.calls[c].cachedAt.Some? ==> s.calls[c].checkedAt > s.calls[c].cachedAt.value + ttl)
    ensures
      var call := Exec(Init(ttl, now, contents), steps).calls[c];
      !call.masked && IsLayersAnswer(call)
  {
    RunBounded(Init(ttl, now, contents), steps);
    assert BoundedCall(Exec(Init(ttl, now, contents), steps).calls[c], ttl);
  }

  // ---------------------------------------------------------------------------------------
  // When a present key can be masked
  // ---------------------------------------------------------------------------------------

  predicate IsWriteOf(call: Call, key: Key) { call.ToWrite? && call.key == key }
  predicate IsRememberOf(call: Call, key: Key) { call.ToRemember? && call.key == key }

  ghost predicate NoWriteOf(s: State, key: Key) {
    forall c :: 0 <= c < |s.calls| ==> !IsWriteOf(s.calls[c], key)
  }

  ghost predicate NoRememberOf(s: State, key: Key) {
    forall c :: 0 <= c < |s.calls| ==> !IsRememberOf(s.calls[c], key)
  }

  /** No Set of the key is between its two steps while a miss or a removal of the key is waiting
      to be remembered. */
  ghost predicate Apart(s: State, key: Key) { NoWriteOf(s, key) || NoRememberOf(s, key) }

  /** At every point of the run, and nothing writes the key behind the cache's back. */
  ghost predicate ApartRun(s: State, steps: seq<Step>, key: Key)
    requires IsRun(s, steps)
    decreases |steps|
  {
    && Apart(s, key)
    && (steps != [] ==>
          && !(steps[0].WriteDirectly? && steps[0].key == key)
          && ApartRun(Apply(s, steps[0]), steps[1..], key))
  }

  /** No negative entry of a present key, now or about to be. */
  ghost predicate Truthful(s: State, key: Key) {
    && (key in s.negative ==> key !in s.contents)
    && (NoRememberOf(s, key) || key !in s.contents)
    && (NoWriteOf(s, key) || key !in s.negative)
    && (forall c :: 0 <= c < |s.calls| && s.calls[c].Got? && s.calls[c].key == key ==> IsLayersAnswer(s.calls[c]))
  }

  lemma StepTruthful(s: State, step: Step, key: Key)
    requires Bounded(s) && Truthful(s, key) && Apart(s, key) && Enabled(s, step)
    requires Apart(Apply(s, step), key) && !(step.WriteDirectly? && step.key == key)
    ensures Truthful(Apply(s, step), key)
  {
    var t := Apply(s, step);
    assert step.Remember? || step.Drop? ==> BoundedCall(s.calls[step.c], s.ttl);
    assert step.Remember? ==> s.calls[step.c].key == key ==> IsRememberOf(s.calls[step.c], key);
    assert step.Write? ==> s.calls[step.c].key == key ==> IsWriteOf(s.calls[step.c], key);
    forall c | 0 <= c < |t.calls| && t.calls[c].Got? && t.calls[c].key == key
      ensures IsLayersAnswer(t.calls[c])
    {
    }
    KeepsRemembers(s, step, key);
    KeepsWrites(s, step, key);
  }

  lemma KeepsRemembers(s: State, step: Step, key: Key)
    requires Bounded(s) && Enabled(s, step)
    ensures NoRememberOf(s, key) && !NoRememberOf(Apply(s, step), key) ==>
      || (step.Ask? && s.calls[step.c].key == key && key !in s.contents)
      || (step.Remove? && step.key == key && step.fault.None?)
  {
    var t := Apply(s, step);
    if c :| 0 <= c < |t.calls| && IsRememberOf(t.calls[c], key) {
      if c < |s.calls| {
        assert BoundedCall(s.calls[c], s.ttl);
      }
    }
  }

  lemma KeepsWrites(s: State, step: Step, key: Key)
    requires Bounded(s) && Enabled(s, step)
    ensures NoWriteOf(s, key) && !NoWriteOf(Apply(s, step), key) ==> step.DropForSet? && step.key == key
  {
    var t := Apply(s, step);
    if c :| 0 <= c < |t.calls| && IsWriteOf(t.calls[c], key) {
      if c < |s.calls| {
        assert BoundedCall(s.calls[c], s.ttl);
      }
    }
  }

  lemma {:induction false} RunTruthful(s: State, steps: seq<Step>, key: Key)
    requires Bounded(s) && Truthful(s, key) && IsRun(s, steps) && ApartRun(s, steps, key)
    ensures Truthful(Exec(s, steps), key)
    decreases |steps|
  {
    if steps != [] {
      StepBounded(s, steps[0]);
      StepTruthful(s, steps[0], key);
      RunTruthful(Apply(s, steps[0]), steps[1..], key);
    }
  }

  /** In every run that keeps Sets of the key apart from misses and removals of it that wait to
      be remembered: no present key has a negative entry, so every Get of the key answers what
      the wrapped layer held when it was asked, or when the check answered in its place. */
  lemma ApartIsTransparent(ttl: nat, now: int, contents: Contents, steps: seq<Step>, key: Key)
    requires IsRun(Init(ttl, now, contents), steps) && ApartRun(Init(ttl, now, contents), steps, key)
    ensures
      var s := Exec(Init(ttl, now, contents), steps);
      && (key in s.contents ==> !Masks(s, key))
      && (forall c :: 0 <= c < |s.calls| && s.calls[c].Got? && s.calls[c].key == key ==> IsLayersAnswer(s.calls[c]))
  {
    RunTruthful(Init(ttl, now, contents), steps, key);
  }

  lemma {:induction false} Extend(s0: State, steps: seq<Step>, step: Step) returns (more: seq<Step>)
    requires IsRun(s0, steps) && Enabled(Exec(s0, steps), step)
    ensures more == steps + [step]
    ensures IsRun(s0, more) && Exec(s0, more) == Apply(Exec(s0, steps), step)
    decreases |steps|
  {
    more := steps + [step];
    if steps == [] {
      assert more[1..] == [];
    } else {
      var rest := Extend(Apply(s0, steps[0]), steps[1..], step);
      assert more[1..] == rest;
    }
  }

  /** Conversely, from any state in which they are not apart, the Set can finish and the miss be
      remembered after it; then the key is present and masked, and the next Get that checks
      before the entry expires answers that it is missing. */
  lemma OverlapMasks(s: State, c: nat, d: nat) returns (steps: seq<Step>)
    requires c < |s.calls| && d < |s.calls| && s.calls[c].ToWrite? && s.calls[d].ToRemember?
    requires s.calls[c].key == s.calls[d].key
    ensures IsRun(s, steps)
    ensures
      var key, t := s.calls[c].key, Exec(s, steps);
      && key in t.contents && Masks(t, key)
      && |t.calls| == |s.calls| + 1 && t.calls[c] == Finished && t.calls[|s.calls|].Got?
      && t.calls[|s.calls|].answer == Failed(NotFound) && !IsLayersAnswer(t.calls[|s.calls|])
  {
    steps := Extend(s, [], Write(c, None, true));
    steps := Extend(s, steps, Remember(d));
    steps := Extend(s, steps, Check(s.calls[c].key));
  }

  /** A run in which this happens: a Get misses, a Set of the key completes without an error, and
      the miss is remembered after it. The key is present, and the next Get does not see it. */
  lemma SetIsMasked(ttl: nat, now: int, key: Key, item: Item) returns (steps: seq<Step>)
    ensures IsRun(Init(ttl, now, map[]), steps)
    ensures
      var s := Exec(Init(ttl, now, map[]), steps);
      && s.contents == map[key := item] && Masks(s, key)
      && |s.calls| == 3 && s.calls[1] == Finished
      && s.calls[2].Got? && s.calls[2].key == key && s.calls[2].answer == Failed(NotFound)
  {
    var s0 := Init(ttl, now, map[]);
    steps := Extend(s0, [], Check(key));
    steps := Extend(s0, steps, Ask(0, None));
    steps := Extend(s0, steps, DropForSet(key, item));
    steps := Extend(s0, steps, Write(1, None, true));
    assert Exec(s0, steps).contents == map[key := item];
    steps := Extend(s0, steps, Remember(0));
    steps := Extend(s0, steps, Check(key));
  }

  // ---------------------------------------------------------------------------------------
  // Cleanups are invisible
  // ---------------------------------------------------------------------------------------

  /** The states differ at most in entries that have expired. */
  ghost predicate SameWhileLive(s: State, t: State) {
    && t == s.(negative := t.negative)
    && forall k :: Masks(s, k) || Masks(t, k) ==> Masks(s, k) && Masks(t, k) && s.negative[k] == t.negative[k]
  }

  lemma StepSameWhileLive(s: State, t: State, step: Step)
    requires SameWhileLive(s, t) && Enabled(s, step)
    ensures Enabled(t, step) && SameWhileLive(Apply(s, step), Apply(t, step))
  {
    var s', t' := Apply(s, step), Apply(t, step);
    forall k | Masks(s', k) || Masks(t', k)
      ensures Masks(s', k) && Masks(t', k) && s'.negative[k] == t'.negative[k]
    {
      assert Masks(s, k) || Masks(t, k) ==> s.negative[k] == t.negative[k];
    }
  }

  lemma {:induction false} RunSameWhileLive(s: State, t: State, steps: seq<Step>)
    requires SameWhileLive(s, t) && IsRun(s, steps)
    ensures IsRun(t, steps) && SameWhileLive(Exec(s, steps), Exec(t, steps))
    decreases |steps|
  {
    if steps != [] {
      StepSameWhileLive(s, t, steps[0]);
      RunSameWhileLive(Apply(s, steps[0]), Apply(t, steps[0]), steps[1..]);
    }
  }

  /** A cleanup inserted anywhere in a run leaves a run in which every call, every later answer
      among them, every key's masking and the layer are as they were. */
  lemma {:induction false} CleanUpIsInvisible(s: State, first: seq<Step>, second: seq<Step>)
    requires IsRun(s, first + second)
    ensures IsRun(s, first + [CleanUp] + second)
    ensures
      var without, inserted := Exec(s, first + second), Exec(s, first + [CleanUp] + second);
      && inserted.calls == without.calls && inserted.contents == without.contents
      && forall k :: Masks(inserted, k) <==> Masks(without, k)
    decreases |first|
  {
    var long := first + [CleanUp] + second;
    if first == [] {
      assert first + second == second && long[1..] == second && long[0] == CleanUp;
      RunSameWhileLive(s, Apply(s, CleanUp), second);
    } else {
      assert (first + second)[1..] == first[1..] + second;
      assert long[1..] == first[1..] + [CleanUp] + second;
      CleanUpIsInvisible(Apply(s, first[0]), first[1..], second);
    }
  }

  // ---------------------------------------------------------------------------------------
  // Uninterrupted calls are those of the sequential layer
  // ---------------------------------------------------------------------------------------

  /** The state holds the entries of the sequential layer's map, and its lifetime. */
  ghost predicate Represents(s: State, config: MemoryTable.Config, table: MemoryTable.Table) {
    && config == MemoryTable.Config(0, s.ttl) && s.ttl > 0
    && s.negative == Expiries(table)
  }

  function Expiries(table: MemoryTable.Table): map<Key, int> {
    map k | k in table :: table[k].expiresAt
  }

  /** A Get with nothing in between is a run that answers and leaves what the sequential layer
      does. */
  lemma UninterruptedGet(s: State, config: MemoryTable.Config, table: MemoryTable.Table, key: Key, fault: Option<Error>)
    returns (steps: seq<Step>)
    requires Represents(s, config, table) && fault != Some(NotFound)
    ensures IsRun(s, steps)
    ensures
      var t := Exec(s, steps);
      var r := if MemoryTable.Live(table, key, s.now) then Failed(NotFound) else InnerAnswer(s.contents, key, fault);
      && |t.calls| == |s.calls| + 1 && t.calls[..|s.calls|] == s.calls
      && t.calls[|s.calls|].Got? && t.calls[|s.calls|].answer == r
      && t.contents == s.contents && t.now == s.now
      && Represents(t, config, Wrappers.MapAfterGet(config, table, key, s.now, s.now, r))
  {
    steps := GetSteps(s, key, fault);
    assert Masks(s, key) <==> MemoryTable.Live(table, key, s.now);
    assert Expiries(table - {key}) == Expiries(table) - {key};
    RememberedExpiry(config, table, key, s.now);
  }

  /** The steps of a Get with nothing in between. */
  lemma GetSteps(s: State, key: Key, fault: Option<Error>) returns (steps: seq<Step>)
    requires fault != Some(NotFound)
    ensures IsRun(s, steps)
    ensures
      var t := Exec(s, steps);
      var r := if Masks(s, key) then Failed(NotFound) else InnerAnswer(s.contents, key, fault);
      && |t.calls| == |s.calls| + 1 && t.calls[..|s.calls|] == s.calls
      && t.calls[|s.calls|].Got? && t.calls[|s.calls|].answer == r
      && t.contents == s.contents && t.now == s.now && t.ttl == s.ttl
      && t.negative ==
           if Masks(s, key) then s.negative
           else if r.Hit? then s.negative - {key}
           else if r.error == NotFound then s.negative[key := s.now + s.ttl]
           else s.negative
  {
    var c := |s.calls|;
    steps := Extend(s, [], Check(key));
    if !Masks(s, key) {
      steps := Extend(s, steps, Ask(c, fault));
      var asked := Exec(s, steps).calls[c];
      if asked.ToDrop? {
        steps := Extend(s, steps, Drop(c));
      } else if asked.ToRemember? {
        steps := Extend(s, steps, Remember(c));
      }
    }
  }

  lemma RememberedExpiry(config: MemoryTable.Config, table: MemoryTable.Table, key: Key, now: int)
    requires config.maxSize == 0
    ensures Expiries(MemoryTable.Apply(config, table, Wrappers.Remember(key, now)))
         == Expiries(table)[key := now + config.defaultTtl]
  {
  }

  /** The same for a Set, */
  lemma UninterruptedSet(s: State, config: MemoryTable.Config, table: MemoryTable.Table, key: Key, item: Item,
                         fault: Option<Error>, tookEffect: bool)
    returns (steps: seq<Step>)
    requires Represents(s, config, table)
    ensures IsRun(s, steps)
    ensures
      var t := Exec(s, steps);
      && t.calls == s.calls + [Finished] && t.now == s.now
      && t.contents == (if fault.None? || tookEffect then s.contents[key := item] else s.contents)
      && Represents(t, config, table - {key})
  {
    steps := Extend(s, [], DropForSet(key, item));
    steps := Extend(s, steps, Write(|s.calls|, fault, tookEffect));
    assert Exec(s, steps).negative == Expiries(table - {key});
  }

  /** and for a Delete. */
  lemma UninterruptedDelete(s: State, config: MemoryTable.Config, table: MemoryTable.Table, key: Key,
                            fault: Option<Error>, tookEffect: bool)
    returns (steps: seq<Step>)
    requires Represents(s, config, table)
    ensures IsRun(s, steps)
    ensures
      var t := Exec(s, steps);
      var r := if fault.Some? then Err(fault.value) else Ok;
      && t.calls == s.calls + [Finished] && t.now == s.now
      && t.contents == (if fault.None? || tookEffect then s.contents - {key} else s.contents)
      && Represents(t, config, Wrappers.MapAfterDelete(config, table, key, s.now, r))
  {
    steps := Extend(s, [], Remove(key, fault, tookEffect));
    if fault.None? {
      steps := Extend(s, steps, Remember(|s.calls|));
      RememberedExpiry(config, table, key, s.now);
    }
  }
}
