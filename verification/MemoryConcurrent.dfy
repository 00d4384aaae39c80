/** The in-memory cache under concurrency. A Get drops its lock between looking the entry up,
    checking the clock, and removing or touching; a Set stamps its expiry before it takes the
    lock. Entries are shared by reference: a Get in progress keeps the entry it found even
    when the table no longer does. Each locked region or clock reading is one step. */
module MemoryConcurrent {
  import opened CacheTypes
  import opened MemoryTable

  datatype Entry = Entry(key: Key, value: Value, expiresAt: int, accessedAt: int)

  /** A call in progress or done. `seen` is the length of the commit log when the table was
      read, so it identifies the moment of the lookup. */
  datatype Call =
    | Found(key: Key, id: nat, seen: nat)
    | ToRemove(key: Key, id: nat, seen: nat)
    | ToTouch(key: Key, id: nat, seen: nat, checkedAt: int)
    | Got(key: Key, answer: Answer, seen: nat, checkedAt: int)
    | Stamped(key: Key, value: Value, expiresAt: int)
    | Finished

  /** The writes that took effect, in the order in which they held the lock. */
  datatype Commit = Wrote(key: Key, stored: Stored) | Removed(key: Key)

  datatype State = State(
    maxSize: nat,
    defaultTtl: int,
    now: int,
    entries: seq<Entry>,
    data: map<Key, nat>,
    calls: seq<Call>,
    log: seq<Commit>)

  datatype Step =
    | Tick(elapsed: nat)
    | Lookup(key: Key)
    | CheckClock(c: nat)
    | RemoveFound(c: nat)
    | Touch(c: nat)
    | StampSet(key: Key, value: Value, ttl: int)
    | CommitSet(c: nat, victim: Key)
    | DeleteKey(key: Key)
    | Cleanup

  function Init(maxSize: nat, defaultTtl: int, now: int): State {
    State(maxSize, defaultTtl, now, [], map[], [], [])
  }

  predicate WellFormed(s: State) {
    && (forall k :: k in s.data ==> s.data[k] < |s.entries|)
    && (forall c :: 0 <= c < |s.calls| ==>
          && (s.calls[c].Found? || s.calls[c].ToRemove? || s.calls[c].ToTouch? ==> s.calls[c].id < |s.entries|)
          && (s.calls[c].Found? || s.calls[c].ToRemove? || s.calls[c].ToTouch? || s.calls[c].Got? ==>
                s.calls[c].seen <= |s.log|))
  }

  /** The table with the entries behind its references, as the sequential model sees it. */
  function View(s: State): Table
    requires WellFormed(s)
  {
    map k | k in s.data :: SlotAt(s, k)
  }

  function SlotAt(s: State, k: Key): Slot
    requires WellFormed(s) && k in s.data
  {
    var e := s.entries[s.data[k]];
    Slot(e.value, e.expiresAt, e.accessedAt)
  }

  predicate Overfull(s: State) { s.maxSize > 0 && |s.data| >= s.maxSize }

  ghost predicate Enabled(s: State, step: Step)
    requires WellFormed(s)
  {
    match step
    case Tick(_) => true
    case Lookup(key) => ValidKey(key)
    case CheckClock(c) => c < |s.calls| && s.calls[c].Found?
    case RemoveFound(c) => c < |s.calls| && s.calls[c].ToRemove?
    case Touch(c) => c < |s.calls| && s.calls[c].ToTouch?
    case StampSet(key, _, _) => ValidKey(key)
    case CommitSet(c, victim) =>
      c < |s.calls| && s.calls[c].Stamped? && (Overfull(s) ==> IsOldest(View(s), victim))
    case DeleteKey(key) => ValidKey(key)
    case Cleanup => true
  }

  function Apply(s: State, step: Step): State
    requires WellFormed(s) && Enabled(s, step)
  {
    match step
    case Tick(elapsed) => s.(now := s.now + elapsed)
    case Lookup(key) =>
      var call :=
        if key in s.data then Found(key, s.data[key], |s.log|)
        else Got(key, Failed(NotFound), |s.log|, s.now);
      s.(calls := s.calls + [call])
    case CheckClock(c) =>
      var call := s.calls[c];
      var next :=
        if s.now > s.entries[call.id].expiresAt then ToRemove(call.key, call.id, call.seen)
        else ToTouch(call.key, call.id, call.seen, s.now);
      s.(calls := s.calls[c := next])
    case RemoveFound(c) =>
      var call := s.calls[c];
      s.(data := s.data - {call.key},
         calls := s.calls[c := Got(call.key, Failed(NotFound), call.seen, s.now)])
    case Touch(c) =>
      var call := s.calls[c];
      var e := s.entries[call.id];
      s.(entries := s.entries[call.id := e.(accessedAt := s.now)],
         calls := s.calls[c := Got(call.key, Hit(e.value), call.seen, call.checkedAt)])
    case StampSet(key, value, ttl) =>
      var effective := if ttl == 0 then s.defaultTtl else ttl;
      s.(calls := s.calls + [Stamped(key, value, s.now + effective)])
    case CommitSet(c, victim) =>
      var call := s.calls[c];
      var kept := if Overfull(s) then s.data - {victim} else s.data;
      s.(entries := s.entries + [Entry(call.key, call.value, call.expiresAt, s.now)],
         data := kept[call.key := |s.entries|],
         calls := s.calls[c := Finished],
         log := s.log + [Wrote(call.key, Stored(call.value, call.expiresAt))])
    case DeleteKey(key) => s.(data := s.data - {key}, log := s.log + [Removed(key)])
    case Cleanup =>
      s.(data := map k | k in s.data && s.now <= s.entries[s.data[k]].expiresAt :: s.data[k])
  }

  /** What the last committed Set of the key stored, unless a Delete was committed after it. */
  function Latest(log: seq<Commit>, key: Key): Option<Stored> {
    if log == [] then None
    else
      var last := log[|log| - 1];
      if last.key != key then Latest(log[..|log| - 1], key)
      else if last.Wrote? then Some(last.stored)
      else None
  }

  ghost predicate Runs(s: State, steps: seq<Step>)
    requires WellFormed(s)
    decreases |steps|
  {
    steps == [] ||
    (Enabled(s, steps[0]) &&
     (StepWellFormed(s, steps[0]); Runs(Apply(s, steps[0]), steps[1..])))
  }

  ghost function Exec(s: State, steps: seq<Step>): State
    requires WellFormed(s) && Runs(s, steps)
    decreases |steps|
  {
    if steps == [] then s
    else
      StepWellFormed(s, steps[0]);
      Exec(Apply(s, steps[0]), steps[1..])
  }

  lemma StepWellFormed(s: State, step: Step)
    requires WellFormed(s) && Enabled(s, step)
    ensures WellFormed(Apply(s, step))
  {
  }

  // ---------------------------------------------------------------------------------------
  // Refinement of a TTL map that may only forget
  // ---------------------------------------------------------------------------------------

  /** An entry that a reader found is still what the log said at the moment of the lookup. */
  ghost predicate Explained(s: State, key: Key, id: nat, seen: nat)
    requires id < |s.entries| && seen <= |s.log|
  {
    && s.entries[id].key == key
    && Latest(s.log[..seen], key) == Some(Stored(s.entries[id].value, s.entries[id].expiresAt))
  }

  /** A finished read that hit returns the latest write at its lookup, live at its clock check. */
  ghost predicate HitExplained(s: State, call: Call)
    requires call.Got? && call.seen <= |s.log|
  {
    call.answer.Hit? ==>
      var latest := Latest(s.log[..call.seen], call.key);
      latest.Some? && latest.value.value == call.answer.value && call.checkedAt <= latest.value.expiresAt
  }

  ghost predicate CallExplained(s: State, call: Call) {
    match call
    case Found(key, id, seen) => id < |s.entries| && seen <= |s.log| && Explained(s, key, id, seen)
    case ToRemove(key, id, seen) =>
      id < |s.entries| && seen <= |s.log| && Explained(s, key, id, seen) && s.entries[id].expiresAt < s.now
    case ToTouch(key, id, seen, checkedAt) =>
      id < |s.entries| && seen <= |s.log| && Explained(s, key, id, seen) && checkedAt <= s.entries[id].expiresAt
    case Got(_, _, seen, _) => seen <= |s.log| && HitExplained(s, call)
    case _ => true
  }

  ghost predicate Inv(s: State) {
    && WellFormed(s)
    && (forall k :: k in s.data ==> Explained(s, k, s.data[k], |s.log|))
    && (forall c :: 0 <= c < |s.calls| ==> CallExplained(s, s.calls[c]))
    && (s.maxSize > 0 ==> |s.data| <= s.maxSize)
  }

  lemma StepKeepsEntries(s: State, step: Step)
    requires WellFormed(s) && Enabled(s, step)
    ensures
      var t := Apply(s, step);
      && |s.entries| <= |t.entries| && s.log <= t.log && s.now <= t.now
      && forall id :: 0 <= id < |s.entries| ==>
           t.entries[id].(accessedAt := 0) == s.entries[id].(accessedAt := 0)
  {
  }

  lemma StepKeepsExplained(s: State, step: Step, key: Key, id: nat, seen: nat)
    requires WellFormed(s) && Enabled(s, step)
    requires id < |s.entries| && seen <= |s.log| && Explained(s, key, id, seen)
    ensures
      var t := Apply(s, step);
      id < |t.entries| && seen <= |t.log| && Explained(t, key, id, seen) &&
      t.entries[id].expiresAt == s.entries[id].expiresAt
  {
    var t := Apply(s, step);
    StepKeepsEntries(s, step);
    assert t.log[..seen] == s.log[..seen];
    assert t.entries[id].(accessedAt := 0) == s.entries[id].(accessedAt := 0);
  }

  lemma StepKeepsCall(s: State, step: Step, c: nat)
    requires Inv(s) && Enabled(s, step) && c < |Apply(s, step).calls|
    ensures CallExplained(Apply(s, step), Apply(s, step).calls[c])
  {
    var t := Apply(s, step);
    StepKeepsEntries(s, step);
    if c < |s.calls| {
      var call := s.calls[c];
      assert CallExplained(s, call);
      if call.Found? || call.ToRemove? || call.ToTouch? {
        StepKeepsExplained(s, step, call.key, call.id, call.seen);
      } else if call.Got? {
        assert t.log[..call.seen] == s.log[..call.seen];
      }
    } else if step.Lookup? && step.key in s.data {
      assert Explained(s, step.key, s.data[step.key], |s.log|);
    }
  }

  lemma StepKeepsData(s: State, step: Step, key: Key)
    requires Inv(s) && Enabled(s, step) && key in Apply(s, step).data
    ensures
      var t := Apply(s, step);
      t.data[key] < |t.entries| && Explained(t, key, t.data[key], |t.log|)
  {
    var t := Apply(s, step);
    assert s.log[..|s.log|] == s.log && t.log[..|t.log|] == t.log;
    if step.CommitSet? && s.calls[step.c].key == key {
      assert t.log[|t.log| - 1].key == key;
    } else {
      assert key in s.data;
      StepKeepsExplained(s, step, key, s.data[key], |s.log|);
      if |t.log| > |s.log| {
        assert t.log[..|t.log| - 1] == s.log;
      }
    }
  }

  lemma StepKeepsSize(s: State, step: Step)
    requires Inv(s) && Enabled(s, step)
    ensures s.maxSize > 0 ==> |Apply(s, step).data| <= s.maxSize
  {
    var t := Apply(s, step);
    if s.maxSize > 0 {
      assert |s.data.Keys| == |s.data| && |t.data.Keys| == |t.data|;
      if step.CommitSet? {
        var key := s.calls[step.c].key;
        if Overfull(s) {
          assert step.victim in View(s);
          assert (s.data - {step.victim}).Keys == s.data.Keys - {step.victim};
          assert t.data.Keys == (s.data.Keys - {step.victim}) + {key};
        }
      } else {
        SubsetSize(t.data.Keys, s.data.Keys);
      }
    }
  }

  lemma StepInv(s: State, step: Step)
    requires Inv(s) && Enabled(s, step)
    ensures Inv(Apply(s, step))
  {
    var t := Apply(s, step);
    StepWellFormed(s, step);
    forall c | 0 <= c < |t.calls|
      ensures CallExplained(t, t.calls[c])
    {
      StepKeepsCall(s, step, c);
    }
    forall k | k in t.data
      ensures Explained(t, k, t.data[k], |t.log|)
    {
      StepKeepsData(s, step, k);
    }
    StepKeepsSize(s, step);
  }

  lemma {:induction false} RunInv(s: State, steps: seq<Step>)
    requires Inv(s) && Runs(s, steps)
    ensures Inv(Exec(s, steps))
    decreases |steps|
  {
    if steps != [] {
      StepInv(s, steps[0]);
      RunInv(Apply(s, steps[0]), steps[1..]);
    }
  }

  /** Every history is explained by a TTL map that may only forget: the table never holds
      anything but latest writes, every hit is the latest write at the moment of its lookup and
      live at its clock check, and the size limit holds in every state. */
  lemma Refinement(maxSize: nat, defaultTtl: int, now: int, steps: seq<Step>)
    requires Runs(Init(maxSize, defaultTtl, now), steps)
    ensures
      var s := Exec(Init(maxSize, defaultTtl, now), steps);
      && WellFormed(s)
      && (forall k :: k in s.data ==>
            Latest(s.log, k) == Some(Stored(s.entries[s.data[k]].value, s.entries[s.data[k]].expiresAt)))
      && (forall c :: 0 <= c < |s.calls| && s.calls[c].Got? ==> HitExplained(s, s.calls[c]))
      && (s.maxSize > 0 ==> |s.data| <= s.maxSize)
  {
    RunInv(Init(maxSize, defaultTtl, now), steps);
    var s := Exec(Init(maxSize, defaultTtl, now), steps);
    assert s.log[..|s.log|] == s.log;
    forall k | k in s.data
      ensures Latest(s.log, k) == Some(Stored(s.entries[s.data[k]].value, s.entries[s.data[k]].expiresAt))
    {
      assert Explained(s, k, s.data[k], |s.log|);
    }
    forall c | 0 <= c < |s.calls| && s.calls[c].Got?
      ensures HitExplained(s, s.calls[c])
    {
      assert CallExplained(s, s.calls[c]);
    }
  }

  // ---------------------------------------------------------------------------------------
  // What an expired Get can lose, and when it cannot
  // ---------------------------------------------------------------------------------------

  /** A Get of the key between its lookup and its clock check or removal. */
  predicate IsPending(call: Call, key: Key) { (call.Found? || call.ToRemove?) && call.key == key }

  /** While the latest write of the key is live, the table holds the key. */
  ghost predicate Held(s: State, key: Key) {
    var latest := Latest(s.log, key);
    latest.Some? && s.now <= latest.value.expiresAt ==> key in s.data
  }

  /** The pending Get cannot remove an entry with the expiry before that entry has expired: the
      one it found expires no earlier, or the other has expired already. */
  predicate CannotRemove(s: State, call: Call, expiresAt: int)
    requires (call.Found? || call.ToRemove?) && call.id < |s.entries|
  {
    expiresAt <= s.entries[call.id].expiresAt || expiresAt < s.now
  }

  /** A Set of the key commits only an entry that no pending Get of the key can remove live. */
  ghost predicate Apart(s: State, step: Step, key: Key)
    requires WellFormed(s) && Enabled(s, step)
  {
    step.CommitSet? && s.calls[step.c].key == key ==>
      forall c :: 0 <= c < |s.calls| && IsPending(s.calls[c], key) ==>
        CannotRemove(s, s.calls[c], s.calls[step.c].expiresAt)
  }

  ghost predicate ApartRun(s: State, steps: seq<Step>, key: Key)
    requires WellFormed(s) && Runs(s, steps)
    decreases |steps|
  {
    steps == [] ||
    (Apart(s, steps[0], key) &&
     (StepWellFormed(s, steps[0]); ApartRun(Apply(s, steps[0]), steps[1..], key)))
  }

  /** No pending Get of the key can remove the table's entry of it live. */
  ghost predicate PendingIsHarmless(s: State, key: Key)
    requires WellFormed(s)
  {
    forall c :: 0 <= c < |s.calls| && IsPending(s.calls[c], key) && key in s.data ==>
      CannotRemove(s, s.calls[c], s.entries[s.data[key]].expiresAt)
  }

  lemma StepPendingIsHarmless(s: State, step: Step, key: Key)
    requires Inv(s) && Enabled(s, step) && s.maxSize == 0
    requires PendingIsHarmless(s, key) && Apart(s, step, key)
    ensures WellFormed(Apply(s, step)) && PendingIsHarmless(Apply(s, step), key)
  {
    var t := Apply(s, step);
    StepWellFormed(s, step);
    StepKeepsEntries(s, step);
    forall c | 0 <= c < |t.calls| && IsPending(t.calls[c], key) && key in t.data
      ensures CannotRemove(t, t.calls[c], t.entries[t.data[key]].expiresAt)
    {
      if c < |s.calls| {
        assert IsPending(s.calls[c], key) && t.calls[c].id == s.calls[c].id;
        assert t.entries[s.calls[c].id].(accessedAt := 0) == s.entries[s.calls[c].id].(accessedAt := 0);
        if key in s.data {
          assert t.entries[s.data[key]].(accessedAt := 0) == s.entries[s.data[key]].(accessedAt := 0);
        }
      }
    }
  }

  /** Without a size limit, one step makes the table forget a live latest write if and only if
      it is the removal of an expired Get of that key, and the table refers by then to another
      entry, one that has not expired. */
  lemma LossIff(s: State, step: Step, key: Key)
    requires Inv(s) && Enabled(s, step) && s.maxSize == 0 && Held(s, key)
    ensures Held(Apply(s, step), key) <==>
      !(&& step.RemoveFound? && s.calls[step.c].key == key && key in s.data
        && s.data[key] != s.calls[step.c].id && s.now <= s.entries[s.data[key]].expiresAt)
  {
    var t := Apply(s, step);
    assert s.log[..|s.log|] == s.log;
    if key in s.data {
      assert Explained(s, key, s.data[key], |s.log|);
    }
    if step.RemoveFound? {
      assert CallExplained(s, s.calls[step.c]);
    }
    if |t.log| > |s.log| {
      assert t.log[..|t.log| - 1] == s.log;
    }
  }

  lemma {:induction false} RunHeld(s: State, steps: seq<Step>, key: Key)
    requires Inv(s) && s.maxSize == 0 && Held(s, key) && PendingIsHarmless(s, key)
    requires Runs(s, steps) && ApartRun(s, steps, key)
    ensures Held(Exec(s, steps), key)
    decreases |steps|
  {
    if steps != [] {
      StepInv(s, steps[0]);
      LossIff(s, steps[0], key);
      StepPendingIsHarmless(s, steps[0], key);
      RunHeld(Apply(s, steps[0]), steps[1..], key);
    }
  }

  /** The exact TTL semantics under concurrency. Without a size limit, and if a Set of the key
      commits only what no pending Get of the key can remove live, a read of the table in any
      reachable state answers with the latest write exactly while it is live; whatever the
      schedule of all other calls. */
  lemma ConcurrentExactTtl(defaultTtl: int, now: int, steps: seq<Step>, key: Key)
    requires Runs(Init(0, defaultTtl, now), steps) && ApartRun(Init(0, defaultTtl, now), steps, key)
    ensures
      var s := Exec(Init(0, defaultTtl, now), steps);
      var latest := Latest(s.log, key);
      && WellFormed(s)
      && AnswerOf(View(s), key, s.now)
           == if latest.Some? && s.now <= latest.value.expiresAt then Hit(latest.value.value) else Failed(NotFound)
  {
    RunHeld(Init(0, defaultTtl, now), steps, key);
    Refinement(0, defaultTtl, now, steps);
  }

  /** Conversely, where a Set commits an entry that a pending Get of its key can remove live,
      some continuation of that Get alone does. */
  lemma CommitWhilePendingLoses(s: State, c: nat, d: nat, victim: Key) returns (steps: seq<Step>)
    requires Inv(s) && s.maxSize == 0 && Enabled(s, CommitSet(d, victim))
    requires c < |s.calls| && IsPending(s.calls[c], s.calls[d].key)
    requires !CannotRemove(s, s.calls[c], s.calls[d].expiresAt)
    ensures
      var t := Apply(s, CommitSet(d, victim));
      && WellFormed(t) && Runs(t, steps) && ApartRun(t, steps, s.calls[d].key)
      && !Held(Exec(t, steps), s.calls[d].key)
  {
    var t := Apply(s, CommitSet(d, victim));
    StepInv(s, CommitSet(d, victim));
    assert t.entries[s.calls[c].id] == s.entries[s.calls[c].id] && t.calls[c] == s.calls[c];
    if s.calls[c].ToRemove? {
      steps := RemovalLoses(t, c);
    } else {
      steps := ExpiryLoses(t, c);
    }
  }

  /** The found entry expires before the latest write does, and the Get goes on just then. */
  lemma ExpiryLoses(s: State, c: nat) returns (steps: seq<Step>)
    requires Inv(s) && Enabled(s, CheckClock(c))
    requires
      var latest := Latest(s.log, s.calls[c].key);
      latest.Some? && s.now <= latest.value.expiresAt
      && s.entries[s.calls[c].id].expiresAt < latest.value.expiresAt
    ensures Runs(s, steps) && ApartRun(s, steps, s.calls[c].key) && !Held(Exec(s, steps), s.calls[c].key)
  {
    var found := s.entries[s.calls[c].id].expiresAt;
    var tick := Tick(if s.now <= found then found + 1 - s.now else 0);
    var later := Apply(s, tick);
    StepInv(s, tick);
    StepInv(later, CheckClock(c));
    var rest := RemovalLoses(Apply(later, CheckClock(c)), c);
    steps := [tick, CheckClock(c)] + rest;
    assert steps[1..] == [CheckClock(c)] + rest && steps[1..][1..] == rest;
  }

  lemma RemovalLoses(s: State, c: nat) returns (steps: seq<Step>)
    requires Inv(s) && Enabled(s, RemoveFound(c))
    requires
      var latest := Latest(s.log, s.calls[c].key);
      latest.Some? && s.now <= latest.value.expiresAt
    ensures Runs(s, steps) && ApartRun(s, steps, s.calls[c].key) && !Held(Exec(s, steps), s.calls[c].key)
  {
    steps := [RemoveFound(c)];
    StepWellFormed(s, RemoveFound(c));
    assert Runs(Apply(s, RemoveFound(c)), []) && steps[1..] == [];
  }

  /** In every continuation that keeps the key's Sets apart, the live latest write is held. */
  ghost predicate StaysHeld(s: State, key: Key)
    requires WellFormed(s)
  {
    forall steps | Runs(s, steps) && ApartRun(s, steps, key) :: Held(Exec(s, steps), key)
  }

  /** So the condition is exact: it is safe to commit a Set if and only if no pending Get of its
      key can remove the new entry live. */
  lemma SafeCommitIff(s: State, d: nat, victim: Key)
    requires Inv(s) && s.maxSize == 0 && Enabled(s, CommitSet(d, victim))
    requires Held(s, s.calls[d].key) && PendingIsHarmless(s, s.calls[d].key)
    ensures WellFormed(Apply(s, CommitSet(d, victim)))
    ensures StaysHeld(Apply(s, CommitSet(d, victim)), s.calls[d].key)
        <==> Apart(s, CommitSet(d, victim), s.calls[d].key)
  {
    var step, key := CommitSet(d, victim), s.calls[d].key;
    var t := Apply(s, step);
    StepInv(s, step);
    if Apart(s, step, key) {
      LossIff(s, step, key);
      StepPendingIsHarmless(s, step, key);
      forall steps | Runs(t, steps) && ApartRun(t, steps, key)
        ensures Held(Exec(t, steps), key)
      {
        RunHeld(t, steps, key);
      }
    } else {
      var c :| 0 <= c < |s.calls| && IsPending(s.calls[c], key) && !CannotRemove(s, s.calls[c], s.calls[d].expiresAt);
      var steps := CommitWhilePendingLoses(s, c, d, victim);
    }
  }

  /** A Get that found its entry expired removes by key, after the lock was dropped. A live
      entry that it removes was written after the one it found, and expires later. */
  lemma ExpiredGetCanLoseFreshEntry(s: State, c: nat)
    requires Inv(s) && Enabled(s, RemoveFound(c))
    ensures
      var key := s.calls[c].key;
      var t := Apply(s, RemoveFound(c));
      && key !in t.data
      && (Live(View(s), key, s.now) ==>
            s.data[key] != s.calls[c].id && s.entries[s.calls[c].id].expiresAt < s.entries[s.data[key]].expiresAt)
  {
    assert CallExplained(s, s.calls[c]);
  }

  lemma {:induction false} Extend(s0: State, steps: seq<Step>, step: Step, s: State, t: State)
    returns (more: seq<Step>)
    requires WellFormed(s0) && Runs(s0, steps) && Exec(s0, steps) == s && WellFormed(s)
    requires Enabled(s, step) && Apply(s, step) == t
    ensures Runs(s0, more) && Exec(s0, more) == t && WellFormed(t) && more == steps + [step]
    decreases |steps|
  {
    StepWellFormed(s, step);
    more := steps + [step];
    if steps == [] {
      assert more == [step] && more[1..] == [];
    } else {
      StepWellFormed(s0, steps[0]);
      var rest := Extend(Apply(s0, steps[0]), steps[1..], step, s, t);
      assert more[1..] == rest;
    }
  }

  /** A Get has found an entry, and two ticks later that entry has expired. */
  lemma FoundThenExpired(key: Key, older: Value) returns (steps: seq<Step>)
    requires ValidKey(key)
    ensures Runs(Init(0, 60, 0), steps)
    ensures
      Exec(Init(0, 60, 0), steps)
        == State(0, 60, 2, [Entry(key, older, 1, 0)], map[key := 0], [Finished, Found(key, 0, 1)],
                 [Wrote(key, Stored(older, 1))])
  {
    var entry, commit := Entry(key, older, 1, 0), Wrote(key, Stored(older, 1));
    var s0 := Init(0, 60, 0);
    var s1 := State(0, 60, 0, [], map[], [Stamped(key, older, 1)], []);
    var s2 := State(0, 60, 0, [entry], map[key := 0], [Finished], [commit]);
    var s3 := State(0, 60, 0, [entry], map[key := 0], [Finished, Found(key, 0, 1)], [commit]);
    steps := [];
    steps := Extend(s0, steps, StampSet(key, older, 1), s0, s1);
    steps := Extend(s0, steps, CommitSet(0, ""), s1, s2);
    steps := Extend(s0, steps, Lookup(key), s2, s3);
    steps := Extend(s0, steps, Tick(2), s3, s3.(now := 2));
  }

  /** A Get holds an entry that has expired while a newer entry of the key is in the table. */
  lemma ExpiredGetWithNewerEntry(key: Key, older: Value, newer: Value) returns (steps: seq<Step>)
    requires ValidKey(key)
    ensures Runs(Init(0, 60, 0), steps)
    ensures
      Exec(Init(0, 60, 0), steps)
        == State(0, 60, 2, [Entry(key, older, 1, 0), Entry(key, newer, 12, 2)], map[key := 1],
                 [Finished, ToRemove(key, 0, 1), Finished],
                 [Wrote(key, Stored(older, 1)), Wrote(key, Stored(newer, 12))])
  {
    var e0, e1 := Entry(key, older, 1, 0), Entry(key, newer, 12, 2);
    var w0, w1 := Wrote(key, Stored(older, 1)), Wrote(key, Stored(newer, 12));
    var s4 := State(0, 60, 2, [e0], map[key := 0], [Finished, Found(key, 0, 1)], [w0]);
    var s5 := s4.(calls := [Finished, ToRemove(key, 0, 1)]);
    var s6 := s4.(calls := [Finished, ToRemove(key, 0, 1), Stamped(key, newer, 12)]);
    var s7 := State(0, 60, 2, [e0, e1], map[key := 1], [Finished, ToRemove(key, 0, 1), Finished], [w0, w1]);
    steps := FoundThenExpired(key, older);
    steps := Extend(Init(0, 60, 0), steps, CheckClock(1), s4, s5);
    steps := Extend(Init(0, 60, 0), steps, StampSet(key, newer, 10), s5, s6);
    assert map[key := 0][key := 1] == map[key := 1];
    steps := Extend(Init(0, 60, 0), steps, CommitSet(2, ""), s6, s7);
  }

  /** That Get then removes the newer entry: the latest write is live, nothing deleted or
      evicted it, and the table does not hold it. */
  lemma FreshEntryIsLost(key: Key, older: Value, newer: Value) returns (steps: seq<Step>)
    requires ValidKey(key)
    ensures Runs(Init(0, 60, 0), steps)
    ensures
      var s := Exec(Init(0, 60, 0), steps);
      && s.maxSize == 0 && s.data == map[]
      && s.log == [Wrote(key, Stored(older, 1)), Wrote(key, Stored(newer, 12))] && s.now < 12
  {
    steps := ExpiredGetWithNewerEntry(key, older, newer);
    var s := Exec(Init(0, 60, 0), steps);
    steps := Extend(Init(0, 60, 0), steps, RemoveFound(1), s, Apply(s, RemoveFound(1)));
  }

  // ---------------------------------------------------------------------------------------
  // Uninterrupted calls are the sequential operations
  // ---------------------------------------------------------------------------------------

  /** A Get with nothing in between is a run that answers and leaves what the sequential table
      says, and touches nothing else. */
  lemma UninterruptedGet(s: State, key: Key) returns (steps: seq<Step>)
    requires Inv(s) && ValidKey(key)
    ensures Runs(s, steps)
    ensures
      var t := Exec(s, steps);
      && WellFormed(t)
      && View(t) == AfterGet(View(s), key, s.now, s.now)
      && t.calls == s.calls + [Got(key, AnswerOf(View(s), key, s.now), |s.log|, s.now)]
      && t.log == s.log && t.now == s.now && t.maxSize == s.maxSize && t.defaultTtl == s.defaultTtl
  {
    var c, found := |s.calls|, Apply(s, Lookup(key));
    assert Runs(s, []);
    steps := Extend(s, [], Lookup(key), s, found);
    if key !in s.data {
      assert View(found) == View(s);
    } else {
      assert Explained(s, key, s.data[key], |s.log|);
      var checked := Apply(found, CheckClock(c));
      steps := Extend(s, steps, CheckClock(c), found, checked);
      if Expired(SlotAt(s, key), s.now) {
        assert checked == s.(calls := s.calls + [ToRemove(key, s.data[key], |s.log|)]);
        FinishedRemoval(s, checked, key);
        steps := Extend(s, steps, RemoveFound(c), checked, Apply(checked, RemoveFound(c)));
      } else {
        assert checked == s.(calls := s.calls + [ToTouch(key, s.data[key], |s.log|, s.now)]);
        FinishedTouch(s, checked, key);
        steps := Extend(s, steps, Touch(c), checked, Apply(checked, Touch(c)));
      }
    }
  }

  lemma FinishedRemoval(s: State, checked: State, key: Key)
    requires WellFormed(s) && WellFormed(checked) && key in s.data
    requires checked == s.(calls := s.calls + [ToRemove(key, s.data[key], |s.log|)])
    ensures
      var t := Apply(checked, RemoveFound(|s.calls|));
      && WellFormed(t)
      && View(t) == View(s) - {key}
      && t.calls == s.calls + [Got(key, Failed(NotFound), |s.log|, s.now)]
      && t == s.(calls := t.calls, data := t.data)
  {
    StepWellFormed(checked, RemoveFound(|s.calls|));
  }

  lemma FinishedTouch(s: State, checked: State, key: Key)
    requires Inv(s) && WellFormed(checked) && key in s.data
    requires checked == s.(calls := s.calls + [ToTouch(key, s.data[key], |s.log|, s.now)])
    ensures
      var t := Apply(checked, Touch(|s.calls|));
      && WellFormed(t)
      && View(t) == View(s)[key := View(s)[key].(accessedAt := s.now)]
      && t.calls == s.calls + [Got(key, Hit(View(s)[key].value), |s.log|, s.now)]
      && t == s.(calls := t.calls, entries := t.entries)
  {
    var t := Apply(checked, Touch(|s.calls|));
    StepWellFormed(checked, Touch(|s.calls|));
    forall k | k in s.data && k != key
      ensures s.data[k] != s.data[key]
    {
      assert Explained(s, k, s.data[k], |s.log|) && Explained(s, key, s.data[key], |s.log|);
    }
  }

  /** The table of t is that of s after a whole Set, and nothing else has changed but the log. */
  ghost predicate HasSet(s: State, t: State, op: Op)
    requires WellFormed(s) && WellFormed(t) && op.Set?
  {
    var config := Config(s.maxSize, s.defaultTtl);
    && MemoryTable.Enabled(config, View(s), op)
    && View(t) == MemoryTable.Apply(config, View(s), op)
    && t.calls == s.calls + [Finished]
    && t.log == s.log + [Wrote(op.key, Stored(op.value, SlotOf(config, op).expiresAt))]
    && t.now == s.now && t.maxSize == s.maxSize && t.defaultTtl == s.defaultTtl
  }

  /** A Set with nothing in between is a run that leaves what the sequential table says. */
  lemma UninterruptedSet(s: State, key: Key, value: Value, ttl: int, victim: Key) returns (steps: seq<Step>)
    requires WellFormed(s) && ValidKey(key) && (Overfull(s) ==> IsOldest(View(s), victim))
    ensures Runs(s, steps) && WellFormed(Exec(s, steps))
    ensures HasSet(s, Exec(s, steps), Op.Set(key, value, ttl, s.now, s.now, victim))
    ensures Exec(s, steps).log
         == s.log + [Wrote(key, Stored(value, if ttl != 0 then s.now + ttl else s.now + s.defaultTtl))]
  {
    var c, stamped := |s.calls|, Apply(s, StampSet(key, value, ttl));
    assert Runs(s, []);
    steps := Extend(s, [], StampSet(key, value, ttl), s, stamped);
    var t := StampedSet(s, stamped, key, value, ttl, victim);
    steps := Extend(s, steps, CommitSet(c, victim), stamped, t);
  }

  lemma StampedSet(s: State, stamped: State, key: Key, value: Value, ttl: int, victim: Key) returns (t: State)
    requires WellFormed(s) && WellFormed(stamped) && (Overfull(s) ==> IsOldest(View(s), victim))
    requires stamped == s.(calls := s.calls + [Stamped(key, value, s.now + EffectiveTtl(Config(s.maxSize, s.defaultTtl), ttl))])
    ensures Enabled(stamped, CommitSet(|s.calls|, victim)) && Apply(stamped, CommitSet(|s.calls|, victim)) == t
    ensures WellFormed(t) && HasSet(s, t, Op.Set(key, value, ttl, s.now, s.now, victim))
  {
    ViewSize(s);
    assert View(stamped) == View(s);
    t := Apply(stamped, CommitSet(|s.calls|, victim));
    LockedSetIsAnOperation(stamped, |s.calls|, victim);
    CommitLeaves(s, stamped, key, value, s.now + EffectiveTtl(Config(s.maxSize, s.defaultTtl), ttl), victim);
  }

  /** What the locked part of a Set does besides changing the table. */
  lemma CommitLeaves(s: State, stamped: State, key: Key, value: Value, expiresAt: int, victim: Key)
    requires WellFormed(s) && WellFormed(stamped) && Enabled(stamped, CommitSet(|s.calls|, victim))
    requires stamped == s.(calls := s.calls + [Stamped(key, value, expiresAt)])
    ensures
      var t := Apply(stamped, CommitSet(|s.calls|, victim));
      && t.calls == s.calls + [Finished]
      && t.log == s.log + [Wrote(key, Stored(value, expiresAt))]
      && t.now == s.now && t.maxSize == s.maxSize && t.defaultTtl == s.defaultTtl
  {
  }

  /** The locked part of a Delete and of a cleanup are the sequential operations. */
  lemma LockedRemovalsAreOperations(s: State, step: Step)
    requires Inv(s) && Enabled(s, step) && (step.DeleteKey? || step.Cleanup?)
    ensures WellFormed(Apply(s, step))
    ensures View(Apply(s, step)) == if step.DeleteKey? then View(s) - {step.key} else Unexpired(View(s), s.now)
  {
    StepWellFormed(s, step);
  }

  /** The locked part of a Set is the sequential Set with the expiry stamped before the lock. */
  lemma LockedSetIsAnOperation(s: State, c: nat, victim: Key)
    requires WellFormed(s) && Enabled(s, CommitSet(c, victim))
    ensures WellFormed(Apply(s, CommitSet(c, victim)))
    ensures View(Apply(s, CommitSet(c, victim)))
         == AfterSet(Config(s.maxSize, s.defaultTtl), View(s), s.calls[c].key,
                     Slot(s.calls[c].value, s.calls[c].expiresAt, s.now), victim)
  {
    var t := Apply(s, CommitSet(c, victim));
    StepWellFormed(s, CommitSet(c, victim));
    ViewSize(s);
    assert Full(Config(s.maxSize, s.defaultTtl), View(s)) <==> Overfull(s);
    assert View(t).Keys == t.data.Keys;
  }

  lemma ViewSize(s: State)
    requires WellFormed(s)
    ensures |View(s)| == |s.data|
  {
    assert View(s).Keys == s.data.Keys;
    assert |View(s).Keys| == |View(s)| && |s.data.Keys| == |s.data|;
  }
}
