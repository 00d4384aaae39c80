/** Batch operations as one goroutine per key over the in-memory cache, or over layers in front
    of it that may fail the call for a key. The goroutines run in an arbitrary order, each reads
    the clock somewhere in the batch's time window, and the context may be cancelled at any
    moment. */
module Batch {
  import opened CacheTypes
  import opened MemoryTable
  import opened MemoryCacheLayer

  datatype BatchAnswer = Results(values: map<Key, Value>) | Aborted(error: Error)

  /** Reads only touch entries or drop expired ones. */
  ghost predicate OnlyRead(before: Table, after: Table, until: int) {
    && after.Keys <= before.Keys
    && (forall k :: k in after ==>
          after[k].value == before[k].value && after[k].expiresAt == before[k].expiresAt)
    && (forall k :: k in before && k !in after ==> Expired(before[k], until))
  }

  /** The table after storing some items, each at its own moment of the window. */
  ghost predicate StoredItems(before: Table, after: Table, items: map<Key, Value>, stored: set<Key>, ttl: int, from: int, until: int)
    requires stored <= items.Keys
  {
    && after.Keys == before.Keys + stored
    && (forall k :: k in stored ==>
          after[k].value == items[k] && from + ttl <= after[k].expiresAt <= until + ttl)
    && (forall k :: k in before && k !in stored ==> after[k] == before[k])
  }

  /** Nothing but entries from before and stored items. */
  ghost predicate OldOrStored(before: Table, after: Table, items: map<Key, Value>, stored: set<Key>, ttl: int, from: int, until: int)
    requires stored <= items.Keys
  {
    forall k :: k in after ==>
      || (k in before && after[k] == before[k])
      || (k in stored && after[k].value == items[k] && from + ttl <= after[k].expiresAt <= until + ttl)
  }

  predicate AllValid(keys: set<Key>) { forall k :: k in keys ==> ValidKey(k) }

  /** How the call for a key fails on its way, and whether it has taken effect all the same. */
  datatype Fault = Fault(error: Error, tookEffect: bool)

  /** What the call for a key reports. */
  function OutcomeOf(key: Key, faults: map<Key, Fault>): Outcome {
    if key in faults then Err(faults[key].error)
    else if ValidKey(key) then Ok
    else Err(InvalidKey)
  }

  /** Whether the call for a key changes the cache. */
  predicate Takes(key: Key, faults: map<Key, Fault>) {
    ValidKey(key) && (key in faults ==> faults[key].tookEffect)
  }

  /** The keys whose calls change the cache. */
  function TakenOf(keys: set<Key>, faults: map<Key, Fault>): (taken: set<Key>)
    ensures taken <= keys
  {
    set k | k in keys && Takes(k, faults)
  }

  /** There is room for all keys beside what the table holds. */
  predicate HasRoom(config: Config, table: Table, keys: set<Key>) {
    config.maxSize == 0 || |table.Keys + keys| < config.maxSize
  }

  /** The outcome of a batch: an error if and only if some call failed, and then one of theirs. */
  ghost predicate Joins(r: Outcome, keys: set<Key>, faults: map<Key, Fault>) {
    && (r.Ok? <==> forall k :: k in keys ==> OutcomeOf(k, faults).Ok?)
    && (r.Err? ==> exists k :: k in keys && r == OutcomeOf(k, faults))
  }

  class BatchAdapter {
    const layer: MemoryCache

    constructor (layer: MemoryCache)
      ensures this.layer == layer
    {
      this.layer := layer;
    }

    /** Uncancelled: every result is a requested key whose call did not fail, with its stored
        value, live at the start of the window; and every such key live throughout the window
        has a result. */
    method GetMulti(keys: seq<Key>, from: int, until: int, cancellable: bool, failing: set<Key>) returns (r: BatchAnswer)
      requires layer.Valid() && from <= until
      modifies layer
      ensures layer.Valid() && OnlyRead(old(layer.data), layer.data, until)
      ensures r.Aborted? ==> cancellable && r.error == Cancelled
      ensures r.Results? ==> forall k :: k in r.values ==>
        k in keys && k !in failing && Live(old(layer.data), k, from) && r.values[k] == old(layer.data)[k].value
      ensures r.Results? ==>
        forall k :: k in keys && k !in failing && Live(old(layer.data), k, until) ==> k in r.values
    {
      ghost var before := layer.data;
      var results: map<Key, Value> := map[];
      var cancelled := false;
      var pending := multiset(keys);
      while pending != multiset{}
        invariant layer.Valid() && OnlyRead(before, layer.data, until)
        invariant cancelled ==> cancellable
        invariant forall k :: k in pending ==> k in keys
        invariant forall k :: k in results ==>
          k in keys && k !in failing && Live(before, k, from) && results[k] == before[k].value
        invariant !cancelled ==>
          forall k :: k in keys && k !in pending && k !in failing && Live(before, k, until) ==> k in results
        decreases |pending|
      {
        var k :| k in pending;
        if * {
          cancelled := cancelled || cancellable;
        }
        if !cancelled && k !in failing {
          var answer := GetOne(k, from, until, before);
          if answer.Hit? {
            results := results[k := answer.value];
          }
        }
        pending := pending - multiset{k};
      }
      if * {
        cancelled := cancelled || cancellable;
      }
      r := if cancelled then Aborted(Cancelled) else Results(results);
    }

    /** One goroutine of GetMulti, after some others. */
    method GetOne(key: Key, from: int, until: int, ghost before: Table) returns (r: Answer)
      requires layer.Valid() && from <= until && OnlyRead(before, layer.data, until)
      modifies layer
      ensures layer.Valid() && OnlyRead(before, layer.data, until)
      ensures r.Hit? ==> Live(before, key, from) && r.value == before[key].value
      ensures ValidKey(key) && Live(before, key, until) ==> r.Hit?
    {
      var now: int :| from <= now <= until;
      var touched: int :| now <= touched;
      r := layer.Get(key, now, touched);
    }

    /** One goroutine of SetMulti. In a full cache it takes the place of another entry. */
    method SetOne(key: Key, value: Value, ttl: int, from: int, until: int, faults: map<Key, Fault>)
      returns (r: Outcome, ghost slot: Slot)
      requires layer.Valid() && from <= until
      modifies layer
      ensures layer.Valid()
      ensures r == OutcomeOf(key, faults)
      ensures HasStored(layer.config, old(layer.data), layer.data, key, slot, Takes(key, faults))
      ensures slot.value == value
      ensures from + EffectiveTtl(layer.config, ttl) <= slot.expiresAt <= until + EffectiveTtl(layer.config, ttl)
    {
      var now: int :| from <= now <= until;
      var stamp: int :| now <= stamp;
      slot := Slot(value, now + EffectiveTtl(layer.config, ttl), stamp);
      if key in faults {
        if faults[key].tookEffect {
          var _ := layer.Set(key, value, ttl, now, stamp);
        }
        return Err(faults[key].error), slot;
      }
      r := layer.Set(key, value, ttl, now, stamp);
    }

    /** Uncancelled: there is an error if and only if some call failed, and it is one of theirs.
        The table holds nothing but old entries and stored items; and with room for everything
        exactly what it held plus the items whose calls took effect. */
    method SetMulti(items: map<Key, Value>, ttl: int, from: int, until: int, cancellable: bool, faults: map<Key, Fault>)
      returns (r: Outcome, aborted: bool)
      requires layer.Valid() && from <= until
      modifies layer
      ensures layer.Valid()
      ensures aborted ==> cancellable && r == Err(Cancelled)
      ensures !aborted ==> Joins(r, items.Keys, faults)
      ensures OldOrStored(old(layer.data), layer.data, items, TakenOf(items.Keys, faults),
                          EffectiveTtl(layer.config, ttl), from, until)
      ensures !aborted && HasRoom(layer.config, old(layer.data), items.Keys) ==>
        StoredItems(old(layer.data), layer.data, items, TakenOf(items.Keys, faults),
                    EffectiveTtl(layer.config, ttl), from, until)
    {
      ghost var done;
      r, aborted, done := SetAll(items, ttl, from, until, cancellable, faults);
      ProgressMeans(layer.config, old(layer.data), layer.data, items, done, faults, ttl, from, until);
      if * {
        aborted := aborted || cancellable;
      }
      if aborted {
        r := Err(Cancelled);
      }
    }

    /** The goroutines of SetMulti, those that run before a cancellation. */
    method SetAll(items: map<Key, Value>, ttl: int, from: int, until: int, cancellable: bool, faults: map<Key, Fault>)
      returns (lastErr: Outcome, aborted: bool, ghost done: set<Key>)
      requires layer.Valid() && from <= until
      modifies layer
      ensures layer.Valid() && done <= items.Keys
      ensures aborted ==> cancellable
      ensures !aborted ==> done == items.Keys
      ensures Progress(layer.config, old(layer.data), layer.data, items, done, faults, ttl, from, until)
      ensures Joins(lastErr, done, faults)
    {
      ghost var before := layer.data;
      done := {};
      lastErr, aborted := Ok, false;
      NoProgress(layer.config, before, items, faults, ttl, from, until);
      var pending := items.Keys;
      while pending != {}
        invariant layer.Valid() && pending <= items.Keys && done <= items.Keys - pending
        invariant aborted ==> cancellable
        invariant !aborted ==> done == items.Keys - pending
        invariant Progress(layer.config, before, layer.data, items, done, faults, ttl, from, until)
        invariant Joins(lastErr, done, faults)
        decreases pending
      {
        var k :| k in pending;
        if * {
          aborted := aborted || cancellable;
        }
        if !aborted {
          var outcome := SetNext(k, items, ttl, from, until, faults, before, done);
          JoinOne(lastErr, done, faults, k);
          done := done + {k};
          if outcome.Err? {
            lastErr := outcome;
          }
        }
        pending := pending - {k};
      }
    }

    /** One more goroutine of SetMulti, after some others. */
    method SetNext(key: Key, items: map<Key, Value>, ttl: int, from: int, until: int, faults: map<Key, Fault>,
                   ghost before: Table, ghost done: set<Key>)
      returns (r: Outcome)
      requires layer.Valid() && from <= until && key in items && key !in done && done <= items.Keys
      requires Progress(layer.config, before, layer.data, items, done, faults, ttl, from, until)
      modifies layer
      ensures layer.Valid() && r == OutcomeOf(key, faults)
      ensures Progress(layer.config, before, layer.data, items, done + {key}, faults, ttl, from, until)
    {
      ghost var held := layer.data;
      ghost var slot;
      r, slot := SetOne(key, items[key], ttl, from, until, faults);
      NextProgress(layer.config, before, held, layer.data, items, done, faults, ttl, from, until, key, slot);
    }

    /** One goroutine of DeleteMulti. */
    method DeleteOne(key: Key, faults: map<Key, Fault>) returns (r: Outcome)
      requires layer.Valid()
      modifies layer
      ensures layer.Valid()
      ensures r == OutcomeOf(key, faults)
      ensures layer.data == if Takes(key, faults) then old(layer.data) - {key} else old(layer.data)
    {
      if key in faults {
        if faults[key].tookEffect {
          var _ := layer.Delete(key);
        }
        return Err(faults[key].error);
      }
      r := layer.Delete(key);
    }

    method DeleteMulti(keys: seq<Key>, cancellable: bool, faults: map<Key, Fault>) returns (r: Outcome, aborted: bool)
      requires layer.Valid()
      modifies layer
      ensures layer.Valid()
      ensures aborted ==> cancellable && r == Err(Cancelled)
      ensures !aborted ==> Joins(r, (set k | k in keys), faults)
      ensures !aborted ==> layer.data == old(layer.data) - TakenOf((set k | k in keys), faults)
      ensures forall k :: k in layer.data ==> k in old(layer.data) && layer.data[k] == old(layer.data)[k]
      ensures forall k :: k in old(layer.data) && k !in layer.data ==> k in keys && Takes(k, faults)
    {
      ghost var before, done: set<Key> := layer.data, {};
      var lastErr := Ok;
      aborted := false;
      var pending := multiset(keys);
      while pending != multiset{}
        invariant layer.Valid()
        invariant aborted ==> cancellable
        invariant forall k :: k in pending || k in done ==> k in keys
        invariant !aborted ==> forall k :: k in keys ==> k in pending || k in done
        invariant layer.data == before - TakenOf(done, faults)
        invariant Joins(lastErr, done, faults)
        decreases |pending|
      {
        var k :| k in pending;
        if * {
          aborted := aborted || cancellable;
        }
        if !aborted {
          var outcome := DeleteOne(k, faults);
          JoinOne(lastErr, done, faults, k);
          RemoveNext(before, done, faults, k);
          done := done + {k};
          if outcome.Err? {
            lastErr := outcome;
          }
        }
        pending := pending - multiset{k};
      }
      if * {
        aborted := aborted || cancellable;
      }
      assert !aborted ==> done == set k | k in keys;
      r := if aborted then Err(Cancelled) else lastErr;
    }
  }

  lemma RemoveNext(before: Table, done: set<Key>, faults: map<Key, Fault>, key: Key)
    ensures
      var held := before - TakenOf(done, faults);
      before - TakenOf(done + {key}, faults) == if Takes(key, faults) then held - {key} else held
  {
    TakenNext(done, faults, key);
  }

  /** The table once the goroutines of some of the items have run. */
  ghost predicate Progress(config: Config, before: Table, after: Table, items: map<Key, Value>, done: set<Key>,
                           faults: map<Key, Fault>, ttl: int, from: int, until: int)
    requires done <= items.Keys
  {
    var stored, effective := TakenOf(done, faults), EffectiveTtl(config, ttl);
    && OldOrStored(before, after, items, stored, effective, from, until)
    && (HasRoom(config, before, items.Keys) ==> StoredItems(before, after, items, stored, effective, from, until))
  }

  /** One more call of the batch. */
  lemma JoinOne(r: Outcome, keys: set<Key>, faults: map<Key, Fault>, key: Key)
    requires Joins(r, keys, faults)
    ensures Joins(if OutcomeOf(key, faults).Err? then OutcomeOf(key, faults) else r, keys + {key}, faults)
  {
    if r.Err? {
      var k :| k in keys && r == OutcomeOf(k, faults);
      assert k in keys + {key};
    }
    assert key in keys + {key};
  }

  /** The table after one Set that takes effect or not. In a full cache another entry may go. */
  ghost predicate HasStored(config: Config, held: Table, after: Table, key: Key, slot: Slot, takes: bool) {
    if !takes then after == held
    else if !Full(config, held) then after == held[key := slot]
    else
      && key in after && after[key] == slot
      && forall k :: k in after && k != key ==> k in held && after[k] == held[k]
  }

  lemma TakenNext(done: set<Key>, faults: map<Key, Fault>, key: Key)
    ensures TakenOf(done + {key}, faults)
         == if Takes(key, faults) then TakenOf(done, faults) + {key} else TakenOf(done, faults)
  {
  }

  lemma StoreItem(before: Table, held: Table, items: map<Key, Value>, stored: set<Key>, key: Key, slot: Slot,
                  ttl: int, from: int, until: int)
    requires stored <= items.Keys && key in items && slot.value == items[key]
    requires from + ttl <= slot.expiresAt <= until + ttl
    requires StoredItems(before, held, items, stored, ttl, from, until)
    ensures StoredItems(before, held[key := slot], items, stored + {key}, ttl, from, until)
  {
  }

  lemma NextOldOrStored(config: Config, before: Table, held: Table, after: Table, items: map<Key, Value>, stored: set<Key>,
                        key: Key, slot: Slot, ttl: int, from: int, until: int)
    requires stored <= items.Keys && key in items && slot.value == items[key]
    requires from + ttl <= slot.expiresAt <= until + ttl
    requires OldOrStored(before, held, items, stored, ttl, from, until)
    requires HasStored(config, held, after, key, slot, true)
    ensures OldOrStored(before, after, items, stored + {key}, ttl, from, until)
  {
  }

  lemma NoProgress(config: Config, before: Table, items: map<Key, Value>, faults: map<Key, Fault>, ttl: int, from: int, until: int)
    ensures Progress(config, before, before, items, {}, faults, ttl, from, until)
  {
  }

  lemma ProgressMeans(config: Config, before: Table, after: Table, items: map<Key, Value>, done: set<Key>,
                      faults: map<Key, Fault>, ttl: int, from: int, until: int)
    requires done <= items.Keys && Progress(config, before, after, items, done, faults, ttl, from, until)
    ensures OldOrStored(before, after, items, TakenOf(items.Keys, faults), EffectiveTtl(config, ttl), from, until)
    ensures done == items.Keys && HasRoom(config, before, items.Keys) ==>
      StoredItems(before, after, items, TakenOf(items.Keys, faults), EffectiveTtl(config, ttl), from, until)
  {
  }

  lemma NextProgress(config: Config, before: Table, held: Table, after: Table, items: map<Key, Value>, done: set<Key>,
                     faults: map<Key, Fault>, ttl: int, from: int, until: int, key: Key, slot: Slot)
    requires done <= items.Keys && key in items && slot.value == items[key]
    requires from + EffectiveTtl(config, ttl) <= slot.expiresAt <= until + EffectiveTtl(config, ttl)
    requires Progress(config, before, held, items, done, faults, ttl, from, until)
    requires HasStored(config, held, after, key, slot, Takes(key, faults))
    ensures Progress(config, before, after, items, done + {key}, faults, ttl, from, until)
  {
    var stored, effective := TakenOf(done, faults), EffectiveTtl(config, ttl);
    TakenNext(done, faults, key);
    if Takes(key, faults) {
      NextOldOrStored(config, before, held, after, items, stored, key, slot, effective, from, until);
      if HasRoom(config, before, items.Keys) {
        RoomForOne(config, before, held, items.Keys, stored, key);
        StoreItem(before, held, items, stored, key, slot, effective, from, until);
      }
    }
  }

  /** While the batch runs the cache is never full, so nothing is evicted. */
  lemma RoomForOne(config: Config, before: Table, now: Table, keys: set<Key>, stored: set<Key>, key: Key)
    requires HasRoom(config, before, keys)
    requires stored <= keys && now.Keys == before.Keys + stored && key in keys
    ensures !Full(config, now)
  {
    SubsetSize(now.Keys, before.Keys + keys);
    assert |now.Keys| == |now|;
  }

  /** SetMulti, then GetMulti of the same keys in any order: exactly the items come back, when
      all keys are valid, nothing evicts, and the entries outlive the two batches. */
  method SetThenGetMulti(batch: BatchAdapter, items: map<Key, Value>, ttl: int, keys: seq<Key>, from: int, middle: int, until: int)
    returns (r: BatchAnswer)
    requires batch.layer.Valid() && from <= middle <= until
    requires HasRoom(batch.layer.config, batch.layer.data, items.Keys)
    requires AllValid(items.Keys) && (forall k :: k in keys <==> k in items)
    requires until <= from + EffectiveTtl(batch.layer.config, ttl)
    modifies batch.layer
    ensures r == Results(items)
  {
    var outcome, aborted := batch.SetMulti(items, ttl, from, middle, false, map[]);
    ghost var stored := batch.layer.data;
    assert forall k :: k in items ==> Live(stored, k, until) && stored[k].value == items[k];
    r := batch.GetMulti(keys, middle, until, false, {});
    assert r.values.Keys == items.Keys;
  }
}
