/** The wrappers that must agree with what they wrap: a Bloom filter that rejects keys never
    stored, and a negative cache that remembers misses. Each method is one sequential call. */
module Wrappers {
  import opened CacheTypes
  import opened Resilience
  import MemoryTable

  /** The circumstances of one call. A wrapped layer may fail, and a failing write may have taken
      effect all the same, but a layer that holds a key does not report it missing. */
  datatype Circumstance = Fine | ContextDone | Failing(error: Error, tookEffect: bool)

  function FaultOf(c: Circumstance): Option<Error> {
    if c.Failing? then Some(c.error) else None
  }

  /** Whether a write reaches the contents of the layer that it is passed to. */
  predicate Applies(c: Circumstance) { c.Fine? || (c.Failing? && c.tookEffect) }

  predicate Honest(c: Circumstance) { c.Failing? ==> c.error != NotFound }

  datatype BloomStats = BloomStats(total: nat, rejected: nat, falsePositives: nat, rejectionRate: real, falsePositiveRate: real)

  class BloomLayer {
    const layer: BackingLayer
    /** The bits that stand for a key: any function, so any amount of collision. */
    const bits: Key -> set<nat>
    var filter: set<nat>
    var totalQueries: nat
    var bloomRejected: nat
    var falsePositives: nat

    ghost predicate Valid()
      reads this
    {
      bloomRejected + falsePositives <= totalQueries
    }

    predicate Test(key: Key)
      reads this
    {
      bits(key) <= filter
    }

    /** No false negatives: a stored key always passes the test. */
    ghost predicate Sound()
      reads this, layer
    {
      forall k :: k in layer.contents ==> Test(k)
    }

    constructor (layer: BackingLayer, bits: Key -> set<nat>)
      ensures Valid() && this.layer == layer && this.bits == bits && filter == {}
      ensures layer.contents == map[] ==> Sound()
    {
      this.layer, this.bits := layer, bits;
      filter, totalQueries, bloomRejected, falsePositives := {}, 0, 0, 0;
    }

    method Get(key: Key, c: Circumstance) returns (r: Answer)
      requires Valid()
      modifies this`totalQueries, this`bloomRejected, this`falsePositives
      ensures Valid()
      ensures c.ContextDone? ==> r == Failed(Cancelled)
      ensures !c.ContextDone? ==>
        r == if bits(key) <= filter then InnerAnswer(layer.contents, key, FaultOf(c)) else Failed(NotFound)
      ensures totalQueries == old(totalQueries) + if c.ContextDone? then 0 else 1
      ensures bloomRejected == old(bloomRejected) + if c.ContextDone? || bits(key) <= filter then 0 else 1
      ensures falsePositives == old(falsePositives) +
        if !c.ContextDone? && bits(key) <= filter && r == Failed(NotFound) then 1 else 0
    {
      if c.ContextDone? {
        return Failed(Cancelled);
      }
      totalQueries := totalQueries + 1;
      if !Test(key) {
        bloomRejected := bloomRejected + 1;
        return Failed(NotFound);
      }
      r := layer.Get(key, FaultOf(c));
      if r == Failed(NotFound) {
        falsePositives := falsePositives + 1;
      }
    }

    method Set(key: Key, value: Value, ttl: int, c: Circumstance) returns (r: Outcome)
      modifies this`filter, layer
      ensures old(Sound()) ==> Sound()
      ensures r == match c { case Fine => Ok case ContextDone => Err(Cancelled) case Failing(e, _) => Err(e) }
      ensures layer.contents == if Applies(c) then old(layer.contents)[key := Item(value, ttl)] else old(layer.contents)
      ensures filter == if c.ContextDone? then old(filter) else old(filter) + bits(key)
    {
      if c.ContextDone? {
        return Err(Cancelled);
      }
      filter := filter + bits(key);
      r := layer.Set(key, value, ttl, FaultOf(c), Applies(c));
      assert old(Sound()) ==> forall k :: k in old(layer.contents) ==> bits(k) <= old(filter) by {
        if old(Sound()) {
          forall k | k in old(layer.contents)
            ensures bits(k) <= old(filter)
          {
            assert old(Test(k));
          }
        }
      }
    }

    method Delete(key: Key, c: Circumstance) returns (r: Outcome)
      modifies layer
      ensures old(Sound()) ==> Sound()
      ensures r == if c.Failing? then Err(c.error) else Ok
      ensures layer.contents == if Applies(c) || c.ContextDone? then old(layer.contents) - {key} else old(layer.contents)
    {
      r := layer.Delete(key, FaultOf(c), Applies(c));
    }

    method Reset()
      modifies this
      ensures Valid()
      ensures filter == {} && totalQueries == bloomRejected == falsePositives == 0
    {
      filter, totalQueries, bloomRejected, falsePositives := {}, 0, 0, 0;
    }

    /** The reported rates are proportions. */
    method Stats() returns (r: BloomStats)
      requires Valid()
      ensures r.total == totalQueries && r.rejected == bloomRejected && r.falsePositives == falsePositives
      ensures 0.0 <= r.rejectionRate <= 1.0 && 0.0 <= r.falsePositiveRate <= 1.0
      ensures totalQueries > 0 ==> r.rejectionRate * totalQueries as real == bloomRejected as real
      ensures totalQueries > bloomRejected ==>
        r.falsePositiveRate * (totalQueries - bloomRejected) as real == falsePositives as real
    {
      var rejectionRate, falsePositiveRate := 0.0, 0.0;
      if totalQueries > 0 {
        IsProportion(bloomRejected as real, totalQueries as real);
        rejectionRate := bloomRejected as real / totalQueries as real;
        var queried := totalQueries - bloomRejected;
        if queried > 0 {
          IsProportion(falsePositives as real, queried as real);
          falsePositiveRate := falsePositives as real / queried as real;
        }
      }
      r := BloomStats(totalQueries, bloomRejected, falsePositives, rejectionRate, falsePositiveRate);
    }
  }

  lemma IsProportion(part: real, whole: real)
    requires 0.0 <= part <= whole && whole > 0.0
    ensures 0.0 <= part / whole <= 1.0 && part / whole * whole == part
  {
    var q := part / whole;
    assert q * whole == part;
    assert (1.0 - q) * whole == whole - part;
    NonNegativeFactor(q, whole);
    NonNegativeFactor(1.0 - q, whole);
  }

  lemma NonNegativeFactor(x: real, w: real)
    requires w > 0.0 && x * w >= 0.0
    ensures x >= 0.0
  {
  }

  /** Caching a key as missing is a Set of a slot without a value. */
  function Remember(key: Key, now: int): MemoryTable.Op {
    MemoryTable.Set(key, Nil, 0, now, now, "")
  }

  /** The negative entries after a Get that checked at `now` and was answered r. */
  function MapAfterGet(config: MemoryTable.Config, table: MemoryTable.Table, key: Key, now: int, later: int, r: Answer)
    : MemoryTable.Table
  {
    if MemoryTable.Live(table, key, now) then table
    else if r.Hit? then table - {key}
    else if r.error == NotFound then MemoryTable.Apply(config, table, Remember(key, later))
    else table
  }

  /** The negative entries after a Delete. */
  function MapAfterDelete(config: MemoryTable.Config, table: MemoryTable.Table, key: Key, now: int, r: Outcome)
    : MemoryTable.Table
  {
    if r.Ok? then MemoryTable.Apply(config, table, Remember(key, now)) else table
  }

  /** Remembers misses for a while, over a Bloom layer. Its entries are a table whose slots
      carry no value: a negative entry is a stored slot, dropping one is a removal. */
  class NegativeCacheLayer {
    const layer: BloomLayer
    const config: MemoryTable.Config
    var negativeMap: MemoryTable.Table

    ghost predicate Valid()
      reads this, layer, layer.layer
    {
      && layer.Valid() && layer.Sound()
      && config.maxSize == 0
      && negativeMap.Keys !! layer.layer.contents.Keys
    }

    constructor (layer: BloomLayer, negativeTtl: int)
      requires layer.Valid() && layer.Sound()
      ensures Valid() && this.layer == layer && negativeMap == map[]
      ensures config.defaultTtl == if negativeTtl <= 0 then 60 else negativeTtl
    {
      this.layer := layer;
      config := MemoryTable.Config(0, if negativeTtl <= 0 then 60 else negativeTtl);
      negativeMap := map[];
    }

    method IsNegativeCached(key: Key, now: int) returns (r: bool)
      ensures r <==> key in negativeMap && now <= negativeMap[key].expiresAt
    {
      if key !in negativeMap {
        return false;
      }
      r := !(now > negativeMap[key].expiresAt);
    }

    method CacheNegative(key: Key, now: int)
      requires config.maxSize == 0
      modifies this`negativeMap
      ensures negativeMap == MemoryTable.Apply(config, old(negativeMap), Remember(key, now))
      ensures key in negativeMap && negativeMap[key].expiresAt == now + config.defaultTtl
    {
      negativeMap := negativeMap[key := MemoryTable.Slot(Nil, now + config.defaultTtl, now)];
    }

    method RemoveNegative(key: Key)
      modifies this`negativeMap
      ensures negativeMap == MemoryTable.Apply(config, old(negativeMap), MemoryTable.Delete(key))
    {
      negativeMap := negativeMap - {key};
    }

    method CleanupExpired(now: int)
      modifies this`negativeMap
      ensures negativeMap == MemoryTable.Apply(config, old(negativeMap), MemoryTable.RemoveExpired(now))
      ensures forall k :: k in negativeMap <==> k in old(negativeMap) && now <= old(negativeMap)[k].expiresAt
      ensures forall k :: k in negativeMap ==> negativeMap[k] == old(negativeMap)[k]
    {
      var unseen := negativeMap.Keys;
      while unseen != {}
        invariant unseen <= negativeMap.Keys <= old(negativeMap).Keys
        invariant forall k :: k in negativeMap ==> negativeMap[k] == old(negativeMap)[k]
        invariant forall k :: k in negativeMap && k !in unseen ==> !MemoryTable.Expired(negativeMap[k], now)
        invariant forall k :: k in old(negativeMap) && k !in negativeMap ==>
          MemoryTable.Expired(old(negativeMap)[k], now)
        decreases unseen
      {
        var k :| k in unseen;
        unseen := unseen - {k};
        if now > negativeMap[k].expiresAt {
          negativeMap := negativeMap - {k};
        }
      }
    }

    /** The answer is the wrapped layer's own, except that a missing key may be answered as
        missing where the wrapped layer, or the context, would have reported an error. */
    method Get(key: Key, now: int, later: int, c: Circumstance) returns (r: Answer)
      requires Valid() && Honest(c)
      modifies this`negativeMap, layer`totalQueries, layer`bloomRejected, layer`falsePositives
      ensures Valid()
      ensures Agrees(r, layer.layer.contents, key, c)
      ensures old(MemoryTable.Live(negativeMap, key, now)) ==>
        r == Failed(NotFound) && layer.totalQueries == old(layer.totalQueries)
      ensures negativeMap == MapAfterGet(config, old(negativeMap), key, now, later, r)
      ensures !old(MemoryTable.Live(negativeMap, key, now)) && r == Failed(NotFound) ==>
        key in negativeMap && negativeMap[key].expiresAt == later + config.defaultTtl
      ensures !old(MemoryTable.Live(negativeMap, key, now)) ==>
        layer.totalQueries == old(layer.totalQueries) + if c.ContextDone? then 0 else 1
      ensures r.Hit? ==> key !in negativeMap
    {
      var cached := IsNegativeCached(key, now);
      if cached {
        return Failed(NotFound);
      }
      assert key in layer.layer.contents ==> layer.Test(key);
      r := layer.Get(key, c);
      if r.Failed? {
        if r.error == NotFound {
          CacheNegative(key, later);
        }
        return;
      }
      RemoveNegative(key);
    }

    method Set(key: Key, value: Value, ttl: int, c: Circumstance) returns (r: Outcome)
      requires Valid()
      modifies this`negativeMap, layer`filter, layer.layer
      ensures Valid()
      ensures negativeMap == old(negativeMap) - {key}
      ensures r == match c { case Fine => Ok case ContextDone => Err(Cancelled) case Failing(e, _) => Err(e) }
      ensures layer.layer.contents
           == if Applies(c) then old(layer.layer.contents)[key := Item(value, ttl)] else old(layer.layer.contents)
    {
      RemoveNegative(key);
      r := layer.Set(key, value, ttl, c);
    }

    method Delete(key: Key, now: int, c: Circumstance) returns (r: Outcome)
      requires Valid()
      modifies this`negativeMap, layer.layer
      ensures Valid()
      ensures r == if c.Failing? then Err(c.error) else Ok
      ensures layer.layer.contents
           == if Applies(c) || c.ContextDone? then old(layer.layer.contents) - {key} else old(layer.layer.contents)
      ensures negativeMap == MapAfterDelete(config, old(negativeMap), key, now, r)
      ensures r.Ok? ==> key in negativeMap && negativeMap[key].expiresAt == now + config.defaultTtl
    {
      r := layer.Delete(key, c);
      if r.Ok? {
        CacheNegative(key, now);
      }
    }
  }

  // ---------------------------------------------------------------------------------------
  // Transparency of the stack
  // ---------------------------------------------------------------------------------------

  /** An answer of the stack against the bare layer holding the same contents. */
  predicate Agrees(r: Answer, contents: map<Key, Item>, key: Key, c: Circumstance) {
    || r == InnerAnswer(contents, key, if c.ContextDone? then Some(Cancelled) else FaultOf(c))
    || (r == Failed(NotFound) && key !in contents)
  }

  /** One operation of a run. Forgetting is the wrapped layer losing an entry by itself. */
  datatype StackOp =
    | Get(key: Key, now: int, later: int, c: Circumstance)
    | Set(key: Key, value: Value, ttl: int, c: Circumstance)
    | Delete(key: Key, now: int, c: Circumstance)
    | CleanUp(now: int)
    | Forget(key: Key)

  /** What the bare layer holds after the operation; reads and cleanups leave it alone. */
  function BareStep(contents: map<Key, Item>, op: StackOp): map<Key, Item> {
    match op
    case Set(key, value, ttl, c) => if Applies(c) then contents[key := Item(value, ttl)] else contents
    case Delete(key, _, c) => if Applies(c) || c.ContextDone? then contents - {key} else contents
    case Forget(key) => contents - {key}
    case _ => contents
  }

  function BareRun(contents: map<Key, Item>, ops: seq<StackOp>): map<Key, Item> {
    if ops == [] then contents else BareStep(BareRun(contents, ops[..|ops| - 1]), ops[|ops| - 1])
  }

  /** Runs any sequence of operations through a negative layer over a Bloom layer over a
      map-like layer. Every read answers as the bare layer would at that point of the run, and
      the wrapped layer ends up holding what the bare layer would. */
  method RunStack(stack: NegativeCacheLayer, ops: seq<StackOp>) returns (answers: seq<Option<Answer>>)
    requires stack.Valid()
    requires forall i :: 0 <= i < |ops| && ops[i].Get? ==> Honest(ops[i].c)
    modifies stack`negativeMap, stack.layer, stack.layer.layer
    ensures stack.Valid() && |answers| == |ops|
    ensures stack.layer.layer.contents == BareRun(old(stack.layer.layer.contents), ops)
    ensures forall i :: 0 <= i < |ops| && ops[i].Get? ==>
      answers[i].Some? &&
      Agrees(answers[i].value, BareRun(old(stack.layer.layer.contents), ops[..i]), ops[i].key, ops[i].c)
  {
    ghost var start := stack.layer.layer.contents;
    answers := [];
    assert ops[..0] == [];
    for i := 0 to |ops|
      invariant stack.Valid() && |answers| == i
      invariant stack.layer.layer.contents == BareRun(start, ops[..i])
      invariant forall j :: 0 <= j < i && ops[j].Get? ==>
        answers[j].Some? && Agrees(answers[j].value, BareRun(start, ops[..j]), ops[j].key, ops[j].c)
    {
      assert ops[..i + 1][..i] == ops[..i];
      var answer := RunOne(stack, ops[i]);
      answers := answers + [answer];
    }
    assert ops[..|ops|] == ops;
  }

  /** A miss is remembered: while its entry lives, the next Get of the key does not ask the layer. */
  method MissesOnce(stack: NegativeCacheLayer, key: Key, now: int, later: int, next: int) returns (first: Answer, second: Answer)
    requires stack.Valid() && key !in stack.layer.layer.contents
    requires now <= later <= next <= later + stack.config.defaultTtl
    modifies stack`negativeMap, stack.layer`totalQueries, stack.layer`bloomRejected, stack.layer`falsePositives
    ensures first == second == Failed(NotFound)
    ensures stack.layer.totalQueries <= old(stack.layer.totalQueries) + 1
  {
    first := stack.Get(key, now, later, Fine);
    second := stack.Get(key, next, next, Fine);
  }

  method RunOne(stack: NegativeCacheLayer, op: StackOp) returns (answer: Option<Answer>)
    requires stack.Valid() && (op.Get? ==> Honest(op.c))
    modifies stack`negativeMap, stack.layer, stack.layer.layer
    ensures stack.Valid()
    ensures stack.layer.layer.contents == BareStep(old(stack.layer.layer.contents), op)
    ensures op.Get? ==> answer.Some? && Agrees(answer.value, old(stack.layer.layer.contents), op.key, op.c)
  {
    answer := None;
    match op {
      case Get(key, now, later, c) =>
        var r := stack.Get(key, now, later, c);
        answer := Some(r);
      case Set(key, value, ttl, c) => var _ := stack.Set(key, value, ttl, c);
      case Delete(key, now, c) => var _ := stack.Delete(key, now, c);
      case CleanUp(now) => stack.CleanupExpired(now);
      case Forget(key) =>
        ghost var before := stack.layer.layer.contents;
        stack.layer.layer.contents := stack.layer.layer.contents - {key};
        assert forall k :: k in stack.layer.layer.contents ==> k in before;
    }
  }
}
