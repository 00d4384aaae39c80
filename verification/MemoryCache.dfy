/** The in-memory cache layer with its table updated in place. Every call takes the clock
    readings it makes; each method is one uninterrupted call. */
module MemoryCacheLayer {
  import opened CacheTypes
  import opened MemoryTable

  datatype Stats = Stats(size: nat, maxSize: nat, capacity: int)

  class MemoryCache {
    const config: Config
    var data: Table

    /** The empty string is never a key, so the eviction scan can use it for "none yet". */
    ghost predicate Valid()
      reads this
    {
      forall k :: k in data ==> ValidKey(k)
    }

    constructor (maxSize: nat, defaultTtl: int)
      ensures Valid() && data == map[]
      ensures config.maxSize == maxSize
      ensures config.defaultTtl == if defaultTtl == 0 then 3600 else defaultTtl
    {
      config := Config(maxSize, if defaultTtl == 0 then 3600 else defaultTtl);
      data := map[];
    }

    method Get(key: Key, now: int, touched: int) returns (r: Answer)
      requires Valid()
      modifies this
      ensures Valid()
      ensures r == if ValidKey(key) then AnswerOf(old(data), key, now) else Failed(InvalidKey)
      ensures forall k :: k in old(data) && k != key ==> k in data && data[k] == old(data)[k]
      ensures data.Keys <= old(data).Keys
      ensures ValidKey(key) && key in old(data) && now > old(data)[key].expiresAt ==> key !in data
      ensures ValidKey(key) && key in old(data) && now <= old(data)[key].expiresAt ==>
        && r == Hit(old(data)[key].value)
        && key in data && data[key] == old(data)[key].(accessedAt := touched)
      ensures data == if ValidKey(key) then AfterGet(old(data), key, now, touched) else old(data)
    {
      if !ValidKey(key) {
        return Failed(InvalidKey);
      }
      if key !in data {
        return Failed(NotFound);
      }
      var entry := data[key];
      if now > entry.expiresAt {
        data := data - {key};
        return Failed(NotFound);
      }
      data := data[key := entry.(accessedAt := touched)];
      return Hit(entry.value);
    }

    /** Scans the entries in some order for one that no other was accessed before. */
    method FindOldest() returns (lruKey: Key)
      requires Valid()
      ensures data == map[] ==> lruKey == ""
      ensures data != map[] ==> IsOldest(data, lruKey)
    {
      lruKey := "";
      var lruTime := 0;
      var unseen := data.Keys;
      while unseen != {}
        invariant unseen <= data.Keys
        invariant lruKey == "" <==> unseen == data.Keys
        invariant lruKey != "" ==> lruKey in data && lruTime == data[lruKey].accessedAt
        invariant lruKey != "" ==> forall k :: k in data.Keys - unseen ==> lruTime <= data[k].accessedAt
        decreases unseen
      {
        var k :| k in unseen;
        assert ValidKey(k);
        if lruKey == "" || data[k].accessedAt < lruTime {
          lruKey, lruTime := k, data[k].accessedAt;
        }
        unseen := unseen - {k};
      }
    }

    /** Makes room: a full cache loses its oldest entry. */
    method EvictIfFull() returns (ghost victim: Key)
      requires Valid()
      modifies this
      ensures Valid()
      ensures Full(config, old(data)) ==> IsOldest(old(data), victim) && data == old(data) - {victim}
      ensures !Full(config, old(data)) ==> data == old(data)
    {
      victim := "";
      if config.maxSize > 0 && |data| >= config.maxSize {
        var lruKey := FindOldest();
        victim := lruKey;
        if lruKey != "" {
          data := data - {lruKey};
        }
      }
    }

    method Set(key: Key, value: Value, ttl: int, now: int, stored: int) returns (r: Outcome)
      requires Valid()
      modifies this
      ensures Valid()
      ensures !ValidKey(key) ==> r == Err(InvalidKey) && data == old(data)
      ensures ValidKey(key) ==> r == Ok
      ensures ValidKey(key) ==>
        key in data && data[key] == Slot(value, if ttl != 0 then now + ttl else now + config.defaultTtl, stored)
      ensures config.maxSize == 0 && ValidKey(key) ==> data == old(data)[key := data[key]]
      ensures ValidKey(key) ==>
        exists victim :: Enabled(config, old(data), Op.Set(key, value, ttl, now, stored, victim)) &&
          data == Apply(config, old(data), Op.Set(key, value, ttl, now, stored, victim))
    {
      if !ValidKey(key) {
        return Err(InvalidKey);
      }
      var effective := if ttl == 0 then config.defaultTtl else ttl;
      var expiresAt := now + effective;
      ghost var victim := EvictIfFull();
      data := data[key := Slot(value, expiresAt, stored)];
      r := Ok;
      assert Enabled(config, old(data), Op.Set(key, value, ttl, now, stored, victim));
    }

    method Delete(key: Key) returns (r: Outcome)
      requires Valid()
      modifies this
      ensures Valid()
      ensures r == if ValidKey(key) then Ok else Err(InvalidKey)
      ensures data == if ValidKey(key) then old(data) - {key} else old(data)
    {
      if !ValidKey(key) {
        return Err(InvalidKey);
      }
      data := data - {key};
      return Ok;
    }

    method RemoveExpired(now: int)
      requires Valid()
      modifies this
      ensures Valid()
      ensures data == Unexpired(old(data), now)
      ensures forall k :: k in data <==> k in old(data) && now <= old(data)[k].expiresAt
      ensures forall k :: k in data ==> data[k] == old(data)[k]
    {
      var unseen := data.Keys;
      while unseen != {}
        invariant unseen <= data.Keys <= old(data).Keys
        invariant forall k :: k in data ==> data[k] == old(data)[k] && ValidKey(k)
        invariant forall k :: k in data && k !in unseen ==> !Expired(data[k], now)
        invariant forall k :: k in old(data) && k !in data ==> Expired(old(data)[k], now)
        decreases unseen
      {
        var k :| k in unseen;
        unseen := unseen - {k};
        if now > data[k].expiresAt {
          data := data - {k};
        }
      }
    }

    method GetStats() returns (r: Stats)
      ensures r.size == |data| && r.maxSize == config.maxSize
      ensures r.capacity == -1 <==> config.maxSize == 0
      ensures config.maxSize > 0 ==> r.capacity == config.maxSize
    {
      r := Stats(|data|, config.maxSize, config.maxSize);
      if r.capacity == 0 {
        r := r.(capacity := -1);
      }
    }
  }
}
