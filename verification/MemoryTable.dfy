/** A table of entries with expiry and access times as a function: what each operation on valid
    keys leaves behind, and what that means over whole sequential runs (exact TTL semantics,
    LRU). The in-memory cache and the map of negative entries are both such tables. */
module MemoryTable {
  import opened CacheTypes
  import opened Keys

  /** An entry. The clock is an integer; a slot is expired strictly after `expiresAt`. */
  datatype Slot = Slot(value: Value, expiresAt: int, accessedAt: int)

  type Table = map<Key, Slot>

  /** `maxSize == 0` means unlimited. */
  datatype Config = Config(maxSize: nat, defaultTtl: int)

  /** The in-memory cache's own rule: unlike a key pattern's, it allows no blank anywhere. */
  predicate ValidKey(key: Key) {
    && 0 < |key| <= MAX_KEY_LENGTH
    && forall i :: 0 <= i < |key| ==> !IsControl(key[i]) && !IsSpace(key[i])
  }

  /** It accepts the keys that key validation accepts and that hold no blank. */
  lemma ValidIsAcceptedWithoutBlanks(key: Key)
    ensures ValidKey(key) <==> Accepted(key) && forall i :: 0 <= i < |key| ==> !IsSpace(key[i])
    ensures ValidKey(key) <==> 1 <= |key| <= 250 && forall i :: 0 <= i < |key| ==> ' ' < key[i] && key[i] != 127 as char
  {
  }

  predicate Expired(slot: Slot, now: int) { now > slot.expiresAt }

  predicate Live(table: Table, key: Key, now: int) { key in table && !Expired(table[key], now) }

  function AnswerOf(table: Table, key: Key, now: int): Answer {
    if Live(table, key, now) then Hit(table[key].value)
    else Failed(NotFound)
  }

  /** A hit is touched, an expired entry is removed, a miss changes nothing. */
  function AfterGet(table: Table, key: Key, now: int, touched: int): Table {
    if key !in table then table
    else if Expired(table[key], now) then table - {key}
    else table[key := table[key].(accessedAt := touched)]
  }

  predicate Full(config: Config, table: Table) { config.maxSize > 0 && |table| >= config.maxSize }

  /** No entry was accessed before the victim. */
  ghost predicate IsOldest(table: Table, victim: Key) {
    victim in table && forall k :: k in table ==> table[victim].accessedAt <= table[k].accessedAt
  }

  function EffectiveTtl(config: Config, ttl: int): int {
    if ttl == 0 then config.defaultTtl else ttl
  }

  /** A full cache loses the victim first, even when the key is already there. */
  function AfterSet(config: Config, table: Table, key: Key, slot: Slot, victim: Key): Table {
    if Full(config, table) then (table - {victim})[key := slot] else table[key := slot]
  }

  function Unexpired(table: Table, now: int): Table {
    map k | k in table && !Expired(table[k], now) :: table[k]
  }

  /** One sequential operation with its clock readings. The victim is the choice that the
      map's iteration order makes when several entries are equally old. */
  datatype Op =
    | Get(key: Key, now: int, touched: int)
    | Set(key: Key, value: Value, ttl: int, now: int, stored: int, victim: Key)
    | Delete(key: Key)
    | RemoveExpired(now: int)

  ghost predicate Enabled(config: Config, table: Table, op: Op) {
    op.Set? && Full(config, table) ==> IsOldest(table, op.victim)
  }

  function SlotOf(config: Config, op: Op): Slot
    requires op.Set?
  {
    Slot(op.value, op.now + EffectiveTtl(config, op.ttl), op.stored)
  }

  function Apply(config: Config, table: Table, op: Op): Table {
    match op
    case Get(key, now, touched) => AfterGet(table, key, now, touched)
    case Set(key, _, _, _, _, victim) => AfterSet(config, table, key, SlotOf(config, op), victim)
    case Delete(key) => table - {key}
    case RemoveExpired(now) => Unexpired(table, now)
  }

  ghost predicate Runs(config: Config, table: Table, ops: seq<Op>)
    decreases |ops|
  {
    ops == [] || (Enabled(config, table, ops[0]) && Runs(config, Apply(config, table, ops[0]), ops[1..]))
  }

  function Exec(config: Config, table: Table, ops: seq<Op>): Table
    decreases |ops|
  {
    if ops == [] then table else Exec(config, Apply(config, table, ops[0]), ops[1..])
  }

  lemma {:induction false} ExecSplit(config: Config, table: Table, first: seq<Op>, second: seq<Op>)
    ensures Exec(config, table, first + second) == Exec(config, Exec(config, table, first), second)
    decreases |first|
  {
    if first == [] {
      assert first + second == second;
    } else {
      assert (first + second)[1..] == first[1..] + second;
      ExecSplit(config, Apply(config, table, first[0]), first[1..], second);
    }
  }

  // ---------------------------------------------------------------------------------------
  // TTL semantics
  // ---------------------------------------------------------------------------------------

  datatype Stored = Stored(value: Value, expiresAt: int)

  /** The reference: what the last Set of the key stored, unless a Delete came after it.
      Reads, evictions and cleanups do not appear in it. */
  function LastWrite(config: Config, ops: seq<Op>, key: Key): Option<Stored> {
    if ops == [] then None
    else
      var last := ops[|ops| - 1];
      if last.Set? && last.key == key then
        Some(Stored(last.value, last.now + EffectiveTtl(config, last.ttl)))
      else if last.Delete? && last.key == key then None
      else LastWrite(config, ops[..|ops| - 1], key)
  }

  /** Every clock reading of the operations is at or before t. */
  predicate ClockedBy(ops: seq<Op>, t: int) {
    forall i :: 0 <= i < |ops| && !ops[i].Delete? ==> ops[i].now <= t
  }

  /** An entry always holds the last write of its key. */
  ghost predicate HoldsLastWrite(config: Config, table: Table, ops: seq<Op>, key: Key) {
    key in table ==> LastWrite(config, ops, key) == Some(Stored(table[key].value, table[key].expiresAt))
  }

  lemma {:induction false} TableHoldsLastWrites(config: Config, ops: seq<Op>, key: Key)
    ensures HoldsLastWrite(config, Exec(config, map[], ops), ops, key)
    decreases |ops|
  {
    if ops != [] {
      var front, last := ops[..|ops| - 1], ops[|ops| - 1];
      assert ops == front + [last];
      ExecSplit(config, map[], front, [last]);
      TableHoldsLastWrites(config, front, key);
      assert Exec(config, map[], ops) == Apply(config, Exec(config, map[], front), last);
    }
  }

  lemma {:induction false} UnboundedKeepsLiveWrites(config: Config, ops: seq<Op>, key: Key, t: int)
    requires config.maxSize == 0 && ClockedBy(ops, t)
    ensures
      var last := LastWrite(config, ops, key);
      last.Some? && t <= last.value.expiresAt ==> key in Exec(config, map[], ops)
    decreases |ops|
  {
    if ops != [] {
      var front, last := ops[..|ops| - 1], ops[|ops| - 1];
      assert ops == front + [last];
      ExecSplit(config, map[], front, [last]);
      UnboundedKeepsLiveWrites(config, front, key, t);
      TableHoldsLastWrites(config, front, key);
      assert Exec(config, map[], ops) == Apply(config, Exec(config, map[], front), last);
    }
  }

  /** With any size limit and any schedule of evictions and cleanups, a hit is the last write
      of the key, still live: the cache may forget, but never answers anything else. */
  lemma HitsAreLastWrites(config: Config, ops: seq<Op>, key: Key, t: int)
    requires AnswerOf(Exec(config, map[], ops), key, t).Hit?
    ensures
      var last := LastWrite(config, ops, key);
      && last.Some?
      && last == Some(Stored(AnswerOf(Exec(config, map[], ops), key, t).value, last.value.expiresAt))
      && t <= last.value.expiresAt
  {
    TableHoldsLastWrites(config, ops, key);
  }

  /** Without a size limit a read at t hits with v if and only if the last Set or Delete of the
      key is a Set of v that expires at t or later. */
  lemma ExactTtl(config: Config, ops: seq<Op>, key: Key, t: int)
    requires config.maxSize == 0 && ClockedBy(ops, t)
    ensures
      var last := LastWrite(config, ops, key);
      AnswerOf(Exec(config, map[], ops), key, t)
        == if last.Some? && t <= last.value.expiresAt then Hit(last.value.value) else Failed(NotFound)
  {
    TableHoldsLastWrites(config, ops, key);
    UnboundedKeepsLiveWrites(config, ops, key, t);
  }

  /** No Set or Delete of the key. */
  predicate NoWriteOf(ops: seq<Op>, key: Key) {
    forall i :: 0 <= i < |ops| ==> !((ops[i].Set? || ops[i].Delete?) && ops[i].key == key)
  }

  lemma {:induction false} LastWriteThenNone(config: Config, first: seq<Op>, second: seq<Op>, key: Key)
    requires NoWriteOf(second, key)
    ensures LastWrite(config, first + second, key) == LastWrite(config, first, key)
    decreases |second|
  {
    if second == [] {
      assert first + second == first;
    } else {
      var front := second[..|second| - 1];
      assert (first + second)[..|first + second| - 1] == first + front;
      LastWriteThenNone(config, first, front, key);
    }
  }

  /** In an unlimited cache a Set at `now` is seen by the reads up to `ttl` later, or with no time to
      live of its own up to the default later, and by no others; until the key is written again. */
  lemma SetIsSeenFor(config: Config, first: seq<Op>, key: Key, value: Value, ttl: int, now: int, stored: int, victim: Key,
                     second: seq<Op>, t: int)
    requires config.maxSize == 0 && NoWriteOf(second, key)
    requires ClockedBy(first + [Set(key, value, ttl, now, stored, victim)] + second, t)
    ensures
      AnswerOf(Exec(config, map[], first + [Set(key, value, ttl, now, stored, victim)] + second), key, t)
        == if t <= (if ttl != 0 then now + ttl else now + config.defaultTtl) then Hit(value) else Failed(NotFound)
  {
    var written := first + [Set(key, value, ttl, now, stored, victim)];
    assert written[..|written| - 1] == first;
    LastWriteThenNone(config, written, second, key);
    ExactTtl(config, written + second, key, t);
  }

  /** After a Delete no read hits until the key is written again. */
  lemma DeleteIsSeen(config: Config, first: seq<Op>, key: Key, second: seq<Op>, t: int)
    requires NoWriteOf(second, key)
    ensures AnswerOf(Exec(config, map[], first + [Delete(key)] + second), key, t) == Failed(NotFound)
  {
    var written := first + [Delete(key)];
    assert written[..|written| - 1] == first;
    LastWriteThenNone(config, written, second, key);
    TableHoldsLastWrites(config, written + second, key);
  }

  lemma {:induction false} CleanupIsNoWrite(config: Config, first: seq<Op>, now: int, second: seq<Op>, key: Key)
    ensures LastWrite(config, first + [RemoveExpired(now)] + second, key) == LastWrite(config, first + second, key)
    decreases |second|
  {
    var long, short := first + [RemoveExpired(now)] + second, first + second;
    if second == [] {
      assert long[..|long| - 1] == first == short;
    } else {
      var front := second[..|second| - 1];
      assert long[..|long| - 1] == first + [RemoveExpired(now)] + front;
      assert short[..|short| - 1] == first + front;
      CleanupIsNoWrite(config, first, now, front, key);
    }
  }

  /** A cleanup inserted anywhere in a run changes no later answer. */
  lemma CleanupIsInvisible(config: Config, first: seq<Op>, now: int, second: seq<Op>, key: Key, t: int)
    requires config.maxSize == 0 && ClockedBy(first + [RemoveExpired(now)] + second, t)
    ensures AnswerOf(Exec(config, map[], first + [RemoveExpired(now)] + second), key, t)
         == AnswerOf(Exec(config, map[], first + second), key, t)
  {
    var long, short := first + [RemoveExpired(now)] + second, first + second;
    forall i | 0 <= i < |short| && !short[i].Delete?
      ensures short[i].now <= t
    {
      assert short[i] == long[if i < |first| then i else i + 1];
    }
    CleanupIsNoWrite(config, first, now, second, key);
    ExactTtl(config, long, key, t);
    ExactTtl(config, short, key, t);
  }

  // ---------------------------------------------------------------------------------------
  // LRU
  // ---------------------------------------------------------------------------------------

  /** With distinct access times the victim does not depend on the iteration order. */
  lemma OldestIsUnique(table: Table, v: Key, w: Key)
    requires IsOldest(table, v) && IsOldest(table, w)
    requires forall j, k :: j in table && k in table && j != k ==> table[j].accessedAt != table[k].accessedAt
    ensures v == w
  {
  }

  /** When the operation touches an entry, at what time. */
  function Stamp(op: Op): int
    requires op.Get? || op.Set?
  {
    if op.Get? then op.touched else op.stored
  }

  /** A Set, or a Get that does not find its entry expired. */
  predicate IsUse(table: Table, op: Op) {
    op.Set? || (op.Get? && (op.key in table ==> Live(table, op.key, op.now)))
  }

  /** Only uses, each later than the one before. */
  predicate UsesAfter(config: Config, table: Table, ops: seq<Op>, clock: int)
    decreases |ops|
  {
    ops == [] ||
    (IsUse(table, ops[0]) && clock < Stamp(ops[0]) &&
     UsesAfter(config, Apply(config, table, ops[0]), ops[1..], Stamp(ops[0])))
  }

  /** When each key was last stored or hit. */
  function UsedBy(table: Table, op: Op, used: map<Key, int>): map<Key, int> {
    if op.Set? then used[op.key := op.stored]
    else if op.Get? && op.key in table then used[op.key := op.touched]
    else used
  }

  function LastUses(config: Config, table: Table, ops: seq<Op>, used: map<Key, int>): map<Key, int>
    decreases |ops|
  {
    if ops == [] then used
    else LastUses(config, Apply(config, table, ops[0]), ops[1..], UsedBy(table, ops[0], used))
  }

  /** The residents are the most recently used keys: every key that was used later than a
      resident is resident, and at least maxSize - 1 keys are, if that many were ever used. */
  ghost predicate MostRecent(config: Config, table: Table, used: map<Key, int>) {
    && Stamped(table, used)
    && UpwardClosed(table.Keys, used)
    && |table| <= config.maxSize
    && (|table| >= |used| || |table| + 1 >= config.maxSize)
  }

  /** Entries carry the last use of their key, and no two keys were last used at once. */
  ghost predicate Stamped(table: Table, used: map<Key, int>) {
    && table.Keys <= used.Keys
    && (forall k :: k in table ==> table[k].accessedAt == used[k])
    && (forall j, k :: j in used && k in used && j != k ==> used[j] != used[k])
  }

  /** Every key used later than one of these is one of these. */
  ghost predicate UpwardClosed(keys: set<Key>, used: map<Key, int>)
    requires keys <= used.Keys
  {
    forall j, k :: j in used && k in keys && used[k] < used[j] ==> j in keys
  }

  lemma EvictionKeepsMostRecent(config: Config, table: Table, used: map<Key, int>, victim: Key)
    requires MostRecent(config, table, used) && Full(config, table) && IsOldest(table, victim)
    ensures MostRecent(config, table - {victim}, used)
    ensures |table - {victim}| == config.maxSize - 1
  {
    assert (table - {victim}).Keys == table.Keys - {victim};
  }

  lemma StoreKeepsMostRecent(config: Config, table: Table, used: map<Key, int>, key: Key, slot: Slot)
    requires MostRecent(config, table, used) && |table| < config.maxSize
    requires forall k :: k in used ==> used[k] < slot.accessedAt
    ensures MostRecent(config, table[key := slot], used[key := slot.accessedAt])
  {
    StoreKeepsSizes(config, table, used, key, slot);
    StoreKeepsOrder(table.Keys, used, key, slot.accessedAt);
    StoreKeepsStamps(table, used, key, slot);
    assert table[key := slot].Keys == table.Keys + {key};
  }

  lemma StoreKeepsStamps(table: Table, used: map<Key, int>, key: Key, slot: Slot)
    requires Stamped(table, used)
    requires forall k :: k in used ==> used[k] < slot.accessedAt
    ensures Stamped(table[key := slot], used[key := slot.accessedAt])
  {
    var used' := used[key := slot.accessedAt];
    forall j, k | j in used' && k in used' && j != k
      ensures used'[j] != used'[k]
    {
    }
  }

  /** A key used later than all others can join any upward closed set. */
  lemma StoreKeepsOrder(keys: set<Key>, used: map<Key, int>, key: Key, stamp: int)
    requires keys <= used.Keys && UpwardClosed(keys, used)
    requires forall k :: k in used ==> used[k] < stamp
    ensures keys + {key} <= used[key := stamp].Keys && UpwardClosed(keys + {key}, used[key := stamp])
  {
    assert used[key := stamp].Keys == used.Keys + {key};
  }

  lemma StoreKeepsSizes(config: Config, table: Table, used: map<Key, int>, key: Key, slot: Slot)
    requires table.Keys <= used.Keys && |table| < config.maxSize
    requires |table| >= |used| || |table| + 1 >= config.maxSize
    ensures |table[key := slot]| <= config.maxSize
    ensures |table[key := slot]| >= |used[key := slot.accessedAt]| || |table[key := slot]| + 1 >= config.maxSize
  {
    if |table| >= |used| {
      assert |table.Keys| == |table| && |used.Keys| == |used|;
      SubsetEqual(table.Keys, used.Keys);
      assert key in table <==> key in used;
    }
  }

  lemma {:induction false} SubsetSize<T>(small: set<T>, large: set<T>)
    requires small <= large
    ensures |small| <= |large|
  {
    if small != {} {
      var x :| x in small;
      SubsetSize(small - {x}, large - {x});
    }
  }

  lemma SubsetEqual<T>(small: set<T>, large: set<T>)
    requires small <= large && |small| >= |large|
    ensures small == large
  {
    if x :| x in large && x !in small {
      SubsetSize(small, large - {x});
    }
  }

  lemma UseKeepsMostRecent(config: Config, table: Table, op: Op, used: map<Key, int>)
    requires config.maxSize > 0 && MostRecent(config, table, used) && Enabled(config, table, op)
    requires IsUse(table, op) && forall k :: k in used ==> used[k] < Stamp(op)
    ensures MostRecent(config, Apply(config, table, op), UsedBy(table, op, used))
  {
    if op.Set? {
      if Full(config, table) {
        EvictionKeepsMostRecent(config, table, used, op.victim);
        StoreKeepsMostRecent(config, table - {op.victim}, used, op.key, SlotOf(config, op));
      } else {
        StoreKeepsMostRecent(config, table, used, op.key, SlotOf(config, op));
      }
    } else if op.Get? && op.key in table {
      assert Apply(config, table, op).Keys == table.Keys;
      assert UsedBy(table, op, used).Keys == used.Keys;
      assert |Apply(config, table, op).Keys| == |table.Keys|;
    }
  }

  lemma {:induction false} RunKeepsMostRecent(config: Config, table: Table, ops: seq<Op>, used: map<Key, int>, clock: int)
    requires config.maxSize > 0 && MostRecent(config, table, used)
    requires Runs(config, table, ops) && UsesAfter(config, table, ops, clock)
    requires forall k :: k in used ==> used[k] <= clock
    ensures MostRecent(config, Exec(config, table, ops), LastUses(config, table, ops, used))
    decreases |ops|
  {
    if ops != [] {
      UseKeepsMostRecent(config, table, ops[0], used);
      RunKeepsMostRecent(config, Apply(config, table, ops[0]), ops[1..], UsedBy(table, ops[0], used), Stamp(ops[0]));
    }
  }

  /** LRU over whole runs of Sets and Gets: the residents are upward closed in recency and at
      most maxSize, and any group of maxSize - 1 or fewer most recently used keys is resident. */
  lemma LruOverRuns(config: Config, ops: seq<Op>, clock: int, recent: set<Key>)
    requires config.maxSize > 0 && Runs(config, map[], ops) && UsesAfter(config, map[], ops, clock)
    requires
      var used := LastUses(config, map[], ops, map[]);
      recent <= used.Keys && UpwardClosed(recent, used)
    ensures
      var table, used := Exec(config, map[], ops), LastUses(config, map[], ops, map[]);
      && |table| <= config.maxSize
      && table.Keys <= used.Keys
      && UpwardClosed(table.Keys, used)
      && (|recent| < config.maxSize ==> recent <= table.Keys)
  {
    RunKeepsMostRecent(config, map[], ops, map[], clock);
    var table, used := Exec(config, map[], ops), LastUses(config, map[], ops, map[]);
    assert |table.Keys| == |table| && |used.Keys| == |used|;
    if |recent| < config.maxSize {
      if k :| k in recent && k !in table {
        forall j | j in table
          ensures j in recent - {k}
        {
          assert used[j] != used[k];
        }
        SubsetSize(table.Keys, recent - {k});
        SubsetSize(recent, used.Keys);
      }
    }
  }

  /** Overwriting a resident key of a full cache still evicts: unless the key is itself the
      victim, another live key is lost and the cache shrinks. */
  lemma OverwriteStillEvicts(config: Config, table: Table, key: Key, slot: Slot, victim: Key)
    requires Full(config, table) && key in table && IsOldest(table, victim)
    ensures
      var after := AfterSet(config, table, key, slot, victim);
      && (victim != key ==> after.Keys == table.Keys - {victim} && |after| == |table| - 1)
      && (victim == key ==> after.Keys == table.Keys && |after| == |table|)
  {
    var after := AfterSet(config, table, key, slot, victim);
    assert after.Keys == table.Keys - {victim} + {key};
    assert |after.Keys| == |after| && |table.Keys| == |table|;
  }
}
