/** A layer behind a circuit breaker and a timeout: how errors are translated, what is recorded,
    and what the breaker is told. */
module Resilience {
  import opened CacheTypes
  import opened Metrics

  datatype Item = Item(value: Value, ttl: int)

  /** What a layer holds. */
  type Contents = map<Key, Item>

  /** What happens to one call: the breaker runs it (and the wrapped layer may fail, a failing
      write may have taken effect all the same, and the deadline may have passed by then), or
      rejects it as open, or as one too many. */
  datatype Weather =
    | Runs(fault: Option<Error>, tookEffect: bool, deadlineExceeded: bool)
    | RejectedOpen
    | RejectedTooMany(deadlineExceeded: bool)

  function Classify(error: Error): string {
    match error
    case CircuitOpen => "circuit_breaker_open"
    case Timeout => "timeout"
    case NotFound => "key_not_found"
    case Unavailable => "unavailable"
    case InvalidKey => "invalid_key"
    case InvalidValue => "invalid_value"
    case _ => "other"
  }

  /** What the wrapped layer answers when it is asked. */
  function InnerAnswer(contents: map<Key, Item>, key: Key, fault: Option<Error>): Answer {
    match fault
    case Some(error) => Failed(error)
    case None => if key in contents then Hit(contents[key].value) else Failed(NotFound)
  }

  /** What a caller gets from a read. A rejection as one too many is an empty success. */
  function GetAnswer(contents: map<Key, Item>, key: Key, weather: Weather): Answer {
    match weather
    case RejectedOpen => Failed(CircuitOpen)
    case RejectedTooMany(_) => Hit(Nil)
    case Runs(fault, _, late) =>
      var answer := InnerAnswer(contents, key, fault);
      if answer.Failed? && answer.error != NotFound && late then Failed(Timeout) else answer
  }

  /** What the collector is told about a read. A rejected call is recorded as a hit, because
      the wrapped layer never reported an error. */
  function GetRecords(name: string, contents: map<Key, Item>, key: Key, weather: Weather): seq<Record> {
    match weather
    case RejectedOpen => [GetRecord(name, true), ErrorRecord(name, "circuit_breaker_open")]
    case RejectedTooMany(_) => [GetRecord(name, true)]
    case Runs(fault, _, late) =>
      match InnerAnswer(contents, key, fault)
      case Hit(_) => [GetRecord(name, true)]
      case Failed(error) =>
        if error == NotFound then [GetRecord(name, false)]
        else [GetRecord(name, false), ErrorRecord(name, if late then "timeout" else Classify(error))]
  }

  /** What a caller gets from a write or a removal, and the error type recorded with it. */
  function WriteOutcome(weather: Weather): Outcome {
    match weather
    case RejectedOpen => Err(CircuitOpen)
    case RejectedTooMany(late) => Err(if late then Timeout else TooManyRequests)
    case Runs(fault, _, late) =>
      if fault.None? then Ok else if late then Err(Timeout) else Err(fault.value)
  }

  /** Whether a write or a removal changes the wrapped layer. */
  function WriteApplies(weather: Weather): (applies: bool)
    ensures WriteOutcome(weather).Ok? ==> applies
  {
    weather.Runs? && (weather.fault.None? || weather.tookEffect)
  }

  function WriteErrorKind(weather: Weather): string {
    match weather
    case RejectedOpen => "circuit_breaker_open"
    case RejectedTooMany(late) => if late then "timeout" else "other"
    case Runs(fault, _, late) => if fault.None? || late then "timeout" else Classify(fault.value)
  }

  function SetRecords(name: string, weather: Weather): seq<Record> {
    if WriteOutcome(weather).Ok? then [SetRecord(name, true)]
    else [SetRecord(name, false), ErrorRecord(name, WriteErrorKind(weather))]
  }

  function DeleteRecords(name: string, weather: Weather): seq<Record> {
    if WriteOutcome(weather).Ok? then [DeleteRecord(name, true)]
    else [DeleteRecord(name, false), ErrorRecord(name, WriteErrorKind(weather))]
  }

  /** Whether the breaker counts a completed read as a success. */
  function ReportedSuccess(answer: Answer): bool {
    answer.Hit? || answer.error == NotFound
  }

  /** The wrapped layer. */
  class BackingLayer {
    const name: string
    var contents: map<Key, Item>

    constructor (name: string)
      ensures this.name == name && contents == map[]
    {
      this.name := name;
      contents := map[];
    }

    method Get(key: Key, fault: Option<Error>) returns (r: Answer)
      ensures r == InnerAnswer(contents, key, fault)
    {
      if fault.Some? {
        return Failed(fault.value);
      }
      r := if key in contents then Hit(contents[key].value) else Failed(NotFound);
    }

    /** A write that fails may have taken effect before it failed. */
    method Set(key: Key, value: Value, ttl: int, fault: Option<Error>, tookEffect: bool) returns (r: Outcome)
      modifies this
      ensures r == if fault.Some? then Err(fault.value) else Ok
      ensures contents
           == if fault.None? || tookEffect then old(contents)[key := Item(value, ttl)] else old(contents)
    {
      if fault.None? || tookEffect {
        contents := contents[key := Item(value, ttl)];
      }
      r := if fault.Some? then Err(fault.value) else Ok;
    }

    method Delete(key: Key, fault: Option<Error>, tookEffect: bool) returns (r: Outcome)
      modifies this
      ensures r == if fault.Some? then Err(fault.value) else Ok
      ensures contents == if fault.None? || tookEffect then old(contents) - {key} else old(contents)
    {
      if fault.None? || tookEffect {
        contents := contents - {key};
      }
      r := if fault.Some? then Err(fault.value) else Ok;
    }
  }

  class ResilientLayer {
    const layer: BackingLayer
    const collector: MemoryCollector

    constructor (layer: BackingLayer, collector: MemoryCollector)
      ensures this.layer == layer && this.collector == collector
    {
      this.layer := layer;
      this.collector := collector;
    }

    method Get(key: Key, weather: Weather) returns (r: Answer)
      modifies collector
      ensures r == GetAnswer(layer.contents, key, weather)
      ensures collector.View() == Replay(old(collector.View()), GetRecords(layer.name, layer.contents, key, weather))
    {
      ghost var before := collector.View();
      var actualErr: Option<Error> := None;
      var result := Nil;
      if weather.Runs? {
        var answer := layer.Get(key, weather.fault);
        if answer.Failed? {
          actualErr := Some(answer.error);
        } else {
          result := answer.value;
        }
      }
      collector.RecordGet(layer.name, actualErr.None?);
      if weather.RejectedOpen? {
        collector.RecordError(layer.name, "circuit_breaker_open");
        r := Failed(CircuitOpen);
      } else if actualErr == Some(NotFound) {
        r := Failed(NotFound);
      } else if actualErr.Some? {
        if weather.deadlineExceeded {
          collector.RecordError(layer.name, "timeout");
          r := Failed(Timeout);
        } else {
          collector.RecordError(layer.name, Classify(actualErr.value));
          r := Failed(actualErr.value);
        }
      } else {
        r := Hit(result);
      }
      UnfoldReplay(before, GetRecords(layer.name, layer.contents, key, weather));
    }

    method Set(key: Key, value: Value, ttl: int, weather: Weather) returns (r: Outcome)
      modifies collector, layer
      ensures r == WriteOutcome(weather)
      ensures layer.contents == if WriteApplies(weather) then old(layer.contents)[key := Item(value, ttl)] else old(layer.contents)
      ensures collector.View() == Replay(old(collector.View()), SetRecords(layer.name, weather))
    {
      ghost var before := collector.View();
      var err: Option<Error> := None;
      if weather.Runs? {
        var outcome := layer.Set(key, value, ttl, weather.fault, weather.tookEffect);
        if outcome.Err? {
          err := Some(outcome.error);
        }
      } else {
        err := Some(if weather.RejectedOpen? then CircuitOpen else TooManyRequests);
      }
      collector.RecordSet(layer.name, err.None?);
      r := Ok;
      if err.Some? {
        if weather.RejectedOpen? {
          collector.RecordError(layer.name, "circuit_breaker_open");
          r := Err(CircuitOpen);
        } else if weather.deadlineExceeded {
          collector.RecordError(layer.name, "timeout");
          r := Err(Timeout);
        } else {
          collector.RecordError(layer.name, Classify(err.value));
          r := Err(err.value);
        }
      }
      UnfoldReplay(before, SetRecords(layer.name, weather));
    }

    method Delete(key: Key, weather: Weather) returns (r: Outcome)
      modifies collector, layer
      ensures r == WriteOutcome(weather)
      ensures layer.contents == if WriteApplies(weather) then old(layer.contents) - {key} else old(layer.contents)
      ensures collector.View() == Replay(old(collector.View()), DeleteRecords(layer.name, weather))
    {
      ghost var before := collector.View();
      var err: Option<Error> := None;
      if weather.Runs? {
        var outcome := layer.Delete(key, weather.fault, weather.tookEffect);
        if outcome.Err? {
          err := Some(outcome.error);
        }
      } else {
        err := Some(if weather.RejectedOpen? then CircuitOpen else TooManyRequests);
      }
      collector.RecordDelete(layer.name, err.None?);
      r := Ok;
      if err.Some? {
        if weather.RejectedOpen? {
          collector.RecordError(layer.name, "circuit_breaker_open");
          r := Err(CircuitOpen);
        } else if weather.deadlineExceeded {
          collector.RecordError(layer.name, "timeout");
          r := Err(Timeout);
        } else {
          collector.RecordError(layer.name, Classify(err.value));
          r := Err(err.value);
        }
      }
      UnfoldReplay(before, DeleteRecords(layer.name, weather));
    }
  }

  /** Replaying one or two records, written out. */
  lemma UnfoldReplay(s: Snapshot, log: seq<Record>)
    requires 1 <= |log| <= 2
    ensures Replay(s, log) == if |log| == 1 then Apply(s, log[0]) else Apply(Apply(s, log[0]), log[1])
  {
    assert Replay(s, log) == Replay(Apply(s, log[0]), log[1..]);
    if |log| == 2 {
      assert log[1..][1..] == [];
    }
  }

  /** What a read answers in each circumstance: the layer's value or its own miss; the open
      breaker's error; an empty success when it was rejected as one too many; a timeout for a
      failure past the deadline, and otherwise the layer's own error. */
  lemma GetAnswerMeans(contents: map<Key, Item>, key: Key, weather: Weather)
    ensures
      var r := GetAnswer(contents, key, weather);
      && (r.Hit? <==> weather.RejectedTooMany? || (weather.Runs? && weather.fault.None? && key in contents))
      && (weather.RejectedTooMany? ==> r == Hit(Nil))
      && (weather.RejectedOpen? ==> r == Failed(CircuitOpen))
      && (r.Hit? && !weather.RejectedTooMany? ==> r.value == contents[key].value)
      && (r == Failed(NotFound) <==>
            weather.Runs? && (weather.fault == Some(NotFound) || (weather.fault.None? && key !in contents)))
      && (weather.Runs? && weather.fault.Some? && weather.fault.value != NotFound ==>
            r == Failed(if weather.deadlineExceeded then Timeout else weather.fault.value))
  {
  }

  /** What a write or a removal answers in each circumstance, and when it takes effect. */
  lemma WriteOutcomeMeans(weather: Weather)
    ensures WriteOutcome(weather) == Ok <==> weather.Runs? && weather.fault.None?
    ensures weather.RejectedOpen? ==> WriteOutcome(weather) == Err(CircuitOpen)
    ensures !WriteOutcome(weather).Ok? && !weather.RejectedOpen? ==>
      WriteOutcome(weather) ==
        if weather.deadlineExceeded then Err(Timeout)
        else if weather.Runs? then Err(weather.fault.value)
        else Err(TooManyRequests)
    ensures WriteApplies(weather) <==> weather.Runs? && (weather.fault.None? || weather.tookEffect)
  {
  }

  /** What the collector counts for a read: one hit or one miss, a hit whenever the wrapped layer
      reported no error, be it that it was never asked; and one error unless it was a hit or a
      miss of the layer's own, or a rejection as one too many. */
  lemma GetIsCounted(s: Snapshot, name: string, contents: map<Key, Item>, key: Key, weather: Weather)
    ensures
      var before, after := LayerOf(s, name), LayerOf(Replay(s, GetRecords(name, contents, key, weather)), name);
      var asked := weather.Runs?;
      var found := asked && weather.fault.None? && key in contents;
      var failed := asked && weather.fault.Some? && weather.fault.value != NotFound;
      && after.hits == before.hits + (if found || !asked then 1 else 0)
      && after.misses == before.misses + (if found || !asked then 0 else 1)
      && after.errors == before.errors + (if failed || weather.RejectedOpen? then 1 else 0)
      && after.sets == before.sets && after.deletes == before.deletes
  {
    UnfoldReplay(s, GetRecords(name, contents, key, weather));
  }

  /** What it counts for a Set: one Set, and for a failure two errors. */
  lemma SetIsCounted(s: Snapshot, name: string, weather: Weather)
    ensures
      var before, after := LayerOf(s, name), LayerOf(Replay(s, SetRecords(name, weather)), name);
      && after.sets == before.sets + 1 && after.deletes == before.deletes
      && after.errors == before.errors + (if WriteOutcome(weather).Ok? then 0 else 2)
      && after.hits == before.hits && after.misses == before.misses
  {
    UnfoldReplay(s, SetRecords(name, weather));
  }

  /** And for a Delete: one Delete, and for a failure two errors. */
  lemma DeleteIsCounted(s: Snapshot, name: string, weather: Weather)
    ensures
      var before, after := LayerOf(s, name), LayerOf(Replay(s, DeleteRecords(name, weather)), name);
      && after.deletes == before.deletes + 1 && after.sets == before.sets
      && after.errors == before.errors + (if WriteOutcome(weather).Ok? then 0 else 2)
      && after.hits == before.hits && after.misses == before.misses
  {
    UnfoldReplay(s, DeleteRecords(name, weather));
  }

  /** The type under which a failed call's error is recorded: the breaker's, the deadline's, or the
      layer's own error's. */
  lemma ErrorsAreTyped(s: Snapshot, name: string, contents: map<Key, Item>, key: Key, weather: Weather)
    requires weather.RejectedOpen? || (weather.Runs? && weather.fault.Some? && weather.fault.value != NotFound)
    ensures
      var kind :=
        if weather.RejectedOpen? then "circuit_breaker_open"
        else if weather.deadlineExceeded then "timeout"
        else Classify(weather.fault.value);
      && ErrorsOf(Replay(s, GetRecords(name, contents, key, weather)), name, kind) == ErrorsOf(s, name, kind) + 1
      && ErrorsOf(Replay(s, SetRecords(name, weather)), name, kind) == ErrorsOf(s, name, kind) + 1
      && ErrorsOf(Replay(s, DeleteRecords(name, weather)), name, kind) == ErrorsOf(s, name, kind) + 1
  {
    UnfoldReplay(s, GetRecords(name, contents, key, weather));
    UnfoldReplay(s, SetRecords(name, weather));
    UnfoldReplay(s, DeleteRecords(name, weather));
  }

  /** Every error that has a type of its own keeps it; all others share one. */
  lemma KindsAreDistinct(a: Error, b: Error)
    ensures Classify(a) == Classify(b) ==> a == b || Classify(a) == Classify(b) == "other"
    ensures Classify(Timeout) == "timeout" && Classify(CircuitOpen) == "circuit_breaker_open"
    ensures Classify(NotFound) == "key_not_found" && Classify(Unavailable) == "unavailable"
    ensures Classify(InvalidKey) == "invalid_key" && Classify(InvalidValue) == "invalid_value"
  {
    var kinds := ["circuit_breaker_open", "timeout", "key_not_found", "unavailable", "invalid_key", "invalid_value", "other"];
    assert |kinds[0]| == 20 && |kinds[1]| == 7 && |kinds[2]| == 13 && |kinds[3]| == 11 && |kinds[4]| == 11
        && |kinds[5]| == 13 && |kinds[6]| == 5;
    assert kinds[2][0] != kinds[5][0] && kinds[3][0] != kinds[4][0];
  }
}
