/** The in-memory metrics collector: each record call is one locked region, so any concurrent
    use of the collector is some sequence of records, replayed here on values. */
module Metrics {
  import opened Sums

  datatype Record =
    | GetRecord(layer: string, hit: bool)
    | SetRecord(layer: string, success: bool)
    | DeleteRecord(layer: string, success: bool)
    | ErrorRecord(layer: string, kind: string)
    | ChainGetRecord(hit: bool, layerIndex: nat)

  datatype LayerMetrics = LayerMetrics(
    hits: nat,
    misses: nat,
    sets: nat,
    deletes: nat,
    errors: nat,
    errorsByType: map<string, nat>)

  datatype Snapshot = Snapshot(
    layers: map<string, LayerMetrics>,
    chainHits: nat,
    chainMisses: nat,
    chainHitsByLayer: map<nat, nat>)

  const NO_METRICS := LayerMetrics(0, 0, 0, 0, 0, map[])

  const EMPTY := Snapshot(map[], 0, 0, map[])

  function LayerOf(s: Snapshot, layer: string): LayerMetrics {
    if layer in s.layers then s.layers[layer] else NO_METRICS
  }

  function HitsAt(s: Snapshot, i: nat): nat {
    if i in s.chainHitsByLayer then s.chainHitsByLayer[i] else 0
  }

  function Bump<K>(m: map<K, nat>, k: K): map<K, nat> {
    m[k := (if k in m then m[k] else 0) + 1]
  }

  function Apply(s: Snapshot, r: Record): Snapshot {
    match r
    case GetRecord(layer, hit) =>
      var lm := LayerOf(s, layer);
      s.(layers := s.layers[layer := if hit then lm.(hits := lm.hits + 1) else lm.(misses := lm.misses + 1)])
    case SetRecord(layer, success) =>
      var lm := LayerOf(s, layer);
      s.(layers := s.layers[layer := lm.(sets := lm.sets + 1, errors := lm.errors + if success then 0 else 1)])
    case DeleteRecord(layer, success) =>
      var lm := LayerOf(s, layer);
      s.(layers := s.layers[layer := lm.(deletes := lm.deletes + 1, errors := lm.errors + if success then 0 else 1)])
    case ErrorRecord(layer, kind) =>
      var lm := LayerOf(s, layer);
      s.(layers := s.layers[layer := lm.(errors := lm.errors + 1, errorsByType := Bump(lm.errorsByType, kind))])
    case ChainGetRecord(hit, i) =>
      if hit then s.(chainHits := s.chainHits + 1, chainHitsByLayer := Bump(s.chainHitsByLayer, i))
      else s.(chainMisses := s.chainMisses + 1)
  }

  function Replay(s: Snapshot, log: seq<Record>): Snapshot
    decreases |log|
  {
    if log == [] then s else Replay(Apply(s, log[0]), log[1..])
  }

  lemma {:induction false} ReplayConcat(s: Snapshot, first: seq<Record>, second: seq<Record>)
    ensures Replay(s, first + second) == Replay(Replay(s, first), second)
    decreases |first|
  {
    if first == [] {
      assert first + second == second;
    } else {
      assert (first + second)[1..] == first[1..] + second;
      ReplayConcat(Apply(s, first[0]), first[1..], second);
    }
  }

  lemma ReplayPush(s: Snapshot, log: seq<Record>, r: Record)
    ensures Replay(s, log + [r]) == Apply(Replay(s, log), r)
  {
    ReplayConcat(s, log, [r]);
    assert Replay(Apply(Replay(s, log), r), []) == Apply(Replay(s, log), r);
  }

  /** The collector, mutated record by record. */
  class MemoryCollector {
    var layerMetrics: map<string, LayerMetrics>
    var chainHits: nat
    var chainMisses: nat
    var chainHitsByLayer: map<nat, nat>

    function View(): Snapshot
      reads this
    {
      Snapshot(layerMetrics, chainHits, chainMisses, chainHitsByLayer)
    }

    constructor ()
      ensures View() == EMPTY
    {
      layerMetrics, chainHits, chainMisses, chainHitsByLayer := map[], 0, 0, map[];
    }

    method GetOrCreateLayer(layer: string) returns (lm: LayerMetrics)
      modifies this`layerMetrics
      ensures lm == LayerOf(old(View()), layer)
      ensures layerMetrics == old(layerMetrics)[layer := lm]
    {
      if layer !in layerMetrics {
        layerMetrics := layerMetrics[layer := LayerMetrics(0, 0, 0, 0, 0, map[])];
      }
      lm := layerMetrics[layer];
    }

    method RecordGet(layer: string, hit: bool)
      modifies this
      ensures View() == Apply(old(View()), GetRecord(layer, hit))
    {
      var lm := GetOrCreateLayer(layer);
      if hit {
        lm := lm.(hits := lm.hits + 1);
      } else {
        lm := lm.(misses := lm.misses + 1);
      }
      layerMetrics := layerMetrics[layer := lm];
    }

    method RecordSet(layer: string, success: bool)
      modifies this
      ensures View() == Apply(old(View()), SetRecord(layer, success))
    {
      var lm := GetOrCreateLayer(layer);
      lm := lm.(sets := lm.sets + 1);
      if !success {
        lm := lm.(errors := lm.errors + 1);
      }
      layerMetrics := layerMetrics[layer := lm];
    }

    method RecordDelete(layer: string, success: bool)
      modifies this
      ensures View() == Apply(old(View()), DeleteRecord(layer, success))
    {
      var lm := GetOrCreateLayer(layer);
      lm := lm.(deletes := lm.deletes + 1);
      if !success {
        lm := lm.(errors := lm.errors + 1);
      }
      layerMetrics := layerMetrics[layer := lm];
    }

    method RecordError(layer: string, kind: string)
      modifies this
      ensures View() == Apply(old(View()), ErrorRecord(layer, kind))
    {
      var lm := GetOrCreateLayer(layer);
      var count := if kind in lm.errorsByType then lm.errorsByType[kind] else 0;
      lm := lm.(errors := lm.errors + 1, errorsByType := lm.errorsByType[kind := count + 1]);
      layerMetrics := layerMetrics[layer := lm];
    }

    method RecordChainGet(hit: bool, layerIndex: nat)
      modifies this
      ensures View() == Apply(old(View()), ChainGetRecord(hit, layerIndex))
    {
      if hit {
        chainHits := chainHits + 1;
        var count := if layerIndex in chainHitsByLayer then chainHitsByLayer[layerIndex] else 0;
        chainHitsByLayer := chainHitsByLayer[layerIndex := count + 1];
      } else {
        chainMisses := chainMisses + 1;
      }
    }
  }

  // ---------------------------------------------------------------------------------------
  // Every counter is a count of records
  // ---------------------------------------------------------------------------------------

  function ReadWeight(layer: string, hit: bool): Record -> nat {
    (r: Record) => if r == GetRecord(layer, hit) then 1 else 0
  }
  function ErrorWeight(layer: string): Record -> nat {
    (r: Record) => if r.ErrorRecord? && r.layer == layer then 1 else 0
  }
  function FailedWriteWeight(layer: string): Record -> nat {
    (r: Record) => if (r.SetRecord? || r.DeleteRecord?) && r.layer == layer && !r.success then 1 else 0
  }
  function ChainHitWeight(r: Record): nat { if r.ChainGetRecord? && r.hit then 1 else 0 }
  function ChainMissWeight(r: Record): nat { if r.ChainGetRecord? && !r.hit then 1 else 0 }
  function HitAtWeight(i: nat): Record -> nat {
    (r: Record) => if r == ChainGetRecord(true, i) then 1 else 0
  }
  function HitBelowWeight(i: nat): Record -> nat {
    (r: Record) => if r.ChainGetRecord? && r.hit && r.layerIndex < i then 1 else 0
  }

  /** The chain hits answered by the first i layers. */
  function HitsBelow(s: Snapshot, i: nat): nat {
    if i == 0 then 0 else HitsBelow(s, i - 1) + HitsAt(s, i - 1)
  }

  lemma {:induction false} HitsBelowGrows(s: Snapshot, r: Record, i: nat)
    ensures HitsBelow(Apply(s, r), i) == HitsBelow(s, i) + HitBelowWeight(i)(r)
  {
    if i > 0 {
      HitsBelowGrows(s, r, i - 1);
    }
  }

  /** The read counters of a layer after a replayed log, starting from any snapshot. */
  lemma {:induction false} LayerCountersCount(s: Snapshot, log: seq<Record>, layer: string)
    ensures
      var t := Replay(s, log);
      && LayerOf(t, layer).hits == LayerOf(s, layer).hits + Sum(log, ReadWeight(layer, true))
      && LayerOf(t, layer).misses == LayerOf(s, layer).misses + Sum(log, ReadWeight(layer, false))
    decreases |log|
  {
    if log != [] {
      LayerCountersCount(Apply(s, log[0]), log[1..], layer);
    }
  }

  function SetWeight(layer: string): Record -> nat {
    (r: Record) => if r.SetRecord? && r.layer == layer then 1 else 0
  }
  function DeleteWeight(layer: string): Record -> nat {
    (r: Record) => if r.DeleteRecord? && r.layer == layer then 1 else 0
  }
  function KindWeight(layer: string, kind: string): Record -> nat {
    (r: Record) => if r == ErrorRecord(layer, kind) then 1 else 0
  }

  function ErrorsOf(s: Snapshot, layer: string, kind: string): nat {
    var byType := LayerOf(s, layer).errorsByType;
    if kind in byType then byType[kind] else 0
  }

  /** The write counters of a layer after a replayed log, starting from any snapshot. */
  lemma {:induction false} LayerWritesCount(s: Snapshot, log: seq<Record>, layer: string)
    ensures
      var t := Replay(s, log);
      && LayerOf(t, layer).sets == LayerOf(s, layer).sets + Sum(log, SetWeight(layer))
      && LayerOf(t, layer).deletes == LayerOf(s, layer).deletes + Sum(log, DeleteWeight(layer))
    decreases |log|
  {
    if log != [] {
      LayerWritesCount(Apply(s, log[0]), log[1..], layer);
    }
  }

  /** The errors of each type after a replayed log, starting from any snapshot. */
  lemma {:induction false} ErrorKindsCount(s: Snapshot, log: seq<Record>, layer: string, kind: string)
    ensures ErrorsOf(Replay(s, log), layer, kind) == ErrorsOf(s, layer, kind) + Sum(log, KindWeight(layer, kind))
    decreases |log|
  {
    if log != [] {
      ErrorKindsCount(Apply(s, log[0]), log[1..], layer, kind);
    }
  }

  /** The chain's counters after a replayed log, starting from any snapshot. */
  lemma {:induction false} ChainCountersCount(s: Snapshot, log: seq<Record>, i: nat)
    ensures
      var t := Replay(s, log);
      && t.chainHits == s.chainHits + Sum(log, ChainHitWeight)
      && t.chainMisses == s.chainMisses + Sum(log, ChainMissWeight)
      && HitsAt(t, i) == HitsAt(s, i) + Sum(log, HitAtWeight(i))
      && HitsBelow(t, i) == HitsBelow(s, i) + Sum(log, HitBelowWeight(i))
    decreases |log|
  {
    if log != [] {
      HitsBelowGrows(s, log[0], i);
      ChainCountersCount(Apply(s, log[0]), log[1..], i);
    }
  }

  /** The sum of the values of a map. */
  ghost function Total(m: map<string, nat>): nat {
    if m == map[] then 0
    else
      var k :| k in m;
      m[k] + Total(m - {k})
  }

  lemma {:induction false} TotalWithout(m: map<string, nat>, k: string)
    requires k in m
    ensures Total(m) == m[k] + Total(m - {k})
    decreases |m|
  {
    var j :| j in m && Total(m) == m[j] + Total(m - {j});
    if j != k {
      assert (m - {j}) - {k} == (m - {k}) - {j};
      assert (m - {j}).Keys == m.Keys - {j} && (m - {k}).Keys == m.Keys - {k};
      TotalWithout(m - {j}, k);
      TotalWithout(m - {k}, j);
    }
  }

  lemma TotalBump(m: map<string, nat>, k: string)
    ensures Total(Bump(m, k)) == Total(m) + 1
  {
    TotalWithout(Bump(m, k), k);
    assert Bump(m, k) - {k} == m - {k};
    if k in m {
      TotalWithout(m, k);
    } else {
      assert m - {k} == m;
    }
  }

  /** For any sequence of records whatsoever: a layer's error count is the sum of its errors by
      type plus its failed Sets and Deletes. A failed write that is also recorded by type is
      therefore counted twice. */
  lemma {:induction false} ErrorsAreTypedPlusFailedWrites(s: Snapshot, log: seq<Record>, layer: string)
    ensures
      var before, after := LayerOf(s, layer), LayerOf(Replay(s, log), layer);
      && after.errors + Total(before.errorsByType)
           == before.errors + Total(after.errorsByType) + Sum(log, FailedWriteWeight(layer))
      && Total(after.errorsByType) == Total(before.errorsByType) + Sum(log, ErrorWeight(layer))
    decreases |log|
  {
    if log != [] {
      OneRecordErrors(s, log[0], layer);
      ErrorsAreTypedPlusFailedWrites(Apply(s, log[0]), log[1..], layer);
    }
  }

  lemma OneRecordErrors(s: Snapshot, r: Record, layer: string)
    ensures
      var before, after := LayerOf(s, layer), LayerOf(Apply(s, r), layer);
      && after.errors == before.errors + ErrorWeight(layer)(r) + FailedWriteWeight(layer)(r)
      && Total(after.errorsByType) == Total(before.errorsByType) + ErrorWeight(layer)(r)
  {
    if r.ErrorRecord? && r.layer == layer {
      TotalBump(LayerOf(s, layer).errorsByType, r.kind);
    }
  }
}
