/** How the chain's counters and the layers' counters hang together, for any number of reads
    whose records reach the collector in any interleaving, among records of other operations. */
module Accounting {
  import opened CacheTypes
  import opened Sums
  import opened Metrics
  import opened Resilience
  import opened ChainCalls

  /** One uncancelled read: what every layer held and what happened to every layer call. */
  datatype Read = Read(contents: seq<Contents>, key: Key, weathers: seq<Weather>)

  predicate Distinct(names: seq<string>) {
    forall i, j :: 0 <= i < j < |names| ==> names[i] != names[j]
  }

  predicate FitsAll(names: seq<string>, gets: seq<Read>) {
    forall r :: 0 <= r < |gets| ==> Fits(View(names, gets[r].contents), gets[r].weathers)
  }

  function RecordsOf(names: seq<string>, read: Read): seq<Record>
    requires Fits(View(names, read.contents), read.weathers)
  {
    ChainGetRecords(View(names, read.contents), read.key, read.weathers, |read.weathers|)
  }

  function AllRecords(names: seq<string>, gets: seq<Read>): seq<Record>
    requires FitsAll(names, gets)
  {
    if gets == [] then [] else RecordsOf(names, gets[0]) + AllRecords(names, gets[1..])
  }

  /** The read reached layer i and the open breaker there rejected it. */
  function OpenRejection(names: seq<string>, read: Read, i: nat): nat
    requires Fits(View(names, read.contents), read.weathers) && i < |names|
  {
    if i < FirstHit(View(names, read.contents), read.key, read.weathers, 0) && read.weathers[i].RejectedOpen?
    then 1 else 0
  }

  function OpenRejections(names: seq<string>, gets: seq<Read>, i: nat): nat
    requires FitsAll(names, gets) && i < |names|
  {
    if gets == [] then 0
    else OpenRejection(names, gets[0], i) + OpenRejections(names, gets[1..], i)
  }

  /** The collector records layer i's part of the read as a hit. */
  predicate RecordedHit(view: View, key: Key, weathers: seq<Weather>, i: nat)
    requires Fits(view, weathers) && i < |weathers|
  {
    weathers[i].RejectedOpen? || AnswerAt(view, key, weathers, i).Hit?
  }

  function OneIf(b: bool): nat { if b then 1 else 0 }

  /** What layer j's call adds to one of layer i's counters. */
  function ProbePart(view: View, key: Key, weathers: seq<Weather>, j: nat, i: nat, hit: bool): nat
    requires Fits(view, weathers) && j < |weathers| && i < |weathers|
  {
    Sum(GetRecords(view.names[j], view.contents[j], key, weathers[j]), ReadWeight(view.names[i], hit))
  }

  lemma {:induction false} ProbeLayerSum(view: View, key: Key, weathers: seq<Weather>, n: nat, i: nat, hit: bool)
    requires Fits(view, weathers) && n <= |weathers| && i < |weathers|
    requires forall j :: 0 <= j < n && j != i ==> ProbePart(view, key, weathers, j, i, hit) == 0
    ensures Sum(ProbeRecords(view, key, weathers, n), ReadWeight(view.names[i], hit))
         == if i < n then ProbePart(view, key, weathers, i, i, hit) else 0
    decreases n
  {
    if n > 0 {
      ProbeLayerSum(view, key, weathers, n - 1, i, hit);
      SumAppend(ProbeRecords(view, key, weathers, n - 1),
                GetRecords(view.names[n - 1], view.contents[n - 1], key, weathers[n - 1]),
                ReadWeight(view.names[i], hit));
      assert n - 1 != i ==> ProbePart(view, key, weathers, n - 1, i, hit) == 0;
    }
  }

  lemma OneProbePart(view: View, key: Key, weathers: seq<Weather>, j: nat, i: nat, hit: bool)
    requires Fits(view, weathers) && j < |weathers| && i < |weathers|
    requires view.names[i] == view.names[j] <==> i == j
    ensures ProbePart(view, key, weathers, j, i, hit)
         == OneIf(i == j && RecordedHit(view, key, weathers, i) == hit)
  {
    ShortSum(GetRecords(view.names[j], view.contents[j], key, weathers[j]), ReadWeight(view.names[i], hit));
  }

  /** The first n calls of a read add to layer i's counter exactly layer i's own part. */
  lemma ProbesAddOwnPart(view: View, key: Key, weathers: seq<Weather>, n: nat, i: nat, hit: bool)
    requires Fits(view, weathers) && n <= |weathers| && i < |weathers| && Distinct(view.names)
    ensures Sum(ProbeRecords(view, key, weathers, n), ReadWeight(view.names[i], hit))
         == OneIf(i < n && RecordedHit(view, key, weathers, i) == hit)
  {
    forall j | 0 <= j < n && j != i
      ensures ProbePart(view, key, weathers, j, i, hit) == 0
    {
      OneProbePart(view, key, weathers, j, i, hit);
    }
    OneProbePart(view, key, weathers, i, i, hit);
    ProbeLayerSum(view, key, weathers, n, i, hit);
  }

  predicate NoChainRecords(log: seq<Record>) {
    forall r :: 0 <= r < |log| ==> !log[r].ChainGetRecord?
  }

  lemma {:induction false} ProbesAreLayerRecords(view: View, key: Key, weathers: seq<Weather>, n: nat)
    requires Fits(view, weathers) && n <= |weathers|
    ensures NoChainRecords(ProbeRecords(view, key, weathers, n))
    decreases n
  {
    if n > 0 {
      ProbesAreLayerRecords(view, key, weathers, n - 1);
      OneProbeIsLayerRecords(view.names[n - 1], view.contents[n - 1], key, weathers[n - 1]);
    }
  }

  lemma OneProbeIsLayerRecords(name: string, contents: Contents, key: Key, weather: Weather)
    ensures NoChainRecords(GetRecords(name, contents, key, weather))
  {
  }

  lemma NoChainSums(log: seq<Record>, k: nat)
    requires NoChainRecords(log)
    ensures Sum(log, ChainHitWeight) == Sum(log, ChainMissWeight) == 0
    ensures Sum(log, HitAtWeight(k)) == Sum(log, HitBelowWeight(k)) == 0
  {
    assert forall r :: 0 <= r < |log| ==> ChainHitWeight(log[r]) == ChainMissWeight(log[r]) == 0;
    SumZero(log, ChainHitWeight);
    SumZero(log, ChainMissWeight);
    SumZero(log, HitAtWeight(k));
    SumZero(log, HitBelowWeight(k));
  }

  lemma ShortSum(log: seq<Record>, weight: Record -> nat)
    requires 1 <= |log| <= 2
    ensures Sum(log, weight) == weight(log[0]) + if |log| == 2 then weight(log[1]) else 0
  {
    if |log| == 2 {
      assert log[1..][1..] == [];
    }
  }

  /** How many layers a read asks. */
  function Asked(names: seq<string>, read: Read): (n: nat)
    requires Fits(View(names, read.contents), read.weathers)
    ensures n <= |names|
  {
    var h := FirstHit(View(names, read.contents), read.key, read.weathers, 0);
    if h < |names| then h + 1 else h
  }

  /** The chain's own record of a read. */
  function LastRecord(names: seq<string>, read: Read): Record
    requires Fits(View(names, read.contents), read.weathers)
  {
    var h := FirstHit(View(names, read.contents), read.key, read.weathers, 0);
    if h < |names| then ChainGetRecord(true, h) else ChainGetRecord(false, 0)
  }

  function ProbesOf(names: seq<string>, read: Read): seq<Record>
    requires Fits(View(names, read.contents), read.weathers)
  {
    ProbeRecords(View(names, read.contents), read.key, read.weathers, Asked(names, read))
  }

  lemma RecordsAreProbesThenChain(names: seq<string>, read: Read)
    requires Fits(View(names, read.contents), read.weathers)
    ensures RecordsOf(names, read) == ProbesOf(names, read) + [LastRecord(names, read)]
  {
  }

  /** What one read adds to layer i's counters. */
  lemma OneReadLayerSum(names: seq<string>, read: Read, i: nat, hit: bool)
    requires Fits(View(names, read.contents), read.weathers) && Distinct(names) && i < |names|
    ensures Sum(RecordsOf(names, read), ReadWeight(names[i], hit))
         == OneIf(i < Asked(names, read) && RecordedHit(View(names, read.contents), read.key, read.weathers, i) == hit)
  {
    RecordsAreProbesThenChain(names, read);
    ProbesAddOwnPart(View(names, read.contents), read.key, read.weathers, Asked(names, read), i, hit);
    SumPush(ProbesOf(names, read), LastRecord(names, read), ReadWeight(names[i], hit));
  }

  /** What one read adds to the chain's counters. */
  lemma OneReadChainSums(names: seq<string>, read: Read, k: nat)
    requires Fits(View(names, read.contents), read.weathers)
    ensures
      var log := RecordsOf(names, read);
      var h := FirstHit(View(names, read.contents), read.key, read.weathers, 0);
      && Sum(log, ChainHitWeight) == OneIf(h < |names|)
      && Sum(log, ChainMissWeight) == OneIf(h == |names|)
      && Sum(log, HitAtWeight(k)) == OneIf(h < |names| && h == k)
      && Sum(log, HitBelowWeight(k)) == OneIf(h < |names| && h < k)
  {
    var probes, last := ProbesOf(names, read), LastRecord(names, read);
    RecordsAreProbesThenChain(names, read);
    ProbesAreLayerRecords(View(names, read.contents), read.key, read.weathers, Asked(names, read));
    NoChainSums(probes, k);
    SumPush(probes, last, ChainHitWeight);
    SumPush(probes, last, ChainMissWeight);
    SumPush(probes, last, HitAtWeight(k));
    SumPush(probes, last, HitBelowWeight(k));
  }

  /** The laws for the records of one read. */
  lemma OneReadBalances(names: seq<string>, read: Read, i: nat)
    requires Fits(View(names, read.contents), read.weathers) && Distinct(names) && i < |names|
    ensures
      var log := RecordsOf(names, read);
      && Sum(log, ReadWeight(names[i], true)) + Sum(log, ReadWeight(names[i], false)) + Sum(log, HitBelowWeight(i))
           == Sum(log, ChainHitWeight) + Sum(log, ChainMissWeight)
      && Sum(log, ReadWeight(names[i], true)) == Sum(log, HitAtWeight(i)) + OpenRejection(names, read, i)
      && Sum(log, HitBelowWeight(|names|)) == Sum(log, ChainHitWeight)
  {
    var view := View(names, read.contents);
    OneReadLayerSum(names, read, i, true);
    OneReadLayerSum(names, read, i, false);
    OneReadChainSums(names, read, i);
    OneReadChainSums(names, read, |names|);
    assert i < FirstHit(view, read.key, read.weathers, 0) ==> AnswerAt(view, read.key, read.weathers, i).Failed?;
  }

  /** The laws for the records of any number of reads, one after the other. */
  lemma {:induction false} ReadsBalance(names: seq<string>, gets: seq<Read>, i: nat)
    requires FitsAll(names, gets) && Distinct(names) && i < |names|
    ensures
      var log := AllRecords(names, gets);
      && Sum(log, ReadWeight(names[i], true)) + Sum(log, ReadWeight(names[i], false)) + Sum(log, HitBelowWeight(i))
           == Sum(log, ChainHitWeight) + Sum(log, ChainMissWeight)
      && Sum(log, ReadWeight(names[i], true)) == Sum(log, HitAtWeight(i)) + OpenRejections(names, gets, i)
      && Sum(log, HitBelowWeight(|names|)) == Sum(log, ChainHitWeight)
  {
    if gets != [] {
      var head, rest := RecordsOf(names, gets[0]), AllRecords(names, gets[1..]);
      OneReadBalances(names, gets[0], i);
      ReadsBalance(names, gets[1..], i);
      SumAppend(head, rest, ReadWeight(names[i], true));
      SumAppend(head, rest, ReadWeight(names[i], false));
      SumAppend(head, rest, ChainHitWeight);
      SumAppend(head, rest, ChainMissWeight);
      SumAppend(head, rest, HitAtWeight(i));
      SumAppend(head, rest, HitBelowWeight(i));
      SumAppend(head, rest, HitBelowWeight(|names|));
    }
  }

  /** Records of other operations, which count neither layer reads nor chain reads. */
  predicate NoReads(others: seq<Record>) {
    forall r :: 0 <= r < |others| ==> !others[r].GetRecord? && !others[r].ChainGetRecord?
  }

  lemma SameAsReads(names: seq<string>, gets: seq<Read>, others: seq<Record>, log: seq<Record>, weight: Record -> nat)
    requires FitsAll(names, gets) && multiset(log) == multiset(AllRecords(names, gets) + others)
    requires forall r :: 0 <= r < |others| ==> weight(others[r]) == 0
    ensures Sum(log, weight) == Sum(AllRecords(names, gets), weight)
  {
    SumPermutation(log, AllRecords(names, gets) + others, weight);
    SumAppend(AllRecords(names, gets), others, weight);
    SumZero(others, weight);
  }

  /** The collector after any log that interleaves, record by record, the records of uncancelled
      reads over distinctly named layers with records of other operations. For every layer i:
      its reads are the chain's reads minus those answered above it; its recorded hits are the
      chain's hits there plus the reads that its open breaker rejected; and the hits by layer
      add up to the chain's hits. */
  lemma ChainAndLayersAgree(names: seq<string>, gets: seq<Read>, others: seq<Record>, log: seq<Record>, i: nat)
    requires FitsAll(names, gets) && Distinct(names) && NoReads(others) && i < |names|
    requires multiset(log) == multiset(AllRecords(names, gets) + others)
    ensures
      var s := Replay(EMPTY, log);
      var lm := LayerOf(s, names[i]);
      && lm.hits + lm.misses + HitsBelow(s, i) == s.chainHits + s.chainMisses
      && lm.hits == HitsAt(s, i) + OpenRejections(names, gets, i)
      && HitsBelow(s, |names|) == s.chainHits
  {
    ReadsBalance(names, gets, i);
    HitsBelowEmpty(i);
    HitsBelowEmpty(|names|);
    LayerCountersCount(EMPTY, log, names[i]);
    ChainCountersCount(EMPTY, log, i);
    ChainCountersCount(EMPTY, log, |names|);
    SameAsReads(names, gets, others, log, ReadWeight(names[i], true));
    SameAsReads(names, gets, others, log, ReadWeight(names[i], false));
    SameAsReads(names, gets, others, log, ChainHitWeight);
    SameAsReads(names, gets, others, log, ChainMissWeight);
    SameAsReads(names, gets, others, log, HitAtWeight(i));
    SameAsReads(names, gets, others, log, HitBelowWeight(i));
    SameAsReads(names, gets, others, log, HitBelowWeight(|names|));
  }

  lemma {:induction false} HitsBelowEmpty(i: nat)
    ensures HitsBelow(EMPTY, i) == 0
  {
    if i > 0 {
      HitsBelowEmpty(i - 1);
    }
  }

  /** A layer's recorded hits are the chain hits it answered if and only if no read was rejected
      by its open breaker. */
  lemma HitsAreExactIff(names: seq<string>, gets: seq<Read>, others: seq<Record>, log: seq<Record>, i: nat)
    requires FitsAll(names, gets) && Distinct(names) && NoReads(others) && i < |names|
    requires multiset(log) == multiset(AllRecords(names, gets) + others)
    ensures LayerOf(Replay(EMPTY, log), names[i]).hits == HitsAt(Replay(EMPTY, log), i)
            <==> forall r :: 0 <= r < |gets| ==> OpenRejection(names, gets[r], i) == 0
  {
    ChainAndLayersAgree(names, gets, others, log, i);
    NoRejectionsIff(names, gets, i);
  }

  lemma {:induction false} NoRejectionsIff(names: seq<string>, gets: seq<Read>, i: nat)
    requires FitsAll(names, gets) && i < |names|
    ensures OpenRejections(names, gets, i) == 0
            <==> forall r :: 0 <= r < |gets| ==> OpenRejection(names, gets[r], i) == 0
  {
    if gets != [] {
      NoRejectionsIff(names, gets[1..], i);
      assert gets == [gets[0]] + gets[1..];
    }
  }
}
