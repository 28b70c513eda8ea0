/**
 The traffic sampler: cumulative per-pod counters turned into write rates, kept between passes and
 keyed by pod UID.

 Models observeSample, measure and forget of internal/controller/autoscaler.go. The lock is not
 modelled: every method is one critical section.
 */
module Sampler {
  import opened Options
  import opened Autoscaler

  const MIN_SAMPLE_MS: int := 10_000

  /** One counter reading: the cumulative total and the node's monotonic clock in milliseconds. */
  datatype Reading = Reading(total: real, ms: int)

  datatype PodSample = PodSample(total: real, ms: int, rate: real, hasRate: bool)

  /** First reading, or the counter or the clock went backwards: there is no baseline. */
  predicate Resets(prev: Option<PodSample>, r: Reading) {
    prev == None || r.total < prev.value.total || r.ms <= prev.value.ms
  }

  predicate TooSoon(prev: Option<PodSample>, r: Reading) {
    !Resets(prev, r) && r.ms - prev.value.ms < MIN_SAMPLE_MS
  }

  /** The reading yields a new rate. */
  predicate Accepts(prev: Option<PodSample>, r: Reading) {
    !Resets(prev, r) && !TooSoon(prev, r)
  }

  function Seconds(ms: int): real {
    ms as real / 1000.0
  }

  function Observe(prev: Option<PodSample>, r: Reading): PodSample {
    if Resets(prev, r) then PodSample(r.total, r.ms, 0.0, false)
    else if TooSoon(prev, r) then prev.value
    else PodSample(r.total, r.ms, (r.total - prev.value.total) / Seconds(r.ms - prev.value.ms), true)
  }

  function Lookup(samples: map<string, PodSample>, uid: string): Option<PodSample> {
    if uid in samples then Some(samples[uid]) else None
  }

  // ---------- conservation ----------

  /** The pod's sample after a history of readings. */
  function SampleAfter(rs: seq<Reading>): Option<PodSample> {
    if rs == [] then None else Some(Observe(SampleAfter(rs[..|rs| - 1]), rs[|rs| - 1]))
  }

  /** The reading of the last reset: where the present baseline began. */
  function LastReset(rs: seq<Reading>): Reading
    requires rs != []
  {
    var rest, r := rs[..|rs| - 1], rs[|rs| - 1];
    if Resets(SampleAfter(rest), r) then r else LastReset(rest)
  }

  /** The accepted rates since the last reset, each times its interval. */
  function WritesAccounted(rs: seq<Reading>): real {
    if rs == [] then 0.0
    else
      var prev, r := SampleAfter(rs[..|rs| - 1]), rs[|rs| - 1];
      if Resets(prev, r) then 0.0
      else if TooSoon(prev, r) then WritesAccounted(rs[..|rs| - 1])
      else WritesAccounted(rs[..|rs| - 1]) + Observe(prev, r).rate * Seconds(r.ms - prev.value.ms)
  }

  /** The accepted intervals since the last reset, and how many there were. */
  function MsAccounted(rs: seq<Reading>): int {
    if rs == [] then 0
    else
      var prev, r := SampleAfter(rs[..|rs| - 1]), rs[|rs| - 1];
      if Resets(prev, r) then 0
      else if TooSoon(prev, r) then MsAccounted(rs[..|rs| - 1])
      else MsAccounted(rs[..|rs| - 1]) + (r.ms - prev.value.ms)
  }

  function RatesAccepted(rs: seq<Reading>): nat {
    if rs == [] then 0
    else
      var prev, r := SampleAfter(rs[..|rs| - 1]), rs[|rs| - 1];
      if Resets(prev, r) then 0
      else if TooSoon(prev, r) then RatesAccepted(rs[..|rs| - 1])
      else RatesAccepted(rs[..|rs| - 1]) + 1
  }

  lemma RateTimesInterval(growth: real, seconds: real)
    requires seconds > 0.0
    ensures growth / seconds * seconds == growth
  {
  }

  lemma RateSign(growth: real, seconds: real)
    requires seconds > 0.0 && growth >= 0.0
    ensures growth / seconds >= 0.0
  {
  }

  /**
   No write is lost and none invented: since the pod's last reset, the accepted rates times their
   intervals add up to exactly the counter's growth, over exactly the clock time between the two
   readings. Every rate is at least zero, there is one as soon as one was accepted, and each
   accepted interval is at least the minimum.
   */
  lemma {:induction false} RatesConserveWrites(rs: seq<Reading>)
    requires rs != []
    ensures var s := SampleAfter(rs).value;
            && WritesAccounted(rs) == s.total - LastReset(rs).total
            && MsAccounted(rs) == s.ms - LastReset(rs).ms
            && MsAccounted(rs) >= RatesAccepted(rs) * MIN_SAMPLE_MS
            && (s.hasRate <==> RatesAccepted(rs) > 0)
            && s.rate >= 0.0
  {
    var rest, r := rs[..|rs| - 1], rs[|rs| - 1];
    var prev := SampleAfter(rest);
    if !Resets(prev, r) {
      RatesConserveWrites(rest);
      if Accepts(prev, r) {
        var growth, seconds := r.total - prev.value.total, Seconds(r.ms - prev.value.ms);
        RateTimesInterval(growth, seconds);
        RateSign(growth, seconds);
      }
    }
  }

  /** Counter and clock both only move forward, by the minimum interval at least. */
  predicate Steady(rs: seq<Reading>) {
    forall k :: 0 < k < |rs| ==> rs[k].total >= rs[k - 1].total && rs[k].ms - rs[k - 1].ms >= MIN_SAMPLE_MS
  }

  lemma {:induction false} SteadyIsKept(rs: seq<Reading>)
    requires Steady(rs) && rs != []
    ensures var s, r := SampleAfter(rs).value, rs[|rs| - 1];
            s.total == r.total && s.ms == r.ms && (s.hasRate <==> |rs| > 1)
  {
    var rest := rs[..|rs| - 1];
    if rest != [] {
      assert forall k :: 0 <= k < |rest| ==> rest[k] == rs[k];
      SteadyIsKept(rest);
    }
  }

  /**
   On steady readings, an idle node's included, every reading after the first yields the rate since
   the one before it.
   */
  lemma SteadyReadings(rs: seq<Reading>)
    requires Steady(rs) && |rs| > 1
    ensures var last, before := rs[|rs| - 1], rs[|rs| - 2];
            SampleAfter(rs)
            == Some(PodSample(last.total, last.ms, (last.total - before.total) / Seconds(last.ms - before.ms), true))
  {
    var rest := rs[..|rs| - 1];
    assert forall k :: 0 <= k < |rest| ==> rest[k] == rs[k];
    SteadyIsKept(rest);
  }

  /** After a restart under the same UID, counter or clock behind the saved ones, there is no rate. */
  lemma RestartHasNoRate(rs: seq<Reading>, r: Reading)
    requires rs != [] && (r.total < SampleAfter(rs).value.total || r.ms <= SampleAfter(rs).value.ms)
    ensures SampleAfter(rs + [r]) == Some(PodSample(r.total, r.ms, 0.0, false))
  {
    assert (rs + [r])[..|rs|] == rs;
  }

  /** A reading too soon after the baseline changes nothing. */
  lemma TooSoonChangesNothing(rs: seq<Reading>, r: Reading)
    requires rs != [] && r.total >= SampleAfter(rs).value.total
    requires 0 < r.ms - SampleAfter(rs).value.ms < MIN_SAMPLE_MS
    ensures SampleAfter(rs + [r]) == SampleAfter(rs)
  {
    assert (rs + [r])[..|rs|] == rs;
  }

  // ---------- one measurement ----------

  datatype PodView = PodView(uid: string, ip: string, deleting: bool, ready: bool)

  /** A node's answer: the write counter, the queue depth and its clock. */
  datatype Metrics = Metrics(writes: real, depth: real, ms: int)

  predicate IsReady(p: PodView) {
    p.ip != "" && !p.deleting && p.ready
  }

  function ReadyPods(pods: seq<PodView>): (ready: seq<PodView>)
    ensures forall p :: p in ready <==> p in pods && p.ip != "" && !p.deleting && p.ready
    ensures |ready| <= |pods|
  {
    if pods == [] then []
    else ReadyPods(pods[..|pods| - 1]) + if IsReady(pods[|pods| - 1]) then [pods[|pods| - 1]] else []
  }

  function Uids(pods: seq<PodView>): set<string> {
    set p | p in pods :: p.uid
  }

  function ReadingOf(m: Metrics): Reading {
    Reading(m.writes, m.ms)
  }

  predicate AllAnswer(ready: seq<PodView>, fetch: string -> Option<Metrics>) {
    forall p :: p in ready ==> fetch(p.uid).Some?
  }

  /** The samples after every ready pod's reading. */
  function ObserveAll(samples: map<string, PodSample>, ready: seq<PodView>, fetch: string -> Option<Metrics>)
    : map<string, PodSample>
    requires AllAnswer(ready, fetch)
  {
    if ready == [] then samples
    else
      var rest, p := ready[..|ready| - 1], ready[|ready| - 1];
      assert p in ready && forall q :: q in rest ==> q in ready;
      var before := ObserveAll(samples, rest, fetch);
      before[p.uid := Observe(Lookup(before, p.uid), ReadingOf(fetch(p.uid).value))]
  }

  /** The sums of a measurement: the write rates, the queue depths, and whether every rate is known. */
  datatype Sums = Sums(writes: real, queue: real, known: bool)

  function SumAll(samples: map<string, PodSample>, ready: seq<PodView>, fetch: string -> Option<Metrics>): Sums
    requires AllAnswer(ready, fetch)
  {
    if ready == [] then Sums(0.0, 0.0, true)
    else
      var rest, p := ready[..|ready| - 1], ready[|ready| - 1];
      assert p in ready && forall q :: q in rest ==> q in ready;
      var s := SumAll(samples, rest, fetch);
      var sample := Observe(Lookup(ObserveAll(samples, rest, fetch), p.uid), ReadingOf(fetch(p.uid).value));
      Sums(s.writes + sample.rate, s.queue + fetch(p.uid).value.depth, s.known && sample.hasRate)
  }

  function SignalOf(s: Sums, n: nat): Signal
    requires n > 0
  {
    Signal(if s.known then Some(s.writes / n as real) else None, Some(s.queue / n as real))
  }

  function Restrict(samples: map<string, PodSample>, uids: set<string>): map<string, PodSample> {
    map u | u in samples && u in uids :: samples[u]
  }

  function SamplesOf(clusters: map<string, map<string, PodSample>>, key: string): map<string, PodSample> {
    if key in clusters then clusters[key] else map[]
  }

  /** observeSample: one pod's reading, recorded in its cluster's samples. */
  method ObserveSample(samples: map<string, PodSample>, uid: string, r: Reading)
    returns (after: map<string, PodSample>, rate: real, ok: bool)
    ensures after == samples[uid := Observe(Lookup(samples, uid), r)]
    ensures rate == Observe(Lookup(samples, uid), r).rate && ok == Observe(Lookup(samples, uid), r).hasRate
  {
    var prev := Lookup(samples, uid);
    if prev == None || r.total < prev.value.total || r.ms <= prev.value.ms {
      return samples[uid := PodSample(r.total, r.ms, 0.0, false)], 0.0, false;
    }
    if r.ms - prev.value.ms < MIN_SAMPLE_MS {
      assert samples[uid := prev.value] == samples;
      return samples, prev.value.rate, prev.value.hasRate;
    }
    rate := (r.total - prev.value.total) / Seconds(r.ms - prev.value.ms);
    after, ok := samples[uid := PodSample(r.total, r.ms, rate, true)], true;
  }

  class TrafficSampler {
    var clusters: map<string, map<string, PodSample>>

    constructor ()
      ensures clusters == map[]
    {
      clusters := map[];
    }

    /**
     measure: nothing is recorded unless every ready pod answers; when all do, each is observed
     once, the samples kept are exactly the ready pods', and no other cluster is touched.
     */
    method Measure(key: string, pods: seq<PodView>, fetch: string -> Option<Metrics>) returns (sig: Option<Signal>)
      modifies this
      ensures sig.Some? <==> ReadyPods(pods) != [] && AllAnswer(ReadyPods(pods), fetch)
      ensures sig.None? ==> clusters == old(clusters)
      ensures sig.Some? ==>
                var before, ready := SamplesOf(old(clusters), key), ReadyPods(pods);
                && sig.value == SignalOf(SumAll(before, ready, fetch), |ready|)
                && clusters == old(clusters)[key := Restrict(ObserveAll(before, ready, fetch), Uids(ready))]
                && clusters[key].Keys == Uids(ready)
                && (DistinctUids(pods) ==> && IsAverage(Reports(before, ready, fetch), sig.value)
                                           && KeepsOwn(before, ready, fetch, clusters[key]))
    {
      var ready := CollectReady(pods);
      if |ready| == 0 {
        return None;
      }
      var answered := FetchAll(ready, fetch);
      if !answered {
        return None;
      }
      var samples, sums := ObserveReady(SamplesOf(clusters, key), ready, fetch);
      ObservedKeys(SamplesOf(clusters, key), ready, fetch);
      if DistinctUids(pods) {
        ReadyDistinct(pods);
        SignalMeans(SamplesOf(clusters, key), ready, fetch);
        OwnAreKept(SamplesOf(clusters, key), ready, fetch);
      }
      clusters := clusters[key := Restrict(samples, Uids(ready))];
      sig := Some(SignalOf(sums, |ready|));
    }

    method Forget(key: string)
      modifies this
      ensures clusters == old(clusters) - {key}
    {
      clusters := clusters - {key};
    }
  }

  method CollectReady(pods: seq<PodView>) returns (ready: seq<PodView>)
    ensures ready == ReadyPods(pods)
  {
    ready := [];
    for i := 0 to |pods|
      invariant ready == ReadyPods(pods[..i])
    {
      assert pods[..i + 1][..i] == pods[..i];
      if pods[i].ip != "" && !pods[i].deleting && pods[i].ready {
        ready := ready + [pods[i]];
      }
    }
    assert pods[..|pods|] == pods;
  }

  /** Every ready pod must answer: the first that does not ends the measurement. */
  method FetchAll(ready: seq<PodView>, fetch: string -> Option<Metrics>) returns (answered: bool)
    ensures answered <==> AllAnswer(ready, fetch)
  {
    for i := 0 to |ready|
      invariant AllAnswer(ready[..i], fetch)
    {
      assert ready[..i + 1] == ready[..i] + [ready[i]];
      if fetch(ready[i].uid) == None {
        assert ready[i] in ready;
        return false;
      }
    }
    assert ready[..|ready|] == ready;
    return true;
  }

  /** The loop of measure over the ready pods, on the cluster's own sample map. */
  method ObserveReady(start: map<string, PodSample>, ready: seq<PodView>, fetch: string -> Option<Metrics>)
    returns (samples: map<string, PodSample>, sums: Sums)
    requires AllAnswer(ready, fetch)
    ensures samples == ObserveAll(start, ready, fetch)
    ensures sums == SumAll(start, ready, fetch)
  {
    samples := start;
    var writes, queue, known := 0.0, 0.0, true;
    for i := 0 to |ready|
      invariant AllAnswer(ready[..i], fetch)
      invariant samples == ObserveAll(start, ready[..i], fetch)
      invariant Sums(writes, queue, known) == SumAll(start, ready[..i], fetch)
    {
      assert ready[..i + 1][..i] == ready[..i];
      assert AllAnswer(ready[..i + 1], fetch);
      var p := ready[i];
      var m := fetch(p.uid).value;
      var rate, ok;
      samples, rate, ok := ObserveSample(samples, p.uid, ReadingOf(m));
      if !ok {
        known := false;
      }
      writes := writes + rate;
      queue := queue + m.depth;
    }
    assert ready[..|ready|] == ready;
    sums := Sums(writes, queue, known);
  }

  lemma {:induction false} ObservedKeys(samples: map<string, PodSample>, ready: seq<PodView>, fetch: string -> Option<Metrics>)
    requires AllAnswer(ready, fetch)
    ensures ObserveAll(samples, ready, fetch).Keys == samples.Keys + Uids(ready)
  {
    if ready != [] {
      var rest, p := ready[..|ready| - 1], ready[|ready| - 1];
      assert ready == rest + [p];
      assert AllAnswer(rest, fetch);
      ObservedKeys(samples, rest, fetch);
      assert Uids(ready) == Uids(rest) + {p.uid};
    }
  }

  predicate DistinctUids(pods: seq<PodView>) {
    forall i, j :: 0 <= i < j < |pods| ==> pods[i].uid != pods[j].uid
  }

  lemma {:induction false} ReadyDistinct(pods: seq<PodView>)
    requires DistinctUids(pods)
    ensures DistinctUids(ReadyPods(pods))
  {
    if pods != [] {
      var rest, last := pods[..|pods| - 1], pods[|pods| - 1];
      ReadyDistinct(rest);
      forall k | 0 <= k < |ReadyPods(rest)|
        ensures ReadyPods(rest)[k].uid != last.uid
      {
        assert ReadyPods(rest)[k] in rest;
      }
    }
  }

  // ---------- what the signal means ----------

  /** The pod's own sample after its reading of this measurement, from what was saved for it before. */
  function OwnSample(before: map<string, PodSample>, p: PodView, fetch: string -> Option<Metrics>): PodSample
    requires fetch(p.uid).Some?
  {
    Observe(Lookup(before, p.uid), ReadingOf(fetch(p.uid).value))
  }

  /** For every ready pod its own sample is kept. */
  predicate KeepsOwn(before: map<string, PodSample>, ready: seq<PodView>, fetch: string -> Option<Metrics>,
                     after: map<string, PodSample>)
    requires AllAnswer(ready, fetch)
  {
    forall p :: p in ready ==> Lookup(after, p.uid) == Some(OwnSample(before, p, fetch))
  }

  lemma OwnAreKept(before: map<string, PodSample>, ready: seq<PodView>, fetch: string -> Option<Metrics>)
    requires AllAnswer(ready, fetch) && DistinctUids(ready)
    ensures KeepsOwn(before, ready, fetch, Restrict(ObserveAll(before, ready, fetch), Uids(ready)))
  {
    forall p | p in ready
      ensures Lookup(ObserveAll(before, ready, fetch), p.uid) == Some(OwnSample(before, p, fetch))
    {
      var k :| 0 <= k < |ready| && ready[k] == p;
      EachPodObservedOnce(before, ready, fetch, k);
    }
  }

  function Total(xs: seq<real>): real {
    if xs == [] then 0.0 else xs[0] + Total(xs[1..])
  }

  lemma {:induction false} TotalConcat(a: seq<real>, x: real)
    ensures Total(a + [x]) == Total(a) + x
  {
    if a == [] {
      assert a + [x] == [x];
    } else {
      assert (a + [x])[1..] == a[1..] + [x];
      TotalConcat(a[1..], x);
    }
  }

  /** What one pod contributes to a measurement. */
  datatype Report = Report(rate: real, hasRate: bool, depth: real)

  function ReportOf(before: map<string, PodSample>, p: PodView, fetch: string -> Option<Metrics>): Report
    requires fetch(p.uid).Some?
  {
    var own := OwnSample(before, p, fetch);
    Report(own.rate, own.hasRate, fetch(p.uid).value.depth)
  }

  function Reports(before: map<string, PodSample>, ready: seq<PodView>, fetch: string -> Option<Metrics>): (rs: seq<Report>)
    requires AllAnswer(ready, fetch)
    ensures |rs| == |ready|
  {
    seq(|ready|, k requires 0 <= k < |ready| => assert ready[k] in ready; ReportOf(before, ready[k], fetch))
  }

  function Rates(rs: seq<Report>): seq<real> {
    seq(|rs|, k requires 0 <= k < |rs| => rs[k].rate)
  }

  function Depths(rs: seq<Report>): seq<real> {
    seq(|rs|, k requires 0 <= k < |rs| => rs[k].depth)
  }

  predicate AllRated(rs: seq<Report>) {
    forall k :: 0 <= k < |rs| ==> rs[k].hasRate
  }

  function Totals(rs: seq<Report>): Sums {
    Sums(Total(Rates(rs)), Total(Depths(rs)), AllRated(rs))
  }

  lemma TotalsStep(rs: seq<Report>, r: Report)
    ensures var t := Totals(rs);
            Totals(rs + [r]) == Sums(t.writes + r.rate, t.queue + r.depth, t.known && r.hasRate)
  {
    assert Rates(rs + [r]) == Rates(rs) + [r.rate];
    TotalConcat(Rates(rs), r.rate);
    assert Depths(rs + [r]) == Depths(rs) + [r.depth];
    TotalConcat(Depths(rs), r.depth);
    assert AllRated(rs + [r]) <==> AllRated(rs) && r.hasRate by {
      assert forall k :: 0 <= k < |rs| ==> (rs + [r])[k] == rs[k];
      assert (rs + [r])[|rs|] == r;
    }
  }

  lemma ReportsStep(before: map<string, PodSample>, rest: seq<PodView>, p: PodView, fetch: string -> Option<Metrics>)
    requires AllAnswer(rest + [p], fetch)
    ensures AllAnswer(rest, fetch) && fetch(p.uid).Some?
    ensures Reports(before, rest + [p], fetch) == Reports(before, rest, fetch) + [ReportOf(before, p, fetch)]
  {
    var ready := rest + [p];
    assert forall q :: q in rest ==> q in ready;
    assert ready[|rest|] == p && p in ready;
    assert forall k :: 0 <= k < |rest| ==> ready[k] == rest[k];
  }

  lemma SumStep(before: map<string, PodSample>, rest: seq<PodView>, p: PodView, fetch: string -> Option<Metrics>)
    requires AllAnswer(rest + [p], fetch) && DistinctUids(rest + [p])
    ensures AllAnswer(rest, fetch) && fetch(p.uid).Some?
    ensures var s, r := SumAll(before, rest, fetch), ReportOf(before, p, fetch);
            SumAll(before, rest + [p], fetch) == Sums(s.writes + r.rate, s.queue + r.depth, s.known && r.hasRate)
  {
    var ready := rest + [p];
    ReportsStep(before, rest, p, fetch);
    assert ready[..|ready| - 1] == rest && ready[|rest|] == p;
    forall k | 0 <= k < |rest|
      ensures rest[k].uid != p.uid
    {
      assert ready[k] == rest[k];
    }
    Untouched(before, rest, fetch, p.uid);
  }

  lemma {:induction false} SumsMean(before: map<string, PodSample>, ready: seq<PodView>, fetch: string -> Option<Metrics>)
    requires AllAnswer(ready, fetch) && DistinctUids(ready)
    ensures SumAll(before, ready, fetch) == Totals(Reports(before, ready, fetch))
  {
    if ready != [] {
      var rest, p := ready[..|ready| - 1], ready[|ready| - 1];
      assert ready == rest + [p];
      ReportsStep(before, rest, p, fetch);
      SumsMean(before, rest, fetch);
      SumStep(before, rest, p, fetch);
      TotalsStep(Reports(before, rest, fetch), ReportOf(before, p, fetch));
    }
  }

  /**
   What a measurement reports: the average of the pods' own rates, known exactly when every one of
   them has a rate, and the average of the depths they answered.
   */
  predicate IsAverage(rs: seq<Report>, sig: Signal) {
    && (sig.writes.Some? <==> AllRated(rs))
    && (sig.writes.Some? ==> sig.writes.value * |rs| as real == Total(Rates(rs)))
    && sig.queue.Some? && sig.queue.value * |rs| as real == Total(Depths(rs))
  }

  lemma AverageOf(rs: seq<Report>)
    requires rs != []
    ensures IsAverage(rs, SignalOf(Totals(rs), |rs|))
  {
    RateTimesInterval(Total(Rates(rs)), |rs| as real);
    RateTimesInterval(Total(Depths(rs)), |rs| as real);
  }

  lemma SignalMeans(before: map<string, PodSample>, ready: seq<PodView>, fetch: string -> Option<Metrics>)
    requires AllAnswer(ready, fetch) && DistinctUids(ready) && ready != []
    ensures IsAverage(Reports(before, ready, fetch), SignalOf(SumAll(before, ready, fetch), |ready|))
  {
    SumsMean(before, ready, fetch);
    AverageOf(Reports(before, ready, fetch));
  }

  /** A ready pod that was never sampled, every pod after an operator restart, makes the write rate unknown. */
  lemma FirstMeasurementIsUnknown(before: map<string, PodSample>, ready: seq<PodView>,
                                  fetch: string -> Option<Metrics>, sig: Signal, k: nat)
    requires AllAnswer(ready, fetch) && k < |ready| && ready[k].uid !in before
    requires IsAverage(Reports(before, ready, fetch), sig)
    ensures sig.writes == None
  {
    assert ready[k] in ready;
    assert !Reports(before, ready, fetch)[k].hasRate;
  }

  /** With distinct UIDs, one measurement observes every ready pod once, from what was saved for it before. */
  lemma {:induction false} EachPodObservedOnce(samples: map<string, PodSample>, ready: seq<PodView>,
                                               fetch: string -> Option<Metrics>, k: nat)
    requires AllAnswer(ready, fetch) && k < |ready| && DistinctUids(ready)
    ensures AllAnswer([ready[k]], fetch)
    ensures Lookup(ObserveAll(samples, ready, fetch), ready[k].uid)
            == Some(Observe(Lookup(samples, ready[k].uid), ReadingOf(fetch(ready[k].uid).value)))
  {
    var rest, p := ready[..|ready| - 1], ready[|ready| - 1];
    assert ready[k] in ready;
    assert AllAnswer(rest, fetch) by {
      assert forall q :: q in rest ==> q in ready;
    }
    if k < |rest| {
      EachPodObservedOnce(samples, rest, fetch, k);
      assert ready[k].uid != p.uid;
    } else {
      Untouched(samples, rest, fetch, p.uid);
    }
  }

  lemma {:induction false} Untouched(samples: map<string, PodSample>, ready: seq<PodView>,
                                     fetch: string -> Option<Metrics>, uid: string)
    requires AllAnswer(ready, fetch) && forall i :: 0 <= i < |ready| ==> ready[i].uid != uid
    ensures Lookup(ObserveAll(samples, ready, fetch), uid) == Lookup(samples, uid)
  {
    if ready != [] {
      var rest, p := ready[..|ready| - 1], ready[|ready| - 1];
      assert p in ready && AllAnswer(rest, fetch);
      Untouched(samples, rest, fetch, uid);
    }
  }
}
