/** The admission benchmark's report: how it is made from the measurements, and how it is validated. */
module BenchmarkReport {
  import opened Bytes
  import opened Ranking

  datatype Timing = Timing(p50: int, p95: int, p99: int, max: int)

  datatype Tally = Tally(attempted: int, admitted: int, dequeued: int, completed: int, dropped: int, other: int)

  datatype Healthy = Healthy(counts: Tally, timing: Timing, healthyLag: int, nullLag: int, regression: int)

  datatype Saturated = Saturated(counts: Tally, timing: Timing)

  datatype Profile = Profile(producers: int, callsPerProducer: int, repetitions: seq<Healthy>, timing: Timing,
                             healthyLag: int, nullLag: int, regression: int, allocation: int)

  datatype Saturation = Saturation(prefilled: int, drained: int, repetitions: seq<Saturated>, timing: Timing)

  /** What the report says about how it was measured. */
  datatype Method = Method(payloadBytes: int, queueCapacity: int, permits: int, lateYieldCalls: int, warmups: int,
                           repetitions: int, tickerIntervalNs: int, tickerMinimum: int)

  /** `digestsOk` stands for the three digests having their spelling. */
  datatype Report = Report(digestsOk: bool, how: Method, profiles: seq<Profile>, saturation: Saturation,
                           required: bool, passed: bool)

  /** The one method that is ever written or accepted, for a payload of some size. */
  function FixedMethod(payloadBytes: int): Method {
    Method(payloadBytes, 64, 32, LATE_YIELD, 10000, 5, 1000000, 10000)
  }

  /** The fixed profiles: producers and calls of each. */
  const PROFILES: seq<(int, int)> := [(1, 100000), (4, 25000), (16, 6250)]

  const LATE_YIELD := 8

  // ---------- from measurements to a report ----------

  /** The samples of one healthy repetition: call times, and ticker lags with and without the scheduler. */
  datatype Measured = Measured(calls: seq<int>, lags: seq<int>, nullLags: seq<int>)

  /** `_timing_metrics`; None when `nearest_rank` raises. */
  function TimingOf(samples: seq<int>): Option<Timing> {
    var a, b, c := NearestRank(samples, 50), NearestRank(samples, 95), NearestRank(samples, 99);
    if a.None? || b.None? || c.None? then None else Some(Timing(a.value, b.value, c.value, Greatest(samples)))
  }

  function AtLeast0(n: int): int {
    if n >= 0 then n else 0
  }

  /** One healthy repetition of `calls` calls whose counts came out as expected; each ticker must have `minimum` samples. */
  function HealthyOf(calls: int, minimum: int, m: Measured): Option<Healthy> {
    var timing, lag, none := TimingOf(m.calls), NearestRank(m.lags, 99), NearestRank(m.nullLags, 99);
    if |m.calls| != calls || |m.lags| < minimum || |m.nullLags| < minimum || timing.None? || lag.None? || none.None? then None
    else Some(Healthy(Tally(calls, calls, calls, calls, 0, 0), timing.value, lag.value, none.value, AtLeast0(lag.value - none.value)))
  }

  function SaturatedOf(calls: int, samples: seq<int>): Option<Saturated> {
    var timing := TimingOf(samples);
    if timing.None? then None else Some(Saturated(Tally(calls, 0, 64, 64, calls, 0), timing.value))
  }

  function AllHealthy(calls: int, minimum: int, ms: seq<Measured>): Option<seq<Healthy>> {
    if ms == [] then Some([])
    else
      var front, last := AllHealthy(calls, minimum, ms[..|ms| - 1]), HealthyOf(calls, minimum, ms[|ms| - 1]);
      if front.None? || last.None? then None else Some(front.value + [last.value])
  }

  function AllSaturated(calls: int, samples: seq<seq<int>>): Option<seq<Saturated>> {
    if samples == [] then Some([])
    else
      var front, last := AllSaturated(calls, samples[..|samples| - 1]), SaturatedOf(calls, samples[|samples| - 1]);
      if front.None? || last.None? then None else Some(front.value + [last.value])
  }

  /** A column of the repetitions. */
  function Column<T>(rows: seq<T>, f: T -> int): seq<int> {
    seq(|rows|, i requires 0 <= i < |rows| => f(rows[i]))
  }

  /** `_maxima` of one column. */
  function Maximum<T>(rows: seq<T>, f: T -> int): int
    requires rows != []
  {
    Greatest(Column(rows, f))
  }

  function TimingMaxima<T>(rows: seq<T>, f: T -> Timing): Timing
    requires rows != []
  {
    Timing(Maximum(rows, r => f(r).p50), Maximum(rows, r => f(r).p95), Maximum(rows, r => f(r).p99), Maximum(rows, r => f(r).max))
  }

  function ProfileOf(producers: int, calls: int, rows: seq<Healthy>, allocation: int): Profile
    requires producers > 0 && rows != []
  {
    Profile(producers, calls / producers, rows, TimingMaxima(rows, (r: Healthy) => r.timing),
            Maximum(rows, (r: Healthy) => r.healthyLag), Maximum(rows, (r: Healthy) => r.nullLag),
            Maximum(rows, (r: Healthy) => r.regression), allocation)
  }

  /** The settings of `_run_benchmark` and what it measured, one entry per profile. */
  datatype Run = Run(repetitions: int, warmups: int, healthyCalls: int, saturationCalls: int, tickerMinimum: int,
                     tickerIntervalNs: int, allocationCalls: int,
                     measured: seq<seq<Measured>>, allocations: seq<int>, saturated: seq<seq<int>>)

  predicate Positive(n: int) {
    1 <= n <= MAX_INTEGER
  }

  /** The check that the benchmark begins with. */
  predicate Workload(r: Run) {
    && Positive(r.repetitions) && Positive(r.healthyCalls) && Positive(r.saturationCalls) && Positive(r.tickerMinimum)
    && Positive(r.tickerIntervalNs) && Positive(r.allocationCalls) && Exact(r.warmups)
  }

  /** There is one measurement for each repetition of each profile. */
  predicate Shaped(r: Run) {
    && |r.measured| == |r.allocations| == 3 && |r.saturated| == r.repetitions
    && forall i :: 0 <= i < 3 ==> |r.measured[i]| == r.repetitions
  }

  /** The calls of profile `i`: the designated ones under the standard workload. */
  function CallsOf(r: Run, i: nat): int
    requires i < 3
  {
    if r.healthyCalls != 100000 then r.healthyCalls else PROFILES[i].0 * PROFILES[i].1
  }

  function RunProfile(r: Run, i: nat): Option<Profile>
    requires Shaped(r) && i < 3
  {
    var rows := AllHealthy(CallsOf(r, i), r.tickerMinimum, r.measured[i]);
    if rows.None? || rows.value == [] then None
    else Some(ProfileOf(PROFILES[i].0, CallsOf(r, i), rows.value, r.allocations[i]))
  }

  /** `_run_benchmark`; None when it raises. */
  function RunBenchmark(r: Run): (result: Option<(seq<Profile>, Saturation)>)
    requires Shaped(r)
    ensures result.Some? ==> |result.value.0| == 3
  {
    var a, b, c, s := RunProfile(r, 0), RunProfile(r, 1), RunProfile(r, 2), AllSaturated(r.saturationCalls, r.saturated);
    if !Workload(r) || a.None? || b.None? || c.None? || s.None? || s.value == [] then None
    else Some(([a.value, b.value, c.value],
               Saturation(64, 64, s.value, TimingMaxima(s.value, (x: Saturated) => x.timing))))
  }

  predicate ProfileQualifies(p: Profile) {
    p.timing.p99 < 1000000 && p.timing.max < 5000000 && p.regression < 2000000
  }

  predicate Qualifies(profiles: seq<Profile>) {
    forall i :: 0 <= i < |profiles| ==> ProfileQualifies(profiles[i])
  }

  /** `make_report`, up to the validation that ends it. */
  function MakeReport(digestsOk: bool, payloadBytes: int, profiles: seq<Profile>, saturation: Saturation, required: bool): Report {
    Report(digestsOk, FixedMethod(payloadBytes), profiles, saturation, required, required && Qualifies(profiles))
  }

  // ---------- validation ----------

  predicate TimingExact(t: Timing) {
    Exact(t.p50) && Exact(t.p95) && Exact(t.p99) && Exact(t.max)
  }

  predicate TallyExact(t: Tally) {
    Exact(t.attempted) && Exact(t.admitted) && Exact(t.dequeued) && Exact(t.completed) && Exact(t.dropped) && Exact(t.other)
  }

  /** `_metrics`, on the percentiles. */
  predicate Ordered(t: Timing) {
    t.p50 <= t.p95 <= t.p99 <= t.max
  }

  predicate HealthyValid(h: Healthy) {
    && TallyExact(h.counts) && TimingExact(h.timing) && Exact(h.healthyLag) && Exact(h.nullLag) && Exact(h.regression)
    && Ordered(h.timing)
    && h.counts == Tally(100000, 100000, 100000, 100000, 0, 0)
    && h.regression == AtLeast0(h.healthyLag - h.nullLag)
  }

  predicate SaturatedValid(s: Saturated) {
    TallyExact(s.counts) && TimingExact(s.timing) && Ordered(s.timing) && s.counts == Tally(10000, 0, 64, 64, 10000, 0)
  }

  predicate ProfileValid(p: Profile, expected: (int, int)) {
    && (p.producers, p.callsPerProducer) == expected && |p.repetitions| == 5
    && (forall i :: 0 <= i < 5 ==> HealthyValid(p.repetitions[i]))
    && TimingExact(p.timing) && Exact(p.healthyLag) && Exact(p.nullLag) && Exact(p.regression) && Exact(p.allocation)
    && p.timing == TimingMaxima(p.repetitions, (r: Healthy) => r.timing)
    && p.healthyLag == Maximum(p.repetitions, (r: Healthy) => r.healthyLag)
    && p.nullLag == Maximum(p.repetitions, (r: Healthy) => r.nullLag)
    && p.regression == Maximum(p.repetitions, (r: Healthy) => r.regression)
  }

  predicate SaturationValid(s: Saturation) {
    && s.prefilled == 64 && s.drained == 64 && |s.repetitions| == 5
    && (forall i :: 0 <= i < 5 ==> SaturatedValid(s.repetitions[i]))
    && TimingExact(s.timing) && s.timing == TimingMaxima(s.repetitions, (x: Saturated) => x.timing)
  }

  /** `validate_report`. */
  predicate ReportValid(r: Report) {
    && r.digestsOk && Positive(r.how.payloadBytes) && r.how == FixedMethod(r.how.payloadBytes)
    && |r.profiles| == 3 && (forall i :: 0 <= i < 3 ==> ProfileValid(r.profiles[i], PROFILES[i]))
    && SaturationValid(r.saturation)
    && !(!r.required && r.passed) && (r.required ==> r.passed == Qualifies(r.profiles))
  }

  // ---------- producer and validator agree ----------

  lemma TimingIsValid(samples: seq<int>)
    requires TimingOf(samples).Some?
    ensures TimingExact(TimingOf(samples).value) && Ordered(TimingOf(samples).value)
  {
    PercentilesAreOrdered(samples);
  }

  lemma RankIsExact(values: seq<int>, percent: nat)
    requires NearestRank(values, percent).Some?
    ensures Exact(NearestRank(values, percent).value)
  {
    LeastReaching(values, percent);
  }

  lemma HealthyIsValid(calls: int, minimum: int, m: Measured)
    requires HealthyOf(calls, minimum, m).Some?
    ensures var h := HealthyOf(calls, minimum, m).value;
            && (HealthyValid(h) <==> calls == 100000)
            && TimingExact(h.timing) && Exact(h.healthyLag) && Exact(h.nullLag) && Exact(h.regression)
  {
    TimingIsValid(m.calls);
    RankIsExact(m.lags, 99);
    RankIsExact(m.nullLags, 99);
    hide NearestRank, TimingOf;
  }

  lemma SaturatedIsValid(calls: int, samples: seq<int>)
    requires SaturatedOf(calls, samples).Some?
    ensures var s := SaturatedOf(calls, samples).value;
            (SaturatedValid(s) <==> calls == 10000) && TimingExact(s.timing)
  {
    TimingIsValid(samples);
    hide TimingOf;
  }

  /** Every repetition is one of the measured ones. */
  lemma {:induction false} HealthyAt(calls: int, minimum: int, ms: seq<Measured>)
    requires AllHealthy(calls, minimum, ms).Some?
    ensures |AllHealthy(calls, minimum, ms).value| == |ms|
    ensures forall i :: 0 <= i < |ms| ==>
              HealthyOf(calls, minimum, ms[i]).Some?
              && AllHealthy(calls, minimum, ms).value[i] == HealthyOf(calls, minimum, ms[i]).value
  {
    hide HealthyOf;
    if ms != [] {
      HealthyAt(calls, minimum, ms[..|ms| - 1]);
    }
  }

  lemma {:induction false} SaturatedAt(calls: int, samples: seq<seq<int>>)
    requires AllSaturated(calls, samples).Some?
    ensures |AllSaturated(calls, samples).value| == |samples|
    ensures forall i :: 0 <= i < |samples| ==>
              SaturatedOf(calls, samples[i]).Some? && AllSaturated(calls, samples).value[i] == SaturatedOf(calls, samples[i]).value
  {
    hide SaturatedOf;
    if samples != [] {
      SaturatedAt(calls, samples[..|samples| - 1]);
    }
  }

  /** A maximum of exact integers is exact. */
  lemma MaximumIsExact<T>(rows: seq<T>, f: T -> int)
    requires rows != [] && forall i :: 0 <= i < |rows| ==> Exact(f(rows[i]))
    ensures Exact(Maximum(rows, f))
  {
    var column := Column(rows, f);
    var i :| 0 <= i < |column| && column[i] == Greatest(column);
    assert column[i] == f(rows[i]);
  }

  lemma TimingMaximaExact<T>(rows: seq<T>, f: T -> Timing)
    requires rows != [] && forall i :: 0 <= i < |rows| ==> TimingExact(f(rows[i]))
    ensures TimingExact(TimingMaxima(rows, f))
  {
    MaximumIsExact(rows, r => f(r).p50);
    MaximumIsExact(rows, r => f(r).p95);
    MaximumIsExact(rows, r => f(r).p99);
    MaximumIsExact(rows, r => f(r).max);
  }

  lemma ProfileIsValid(r: Run, i: nat)
    requires Shaped(r) && i < 3 && RunProfile(r, i).Some?
    ensures ProfileValid(RunProfile(r, i).value, PROFILES[i])
            <==> r.repetitions == 5 && r.healthyCalls == 100000 && Exact(r.allocations[i])
  {
    hide HealthyOf, AllHealthy, TimingMaxima, Maximum, HealthyValid;
    var calls, ms := CallsOf(r, i), r.measured[i];
    HealthyAt(calls, r.tickerMinimum, ms);
    var rows := AllHealthy(calls, r.tickerMinimum, ms).value;
    forall j | 0 <= j < |rows|
      ensures (HealthyValid(rows[j]) <==> calls == 100000) && TimingExact(rows[j].timing)
              && Exact(rows[j].healthyLag) && Exact(rows[j].nullLag) && Exact(rows[j].regression)
    {
      HealthyIsValid(calls, r.tickerMinimum, ms[j]);
    }
    TimingMaximaExact(rows, (h: Healthy) => h.timing);
    MaximumIsExact(rows, (h: Healthy) => h.healthyLag);
    MaximumIsExact(rows, (h: Healthy) => h.nullLag);
    MaximumIsExact(rows, (h: Healthy) => h.regression);
    assert calls == 100000 <==> r.healthyCalls == 100000;
    if r.repetitions == 5 && r.healthyCalls != 100000 {
      assert !HealthyValid(rows[0]);
    }
  }

  lemma SaturationIsValid(r: Run)
    requires Shaped(r) && RunBenchmark(r).Some?
    ensures SaturationValid(RunBenchmark(r).value.1) <==> r.repetitions == 5 && r.saturationCalls == 10000
  {
    hide SaturatedOf, AllSaturated, TimingMaxima, Maximum, SaturatedValid, RunProfile;
    SaturatedAt(r.saturationCalls, r.saturated);
    var rows := AllSaturated(r.saturationCalls, r.saturated).value;
    forall j | 0 <= j < |rows|
      ensures (SaturatedValid(rows[j]) <==> r.saturationCalls == 10000) && TimingExact(rows[j].timing)
    {
      SaturatedIsValid(r.saturationCalls, r.saturated[j]);
    }
    TimingMaximaExact(rows, (s: Saturated) => s.timing);
    if r.repetitions == 5 && r.saturationCalls != 10000 {
      assert !SaturatedValid(rows[0]);
    }
  }

  /**
   Whatever was measured, the report made of a finished benchmark is valid exactly under the fixed workload:
   five repetitions, 100000 healthy and 10000 saturation calls, with proper digests, payload size and
   allocations. Neither the warmups nor the ticker settings matter.
   */
  lemma ReportIsValidIffFixedWorkload(r: Run, digestsOk: bool, payloadBytes: int, required: bool)
    requires Shaped(r) && RunBenchmark(r).Some?
    ensures var (profiles, saturation) := RunBenchmark(r).value;
            ReportValid(MakeReport(digestsOk, payloadBytes, profiles, saturation, required))
            <==> r.repetitions == 5 && r.healthyCalls == 100000 && r.saturationCalls == 10000
                 && digestsOk && Positive(payloadBytes) && (forall i :: 0 <= i < 3 ==> Exact(r.allocations[i]))
  {
    hide ProfileValid, SaturationValid, Qualifies, RunProfile, AllSaturated;
    ProfileIsValid(r, 0);
    ProfileIsValid(r, 1);
    ProfileIsValid(r, 2);
    SaturationIsValid(r);
    var (profiles, saturation) := RunBenchmark(r).value;
    assert profiles[0] == RunProfile(r, 0).value && profiles[1] == RunProfile(r, 1).value && profiles[2] == RunProfile(r, 2).value;
    var report := MakeReport(digestsOk, payloadBytes, profiles, saturation, required);
    assert (forall i :: 0 <= i < 3 ==> ProfileValid(report.profiles[i], PROFILES[i]))
           <==> r.repetitions == 5 && r.healthyCalls == 100000 && (forall i :: 0 <= i < 3 ==> Exact(r.allocations[i]));
  }

  // ---------- what the report tells ----------

  /** The timing columns are the ranks and the greatest of the samples. */
  predicate Times(t: Timing, samples: seq<int>) {
    && NearestRank(samples, 50) == Some(t.p50) && NearestRank(samples, 95) == Some(t.p95) && NearestRank(samples, 99) == Some(t.p99)
    && t.max in samples && forall x :: x in samples ==> x <= t.max
  }

  lemma TimingTells(samples: seq<int>)
    requires TimingOf(samples).Some?
    ensures Times(TimingOf(samples).value, samples)
  {
    hide NearestRank;
    var m := Greatest(samples);
    forall x | x in samples ensures x <= m {
      var i :| 0 <= i < |samples| && samples[i] == x;
    }
  }

  /** A repetition tells its own measurements, and by how much the scheduler lengthened the lag. */
  predicate Tells(h: Healthy, m: Measured) {
    && h.counts == Tally(|m.calls|, |m.calls|, |m.calls|, |m.calls|, 0, 0) && Times(h.timing, m.calls)
    && NearestRank(m.lags, 99) == Some(h.healthyLag) && NearestRank(m.nullLags, 99) == Some(h.nullLag)
    && h.regression == if h.healthyLag > h.nullLag then h.healthyLag - h.nullLag else 0
  }

  lemma HealthyTells(calls: int, minimum: int, m: Measured)
    requires HealthyOf(calls, minimum, m).Some?
    ensures |m.calls| == calls && |m.lags| >= minimum && |m.nullLags| >= minimum && Tells(HealthyOf(calls, minimum, m).value, m)
  {
    TimingTells(m.calls);
    hide TimingOf, Times, NearestRank;
  }

  predicate ProfileTells(p: Profile, calls: int, i: nat, measured: seq<Measured>, allocation: int, j: nat)
    requires i < 3 && j < |measured|
  {
    && p.producers == [1, 4, 16][i] && p.callsPerProducer == calls / [1, 4, 16][i] && p.allocation == allocation
    && |p.repetitions| == |measured| && |measured[j].calls| == calls && Tells(p.repetitions[j], measured[j])
  }

  /** Each profile has the repetitions that were measured, all of the same number of calls, shared among its producers. */
  lemma ProfilesTell(r: Run, i: nat, j: nat)
    requires Shaped(r) && RunBenchmark(r).Some? && i < 3 && j < r.repetitions
    ensures ProfileTells(RunBenchmark(r).value.0[i], r.healthyCalls, i, r.measured[i], r.allocations[i], j)
  {
    hide HealthyOf, AllHealthy, AllSaturated, TimingMaxima, Maximum, Tells;
    assert RunProfile(r, i).Some? && RunBenchmark(r).value.0[i] == RunProfile(r, i).value;
    HealthyAt(CallsOf(r, i), r.tickerMinimum, r.measured[i]);
    HealthyTells(CallsOf(r, i), r.tickerMinimum, r.measured[i][j]);
  }

  /** So do the saturated repetitions: everything was dropped but what had been filled in, which was drained. */
  lemma SaturationTells(r: Run, j: nat)
    requires Shaped(r) && RunBenchmark(r).Some? && j < r.repetitions
    ensures var s := RunBenchmark(r).value.1;
            && s.prefilled == s.drained == 64 && |s.repetitions| == r.repetitions
            && s.repetitions[j].counts == Tally(r.saturationCalls, 0, 64, 64, r.saturationCalls, 0)
            && Times(s.repetitions[j].timing, r.saturated[j])
  {
    hide TimingOf, AllSaturated, TimingMaxima, Maximum, Times, RunProfile;
    SaturatedAt(r.saturationCalls, r.saturated);
    TimingTells(r.saturated[j]);
  }

  /** The greatest of a column. */
  predicate IsMaximum<T(!new)>(v: int, rows: seq<T>, f: T -> int) {
    (exists k :: 0 <= k < |rows| && f(rows[k]) == v) && forall k :: 0 <= k < |rows| ==> f(rows[k]) <= v
  }

  lemma MaximumIsGreatest<T(!new)>(rows: seq<T>, f: T -> int)
    requires rows != []
    ensures IsMaximum(Maximum(rows, f), rows, f)
  {
    var column := Column(rows, f);
    var k :| 0 <= k < |column| && column[k] == Greatest(column);
    assert f(rows[k]) == column[k];
    forall j | 0 <= j < |rows| ensures f(rows[j]) <= Greatest(column) {
      assert column[j] == f(rows[j]);
    }
  }

  /** Every column of the maxima is reached by a row and passed by none. */
  predicate AreMaxima(t: Timing, times: seq<Timing>) {
    && (forall k :: 0 <= k < |times| ==>
          times[k].p50 <= t.p50 && times[k].p95 <= t.p95 && times[k].p99 <= t.p99 && times[k].max <= t.max)
    && (exists k :: 0 <= k < |times| && times[k].p50 == t.p50) && (exists k :: 0 <= k < |times| && times[k].p95 == t.p95)
    && (exists k :: 0 <= k < |times| && times[k].p99 == t.p99) && (exists k :: 0 <= k < |times| && times[k].max == t.max)
  }

  lemma TimingMaximaAre<T(!new)>(rows: seq<T>, f: T -> Timing, times: seq<Timing>)
    requires rows != [] && |times| == |rows| && forall k :: 0 <= k < |rows| ==> times[k] == f(rows[k])
    ensures AreMaxima(TimingMaxima(rows, f), times)
  {
    MaximumIsGreatest(rows, r => f(r).p50);
    MaximumIsGreatest(rows, r => f(r).p95);
    MaximumIsGreatest(rows, r => f(r).p99);
    MaximumIsGreatest(rows, r => f(r).max);
  }

  function TimesOf(rows: seq<Healthy>): seq<Timing> {
    seq(|rows|, k requires 0 <= k < |rows| => rows[k].timing)
  }

  /** A profile's own columns are the maxima of its repetitions, each column for itself. */
  lemma ProfilesTellMaxima(r: Run, i: nat)
    requires Shaped(r) && RunBenchmark(r).Some? && i < 3
    ensures var p := RunBenchmark(r).value.0[i];
            && AreMaxima(p.timing, TimesOf(p.repetitions))
            && IsMaximum(p.healthyLag, p.repetitions, (h: Healthy) => h.healthyLag)
            && IsMaximum(p.nullLag, p.repetitions, (h: Healthy) => h.nullLag)
            && IsMaximum(p.regression, p.repetitions, (h: Healthy) => h.regression)
  {
    hide HealthyOf, AllHealthy, AllSaturated, Maximum, TimingMaxima, AreMaxima;
    assert RunProfile(r, i).Some? && RunBenchmark(r).value.0[i] == RunProfile(r, i).value;
    var rows := RunBenchmark(r).value.0[i].repetitions;
    TimingMaximaAre(rows, (h: Healthy) => h.timing, TimesOf(rows));
    MaximumIsGreatest(rows, (h: Healthy) => h.healthyLag);
    MaximumIsGreatest(rows, (h: Healthy) => h.nullLag);
    MaximumIsGreatest(rows, (h: Healthy) => h.regression);
  }

  /** Within the limits: 99 calls of 100 under a millisecond, all under five, and the lag longer by less than two. */
  predicate InTime(h: Healthy) {
    h.timing.p99 < 1_000_000 && h.timing.max < 5_000_000 && h.regression < 2_000_000
  }

  /** A report passes exactly if it had to and every repetition of every profile was in time. */
  lemma PassedExactly(r: Run, digestsOk: bool, payloadBytes: int, required: bool)
    requires Shaped(r) && RunBenchmark(r).Some?
    ensures var (profiles, saturation) := RunBenchmark(r).value;
            MakeReport(digestsOk, payloadBytes, profiles, saturation, required).passed
            <==> required && forall i, j :: 0 <= i < 3 && 0 <= j < |profiles[i].repetitions| ==> InTime(profiles[i].repetitions[j])
  {
    var (profiles, saturation) := RunBenchmark(r).value;
    forall i | 0 <= i < 3
      ensures ProfileQualifies(profiles[i])
              <==> forall j :: 0 <= j < |profiles[i].repetitions| ==> InTime(profiles[i].repetitions[j])
    {
      ProfilesTellMaxima(r, i);
      hide RunBenchmark, Shaped;
      MaximaInTime(profiles[i]);
    }
    hide ProfileQualifies, InTime, RunProfile, AllSaturated;
  }

  lemma MaximaInTime(p: Profile)
    requires AreMaxima(p.timing, TimesOf(p.repetitions)) && IsMaximum(p.regression, p.repetitions, (h: Healthy) => h.regression)
    ensures ProfileQualifies(p) <==> forall j :: 0 <= j < |p.repetitions| ==> InTime(p.repetitions[j])
  {
    assert forall j :: 0 <= j < |p.repetitions| ==> TimesOf(p.repetitions)[j] == p.repetitions[j].timing;
  }

  // ---------- what the report does not tell ----------

  /** The same measurements under other warmups, ticker and allocation settings. */
  function Resettled(r: Run, warmups: int, tickerMinimum: int, tickerIntervalNs: int, allocationCalls: int): Run {
    r.(warmups := warmups, tickerMinimum := tickerMinimum, tickerIntervalNs := tickerIntervalNs, allocationCalls := allocationCalls)
  }

  predicate Reaches(m: Measured, minimum: int) {
    |m.lags| >= minimum && |m.nullLags| >= minimum
  }

  predicate AllReach(ms: seq<Measured>, minimum: int) {
    forall j :: 0 <= j < |ms| ==> Reaches(ms[j], minimum)
  }

  /** Every ticker of the run has at least so many samples. */
  predicate TickersReach(r: Run, minimum: int) {
    forall i :: 0 <= i < |r.measured| ==> AllReach(r.measured[i], minimum)
  }

  lemma OneResettled(calls: int, minimum: int, other: int, m: Measured)
    requires HealthyOf(calls, minimum, m).Some?
    ensures HealthyOf(calls, other, m) == if Reaches(m, other) then HealthyOf(calls, minimum, m) else None
  {
    hide TimingOf, NearestRank;
  }

  lemma {:induction false} HealthyResettled(calls: int, minimum: int, other: int, ms: seq<Measured>)
    requires AllHealthy(calls, minimum, ms).Some?
    ensures AllHealthy(calls, other, ms) == if AllReach(ms, other) then AllHealthy(calls, minimum, ms) else None
  {
    hide HealthyOf, Reaches;
    if ms != [] {
      var n := |ms| - 1;
      HealthyResettled(calls, minimum, other, ms[..n]);
      OneResettled(calls, minimum, other, ms[n]);
      assert AllReach(ms, other) <==> AllReach(ms[..n], other) && Reaches(ms[n], other) by {
        assert forall j :: 0 <= j < n ==> ms[..n][j] == ms[j];
      }
    }
  }

  /**
   A finished benchmark is finished with the same measurements under any other settings that pass the first
   check and ask for no more ticker samples than there are; and its report is the same, because the method
   it states is fixed: a report never tells with how many warmups, or with which ticker, it was measured.
   */
  lemma SettingsLeaveNoTrace(r: Run, warmups: int, tickerMinimum: int, tickerIntervalNs: int, allocationCalls: int)
    requires Shaped(r) && RunBenchmark(r).Some?
    ensures var other := Resettled(r, warmups, tickerMinimum, tickerIntervalNs, allocationCalls);
            && Shaped(other)
            && RunBenchmark(other) == (if Workload(other) && TickersReach(r, tickerMinimum) then RunBenchmark(r) else None)
    ensures var (profiles, saturation) := RunBenchmark(r).value;
            forall digestsOk, payloadBytes, required ::
              var report := MakeReport(digestsOk, payloadBytes, profiles, saturation, required);
              report.how == Method(payloadBytes, 64, 32, 8, 10000, 5, 1000000, 10000)
  {
    hide AllHealthy, AllSaturated, ProfileOf, TimingMaxima;
    var other := Resettled(r, warmups, tickerMinimum, tickerIntervalNs, allocationCalls);
    forall i | 0 <= i < 3
      ensures RunProfile(other, i) == if AllReach(r.measured[i], tickerMinimum) then RunProfile(r, i) else None
    {
      assert RunProfile(r, i).Some?;
      HealthyResettled(CallsOf(r, i), r.tickerMinimum, tickerMinimum, r.measured[i]);
    }
    hide RunProfile;
    assert TickersReach(r, tickerMinimum)
           <==> RunProfile(other, 0).Some? && RunProfile(other, 1).Some? && RunProfile(other, 2).Some?;
  }
}
