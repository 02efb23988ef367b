/** One hour of GPU samples, aggregated, and the merge of two such aggregates. */
module Rollup {
  import opened Prelude
  import Decimal

  // ----- data model ------------------------------------------------------

  /** One row of `nvidia-smi` output. Times are microseconds since the epoch, in UTC. */
  datatype Sample = Sample(
    sampledAt: int,
    hostname: string,
    gpuIndex: int,
    gpuName: Option<string>,
    gpuUtilization: Option<real>,
    memoryUtilization: Option<real>,
    memoryTotalMb: Option<int>,
    memoryUsedMb: Option<int>,
    powerDraw: Option<real>,
    temperature: Option<real>)

  /** The unique key of an hourly row. */
  datatype Key = Key(bucketStart: int, hostname: string, gpuIndex: int)

  /** The average and the maximum kept for one measured quantity. */
  datatype Stat = Stat(avg: Option<real>, max: Option<real>)

  datatype Row = Row(
    key: Key,
    gpuName: string,
    count: int,
    utilization: Stat,
    memory: Stat,
    memoryUsed: Stat,
    power: Stat,
    maxTemperature: Option<real>,
    saturated: int,
    pressured: int)

  /** The two thresholds, and the rounding applied to a batch average. */
  datatype Config = Config(saturation: real, memoryPressure: real, round3: real -> real)

  /** Rounding to three decimals moves a value by at most 0.0005. */
  ghost predicate Rounds(cfg: Config) {
    forall x :: x - 0.0005 <= cfg.round3(x) <= x + 0.0005
  }

  /** Python's `round(x, 3)`: to the nearest thousandth, a tie going to the even one. */
  function Round3(x: real): real {
    var scaled := x * 1000.0;
    var below := scaled.Floor;
    var rest := scaled - below as real;
    (if rest < 0.5 || (rest == 0.5 && below % 2 == 0) then below else below + 1) as real / 1000.0
  }

  /** A whole number of thousandths, none nearer, and an even number of them if another is as near. */
  lemma Round3Exactly(x: real) returns (n: int)
    ensures Round3(x) == n as real / 1000.0
    ensures x * 1000.0 - 0.5 <= n as real <= x * 1000.0 + 0.5
    ensures n as real == x * 1000.0 - 0.5 || n as real == x * 1000.0 + 0.5 ==> n % 2 == 0
  {
    var below := (x * 1000.0).Floor;
    n := if Round3(x) == below as real / 1000.0 then below else below + 1;
  }

  lemma Round3Rounds(saturation: real, memoryPressure: real)
    ensures Rounds(Config(saturation, memoryPressure, Round3))
  {
  }

  // ----- reading a sample --------------------------------------------------

  /** The start of the UTC hour that contains `t`. */
  function HourBucket(t: int): (start: int)
    ensures start <= t < start + 3_600_000_000
  {
    t - t % 3_600_000_000
  }

  /** Two times fall into one bucket exactly when they are in the same hour, and a bucket starts on the hour. */
  lemma HourBucketExactly(t: int, u: int)
    ensures HourBucket(t) % 3_600_000_000 == 0
    ensures HourBucket(t) == HourBucket(u) <==> t / 3_600_000_000 == u / 3_600_000_000
  {
  }

  function KeyOf(s: Sample): Key {
    Key(HourBucket(s.sampledAt), s.hostname, s.gpuIndex)
  }

  datatype Metric = Utilization | Memory | MemoryUsed | Power | Temperature

  /** The reported memory utilization, or used over total when it is missing and the total is known and not zero. */
  function MemoryPercent(s: Sample): Option<real> {
    if s.memoryUtilization.Some? then s.memoryUtilization
    else if s.memoryTotalMb.Some? && s.memoryTotalMb.value != 0 then
      Some(s.memoryUsedMb.GetOr(0) as real / s.memoryTotalMb.value as real * 100.0)
    else None
  }

  function Measure(s: Sample, m: Metric): Option<real> {
    match m
    case Utilization => s.gpuUtilization
    case Memory => MemoryPercent(s)
    case MemoryUsed => if s.memoryUsedMb.Some? then Some(s.memoryUsedMb.value as real) else None
    case Power => s.powerDraw
    case Temperature => s.temperature
  }

  function Measures(items: seq<Sample>, m: Metric): seq<Option<real>> {
    seq(|items|, i requires 0 <= i < |items| => Measure(items[i], m))
  }

  /** The name shown for a GPU: its own, or its index when the name is missing or empty. */
  function DisplayName(s: Sample, gpuIndex: int): string {
    if s.gpuName.Some? && s.gpuName.value != "" then s.gpuName.value else "GPU " + Decimal.Text(gpuIndex)
  }

  // ----- aggregating values --------------------------------------------------

  function Present(values: seq<Option<real>>): seq<real> {
    if values == [] then []
    else
      var rest := Present(values[..|values| - 1]);
      match values[|values| - 1]
      case None => rest
      case Some(v) => rest + [v]
  }

  function Sum(xs: seq<real>): real {
    if xs == [] then 0.0 else Sum(xs[..|xs| - 1]) + xs[|xs| - 1]
  }

  function Largest(xs: seq<real>): real
    requires xs != []
  {
    var last := xs[|xs| - 1];
    if |xs| == 1 then last
    else
      var best := Largest(xs[..|xs| - 1]);
      if last > best then last else best
  }

  function Avg(cfg: Config, values: seq<Option<real>>): Option<real> {
    var clean := Present(values);
    if clean == [] then None else Some(cfg.round3(Sum(clean) / |clean| as real))
  }

  function Max(values: seq<Option<real>>): Option<real> {
    var clean := Present(values);
    if clean == [] then None else Some(Largest(clean))
  }

  /** How many values reach the threshold, a missing value counting as zero. */
  function CountAtLeast(values: seq<Option<real>>, threshold: real): nat {
    if values == [] then 0
    else
      CountAtLeast(values[..|values| - 1], threshold)
      + if values[|values| - 1].GetOr(0.0) >= threshold then 1 else 0
  }

  function StatOf(cfg: Config, items: seq<Sample>, m: Metric): Stat {
    Stat(Avg(cfg, Measures(items, m)), Max(Measures(items, m)))
  }

  /** The row computed for the samples of one group. */
  function Aggregate(cfg: Config, key: Key, items: seq<Sample>): (row: Row)
    requires items != []
    ensures row.key == key && row.count > 0
  {
    Row(key,
        DisplayName(items[|items| - 1], key.gpuIndex),
        |items|,
        StatOf(cfg, items, Utilization),
        StatOf(cfg, items, Memory),
        StatOf(cfg, items, MemoryUsed),
        StatOf(cfg, items, Power),
        Max(Measures(items, Temperature)),
        CountAtLeast(Measures(items, Utilization), cfg.saturation),
        CountAtLeast(Measures(items, Memory), cfg.memoryPressure))
  }

  // ----- the ON CONFLICT clause ------------------------------------------------

  function Coalesce(a: Option<real>, b: Option<real>): Option<real> {
    if a.Some? then a else b
  }

  /** SQL's GREATEST, which ignores nulls. */
  function Greatest(a: Option<real>, b: Option<real>): Option<real> {
    match (a, b)
    case (None, _) => b
    case (_, None) => a
    case (Some(x), Some(y)) => Some(if x >= y then x else y)
  }

  function MergeMax(stored: Option<real>, excluded: Option<real>): Option<real> {
    Greatest(Coalesce(stored, excluded), Coalesce(excluded, stored))
  }

  /** SQL division by zero is an error; rows always hold at least one sample, so it cannot arise. */
  function MergeAvg(stored: Option<real>, storedCount: int, excluded: Option<real>, excludedCount: int): Option<real>
    requires storedCount > 0 && excludedCount > 0
  {
    match (stored, excluded)
    case (None, _) => excluded
    case (_, None) => stored
    case (Some(x), Some(y)) =>
      Some(Weighted(x, storedCount as real, y, excludedCount as real, (storedCount + excludedCount) as real))
  }

  function Weighted(x: real, m: real, y: real, n: real, k: real): real
    requires k != 0.0
  {
    (x * m + y * n) / k
  }

  function MergeStat(stored: Stat, storedCount: int, excluded: Stat, excludedCount: int): Stat
    requires storedCount > 0 && excludedCount > 0
  {
    Stat(MergeAvg(stored.avg, storedCount, excluded.avg, excludedCount), MergeMax(stored.max, excluded.max))
  }

  function Merge(stored: Row, excluded: Row): (row: Row)
    requires stored.count > 0 && excluded.count > 0
    ensures row.key == stored.key && row.count > 0
  {
    Row(stored.key,
        excluded.gpuName,
        stored.count + excluded.count,
        MergeStat(stored.utilization, stored.count, excluded.utilization, excluded.count),
        MergeStat(stored.memory, stored.count, excluded.memory, excluded.count),
        MergeStat(stored.memoryUsed, stored.count, excluded.memoryUsed, excluded.count),
        MergeStat(stored.power, stored.count, excluded.power, excluded.count),
        MergeMax(stored.maxTemperature, excluded.maxTemperature),
        stored.saturated + excluded.saturated,
        stored.pressured + excluded.pressured)
  }

  // ----- what a stored row has to say about its samples ------------------------------

  ghost predicate AllMissing(values: seq<Option<real>>) {
    forall i :: 0 <= i < |values| ==> values[i].None?
  }

  ghost predicate NoneMissing(values: seq<Option<real>>) {
    forall i :: 0 <= i < |values| ==> values[i].Some?
  }

  /** `m` is the largest present value, or null when there is none. */
  ghost predicate IsMax(values: seq<Option<real>>, m: Option<real>) {
    match m
    case None => AllMissing(values)
    case Some(x) => Some(x) in values && forall v :: Some(v) in values ==> v <= x
  }

  /** `x` lies between two present values, give or take the rounding. */
  ghost predicate Bracketed(values: seq<Option<real>>, x: real) {
    && (exists lo :: Some(lo) in values && lo - 0.0005 <= x)
    && (exists hi :: Some(hi) in values && x <= hi + 0.0005)
  }

  function Total(values: seq<Option<real>>): real {
    Sum(Present(values))
  }

  /** `x` is within `e` of `total / n`, written without a division. */
  ghost predicate Near(total: real, n: real, x: real, e: real) {
    total - e * n <= x * n <= total + e * n
  }

  ghost predicate NearMean(values: seq<Option<real>>, x: real) {
    Near(Total(values), |values| as real, x, 0.0005)
  }

  ghost predicate IsAvg(values: seq<Option<real>>, avg: Option<real>) {
    match avg
    case None => AllMissing(values)
    case Some(x) => Bracketed(values, x) && (NoneMissing(values) ==> NearMean(values, x))
  }

  ghost predicate IsStat(values: seq<Option<real>>, stat: Stat) {
    IsAvg(values, stat.avg) && IsMax(values, stat.max)
  }

  /** `row` says of `items` what one aggregation of all of them would say, averages up to rounding. */
  ghost predicate Summarises(cfg: Config, row: Row, items: seq<Sample>) {
    && items != []
    && row.gpuName == DisplayName(items[|items| - 1], row.key.gpuIndex)
    && row.count == |items|
    && IsStat(Measures(items, Utilization), row.utilization)
    && IsStat(Measures(items, Memory), row.memory)
    && IsStat(Measures(items, MemoryUsed), row.memoryUsed)
    && IsStat(Measures(items, Power), row.power)
    && IsMax(Measures(items, Temperature), row.maxTemperature)
    && row.saturated == CountAtLeast(Measures(items, Utilization), cfg.saturation)
    && row.pressured == CountAtLeast(Measures(items, Memory), cfg.memoryPressure)
  }

  // ----- one batch ------------------------------------------------------------------

  lemma {:induction false} PresentMembers(values: seq<Option<real>>)
    ensures forall v :: v in Present(values) <==> Some(v) in values
    ensures Present(values) == [] <==> AllMissing(values)
    ensures |Present(values)| <= |values|
    ensures NoneMissing(values) ==> |Present(values)| == |values|
  {
    if values != [] {
      var front := values[..|values| - 1];
      PresentMembers(front);
      assert values == front + [values[|values| - 1]];
    }
  }

  lemma {:induction false} LargestIsLargest(xs: seq<real>)
    requires xs != []
    ensures Largest(xs) in xs && forall x :: x in xs ==> x <= Largest(xs)
  {
    if |xs| > 1 {
      LargestIsLargest(xs[..|xs| - 1]);
    }
    assert xs == xs[..|xs| - 1] + [xs[|xs| - 1]];
  }

  lemma MaxIsMax(values: seq<Option<real>>)
    ensures IsMax(values, Max(values))
  {
    PresentMembers(values);
    if Present(values) != [] {
      LargestIsLargest(Present(values));
    }
  }

  lemma {:induction false} SumAtLeast(xs: seq<real>, lo: real, n: real)
    requires n == |xs| as real && forall i :: 0 <= i < |xs| ==> lo <= xs[i]
    ensures lo * n <= Sum(xs)
  {
    if xs == [] {
      assert lo * n == 0.0;
    } else {
      SumAtLeast(xs[..|xs| - 1], lo, n - 1.0);
      OneMore(lo, n);
    }
  }

  lemma {:induction false} SumAtMost(xs: seq<real>, hi: real, n: real)
    requires n == |xs| as real && forall i :: 0 <= i < |xs| ==> xs[i] <= hi
    ensures Sum(xs) <= hi * n
  {
    if xs == [] {
      assert hi * n == 0.0;
    } else {
      SumAtMost(xs[..|xs| - 1], hi, n - 1.0);
      OneMore(hi, n);
    }
  }

  lemma OneMore(x: real, n: real)
    ensures x * n == x * (n - 1.0) + x
  {
  }

  lemma {:induction false} Smallest(xs: seq<real>) returns (lo: real)
    requires xs != []
    ensures lo in xs && forall i :: 0 <= i < |xs| ==> lo <= xs[i]
  {
    var last := xs[|xs| - 1];
    var front := xs[..|xs| - 1];
    assert xs == front + [last];
    lo := last;
    if front != [] {
      var l := Smallest(front);
      lo := if last < l then last else l;
    }
  }

  lemma Scaled(x: real, y: real, n: real)
    requires x <= y && n >= 0.0
    ensures x * n <= y * n
  {
  }

  lemma QuotientBounds(lo: real, sum: real, hi: real, n: real)
    requires n > 0.0 && lo * n <= sum <= hi * n
    ensures lo <= sum / n <= hi
  {
  }

  /** The mean of a non-empty list lies between two of its members. */
  lemma MeanIsBracketed(xs: seq<real>) returns (lo: real, hi: real)
    requires xs != []
    ensures lo in xs && hi in xs
    ensures lo <= Sum(xs) / |xs| as real <= hi
  {
    lo := Smallest(xs);
    hi := Largest(xs);
    LargestIsLargest(xs);
    assert forall i :: 0 <= i < |xs| ==> xs[i] in xs;
    SumAtLeast(xs, lo, |xs| as real);
    SumAtMost(xs, hi, |xs| as real);
    QuotientBounds(lo, Sum(xs), hi, |xs| as real);
  }

  lemma AvgIsAvg(cfg: Config, values: seq<Option<real>>)
    requires Rounds(cfg)
    ensures IsAvg(values, Avg(cfg, values))
  {
    hide Near;
    var clean := Present(values);
    PresentMembers(values);
    if clean != [] {
      var lo, hi := MeanIsBracketed(clean);
      var mean := Sum(clean) / |clean| as real;
      assert Some(lo) in values && Some(hi) in values;
      assert mean - 0.0005 <= cfg.round3(mean) <= mean + 0.0005;
      RoundedQuotient(Sum(clean), |clean| as real, cfg.round3(mean), 0.0005);
    }
  }

  lemma RoundedQuotient(sum: real, n: real, x: real, e: real)
    requires n > 0.0 && sum / n - e <= x <= sum / n + e
    ensures Near(sum, n, x, e)
  {
  }

  /** One batch is aggregated to a row that summarises it. */
  lemma AggregateSummarises(cfg: Config, key: Key, items: seq<Sample>)
    requires Rounds(cfg) && items != []
    ensures Summarises(cfg, Aggregate(cfg, key, items), items)
  {
    forall m: Metric
      ensures IsStat(Measures(items, m), StatOf(cfg, items, m)) && IsMax(Measures(items, m), Max(Measures(items, m)))
    {
      AvgIsAvg(cfg, Measures(items, m));
      MaxIsMax(Measures(items, m));
    }
  }

  // ----- merging two batches ------------------------------------------------------------

  lemma {:induction false} PresentOfConcat(a: seq<Option<real>>, b: seq<Option<real>>)
    ensures Present(a + b) == Present(a) + Present(b)
  {
    if b == [] {
      assert a + b == a;
    } else {
      PresentOfConcat(a, b[..|b| - 1]);
      assert (a + b)[..|a + b| - 1] == a + b[..|b| - 1];
    }
  }

  lemma {:induction false} SumOfConcat(xs: seq<real>, ys: seq<real>)
    ensures Sum(xs + ys) == Sum(xs) + Sum(ys)
  {
    if ys == [] {
      assert xs + ys == xs;
    } else {
      SumOfConcat(xs, ys[..|ys| - 1]);
      assert (xs + ys)[..|xs + ys| - 1] == xs + ys[..|ys| - 1];
    }
  }

  lemma {:induction false} CountOfConcat(a: seq<Option<real>>, b: seq<Option<real>>, threshold: real)
    ensures CountAtLeast(a + b, threshold) == CountAtLeast(a, threshold) + CountAtLeast(b, threshold)
  {
    if b == [] {
      assert a + b == a;
    } else {
      CountOfConcat(a, b[..|b| - 1], threshold);
      assert (a + b)[..|a + b| - 1] == a + b[..|b| - 1];
    }
  }

  lemma MergeMaxIsMax(a: seq<Option<real>>, b: seq<Option<real>>, m: Option<real>, n: Option<real>)
    requires IsMax(a, m) && IsMax(b, n)
    ensures IsMax(a + b, MergeMax(m, n))
  {
  }

  ghost predicate IsWeighted(x: real, m: real, y: real, n: real, k: real, z: real) {
    z * k == x * m + y * n
  }

  /** A weighted mean lies between its two ends. */
  lemma WeightedMean(x: real, m: real, y: real, n: real, k: real) returns (z: real)
    requires m > 0.0 && n > 0.0 && k == m + n
    ensures z == Weighted(x, m, y, n, k)
    ensures IsWeighted(x, m, y, n, k, z)
    ensures x <= y ==> x <= z <= y
    ensures y <= x ==> y <= z <= x
  {
    z := Weighted(x, m, y, n, k);
    var lo := if x <= y then x else y;
    var hi := if x <= y then y else x;
    Scaled(lo, x, m);
    Scaled(lo, y, n);
    Scaled(x, hi, m);
    Scaled(y, hi, n);
    assert lo * k == lo * m + lo * n;
    assert hi * k == hi * m + hi * n;
    QuotientBounds(lo, x * m + y * n, hi, k);
  }

  /** A bracket of either part is a bracket of the whole, and so is anything between two brackets. */
  lemma BracketedBetween(a: seq<Option<real>>, b: seq<Option<real>>, x: real, y: real, z: real)
    requires Bracketed(a, x) && Bracketed(b, y)
    requires x <= z <= y || y <= z <= x
    ensures Bracketed(a + b, z)
  {
  }

  lemma BracketedInConcat(a: seq<Option<real>>, b: seq<Option<real>>, x: real)
    requires Bracketed(a, x) || Bracketed(b, x)
    ensures Bracketed(a + b, x)
  {
  }

  lemma AllMissingOrNot(a: seq<Option<real>>, b: seq<Option<real>>)
    ensures AllMissing(a + b) <==> AllMissing(a) && AllMissing(b)
    ensures NoneMissing(a + b) <==> NoneMissing(a) && NoneMissing(b)
  {
    var c := a + b;
    assert forall i :: 0 <= i < |a| ==> c[i] == a[i];
    assert forall i :: 0 <= i < |b| ==> c[|a| + i] == b[i];
  }

  /** The rounding error does not grow: the merge of two averages is again within one rounding. */
  lemma MergeAvgIsAvg(a: seq<Option<real>>, b: seq<Option<real>>, avgA: Option<real>, avgB: Option<real>)
    requires a != [] && b != []
    requires IsAvg(a, avgA) && IsAvg(b, avgB)
    ensures IsAvg(a + b, MergeAvg(avgA, |a|, avgB, |b|))
  {
    AllMissingOrNot(a, b);
    match (avgA, avgB)
    case (None, None) =>
    case (None, Some(y)) =>
      assert a[0].None?;
      BracketedInConcat(a, b, y);
    case (Some(x), None) =>
      assert b[0].None?;
      BracketedInConcat(a, b, x);
    case (Some(x), Some(y)) =>
      MergePresent(a, b, x, y);
  }

  lemma MergePresent(a: seq<Option<real>>, b: seq<Option<real>>, x: real, y: real)
    requires a != [] && b != []
    requires IsAvg(a, Some(x)) && IsAvg(b, Some(y))
    ensures IsAvg(a + b, MergeAvg(Some(x), |a|, Some(y), |b|))
  {
    AllMissingOrNot(a, b);
    var z := WeightedMean(x, |a| as real, y, |b| as real, (|a| + |b|) as real);
    BracketedBetween(a, b, x, y, z);
    if NoneMissing(a + b) {
      NearMeanOfConcat(a, b, x, y, z);
    }
  }

  lemma NearMeanOfConcat(a: seq<Option<real>>, b: seq<Option<real>>, x: real, y: real, z: real)
    requires NearMean(a, x) && NearMean(b, y)
    requires IsWeighted(x, |a| as real, y, |b| as real, (|a| + |b|) as real, z)
    ensures NearMean(a + b, z)
  {
    hide Near, Total, IsWeighted;
    TotalOfConcat(a, b);
    NearSums(Total(a), |a| as real, x, Total(b), |b| as real, y, (|a| + |b|) as real, z, 0.0005);
  }

  lemma NearSums(s: real, m: real, x: real, t: real, n: real, y: real, k: real, z: real, e: real)
    requires Near(s, m, x, e) && Near(t, n, y, e)
    requires k == m + n && IsWeighted(x, m, y, n, k, z)
    ensures Near(s + t, k, z, e)
  {
  }

  lemma MeasuresOfConcat(a: seq<Sample>, b: seq<Sample>, m: Metric)
    ensures Measures(a + b, m) == Measures(a, m) + Measures(b, m)
  {
  }

  lemma MergeStatIsStat(a: seq<Sample>, b: seq<Sample>, m: Metric, p: Stat, q: Stat)
    requires a != [] && b != []
    requires IsStat(Measures(a, m), p) && IsStat(Measures(b, m), q)
    ensures IsStat(Measures(a + b, m), MergeStat(p, |a|, q, |b|))
  {
    MeasuresOfConcat(a, b, m);
    MergeAvgIsAvg(Measures(a, m), Measures(b, m), p.avg, q.avg);
    MergeMaxIsMax(Measures(a, m), Measures(b, m), p.max, q.max);
  }

  /** The ON CONFLICT merge of two summaries summarises the samples of both. */
  lemma MergeSummarises(cfg: Config, p: Row, a: seq<Sample>, q: Row, b: seq<Sample>)
    requires p.key == q.key
    requires Summarises(cfg, p, a) && Summarises(cfg, q, b)
    ensures Summarises(cfg, Merge(p, q), a + b)
  {
    hide IsStat, IsMax, MergeStat, MergeMax, CountAtLeast, Measures, DisplayName;
    MergeStatIsStat(a, b, Utilization, p.utilization, q.utilization);
    MergeStatIsStat(a, b, Memory, p.memory, q.memory);
    MergeStatIsStat(a, b, MemoryUsed, p.memoryUsed, q.memoryUsed);
    MergeStatIsStat(a, b, Power, p.power, q.power);
    MeasuresOfConcat(a, b, Temperature);
    MergeMaxIsMax(Measures(a, Temperature), Measures(b, Temperature), p.maxTemperature, q.maxTemperature);
    MeasuresOfConcat(a, b, Utilization);
    MeasuresOfConcat(a, b, Memory);
    CountOfConcat(Measures(a, Utilization), Measures(b, Utilization), cfg.saturation);
    CountOfConcat(Measures(a, Memory), Measures(b, Memory), cfg.memoryPressure);
  }

  // ----- what a summary pins down --------------------------------------------------------

  function StatFor(row: Row, m: Metric): Stat
    requires m != Temperature
  {
    match m
    case Utilization => row.utilization
    case Memory => row.memory
    case MemoryUsed => row.memoryUsed
    case Power => row.power
  }

  /** With no value missing, a stored average is within one rounding of the exact mean of every sample. */
  lemma StoredMean(cfg: Config, row: Row, items: seq<Sample>, m: Metric)
    requires m != Temperature && Summarises(cfg, row, items) && NoneMissing(Measures(items, m))
    ensures StatFor(row, m).avg.Some?
    ensures var mean := Total(Measures(items, m)) / |items| as real;
            mean - 0.0005 <= StatFor(row, m).avg.value <= mean + 0.0005
  {
    var values := Measures(items, m);
    var stat := StatFor(row, m);
    assert IsStat(values, stat);
    assert values[0].Some?;
    NearAsQuotient(Total(values), |values| as real, stat.avg.value, 0.0005);
  }

  /**
   * Whatever is missing, and however often it was merged, a stored average is null exactly when every value was missing,
   * and otherwise lies between the smallest and the largest present value, give or take one rounding.
   */
  lemma StoredAverage(cfg: Config, row: Row, items: seq<Sample>, m: Metric)
    requires m != Temperature && Summarises(cfg, row, items)
    ensures var values, avg := Measures(items, m), StatFor(row, m).avg;
            && (avg.None? <==> AllMissing(values))
            && (avg.Some? ==>
                  exists lo, hi :: Some(lo) in values && Some(hi) in values && lo - 0.0005 <= avg.value <= hi + 0.0005)
  {
  }

  lemma NearAsQuotient(total: real, n: real, x: real, e: real)
    requires n > 0.0 && Near(total, n, x, e)
    ensures total / n - e <= x <= total / n + e
  {
  }

  /** Two rows that summarise the same samples differ in nothing but the averages. */
  lemma SummariesAgree(cfg: Config, p: Row, q: Row, items: seq<Sample>, m: Metric)
    requires p.key == q.key && Summarises(cfg, p, items) && Summarises(cfg, q, items)
    ensures p.gpuName == q.gpuName && p.count == q.count && p.saturated == q.saturated && p.pressured == q.pressured
    ensures p.maxTemperature == q.maxTemperature
    ensures m != Temperature ==> StatFor(p, m).max == StatFor(q, m).max
    ensures m != Temperature ==> (StatFor(p, m).avg.None? <==> StatFor(q, m).avg.None?)
  {
  }

  // ----- a summary on the fields of the samples ---------------------------------------------

  /** A value reaches a threshold; a missing one stands for zero. */
  ghost predicate Reaches(v: Option<real>, threshold: real) {
    match v
    case None => threshold <= 0.0
    case Some(x) => threshold <= x
  }

  ghost function Reaching(values: seq<Option<real>>, threshold: real): set<int> {
    set i | 0 <= i < |values| && Reaches(values[i], threshold)
  }

  lemma {:induction false} CountIsReaching(values: seq<Option<real>>, threshold: real)
    ensures CountAtLeast(values, threshold) == |Reaching(values, threshold)|
  {
    if values != [] {
      var n := |values| - 1;
      CountIsReaching(values[..n], threshold);
      assert n !in Reaching(values[..n], threshold);
      assert Reaching(values, threshold)
          == Reaching(values[..n], threshold) + if Reaches(values[n], threshold) then {n} else {};
    }
  }

  /** The memory utilization of a sample: reported, or worked out from a total that is known and not zero, or missing. */
  ghost predicate IsMemoryPercent(s: Sample, v: Option<real>) {
    match (s.memoryUtilization, s.memoryTotalMb)
    case (Some(x), _) => v == Some(x)
    case (None, Some(total)) =>
      if total == 0 then v == None
      else v.Some? && v.value * total as real == 100.0 * (if s.memoryUsedMb.Some? then s.memoryUsedMb.value as real else 0.0)
    case (None, None) => v == None
  }

  ghost function FieldValues(items: seq<Sample>, field: Sample -> Option<real>): seq<Option<real>> {
    seq(|items|, i requires 0 <= i < |items| => field(items[i]))
  }

  /** What a row that summarises samples says of each of their fields. */
  lemma SummaryByFields(cfg: Config, row: Row, items: seq<Sample>) returns (memory: seq<Option<real>>)
    requires Summarises(cfg, row, items)
    ensures var name := items[|items| - 1].gpuName;
            row.gpuName == if name.Some? && name.value != "" then name.value else "GPU " + Decimal.Text(row.key.gpuIndex)
    ensures IsStat(FieldValues(items, (s: Sample) => s.gpuUtilization), row.utilization)
    ensures row.saturated == |Reaching(FieldValues(items, (s: Sample) => s.gpuUtilization), cfg.saturation)|
    ensures |memory| == |items| && forall i :: 0 <= i < |items| ==> IsMemoryPercent(items[i], memory[i])
    ensures IsStat(memory, row.memory) && row.pressured == |Reaching(memory, cfg.memoryPressure)|
    ensures IsStat(
      FieldValues(items, (s: Sample) => if s.memoryUsedMb.Some? then Some(s.memoryUsedMb.value as real) else None),
      row.memoryUsed)
    ensures IsStat(FieldValues(items, (s: Sample) => s.powerDraw), row.power)
    ensures IsMax(FieldValues(items, (s: Sample) => s.temperature), row.maxTemperature)
  {
    memory := Measures(items, Memory);
    CountIsReaching(Measures(items, Utilization), cfg.saturation);
    CountIsReaching(memory, cfg.memoryPressure);
    hide IsStat, IsMax, CountAtLeast, Reaching;
    assert Measures(items, Utilization) == FieldValues(items, (s: Sample) => s.gpuUtilization);
    assert Measures(items, MemoryUsed) == FieldValues(
      items, (s: Sample) => if s.memoryUsedMb.Some? then Some(s.memoryUsedMb.value as real) else None);
    assert Measures(items, Power) == FieldValues(items, (s: Sample) => s.powerDraw);
    assert Measures(items, Temperature) == FieldValues(items, (s: Sample) => s.temperature);
    forall i | 0 <= i < |items|
      ensures IsMemoryPercent(items[i], memory[i])
    {
      MemoryPercentIs(items[i]);
    }
  }

  lemma MemoryPercentIs(s: Sample)
    ensures IsMemoryPercent(s, MemoryPercent(s))
  {
    if s.memoryUtilization.None? && s.memoryTotalMb.Some? && s.memoryTotalMb.value != 0 {
      PercentOf(s.memoryUsedMb.GetOr(0) as real, s.memoryTotalMb.value as real);
    }
  }

  lemma PercentOf(used: real, total: real)
    requires total != 0.0
    ensures used / total * 100.0 * total == 100.0 * used
  {
    var q := used / total;
    assert q * total == used;
    assert q * 100.0 * total == 100.0 * (q * total);
  }

  lemma {:induction false} TotalOfConcat(a: seq<Option<real>>, b: seq<Option<real>>)
    ensures Present(a + b) == Present(a) + Present(b)
    ensures Total(a + b) == Total(a) + Total(b)
  {
    PresentOfConcat(a, b);
    SumOfConcat(Present(a), Present(b));
  }
}
