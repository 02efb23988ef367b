/** Which average the hourly row holds when values are missing, and when that is the mean of those that are there. */
module RollupMeans {
  import opened Prelude
  import opened Rollup
  import opened MetricsStore

  // ----- what any number of flushes stores ------------------------------------------

  predicate NonEmpty(flushes: seq<seq<Option<real>>>) {
    forall i :: 0 <= i < |flushes| ==> flushes[i] != []
  }

  /** The values of all flushes, in order. */
  function Flat(flushes: seq<seq<Option<real>>>): (values: seq<Option<real>>)
    ensures flushes != [] && NonEmpty(flushes) ==> values != []
  {
    if flushes == [] then [] else Flat(flushes[..|flushes| - 1]) + flushes[|flushes| - 1]
  }

  /** The average that is stored after the flushes of one hour, each given by its values of one quantity. */
  function StoredBy(cfg: Config, flushes: seq<seq<Option<real>>>): Option<real>
    requires flushes != [] && NonEmpty(flushes)
  {
    var front, last := flushes[..|flushes| - 1], flushes[|flushes| - 1];
    if front == [] then Avg(cfg, last)
    else MergeAvg(StoredBy(cfg, front), |Flat(front)|, Avg(cfg, last), |last|)
  }

  lemma {:induction false} FlatOneMore(front: seq<seq<Option<real>>>, last: seq<Option<real>>)
    ensures Flat(front + [last]) == Flat(front) + last
  {
    assert (front + [last])[..|front|] == front;
  }

  lemma {:induction false} StoredOneMore(cfg: Config, front: seq<seq<Option<real>>>, last: seq<Option<real>>)
    requires NonEmpty(front) && last != []
    ensures NonEmpty(front + [last])
    ensures StoredBy(cfg, front + [last])
         == if front == [] then Avg(cfg, last) else MergeAvg(StoredBy(cfg, front), |Flat(front)|, Avg(cfg, last), |last|)
  {
    assert (front + [last])[..|front|] == front;
  }

  // ----- rounding and exact averages ----------------------------------------------------

  /** No rounding at all. */
  const EXACT := Config(0.0, 0.0, (x: real) => x)

  function Shift(v: Option<real>, e: real): Option<real> {
    if v.Some? then Some(v.value + e) else None
  }

  ghost predicate Within(x: real, y: real) {
    y - 0.0005 <= x <= y + 0.0005
  }

  ghost predicate BothWithin(a: Option<real>, b: Option<real>) {
    (a.Some? <==> b.Some?) && (a.Some? ==> Within(a.value, b.value))
  }

  lemma MergeShift(a: Option<real>, m: int, b: Option<real>, n: int, e: real)
    requires m > 0 && n > 0
    ensures MergeAvg(Shift(a, e), m, Shift(b, e), n) == Shift(MergeAvg(a, m, b, n), e)
  {
    hide Weighted;
    if a.Some? && b.Some? {
      ShiftedMean(a.value, m as real, b.value, n as real, (m + n) as real, e);
    }
  }

  lemma ShiftedMean(x: real, m: real, y: real, n: real, k: real, e: real)
    requires m > 0.0 && n > 0.0 && k == m + n
    ensures Weighted(x + e, m, y + e, n, k) == Weighted(x, m, y, n, k) + e
  {
    assert (x + e) * m + (y + e) * n == (x * m + y * n) + e * k;
    assert e * k / k == e;
  }

  lemma MergeWithin(a: Option<real>, b: Option<real>, m: int, c: Option<real>, d: Option<real>, n: int)
    requires m > 0 && n > 0 && BothWithin(a, b) && BothWithin(c, d)
    ensures BothWithin(MergeAvg(a, m, c, n), MergeAvg(b, m, d, n))
  {
    hide Weighted;
    if a.Some? && c.Some? {
      var k := (m + n) as real;
      var x, y := b.value, d.value;
      WeightedMonotonic(x - 0.0005, a.value, m as real, y - 0.0005, c.value, n as real, k);
      WeightedMonotonic(a.value, x + 0.0005, m as real, c.value, y + 0.0005, n as real, k);
      ShiftedMean(x, m as real, y, n as real, k, -0.0005);
      ShiftedMean(x, m as real, y, n as real, k, 0.0005);
    }
  }

  lemma WeightedMonotonic(x: real, u: real, m: real, y: real, v: real, n: real, k: real)
    requires m > 0.0 && n > 0.0 && k == m + n && x <= u && y <= v
    ensures Weighted(x, m, y, n, k) <= Weighted(u, m, v, n, k)
  {
    Scaled(x, u, m);
    Scaled(y, v, n);
    DividedMonotonic(x * m + y * n, u * m + v * n, k);
  }

  lemma DividedMonotonic(p: real, q: real, k: real)
    requires k > 0.0 && p <= q
    ensures p / k <= q / k
  {
    assert p / k * k == p && q / k * k == q;
    QuotientBounds(p / k, q, q / k, k);
  }

  /** Rounding every average by the same amount shifts the stored one by it. */
  lemma {:induction false} StoredShifted(cfg: Config, flushes: seq<seq<Option<real>>>, e: real)
    requires flushes != [] && NonEmpty(flushes) && forall x :: cfg.round3(x) == x + e
    ensures StoredBy(cfg, flushes) == Shift(StoredBy(EXACT, flushes), e)
  {
    var front, last := flushes[..|flushes| - 1], flushes[|flushes| - 1];
    assert Avg(cfg, last) == Shift(Avg(EXACT, last), e);
    if front != [] {
      StoredShifted(cfg, front, e);
      hide Avg, MergeAvg;
      MergeShift(StoredBy(EXACT, front), |Flat(front)|, Avg(EXACT, last), |last|, e);
    }
  }

  /** However the averages are rounded, the stored one is within one rounding of the exact merge. */
  lemma {:induction false} StoredWithin(cfg: Config, flushes: seq<seq<Option<real>>>)
    requires flushes != [] && NonEmpty(flushes) && Rounds(cfg)
    ensures BothWithin(StoredBy(cfg, flushes), StoredBy(EXACT, flushes))
  {
    var front, last := flushes[..|flushes| - 1], flushes[|flushes| - 1];
    assert BothWithin(Avg(cfg, last), Avg(EXACT, last));
    if front != [] {
      StoredWithin(cfg, front);
      hide Avg, MergeAvg, BothWithin;
      MergeWithin(
        StoredBy(cfg, front), StoredBy(EXACT, front), |Flat(front)|, Avg(cfg, last), Avg(EXACT, last), |last|);
    }
  }

  lemma {:induction false} StoredSomeExactly(cfg: Config, flushes: seq<seq<Option<real>>>)
    requires flushes != [] && NonEmpty(flushes)
    ensures StoredBy(cfg, flushes).Some? <==> Present(Flat(flushes)) != []
  {
    var front, last := flushes[..|flushes| - 1], flushes[|flushes| - 1];
    PresentOfConcat(Flat(front), last);
    if front != [] {
      StoredSomeExactly(cfg, front);
    }
  }

  /** The stored average is within one rounding of the mean of all values that are present. */
  ghost predicate StoredIsMean(cfg: Config, flushes: seq<seq<Option<real>>>) {
    && flushes != [] && NonEmpty(flushes) && Present(Flat(flushes)) != []
    && StoredBy(cfg, flushes).Some?
    && Within(StoredBy(cfg, flushes).value, MeanOfPresent(Flat(flushes)))
  }

  /** Without rounding the stored average is exactly that mean, null when there is none. */
  ghost predicate ExactIsMean(flushes: seq<seq<Option<real>>>)
    requires flushes != [] && NonEmpty(flushes)
  {
    StoredBy(EXACT, flushes) == Avg(EXACT, Flat(flushes))
  }

  /** The mean of the values that are present. */
  function MeanOfPresent(values: seq<Option<real>>): real
    requires Present(values) != []
  {
    Total(values) / |Present(values)| as real
  }

  /** The stored average is within one rounding of the mean, however the averages are rounded, exactly if no rounding gives it. */
  lemma {:induction false} StoredIsMeanExactly(saturation: real, memoryPressure: real, flushes: seq<seq<Option<real>>>)
    requires flushes != [] && NonEmpty(flushes) && Present(Flat(flushes)) != []
    ensures (forall round3 :: var cfg := Config(saturation, memoryPressure, round3);
              Rounds(cfg) ==> StoredIsMean(cfg, flushes))
            <==> ExactIsMean(flushes)
  {
    var up, down := Config(saturation, memoryPressure, x => x + 0.0005), Config(saturation, memoryPressure, x => x - 0.0005);
    assert Rounds(up) && Rounds(down);
    StoredShifted(up, flushes, 0.0005);
    StoredShifted(down, flushes, -0.0005);
    StoredSomeExactly(EXACT, flushes);
    assert Avg(EXACT, Flat(flushes)) == Some(MeanOfPresent(Flat(flushes)));
    hide Present, MeanOfPresent, Avg, StoredBy, Flat;
    assert StoredIsMean(up, flushes) && StoredIsMean(down, flushes) ==> ExactIsMean(flushes);
    forall round3 | Rounds(Config(saturation, memoryPressure, round3)) && ExactIsMean(flushes)
      ensures StoredIsMean(Config(saturation, memoryPressure, round3), flushes)
    {
      StoredWithin(Config(saturation, memoryPressure, round3), flushes);
    }
  }

  // ----- one more flush -----------------------------------------------------------------

  /** `p` of `m` is the same share as `q` of `n`. */
  predicate SameShare(p: int, m: int, q: int, n: int) {
    p * n == q * m
  }

  /** If both have values present, they have them for the same share of their samples. */
  predicate Shares(a: seq<Option<real>>, b: seq<Option<real>>) {
    Present(a) != [] && Present(b) != [] ==> SameShare(|Present(a)|, |a|, |Present(b)|, |b|)
  }

  /** If both have values present, these have the same mean, or the same share of the samples. */
  predicate Agrees(a: seq<Option<real>>, b: seq<Option<real>>) {
    Present(a) != [] && Present(b) != [] && !Shares(a, b) ==> MeanOfPresent(a) == MeanOfPresent(b)
  }

  /** Merging the exact means of two lists gives the exact mean of both together exactly if the two agree. */
  lemma MergeExactly(a: seq<Option<real>>, b: seq<Option<real>>)
    requires a != [] && b != []
    ensures MergeAvg(Avg(EXACT, a), |a|, Avg(EXACT, b), |b|) == Avg(EXACT, a + b) <==> Agrees(a, b)
  {
    TotalOfConcat(a, b);
    ExactAvg(a);
    ExactAvg(b);
    ExactAvg(a + b);
    hide Avg, Total, MeanOfPresent, Weighted, SameShare;
    if Present(a) != [] && Present(b) != [] {
      WeightsCompared(a, b);
    } else if Present(a) == [] {
      assert Present(a + b) == Present(b);
      SamePresent(a + b, b);
    } else {
      assert Present(a + b) == Present(a);
      SamePresent(a + b, a);
    }
  }

  lemma {:induction false} ExactAvg(values: seq<Option<real>>)
    ensures Avg(EXACT, values) == if Present(values) == [] then None else Some(MeanOfPresent(values))
  {
  }

  lemma {:induction false} SamePresent(a: seq<Option<real>>, b: seq<Option<real>>)
    requires Present(a) == Present(b)
    ensures Avg(EXACT, a) == Avg(EXACT, b)
  {
  }

  /** A stored average that is off stays off when a list with the same share is merged in. */
  lemma {:induction false} MergeStaysOff(a: seq<Option<real>>, x: Option<real>, b: seq<Option<real>>)
    requires a != [] && b != [] && Shares(a, b)
    requires x != Avg(EXACT, a) && (x.Some? <==> Present(a) != [])
    ensures MergeAvg(x, |a|, Avg(EXACT, b), |b|) != Avg(EXACT, a + b)
  {
    ExactAvg(a);
    MergeExactly(a, b);
    hide Avg, MeanOfPresent, Weighted, SameShare, Present;
    if Avg(EXACT, b).Some? {
      WeightedDiffers(
        x.value, Avg(EXACT, a).value, |a| as real, Avg(EXACT, b).value, |b| as real, (|a| + |b|) as real);
    }
  }

  lemma WeightedDiffers(x: real, u: real, m: real, y: real, n: real, k: real)
    requires m > 0.0 && n > 0.0 && k == m + n && x != u
    ensures Weighted(x, m, y, n, k) != Weighted(u, m, y, n, k)
  {
    var v, w := Weighted(x, m, y, n, k), Weighted(u, m, y, n, k);
    assert v * k == x * m + y * n && w * k == u * m + y * n;
    assert (x - u) * m == (v - w) * k;
    NonZero(x - u, m);
  }

  lemma NonZero(a: real, b: real)
    requires a != 0.0 && b != 0.0
    ensures a * b != 0.0
  {
  }

  /** The weights compared: the exact merge is the exact mean if and only if the means or the shares agree. */
  lemma {:induction false} WeightsCompared(a: seq<Option<real>>, b: seq<Option<real>>)
    requires Present(a) != [] && Present(b) != []
    ensures Present(a + b) != []
    ensures Weighted(MeanOfPresent(a), |a| as real, MeanOfPresent(b), |b| as real, (|a| + |b|) as real)
              == MeanOfPresent(a + b)
            <==> MeanOfPresent(a) == MeanOfPresent(b) || SameShare(|Present(a)|, |a|, |Present(b)|, |b|)
  {
    TotalOfConcat(a, b);
    assert a != [] && b != [];
    hide Weighted, Total, Present, MeanOfPresent, IsMean, SameShare;
    IsItsMean(a);
    IsItsMean(b);
    IsItsMean(a + b);
    SharesCompared(
      MeanOfPresent(a), Total(a), |Present(a)|, |a|,
      MeanOfPresent(b), Total(b), |Present(b)|, |b|,
      MeanOfPresent(a + b), Total(a + b), |Present(a + b)|);
  }

  /** `x` is the mean of `n` values that add up to `total`. */
  ghost predicate IsMean(x: real, total: real, n: int) {
    x * n as real == total
  }

  lemma {:induction false} IsItsMean(values: seq<Option<real>>)
    requires Present(values) != []
    ensures IsMean(MeanOfPresent(values), Total(values), |Present(values)|)
  {
    hide Present, Total;
  }

  lemma SharesCompared(x: real, s: real, p: int, m: int, y: real, t: real, q: int, n: int, z: real, u: real, r: int)
    requires p > 0 && q > 0 && m > 0 && n > 0 && u == s + t && r == p + q
    requires IsMean(x, s, p) && IsMean(y, t, q) && IsMean(z, u, r)
    ensures Weighted(x, m as real, y, n as real, (m + n) as real) == z <==> x == y || SameShare(p, m, q, n)
  {
    RatioCompared(x, y, z, p as real, q as real, m as real, n as real, (m + n) as real, r as real);
    ProductsAsReals(p, m, q, n);
  }

  lemma ProductsAsReals(p: int, m: int, q: int, n: int)
    ensures SameShare(p, m, q, n) <==> p as real * n as real == q as real * m as real
  {
  }

  lemma RatioCompared(x: real, y: real, z: real, p: real, q: real, m: real, n: real, k: real, l: real)
    requires p > 0.0 && q > 0.0 && m > 0.0 && n > 0.0 && k == m + n && l == p + q
    requires z * l == x * p + y * q
    ensures Weighted(x, m, y, n, k) == z <==> x == y || p * n == q * m
  {
  }

  // ----- any number of flushes ------------------------------------------------------------

  /** Every flush agrees with all flushes before it taken together. */
  predicate AllAgree(flushes: seq<seq<Option<real>>>) {
    flushes == [] ||
    var front := flushes[..|flushes| - 1];
    AllAgree(front) && Agrees(Flat(front), flushes[|flushes| - 1])
  }

  /** Every flush with values present has them for the same share of its samples as all flushes before it together. */
  predicate AllShare(flushes: seq<seq<Option<real>>>) {
    flushes == [] ||
    var front := flushes[..|flushes| - 1];
    AllShare(front) && Shares(Flat(front), flushes[|flushes| - 1])
  }

  lemma {:induction false} AgreeingIsExact(flushes: seq<seq<Option<real>>>)
    requires flushes != [] && NonEmpty(flushes) && AllAgree(flushes)
    ensures ExactIsMean(flushes)
  {
    var front, last := flushes[..|flushes| - 1], flushes[|flushes| - 1];
    if front == [] {
      assert Flat(flushes) == last;
    } else {
      AgreeingIsExact(front);
      hide Avg, MergeAvg, Agrees;
      MergeExactly(Flat(front), last);
    }
  }

  /** If every flush agrees with those before it, what is stored is within one rounding of the mean. */
  lemma {:induction false} AgreeingFlushesStoreTheMean(cfg: Config, flushes: seq<seq<Option<real>>>)
    requires Rounds(cfg) && flushes != [] && NonEmpty(flushes) && AllAgree(flushes) && Present(Flat(flushes)) != []
    ensures StoredIsMean(cfg, flushes)
  {
    AgreeingIsExact(flushes);
    StoredWithin(cfg, flushes);
    ExactAvg(Flat(flushes));
  }

  lemma {:induction false} TwoFlushes(cfg: Config, a: seq<Option<real>>, b: seq<Option<real>>)
    requires a != [] && b != []
    ensures NonEmpty([a, b]) && Flat([a, b]) == a + b
    ensures StoredBy(cfg, [a, b]) == MergeAvg(Avg(cfg, a), |a|, Avg(cfg, b), |b|)
  {
    hide Avg, MergeAvg;
    assert [a, b][..1] == [a] && [a][..0] == [];
    assert Flat([a]) == a;
  }

  /** For two flushes with values present, agreement is not only enough: it is what the result amounts to. */
  lemma {:induction false} TwoFlushesExactly(saturation: real, memoryPressure: real, a: seq<Option<real>>, b: seq<Option<real>>)
    requires Present(a) != [] && Present(b) != []
    ensures (forall round3 :: var cfg := Config(saturation, memoryPressure, round3);
              Rounds(cfg) ==> StoredIsMean(cfg, [a, b]))
            <==> Agrees(a, b)
  {
    assert a != [] && b != [];
    PresentOfConcat(a, b);
    hide Avg, MergeAvg, Agrees, Present, Flat, StoredBy, StoredIsMean;
    TwoFlushes(EXACT, a, b);
    StoredIsMeanExactly(saturation, memoryPressure, [a, b]);
    MergeExactly(a, b);
  }

  // ----- patterns of missing values ---------------------------------------------------------

  ghost predicate SameShape(a: seq<Option<real>>, b: seq<Option<real>>) {
    |a| == |b| && forall i :: 0 <= i < |a| ==> (a[i].Some? <==> b[i].Some?)
  }

  /** The two histories have values missing at the same places. */
  ghost predicate SamePattern(a: seq<seq<Option<real>>>, b: seq<seq<Option<real>>>) {
    |a| == |b| && forall i :: 0 <= i < |a| ==> SameShape(a[i], b[i])
  }

  lemma {:induction false} ShapeCounts(a: seq<Option<real>>, b: seq<Option<real>>)
    requires SameShape(a, b)
    ensures |Present(a)| == |Present(b)|
  {
    if a != [] {
      ShapeCounts(a[..|a| - 1], b[..|b| - 1]);
    }
  }

  lemma {:induction false} FlatShape(a: seq<seq<Option<real>>>, b: seq<seq<Option<real>>>)
    requires SamePattern(a, b)
    ensures SameShape(Flat(a), Flat(b))
  {
    if a != [] {
      FlatShape(a[..|a| - 1], b[..|b| - 1]);
    }
  }

  lemma SharesOfShape(a: seq<Option<real>>, b: seq<Option<real>>, u: seq<Option<real>>, v: seq<Option<real>>)
    requires SameShape(a, u) && SameShape(b, v)
    ensures Shares(a, b) <==> Shares(u, v)
  {
    ShapeCounts(a, u);
    ShapeCounts(b, v);
  }

  lemma {:induction false} AllShareOfPattern(a: seq<seq<Option<real>>>, b: seq<seq<Option<real>>>)
    requires SamePattern(a, b)
    ensures AllShare(a) <==> AllShare(b)
  {
    if a != [] {
      var n := |a| - 1;
      AllShareOfPattern(a[..n], b[..n]);
      FlatShape(a[..n], b[..n]);
      hide SameShape, Shares;
      SharesOfShape(Flat(a[..n]), a[n], Flat(b[..n]), b[n]);
    }
  }

  lemma {:induction false} SharingAgrees(flushes: seq<seq<Option<real>>>)
    requires AllShare(flushes)
    ensures AllAgree(flushes)
  {
    if flushes != [] {
      SharingAgrees(flushes[..|flushes| - 1]);
    }
  }

  /** The same list with every present value replaced by `v`. */
  function Fill(values: seq<Option<real>>, v: real): (filled: seq<Option<real>>)
    ensures SameShape(filled, values)
  {
    seq(|values|, i requires 0 <= i < |values| => if values[i].Some? then Some(v) else None)
  }

  function FillAll(flushes: seq<seq<Option<real>>>, v: real): (filled: seq<seq<Option<real>>>)
    ensures SamePattern(filled, flushes)
  {
    seq(|flushes|, i requires 0 <= i < |flushes| => Fill(flushes[i], v))
  }

  lemma FillTotal(values: seq<Option<real>>, v: real)
    ensures Total(Fill(values, v)) == v * |Present(Fill(values, v))| as real
  {
    hide Present, Sum;
    PresentMembers(Fill(values, v));
    assert forall x :: Some(x) in Fill(values, v) ==> x == v;
    hide Fill;
    SumOfSame(Present(Fill(values, v)), v);
  }

  lemma {:induction false} SumOfSame(xs: seq<real>, v: real)
    requires forall x :: x in xs ==> x == v
    ensures Sum(xs) == v * |xs| as real
  {
    hide Sum;
    assert forall i :: 0 <= i < |xs| ==> xs[i] in xs;
    SumAtLeast(xs, v, |xs| as real);
    SumAtMost(xs, v, |xs| as real);
  }

  lemma FillMean(values: seq<Option<real>>, v: real)
    requires Present(Fill(values, v)) != []
    ensures MeanOfPresent(Fill(values, v)) == v
  {
    FillTotal(values, v);
    hide Total, Present, Fill;
    Cancel(v, |Present(Fill(values, v))| as real);
  }

  lemma Cancel(v: real, n: real)
    requires n != 0.0
    ensures v * n / n == v
  {
  }

  lemma {:induction false} FlatFill(flushes: seq<seq<Option<real>>>, v: real)
    ensures Flat(FillAll(flushes, v)) == Fill(Flat(flushes), v)
  {
    if flushes != [] {
      var n := |flushes| - 1;
      FlatFill(flushes[..n], v);
      assert FillAll(flushes, v)[..n] == FillAll(flushes[..n], v);
    }
  }

  lemma {:induction false} FilledAgrees(flushes: seq<seq<Option<real>>>, v: real)
    ensures AllAgree(FillAll(flushes, v))
  {
    if flushes != [] {
      var n := |flushes| - 1;
      FilledAgrees(flushes[..n], v);
      assert FillAll(flushes, v)[..n] == FillAll(flushes[..n], v);
      FlatFill(flushes[..n], v);
      var a, b := Fill(Flat(flushes[..n]), v), Fill(flushes[n], v);
      if Present(a) != [] && Present(b) != [] {
        FillMean(Flat(flushes[..n]), v);
        FillMean(flushes[n], v);
      }
    }
  }

  /** Zeros before and ones in the last flush: if that one has another share, the exact merge is not the mean. */
  lemma ZerosThenOnes(front: seq<seq<Option<real>>>, last: seq<Option<real>>) returns (values: seq<seq<Option<real>>>)
    requires front != [] && NonEmpty(front) && last != [] && !Shares(Flat(front), last)
    ensures NonEmpty(values) && SamePattern(values, front + [last]) && !ExactIsMean(values)
  {
    var zeros, ones := FillAll(front, 0.0), Fill(last, 1.0);
    values := zeros + [ones];
    FilledAgrees(front, 0.0);
    AgreeingIsExact(zeros);
    FlatFill(front, 0.0);
    SharesOfShape(Flat(front), last, Flat(zeros), ones);
    FillMean(Flat(front), 0.0);
    FillMean(last, 1.0);
    assert !Agrees(Flat(zeros), ones);
    hide Avg, MergeAvg, Agrees, Shares, Fill, FillAll;
    MergeExactly(Flat(zeros), ones);
    StoredOneMore(EXACT, zeros, ones);
    FlatOneMore(zeros, ones);
    assert SameShape(ones, last) && SamePattern(zeros, front);
  }

  /** A pattern in which some flush has another share has values for which the exact merge is not the mean. */
  lemma {:induction false} SomeValuesMiss(flushes: seq<seq<Option<real>>>) returns (values: seq<seq<Option<real>>>)
    requires flushes != [] && NonEmpty(flushes) && !AllShare(flushes)
    ensures values != [] && NonEmpty(values) && SamePattern(values, flushes) && !ExactIsMean(values)
  {
    var front, last := flushes[..|flushes| - 1], flushes[|flushes| - 1];
    SplitLast(flushes);
    assert front != [];
    if !Shares(Flat(front), last) {
      values := ZerosThenOnes(front, last);
    } else {
      var before := SomeValuesMiss(front);
      values := before + [last];
      FlatShape(before, front);
      SharesOfShape(Flat(before), last, Flat(front), last);
      StoredSomeExactly(EXACT, before);
      StoredOneMore(EXACT, before, last);
      FlatOneMore(before, last);
      hide Avg, MergeAvg, Shares, AllShare, Flat, StoredBy, SameShape;
      MergeStaysOff(Flat(before), StoredBy(EXACT, before), last);
      SameShapeItself(last);
    }
  }

  lemma SameShapeItself(a: seq<Option<real>>)
    ensures SameShape(a, a)
  {
  }

  lemma {:induction false} PatternHasValues(values: seq<seq<Option<real>>>, flushes: seq<seq<Option<real>>>)
    requires SamePattern(values, flushes) && flushes != [] && NonEmpty(flushes)
    ensures values != [] && NonEmpty(values)
    ensures Present(Flat(values)) != [] <==> Present(Flat(flushes)) != []
  {
    FlatShape(values, flushes);
    ShapeCounts(Flat(values), Flat(flushes));
    assert forall i :: 0 <= i < |values| ==> SameShape(values[i], flushes[i]);
  }

  // ----- main result ----------------------------------------------------------------------------

  /**
   * With values missing the merge weighs a flush by all its samples, not by the present ones. For a pattern of missing
   * values, over any number of flushes: whatever the values and however the averages are rounded, what is stored is
   * within one rounding of the mean of all present values, exactly if every flush with values present has them for the
   * same share of its samples as all flushes before it together.
   */
  lemma {:induction false} MergedMeanIsMeanOfPresent(saturation: real, memoryPressure: real, flushes: seq<seq<Option<real>>>)
    requires flushes != [] && NonEmpty(flushes) && Present(Flat(flushes)) != []
    ensures (forall values, round3 :: SamePattern(values, flushes) && Rounds(Config(saturation, memoryPressure, round3)) ==>
              StoredIsMean(Config(saturation, memoryPressure, round3), values))
            <==> AllShare(flushes)
  {
    if AllShare(flushes) {
      forall values, round3 | SamePattern(values, flushes) && Rounds(Config(saturation, memoryPressure, round3))
        ensures StoredIsMean(Config(saturation, memoryPressure, round3), values)
      {
        PatternHasValues(values, flushes);
        AllShareOfPattern(values, flushes);
        SharingAgrees(values);
        AgreeingFlushesStoreTheMean(Config(saturation, memoryPressure, round3), values);
      }
    } else {
      var values := SomeValuesMiss(flushes);
      PatternHasValues(values, flushes);
      StoredIsMeanExactly(saturation, memoryPressure, values);
    }
  }

  /** Two flushes of one hour, the first of two samples with one value missing: 33.3 is stored where the mean is 50. */
  lemma MergedMeanMisses(saturation: real, memoryPressure: real)
    ensures var flushes := [[Some(0.0), None], [Some(100.0)]];
            && NonEmpty(flushes) && Present(Flat(flushes)) == [0.0, 100.0] && MeanOfPresent(Flat(flushes)) == 50.0
            && StoredBy(Config(saturation, memoryPressure, Round3), flushes) == Some(100.0 / 3.0)
            && !StoredIsMean(Config(saturation, memoryPressure, Round3), flushes)
  {
    var cfg := Config(saturation, memoryPressure, Round3);
    var a: seq<Option<real>>, b: seq<Option<real>> := [Some(0.0), None], [Some(100.0)];
    TwoFlushes(cfg, a, b);
    hide Flat, StoredBy, Present, Round3, Sum;
    WitnessPresent();
    PresentOfConcat(a, b);
    RoundedExtremes(cfg);
    MergedExtremes();
    hide MergeAvg;
  }

  /**
   * Three flushes, the first with no value at all: 25 is stored where the mean is 50, although the two flushes that have
   * values have them for all their samples. What went missing earlier weighs on every later merge.
   */
  lemma EarlierMissingWeighs(saturation: real, memoryPressure: real)
    ensures var flushes := [[None, None], [Some(0.0)], [Some(100.0)]];
            && NonEmpty(flushes) && Present(Flat(flushes)) == [0.0, 100.0] && MeanOfPresent(Flat(flushes)) == 50.0
            && Agrees(flushes[0], flushes[1]) && Shares(flushes[1], flushes[2])
            && StoredBy(Config(saturation, memoryPressure, Round3), flushes) == Some(25.0)
            && !StoredIsMean(Config(saturation, memoryPressure, Round3), flushes)
  {
    var cfg := Config(saturation, memoryPressure, Round3);
    var a: seq<Option<real>>, b: seq<Option<real>>, c: seq<Option<real>> := [None, None], [Some(0.0)], [Some(100.0)];
    TwoFlushes(cfg, a, b);
    StoredOneMore(cfg, [a, b], c);
    FlatOneMore([a, b], c);
    assert [a, b] + [c] == [a, b, c];
    hide Flat, StoredBy, Present, Round3, Sum;
    WitnessPresent();
    PresentOfConcat(a, b);
    PresentOfConcat(a + b, c);
    RoundedExtremes(cfg);
    MergedExtremes();
    hide MergeAvg;
  }

  lemma MergedExtremes()
    ensures MergeAvg(Some(0.0), 2, Some(100.0), 1) == Some(100.0 / 3.0)
    ensures MergeAvg(None, 2, Some(0.0), 1) == Some(0.0) && MergeAvg(Some(0.0), 3, Some(100.0), 1) == Some(25.0)
  {
  }

  lemma WitnessPresent()
    ensures Present([None, None]) == [] && Present([Some(0.0), None]) == [0.0]
    ensures Present([Some(0.0)]) == [0.0] && Present([Some(100.0)]) == [100.0]
  {
    var none: seq<Option<real>>, half: seq<Option<real>> := [None, None], [Some(0.0), None];
    assert none[..1] == [None] && half[..1] == [Some(0.0)];
    assert Present([None]) == [] && Present([Some(0.0)]) == [0.0];
  }

  lemma RoundedExtremes(cfg: Config)
    requires cfg.round3 == Round3
    ensures cfg.round3(Sum([0.0]) / 1.0) == 0.0 && cfg.round3(Sum([100.0]) / 1.0) == 100.0
    ensures Sum([0.0, 100.0]) / 2.0 == 50.0
  {
    assert [0.0, 100.0][..1] == [0.0];
    assert Sum([0.0]) == 0.0 && Sum([100.0]) == 100.0;
  }

  // ----- the hourly rows ------------------------------------------------------------------------

  /** What each flush has of one bucket and quantity, leaving out the flushes with no sample of the bucket. */
  function FlushValues(batches: seq<Batch>, k: Key, m: Metric): seq<seq<Option<real>>> {
    if batches == [] then []
    else
      var items := Bucket(batches[0].samples, k);
      (if items == [] then [] else [Measures(items, m)]) + FlushValues(batches[1..], k, m)
  }

  /** The row of a key, if there is one, holds the count and the average of the flushes so far. */
  ghost predicate HoldsAverage(cfg: Config, t: Tables, k: Key, m: Metric, flushes: seq<seq<Option<real>>>)
    requires m != Temperature
  {
    && NonEmpty(flushes)
    && (k in t.rollups <==> flushes != [])
    && (k in t.rollups ==>
          t.rollups[k].count == |Flat(flushes)| && StatFor(t.rollups[k], m).avg == StoredBy(cfg, flushes))
  }

  lemma {:induction false} FlushHoldsAverage(
    cfg: Config, policy: Policy, t: Tables, samples: seq<Sample>, now: int, k: Key, m: Metric,
    flushes: seq<seq<Option<real>>>)
    requires m != Temperature && WellKeyed(t.rollups) && samples != []
    requires HoldsAverage(cfg, t, k, m, flushes) && k.bucketStart >= now - policy.rollupRetention
    ensures var items := Bucket(samples, k);
            HoldsAverage(cfg, Flushed(cfg, policy, t, samples, now), k, m,
                         flushes + if items == [] then [] else [Measures(items, m)])
  {
    var items := Bucket(samples, k);
    var u := Flushed(cfg, policy, t, samples, now);
    if items == [] {
      assert flushes + [] == flushes;
      assert k in u.rollups <==> k in t.rollups;
    } else {
      var values := Measures(items, m);
      StoredOneMore(cfg, flushes, values);
      FlatOneMore(flushes, values);
      if flushes == [] {
        assert Flat(flushes) + values == values;
      }
      hide Avg, Max, MergeMax, MergeAvg, Keys, Bucket, DisplayName, CountAtLeast;
    }
  }

  lemma {:induction false} LastIsLast(batches: seq<Batch>, since: int)
    requires InOrder(batches, since)
    ensures LastNow(batches, since) >= since
  {
    if batches != [] {
      LastIsLast(batches[1..], batches[0].now);
    }
  }

  lemma {:induction false} FlushesHoldAverage(
    cfg: Config, policy: Policy, t: Tables, since: int, batches: seq<Batch>, k: Key, m: Metric,
    flushes: seq<seq<Option<real>>>)
    requires m != Temperature && WellKeyed(t.rollups) && InOrder(batches, since)
    requires HoldsAverage(cfg, t, k, m, flushes)
    requires k.bucketStart >= LastNow(batches, since) - policy.rollupRetention
    ensures HoldsAverage(cfg, FlushAll(cfg, policy, t, batches), k, m, flushes + FlushValues(batches, k, m))
    decreases |batches|
  {
    if batches == [] {
      assert flushes + [] == flushes;
    } else {
      var b := batches[0];
      var items := Bucket(b.samples, k);
      var added := if items == [] then [] else [Measures(items, m)];
      LastIsLast(batches[1..], b.now);
      hide HoldsAverage, Flushed, Bucket;
      FlushHoldsAverage(cfg, policy, t, b.samples, b.now, k, m, flushes);
      FlushesHoldAverage(
        cfg, policy, Flushed(cfg, policy, t, b.samples, b.now), b.now, batches[1..], k, m, flushes + added);
      ConcatAssociative(flushes, added, FlushValues(batches[1..], k, m));
    }
  }

  lemma {:induction false} FlatConcat(a: seq<seq<Option<real>>>, b: seq<seq<Option<real>>>)
    ensures Flat(a + b) == Flat(a) + Flat(b)
  {
    if b == [] {
      assert a + b == a;
    } else {
      FlatConcat(a, b[..|b| - 1]);
      JoinedLast(a, b[..|b| - 1], b[|b| - 1]);
      SplitLast(b);
    }
  }

  lemma {:induction false} JoinedLast(a: seq<seq<Option<real>>>, front: seq<seq<Option<real>>>, last: seq<Option<real>>)
    requires Flat(a + front) == Flat(a) + Flat(front)
    ensures Flat(a + (front + [last])) == Flat(a) + Flat(front + [last])
  {
    hide Flat;
    FlatOneMore(front, last);
    FlatOneMore(a + front, last);
    ConcatAssociative(a, front, [last]);
    ConcatAssociative(Flat(a), Flat(front), last);
  }

  /** The values of all flushes of a bucket are those of all its samples. */
  lemma {:induction false} FlushValuesAreAll(batches: seq<Batch>, k: Key, m: Metric)
    ensures Flat(FlushValues(batches, k, m)) == Measures(Bucket(Stream(batches), k), m)
  {
    if batches != [] {
      var items, rest := Bucket(batches[0].samples, k), batches[1..];
      var own := if items == [] then [] else [Measures(items, m)];
      FlushValuesAreAll(rest, k, m);
      BucketOfConcat(batches[0].samples, Stream(rest), k);
      MeasuresOfConcat(items, Bucket(Stream(rest), k), m);
      FlatConcat(own, FlushValues(rest, k, m));
      FlatOneMore([], Measures(items, m));
      hide Bucket, Stream, Measure;
      assert [] + [Measures(items, m)] == [Measures(items, m)];
      assert Flat(own) == Measures(items, m);
    }
  }

  /** From empty tables, every hourly row inside the horizon holds the average its flushes store, of all its samples. */
  lemma {:induction false} RowsHoldStoredAverage(cfg: Config, policy: Policy, since: int, batches: seq<Batch>, k: Key, m: Metric)
    requires m != Temperature && InOrder(batches, since)
    requires k.bucketStart >= LastNow(batches, since) - policy.rollupRetention
    ensures HoldsAverage(cfg, FlushAll(cfg, policy, Tables([], map[]), batches), k, m, FlushValues(batches, k, m))
    ensures Flat(FlushValues(batches, k, m)) == Measures(Bucket(Stream(batches), k), m)
  {
    FlushValuesAreAll(batches, k, m);
    hide FlushAll, FlushValues;
    FlushesHoldAverage(cfg, policy, Tables([], map[]), since, batches, k, m, []);
    assert [] + FlushValues(batches, k, m) == FlushValues(batches, k, m);
  }
}
