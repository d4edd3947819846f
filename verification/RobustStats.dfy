/**
 The sample statistics of `benchmarks/src/benchmark_support.cpp`: interpolated quantiles and the
 trimmed mean, over reals.
 */
module RobustStats {
  import opened Wrappers
  import opened Numbers
  import opened Sorting

  datatype Error = EmptySample | NonFiniteSample

  // ----- Quantiles -----

  function Ceiling(x: real): int {
    if x.Floor as real == x then x.Floor else x.Floor + 1
  }

  /** Linear interpolation at a position between the first and the last index. */
  function Interpolate(s: seq<real>, position: real): real
    requires s != [] && 0.0 <= position <= (|s| - 1) as real
  {
    var lower, upper := position.Floor, Ceiling(position);
    var weight := position - lower as real;
    s[lower] * (1.0 - weight) + s[upper] * weight
  }

  /** `q * (n - 1)`, by repeated addition; `PositionIsProduct` ties it to the product. */
  function Position(n: nat, q: real): (p: real)
    requires n > 0 && 0.0 <= q <= 1.0
    ensures 0.0 <= p <= (n - 1) as real
  {
    if n == 1 then 0.0 else Position(n - 1, q) + q
  }

  lemma {:induction false} PositionIsProduct(n: nat, q: real)
    requires n > 0 && 0.0 <= q <= 1.0
    ensures Position(n, q) == q * (n - 1) as real
  {
    if n > 1 { PositionIsProduct(n - 1, q); }
  }

  lemma {:induction false} PositionMonotone(n: nat, q: real, q': real)
    requires n > 0 && 0.0 <= q <= q' <= 1.0
    ensures Position(n, q) <= Position(n, q')
  {
    if n > 1 { PositionMonotone(n - 1, q, q'); }
  }

  function Quantile(s: seq<real>, q: real): Result<real, Error>
    requires 0.0 <= q <= 1.0
  {
    if s == [] then Err(EmptySample) else Ok(Interpolate(s, Position(|s|, q)))
  }

  /** An interpolated value lies between its two neighbours, and grows with the position between them. */
  lemma {:induction false} Between(a: real, b: real, v: real, w: real)
    requires a <= b && 0.0 <= v <= w <= 1.0
    ensures a <= a * (1.0 - v) + b * v <= a * (1.0 - w) + b * w <= b
  {
    assert a * (1.0 - v) + b * v == a + v * (b - a);
    assert a * (1.0 - w) + b * w == a + w * (b - a);
    Scale(b - a, v, w);
    Scale(b - a, w, 1.0);
    Scale(b - a, 0.0, v);
  }

  lemma {:induction false} Scale(c: real, x: real, y: real)
    requires c >= 0.0 && x <= y
    ensures x * c <= y * c
  {
  }

  lemma {:induction false} InterpolateWithin(s: seq<real>, p: real)
    requires s != [] && Ascending(s) && 0.0 <= p <= (|s| - 1) as real
    ensures s[p.Floor] <= Interpolate(s, p) <= s[Ceiling(p)]
  {
    Between(s[p.Floor], s[Ceiling(p)], p - p.Floor as real, p - p.Floor as real);
  }

  lemma {:induction false} InterpolateMonotone(s: seq<real>, p: real, p': real)
    requires s != [] && Ascending(s) && 0.0 <= p <= p' <= (|s| - 1) as real
    ensures Interpolate(s, p) <= Interpolate(s, p')
  {
    InterpolateWithin(s, p);
    InterpolateWithin(s, p');
    if p.Floor < p'.Floor {
      assert Ceiling(p) <= p'.Floor;
    } else if p.Floor as real != p {
      var l := p.Floor;
      Between(s[l], s[l + 1], p - l as real, p' - l as real);
    }
  }

  /** Quantiles of an ascending sample grow with `q` and stay between its ends. */
  lemma {:induction false} QuantileMonotone(s: seq<real>, q: real, q': real)
    requires s != [] && Ascending(s) && 0.0 <= q <= q' <= 1.0
    ensures s[0] <= Quantile(s, q).value <= Quantile(s, q').value <= s[|s| - 1]
  {
    PositionMonotone(|s|, q, q');
    PositionsMonotone(s, Position(|s|, q), Position(|s|, q'));
  }

  lemma {:induction false} PositionsMonotone(s: seq<real>, p: real, p': real)
    requires s != [] && Ascending(s) && 0.0 <= p <= p' <= (|s| - 1) as real
    ensures s[0] <= Interpolate(s, p) <= Interpolate(s, p') <= s[|s| - 1]
  {
    InterpolateMonotone(s, p, p');
    InterpolateWithin(s, p);
    InterpolateWithin(s, p');
  }

  // ----- Trimmed mean -----

  function Trim(n: nat): nat {
    if n >= 5 then (if n / 10 > 1 then n / 10 else 1) else 0
  }

  lemma {:induction false} TrimLeavesSome(n: nat)
    requires n > 0
    ensures 2 * Trim(n) < n
  {
  }

  function Total(s: seq<real>): real {
    if s == [] then 0.0 else Total(s[..|s| - 1]) + s[|s| - 1]
  }

  function TrimmedMean(sorted: seq<real>): real
    requires sorted != []
  {
    var t := Trim(|sorted|);
    TrimLeavesSome(|sorted|);
    var kept := sorted[t..|sorted| - t];
    Total(kept) / |kept| as real
  }

  lemma {:induction false} TotalWithin(s: seq<real>, lo: real, hi: real)
    requires forall i :: 0 <= i < |s| ==> lo <= s[i] <= hi
    ensures |s| as real * lo <= Total(s) <= |s| as real * hi
  {
    if s != [] {
      var n := |s| - 1;
      TotalWithin(s[..n], lo, hi);
      assert |s| as real * lo == n as real * lo + lo;
      assert |s| as real * hi == n as real * hi + hi;
    }
  }

  lemma {:induction false} MeanWithin(s: seq<real>, lo: real, hi: real)
    requires s != [] && forall i :: 0 <= i < |s| ==> lo <= s[i] <= hi
    ensures lo <= Total(s) / |s| as real <= hi
  {
    TotalWithin(s, lo, hi);
    DivideBounds(Total(s), |s| as real, lo, hi);
  }

  lemma {:induction false} DivideBounds(x: real, n: real, lo: real, hi: real)
    requires n > 0.0 && n * lo <= x <= n * hi
    ensures lo <= x / n <= hi
  {
    var q := x / n;
    assert q * n == x;
    if q < lo { StrictScale(n, q, lo); }
    if q > hi { StrictScale(n, hi, q); }
  }

  lemma {:induction false} StrictScale(n: real, x: real, y: real)
    requires n > 0.0 && x < y
    ensures n * x < n * y
  {
  }

  // ----- Robustness -----

  function Below(x: real): real -> bool { v => v < x }

  function Above(x: real): real -> bool { v => v > x }

  lemma {:induction false} SelectSize(keep: real -> bool, s: seq<real>, t: seq<real>)
    requires multiset(s) == multiset(t)
    ensures |Select(keep, s)| == |Select(keep, t)|
  {
    SelectPermutation(keep, s, t);
    assert |Select(keep, s)| == |multiset(Select(keep, s))|;
    assert |Select(keep, t)| == |multiset(Select(keep, t))|;
  }

  /** The positions before `n` whose sample satisfies `keep`. */
  ghost function Hits(keep: real -> bool, s: seq<real>, n: nat): set<nat>
    requires n <= |s|
  {
    set i: nat | i < n && keep(s[i])
  }

  lemma {:induction false} SelectCountsHits(keep: real -> bool, s: seq<real>, n: nat)
    requires n <= |s|
    ensures |Select(keep, s[..n])| == |Hits(keep, s, n)|
  {
    if n == 0 {
      assert Hits(keep, s, 0) == {};
    } else {
      var m := n - 1;
      SelectCountsHits(keep, s, m);
      assert s[..n] == s[..m] + [s[m]];
      SelectAppend(keep, s[..m], [s[m]]);
      if keep(s[m]) {
        assert Hits(keep, s, n) == Hits(keep, s, m) + {m};
      } else {
        assert Hits(keep, s, n) == Hits(keep, s, m);
      }
    }
  }

  lemma {:induction false} SubsetSize(a: set<nat>, b: set<nat>)
    requires a <= b
    ensures |a| <= |b|
  {
    assert b == a + (b - a);
  }

  /** If fewer than `k` samples satisfy `keep`, then fewer than `k` positions of the sorted sample do. */
  lemma {:induction false} FewHits(keep: real -> bool, s: seq<real>, touched: set<nat>, positions: set<nat>)
    requires forall i: nat :: i < |s| && keep(s[i]) ==> i in touched
    requires forall i: nat :: i in positions ==> i < |s| && keep(SortReals(s)[i])
    ensures |positions| <= |touched|
  {
    var sorted := SortReals(s);
    SelectCountsHits(keep, s, |s|);
    SelectCountsHits(keep, sorted, |s|);
    assert s[..|s|] == s && sorted[..|s|] == sorted;
    SelectSize(keep, s, sorted);
    SubsetSize(Hits(keep, s, |s|), touched);
    SubsetSize(positions, Hits(keep, sorted, |s|));
  }

  ghost function Range(from: nat, end: nat): (r: set<nat>)
    requires from <= end
    ensures |r| == end - from && forall i: nat :: i in r <==> from <= i < end
    decreases end - from
  {
    if from == end then {} else Range(from, end - 1) + {end - 1}
  }

  /** With at most `t` arbitrary samples, the order statistics at least `t` from either end are bounded. */
  lemma {:induction false} OrderStatisticWithin(s: seq<real>, touched: set<nat>, t: nat, k: nat, lo: real, hi: real)
    requires |touched| <= t && t <= k && k + t < |s|
    requires forall i: nat :: i < |s| && i !in touched ==> lo <= s[i] <= hi
    ensures lo <= SortReals(s)[k] <= hi
  {
    NotBelow(s, touched, k, lo);
    NotAbove(s, touched, k, hi);
  }

  lemma {:induction false} NotBelow(s: seq<real>, touched: set<nat>, k: nat, lo: real)
    requires |touched| <= k < |s|
    requires forall i: nat :: i < |s| && i !in touched ==> lo <= s[i]
    ensures lo <= SortReals(s)[k]
  {
    var sorted := SortReals(s);
    if sorted[k] < lo {
      var positions := Range(0, k + 1);
      forall i: nat | i in positions ensures i < |s| && Below(lo)(sorted[i]) { }
      FewHits(Below(lo), s, touched, positions);
    }
  }

  lemma {:induction false} NotAbove(s: seq<real>, touched: set<nat>, k: nat, hi: real)
    requires k + |touched| < |s|
    requires forall i: nat :: i < |s| && i !in touched ==> s[i] <= hi
    ensures SortReals(s)[k] <= hi
  {
    var sorted := SortReals(s);
    if sorted[k] > hi {
      var positions := Range(k, |s|);
      forall i: nat | i in positions ensures i < |s| && Above(hi)(sorted[i]) { }
      FewHits(Above(hi), s, touched, positions);
    }
  }

  /**
   However many samples up to the trim count are replaced by arbitrary values, the trimmed mean
   stays between the least and the greatest untouched sample.
   */
  lemma {:induction false} TrimmedMeanIsRobust(s: seq<real>, touched: set<nat>, lo: real, hi: real)
    requires s != [] && |touched| <= Trim(|s|)
    requires forall i: nat :: i < |s| && i !in touched ==> lo <= s[i] <= hi
    ensures lo <= TrimmedMean(SortReals(s)) <= hi
  {
    var n, t, sorted := |s|, Trim(|s|), SortReals(s);
    TrimLeavesSome(n);
    forall i | t <= i < n - t ensures lo <= sorted[i] <= hi { OrderStatisticWithin(s, touched, t, i, lo, hi); }
    TrimmedMeanWithin(sorted, lo, hi);
  }

  /** The trimmed mean lies between any bounds of the samples it keeps. */
  lemma {:induction false} TrimmedMeanWithin(sorted: seq<real>, lo: real, hi: real)
    requires sorted != [] && forall i :: Trim(|sorted|) <= i < |sorted| - Trim(|sorted|) ==> lo <= sorted[i] <= hi
    ensures lo <= TrimmedMean(sorted) <= hi
  {
    TrimLeavesSome(|sorted|);
    MeanWithin(sorted[Trim(|sorted|)..|sorted| - Trim(|sorted|)], lo, hi);
  }

  // ----- The summary -----

  datatype Stats = Stats(count: nat, minimum: real, p10: real, median: real, p90: real, maximum: real,
                         mad: real, trimmedMean: real)

  function Distance(x: real, y: real): real { if x < y then y - x else x - y }

  function Deviations(s: seq<real>, center: real): seq<real> {
    seq(|s|, i requires 0 <= i < |s| => Distance(s[i], center))
  }

  function StatsOf(samples: seq<real>): Stats
    requires samples != []
  {
    var s := SortReals(samples);
    var median := Quantile(s, 0.5).value;
    Stats(|s|, s[0], Quantile(s, 0.1).value, median, Quantile(s, 0.9).value, s[|s| - 1],
          Quantile(SortReals(Deviations(s, median)), 0.5).value, TrimmedMean(s))
  }

  /** Refuses an empty or a non-finite sample; otherwise copies and sorts it and fills the record. */
  method Summarize(samples: seq<Number>) returns (r: Result<Stats, Error>)
    ensures r == if samples == [] then Err(EmptySample)
                 else if !AllFinite(samples) then Err(NonFiniteSample)
                 else Ok(StatsOf(Values(samples)))
  {
    if samples == [] { return Err(EmptySample); }
    var finite, values := ReadFinite(samples);
    if !finite { return Err(NonFiniteSample); }
    var sorted := SortReals(values);
    var median := Quantile(sorted, 0.5).value;
    var deviations := AbsoluteDeviations(sorted, median);
    var mad := Quantile(SortReals(deviations), 0.5).value;
    var mean := MeanWithoutTails(sorted);
    r := Ok(Stats(|sorted|, sorted[0], Quantile(sorted, 0.1).value, median, Quantile(sorted, 0.9).value,
                  sorted[|sorted| - 1], mad, mean));
  }

  method AbsoluteDeviations(sorted: seq<real>, center: real) returns (deviations: seq<real>)
    ensures deviations == Deviations(sorted, center)
  {
    deviations := [];
    for i := 0 to |sorted|
      invariant deviations == Deviations(sorted, center)[..i]
    {
      deviations := deviations + [Distance(sorted[i], center)];
    }
  }

  method MeanWithoutTails(sorted: seq<real>) returns (mean: real)
    requires sorted != []
    ensures mean == TrimmedMean(sorted)
  {
    var t := Trim(|sorted|);
    TrimLeavesSome(|sorted|);
    var sum := SumRange(sorted, t, |sorted| - t);
    mean := sum / (|sorted| - 2 * t) as real;
  }

  /** `std::accumulate`. */
  method SumRange(s: seq<real>, first: nat, last: nat) returns (sum: real)
    requires first <= last <= |s|
    ensures sum == Total(s[first..last])
  {
    sum := 0.0;
    for i := first to last
      invariant sum == Total(s[first..i])
    {
      assert s[first..i + 1][..i - first] == s[first..i];
      sum := sum + s[i];
    }
  }

  /** The five order statistics come out in order. */
  lemma {:induction false} SummaryIsOrdered(samples: seq<real>)
    requires samples != []
    ensures var st := StatsOf(samples); st.minimum <= st.p10 <= st.median <= st.p90 <= st.maximum
  {
    var s := SortReals(samples);
    QuantileMonotone(s, 0.1, 0.5);
    QuantileMonotone(s, 0.5, 0.9);
  }

  /** The ends are samples, and they enclose every sample and the trimmed mean. */
  lemma {:induction false} SummaryEnclosesSamples(samples: seq<real>)
    requires samples != []
    ensures var st := StatsOf(samples);
      && st.count == |samples| && st.minimum in samples && st.maximum in samples
      && (forall x :: x in samples ==> st.minimum <= x <= st.maximum)
      && st.minimum <= st.trimmedMean <= st.maximum
  {
    EndsAndMean(samples);
    Enclosed(samples, StatsOf(samples));
  }

  lemma {:induction false} Enclosed(samples: seq<real>, st: Stats)
    requires samples != []
    requires var s := SortReals(samples);
      && st.count == |samples| && st.minimum == s[0] && st.maximum == s[|s| - 1]
      && st.trimmedMean == TrimmedMean(s)
    ensures st.count == |samples| && st.minimum in samples && st.maximum in samples
    ensures forall x :: x in samples ==> st.minimum <= x <= st.maximum
    ensures st.minimum <= st.trimmedMean <= st.maximum
  {
    var s := SortReals(samples);
    assert s[0] <= TrimmedMean(s) <= s[|s| - 1] by { MeanIsBetweenEnds(s); }
    SortedEncloses(samples);
  }

  lemma {:induction false} MeanIsBetweenEnds(s: seq<real>)
    requires s != [] && Ascending(s)
    ensures s[0] <= TrimmedMean(s) <= s[|s| - 1]
  {
    TrimmedMeanWithin(s, s[0], s[|s| - 1]);
  }

  lemma {:induction false} EndsAndMean(samples: seq<real>)
    requires samples != []
    ensures var st, s := StatsOf(samples), SortReals(samples);
      && st.count == |samples| && st.minimum == s[0] && st.maximum == s[|s| - 1]
      && st.trimmedMean == TrimmedMean(s)
  {
  }

  lemma {:induction false} SortedEncloses(samples: seq<real>)
    requires samples != []
    ensures var s := SortReals(samples);
      && s[0] in samples && s[|s| - 1] in samples
      && (forall x :: x in samples ==> s[0] <= x <= s[|s| - 1])
      && (forall i: nat :: i < |samples| ==> s[0] <= samples[i] <= s[|s| - 1])
  {
    var s := SortReals(samples);
    assert s[0] in multiset(s) && s[|s| - 1] in multiset(s);
    forall x | x in samples ensures s[0] <= x <= s[|s| - 1] { assert x in multiset(s); }
    assert forall i: nat :: i < |samples| ==> samples[i] in samples;
  }

  /** The median absolute deviation is a median of distances, hence never negative. */
  lemma {:induction false} MadIsNotNegative(samples: seq<real>)
    requires samples != []
    ensures StatsOf(samples).mad >= 0.0
  {
    var s := SortReals(samples);
    MiddleOfNonNegative(Deviations(s, Quantile(s, 0.5).value));
  }

  lemma {:induction false} MiddleOfNonNegative(d: seq<real>)
    requires d != [] && forall i :: 0 <= i < |d| ==> d[i] >= 0.0
    ensures Quantile(SortReals(d), 0.5).value >= 0.0
  {
    SortedEncloses(d);
    QuantileMonotone(SortReals(d), 0.5, 0.5);
  }

  /** A summary does not depend on the order in which samples were taken. */
  lemma {:induction false} SummaryIgnoresOrder(a: seq<real>, b: seq<real>)
    requires a != [] && multiset(a) == multiset(b)
    ensures b != [] && StatsOf(a) == StatsOf(b)
  {
    assert |b| == |multiset(b)| && |a| == |multiset(a)|;
    AscendingIsUnique(SortReals(a), SortReals(b));
  }
}
