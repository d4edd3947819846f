/**
 The statistics against their textbook meaning: the middle quantile is the median, quantiles at
 whole positions are samples, the deviation is a median of distances, and the trimmed mean is what
 remains of the total.
 */
module StatsLaws {
  import opened Sorting
  import opened RobustStats

  // ----- Quantiles -----

  /** Between two neighbouring samples the quantile moves in proportion to the position. */
  lemma {:induction false} InterpolationIsLinear(s: seq<real>, k: nat, v: real)
    requires k + 1 < |s| && 0.0 <= v <= 1.0
    ensures Interpolate(s, k as real + v) == s[k] * (1.0 - v) + s[k + 1] * v
  {
    if v == 1.0 {
      assert (k as real + v).Floor == k + 1;
    } else {
      assert (k as real + v).Floor == k;
    }
  }

  /** At a whole position the quantile is the sample there. */
  lemma {:induction false} AtIndex(s: seq<real>, k: nat)
    requires k < |s|
    ensures Interpolate(s, k as real) == s[k]
  {
    assert (k as real).Floor == k;
  }

  lemma {:induction false} HalfIsMiddle(s: seq<real>)
    requires s != []
    ensures Quantile(s, 0.5).value == Middle(s)
  {
    var n := |s|;
    var k := n / 2;
    PositionIsProduct(n, 0.5);
    if n % 2 == 1 {
      assert Position(n, 0.5) == k as real;
      AtIndex(s, k);
    } else {
      assert Position(n, 0.5) == (k - 1) as real + 0.5;
      InterpolationIsLinear(s, k - 1, 0.5);
    }
  }

  /** The reported median is the median. */
  lemma {:induction false} MedianIsMedian(samples: seq<real>)
    requires samples != []
    ensures StatsOf(samples).median == Median(samples)
  {
    HalfIsMiddle(SortReals(samples));
  }

  /** The value `x` tenths of an index into the samples, linear between neighbours. */
  ghost function AtTenths(s: seq<real>, x: nat): real
    requires s != [] && x <= 10 * (|s| - 1)
  {
    var k, rest := x / 10, (x % 10) as real / 10.0;
    if x % 10 == 0 then s[k] else s[k] * (1.0 - rest) + s[k + 1] * rest
  }

  lemma {:induction false} PositionInTenths(s: seq<real>, x: nat, position: real)
    requires s != [] && x <= 10 * (|s| - 1) && 10.0 * position == x as real
    ensures 0.0 <= position <= (|s| - 1) as real && Interpolate(s, position) == AtTenths(s, x)
  {
    assert x == 10 * (x / 10) + x % 10;
    assert x as real == 10.0 * (x / 10) as real + (x % 10) as real;
    BetweenIndices(s, position, x / 10, (x % 10) as real / 10.0);
  }

  lemma {:induction false} BetweenIndices(s: seq<real>, position: real, k: nat, rest: real)
    requires k < |s| && position == k as real + rest && 0.0 <= rest < 1.0 && (rest > 0.0 ==> k + 1 < |s|)
    ensures Interpolate(s, position) == if rest == 0.0 then s[k] else s[k] * (1.0 - rest) + s[k + 1] * rest
  {
    if rest == 0.0 { AtIndex(s, k); } else { InterpolationIsLinear(s, k, rest); }
  }

  /**
   The reported percentiles lie one tenth and nine tenths of the way from the first index to the last
   of the ascending samples.
   */
  lemma {:induction false} PercentilesAreTenths(samples: seq<real>)
    requires samples != []
    ensures var s := SortReals(samples); var last := |s| - 1;
      StatsOf(samples).p10 == AtTenths(s, last) && StatsOf(samples).p90 == AtTenths(s, 9 * last)
  {
    var s := SortReals(samples);
    PositionIsProduct(|s|, 0.1);
    PositionIsProduct(|s|, 0.9);
    PositionInTenths(s, |s| - 1, Position(|s|, 0.1));
    PositionInTenths(s, 9 * (|s| - 1), Position(|s|, 0.9));
  }

  // ----- Deviations -----

  function AwayFrom(samples: seq<real>, center: real): seq<real> {
    seq(|samples|, i requires 0 <= i < |samples| =>
      if samples[i] >= center then samples[i] - center else center - samples[i])
  }

  /** The deviation is the median distance of the samples, in any order, from their median. */
  lemma {:induction false} MadIsMedianDistance(samples: seq<real>)
    requires samples != []
    ensures StatsOf(samples).mad == Median(AwayFrom(samples, Median(samples)))
  {
    MadField(samples);
    MedianIsMedian(samples);
    SameMedianDistance(SortReals(samples), samples, Median(samples));
  }

  lemma {:induction false} MadField(samples: seq<real>)
    requires samples != []
    ensures StatsOf(samples).mad == Median(Deviations(SortReals(samples), StatsOf(samples).median))
  {
    var s := SortReals(samples);
    HalfIsMiddle(SortReals(Deviations(s, Quantile(s, 0.5).value)));
  }

  lemma {:induction false} SameMedianDistance(s: seq<real>, t: seq<real>, m: real)
    requires multiset(s) == multiset(t)
    ensures Median(Deviations(s, m)) == Median(AwayFrom(t, m))
  {
    assert Deviations(s, m) == AwayFrom(s, m);
    AwayPermutes(s, t, m);
    AscendingIsUnique(SortReals(AwayFrom(s, m)), SortReals(AwayFrom(t, m)));
  }

  /** Permuted samples have permuted distances. */
  lemma {:induction false} AwayPermutes(s: seq<real>, t: seq<real>, center: real)
    requires multiset(s) == multiset(t)
    ensures multiset(AwayFrom(s, center)) == multiset(AwayFrom(t, center))
    decreases |s|
  {
    assert |s| == |multiset(s)| && |t| == |multiset(t)|;
    if s != [] {
      assert s[0] in multiset(s);
      assert s[0] in multiset(t);
      var j :| 0 <= j < |t| && t[j] == s[0];
      WithoutMultiset(s, 0);
      WithoutMultiset(t, j);
      AwayPermutes(Without(s, 0), Without(t, j), center);
      AwaySplits(s, 0, center);
      AwaySplits(t, j, center);
    }
  }

  lemma {:induction false} AwaySplits(t: seq<real>, j: nat, center: real)
    requires j < |t|
    ensures multiset(AwayFrom(t, center))
         == multiset(AwayFrom(Without(t, j), center)) + multiset{AwayFrom([t[j]], center)[0]}
  {
    assert AwayFrom(Without(t, j), center) == Without(AwayFrom(t, center), j);
    WithoutMultiset(AwayFrom(t, center), j);
  }

  // ----- Trimming -----

  /** Nothing is trimmed below five samples, one at either end below twenty, and a tenth from there on. */
  lemma {:induction false} TrimIsATenth(n: nat)
    ensures n < 5 ==> Trim(n) == 0
    ensures 5 <= n < 20 ==> Trim(n) == 1
    ensures 20 <= n ==> 10 * Trim(n) <= n < 10 * Trim(n) + 10
  {
  }

  /** The trimmed mean is the mean of what is left of the total without the two tails. */
  lemma {:induction false} TrimmedMeanIsTheRest(s: seq<real>)
    requires s != []
    ensures var t, n := Trim(|s|), |s|;
      && 2 * t < n
      && Total(s) == Total(s[..t]) + TrimmedMean(s) * (n - 2 * t) as real + Total(s[n - t..])
  {
    var t, n := Trim(|s|), |s|;
    TrimLeavesSome(n);
    ThreeParts(s, t, n - t);
    TimesQuotient(Total(s[t..n - t]), (n - 2 * t) as real);
  }

  lemma {:induction false} ThreeParts(s: seq<real>, a: nat, b: nat)
    requires a <= b <= |s|
    ensures Total(s) == Total(s[..a]) + Total(s[a..b]) + Total(s[b..])
  {
    assert s == s[..a] + s[a..b] + s[b..];
    TotalAppend(s[..a] + s[a..b], s[b..]);
    TotalAppend(s[..a], s[a..b]);
  }

  lemma {:induction false} TimesQuotient(x: real, y: real)
    requires y > 0.0
    ensures (x / y) * y == x
  {
  }

  lemma {:induction false} TotalAppend(a: seq<real>, b: seq<real>)
    ensures Total(a + b) == Total(a) + Total(b)
  {
    if b == [] { assert a + b == a; } else {
      var n := |b| - 1;
      TotalAppend(a, b[..n]);
      assert (a + b)[..|a + b| - 1] == a + b[..n];
    }
  }
}
