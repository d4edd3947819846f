/**
 Greedy list scheduling: jobs are taken in order and each one goes to the least-loaded bin, the
 lowest index on ties. The Python shard packer and the C++ task balancer are both instances.

 A run is described by the weights `w` and the bin `a[i]` chosen for job `i`; `Load(w, a, n, k)`
 is what bin `k` holds after the first `n` jobs.
 */
module Greedy {

  // ----- Loads -----

  function Load(w: seq<real>, a: seq<nat>, n: nat, k: nat): real
    requires n <= |w| && n <= |a|
  {
    if n == 0 then 0.0
    else Load(w, a, n - 1, k) + if a[n - 1] == k then w[n - 1] else 0.0
  }

  function Total(w: seq<real>, n: nat): real
    requires n <= |w|
  {
    if n == 0 then 0.0 else Total(w, n - 1) + w[n - 1]
  }

  /** The loads of the first `m` bins together. */
  ghost function BinSum(w: seq<real>, a: seq<nat>, n: nat, m: nat): real
    requires n <= |w| && n <= |a|
  {
    if m == 0 then 0.0 else BinSum(w, a, n, m - 1) + Load(w, a, n, m - 1)
  }

  ghost predicate Assigns(a: seq<nat>, n: nat, m: nat) {
    n <= |a| && forall i :: 0 <= i < n ==> a[i] < m
  }

  ghost predicate NonNegative(w: seq<real>) {
    forall i :: 0 <= i < |w| ==> w[i] >= 0.0
  }

  ghost predicate Descending(w: seq<real>) {
    forall i, j :: 0 <= i < j < |w| ==> w[i] >= w[j]
  }

  /** `k` is the lowest-indexed least-loaded of `m` bins after `n` jobs. */
  ghost predicate LeastLoaded(w: seq<real>, a: seq<nat>, n: nat, m: nat, k: nat)
    requires n <= |w| && n <= |a|
  {
    && k < m
    && (forall l :: 0 <= l < m ==> Load(w, a, n, k) <= Load(w, a, n, l))
    && (forall l :: 0 <= l < k ==> Load(w, a, n, k) < Load(w, a, n, l))
  }

  /** `a` records a complete greedy run over the jobs `w` with `m` bins. */
  ghost predicate IsGreedy(w: seq<real>, a: seq<nat>, m: nat) {
    && |a| == |w|
    && forall i :: 0 <= i < |w| ==> LeastLoaded(w, a, i, m, a[i])
  }

  // ----- Basic facts about loads -----

  lemma {:induction false} LoadOfPrefix(w: seq<real>, a: seq<nat>, b: seq<nat>, n: nat, k: nat)
    requires n <= |w| && n <= |a| && n <= |b|
    requires forall i :: 0 <= i < n ==> a[i] == b[i]
    ensures Load(w, a, n, k) == Load(w, b, n, k)
  {
    if n > 0 { LoadOfPrefix(w, a, b, n - 1, k); }
  }

  lemma {:induction false} LoadOfWeightPrefix(w: seq<real>, v: seq<real>, a: seq<nat>, n: nat, k: nat)
    requires n <= |w| && n <= |v| && n <= |a|
    requires forall i :: 0 <= i < n ==> w[i] == v[i]
    ensures Load(w, a, n, k) == Load(v, a, n, k)
  {
    if n > 0 { LoadOfWeightPrefix(w, v, a, n - 1, k); }
  }

  lemma {:induction false} LoadGrows(w: seq<real>, a: seq<nat>, n: nat, n': nat, k: nat)
    requires NonNegative(w) && n <= n' <= |w| && n' <= |a|
    ensures 0.0 <= Load(w, a, n, k) <= Load(w, a, n', k)
  {
    if n' > 0 {
      if n < n' { LoadGrows(w, a, n, n' - 1, k); } else { LoadGrows(w, a, n - 1, n' - 1, k); }
    }
  }

  /** Jobs never placed on bin `k` add nothing to it. */
  lemma {:induction false} EmptyBin(w: seq<real>, a: seq<nat>, n: nat, k: nat)
    requires n <= |w| && n <= |a|
    requires forall i :: 0 <= i < n ==> a[i] != k
    ensures Load(w, a, n, k) == 0.0
  {
    if n > 0 { EmptyBin(w, a, n - 1, k); }
  }

  /** A bin whose only job is `i` carries exactly that job. */
  lemma {:induction false} SingletonBin(w: seq<real>, a: seq<nat>, n: nat, k: nat, i: nat)
    requires i < n <= |w| && n <= |a| && a[i] == k
    requires forall j :: 0 <= j < n && a[j] == k ==> j == i
    ensures Load(w, a, n, k) == w[i]
  {
    if i == n - 1 { EmptyBin(w, a, n - 1, k); } else { SingletonBin(w, a, n - 1, k, i); }
  }

  lemma {:induction false} JobBelowLoad(w: seq<real>, a: seq<nat>, n: nat, i: nat)
    requires NonNegative(w) && i < n <= |w| && n <= |a|
    ensures w[i] <= Load(w, a, n, a[i])
  {
    LoadGrows(w, a, 0, i, a[i]);
    LoadGrows(w, a, i + 1, n, a[i]);
  }

  lemma {:induction false} PairBelowLoad(w: seq<real>, a: seq<nat>, n: nat, i: nat, j: nat)
    requires NonNegative(w) && i < j < n <= |w| && n <= |a| && a[i] == a[j]
    ensures w[i] + w[j] <= Load(w, a, n, a[i])
  {
    JobBelowLoad(w, a, j, i);
    LoadGrows(w, a, j + 1, n, a[j]);
  }

  /** Every job sits in exactly one bin, so the bins together hold the total. */
  lemma {:induction false} BinSumIsTotal(w: seq<real>, a: seq<nat>, n: nat, m: nat)
    requires n <= |w| && Assigns(a, n, m)
    ensures BinSum(w, a, n, m) == Total(w, n)
  {
    if n == 0 {
      EmptyBinSum(w, a, m);
    } else {
      BinSumIsTotal(w, a, n - 1, m);
      BinSumStep(w, a, n, m);
    }
  }

  lemma {:induction false} EmptyBinSum(w: seq<real>, a: seq<nat>, m: nat)
    ensures BinSum(w, a, 0, m) == 0.0
  {
    if m > 0 { EmptyBinSum(w, a, m - 1); }
  }

  lemma {:induction false} BinSumStep(w: seq<real>, a: seq<nat>, n: nat, m: nat)
    requires 0 < n <= |w| && n <= |a|
    ensures BinSum(w, a, n, m) == BinSum(w, a, n - 1, m) + if a[n - 1] < m then w[n - 1] else 0.0
  {
    if m > 0 { BinSumStep(w, a, n, m - 1); }
  }

  // ----- Multiples, as repeated addition -----

  /** `x` added up `m` times: keeps the scheduling arguments linear. */
  ghost function Times(m: nat, x: real): real {
    if m == 0 then 0.0 else Times(m - 1, x) + x
  }

  lemma {:induction false} TimesIsProduct(m: nat, x: real)
    ensures Times(m, x) == m as real * x
  {
    if m > 0 { TimesIsProduct(m - 1, x); }
  }

  lemma {:induction false} TimesAdds(m: nat, x: real, y: real)
    ensures Times(m, x + y) == Times(m, x) + Times(m, y)
  {
    if m > 0 { TimesAdds(m - 1, x, y); }
  }

  lemma {:induction false} TimesMonotone(m: nat, x: real, y: real)
    requires x <= y
    ensures Times(m, x) <= Times(m, y)
  {
    if m > 0 { TimesMonotone(m - 1, x, y); }
  }

  lemma {:induction false} TimesThree(m: nat, x: real)
    ensures Times(m, 3.0 * x) == 3.0 * Times(m, x)
  {
    if m > 0 { TimesThree(m - 1, x); }
  }

  /** The least load is at most the average. */
  lemma {:induction false} LeastBelowAverage(w: seq<real>, a: seq<nat>, n: nat, m: nat, x: real)
    requires n <= |w| && n <= |a|
    requires forall k :: 0 <= k < m ==> x <= Load(w, a, n, k)
    ensures Times(m, x) <= BinSum(w, a, n, m)
  {
    if m > 0 { LeastBelowAverage(w, a, n, m - 1, x); }
  }

  // ----- Determinism -----

  /** The tie rule leaves no freedom: one weight list has one greedy run. */
  lemma {:induction false} GreedyIsDeterministic(w: seq<real>, a: seq<nat>, b: seq<nat>, m: nat, n: nat)
    requires IsGreedy(w, a, m) && IsGreedy(w, b, m) && n <= |w|
    ensures a[..n] == b[..n]
  {
    if n > 0 {
      var p := n - 1;
      GreedyIsDeterministic(w, a, b, m, p);
      forall k: nat ensures Load(w, a, p, k) == Load(w, b, p, k) {
        assert forall i :: 0 <= i < p ==> a[i] == a[..p][i] == b[..p][i] == b[i];
        LoadOfPrefix(w, a, b, p, k);
      }
      assert LeastLoaded(w, a, p, m, a[p]) && LeastLoaded(w, b, p, m, b[p]);
      assert Load(w, a, p, a[p]) <= Load(w, a, p, b[p]) && Load(w, b, p, b[p]) <= Load(w, b, p, a[p]);
      assert a[p] == b[p];
      assert a[..n] == a[..p] + [a[p]] && b[..n] == b[..p] + [b[p]];
    }
  }

  // ----- Balance and makespan -----

  /** After every step two bins differ by at most the longest job placed so far. */
  lemma {:induction false} GreedyBalance(w: seq<real>, a: seq<nat>, m: nat, n: nat, longest: real, k: nat, l: nat)
    requires IsGreedy(w, a, m) && NonNegative(w) && n <= |w| && k < m && l < m
    requires longest >= 0.0 && forall i :: 0 <= i < n ==> w[i] <= longest
    ensures Load(w, a, n, k) - Load(w, a, n, l) <= longest
  {
    if n > 0 {
      GreedyBalance(w, a, m, n - 1, longest, k, l);
      assert LeastLoaded(w, a, n - 1, m, a[n - 1]);
      assert w[n - 1] <= longest;
    }
  }

  /** No bin exceeds total/m + (1 - 1/m) * longest, here multiplied through by `m`. */
  lemma {:induction false} GreedyMakespan(w: seq<real>, a: seq<nat>, m: nat, n: nat, longest: real, k: nat)
    requires IsGreedy(w, a, m) && NonNegative(w) && n <= |w| && k < m
    requires longest >= 0.0 && forall i :: 0 <= i < n ==> w[i] <= longest
    ensures m as real * Load(w, a, n, k) <= Total(w, n) + (m - 1) as real * longest
  {
    MakespanSteps(w, a, m, n, longest, k);
    TimesIsProduct(m, Load(w, a, n, k));
    TimesIsProduct(m - 1, longest);
  }

  lemma {:induction false} MakespanSteps(w: seq<real>, a: seq<nat>, m: nat, n: nat, longest: real, k: nat)
    requires IsGreedy(w, a, m) && NonNegative(w) && n <= |w| && k < m
    requires longest >= 0.0 && forall i :: 0 <= i < n ==> w[i] <= longest
    ensures Times(m, Load(w, a, n, k)) <= Total(w, n) + Times(m - 1, longest)
  {
    if n == 0 {
      TimesMonotone(m - 1, 0.0, longest);
      TimesIsProduct(m, 0.0);
      TimesIsProduct(m - 1, 0.0);
    } else if a[n - 1] != k {
      MakespanSteps(w, a, m, n - 1, longest, k);
    } else {
      LeastJobFits(w, a, m, n - 1);
      TimesAdds(m, Load(w, a, n - 1, k), w[n - 1]);
      TimesMonotone(m - 1, w[n - 1], longest);
    }
  }

  /** The bin chosen for job `n` holds at most the average of the first `n` jobs. */
  lemma {:induction false} LeastJobFits(w: seq<real>, a: seq<nat>, m: nat, n: nat)
    requires IsGreedy(w, a, m) && n < |w|
    ensures a[n] < m && Times(m, Load(w, a, n, a[n])) <= Total(w, n)
  {
    assert LeastLoaded(w, a, n, m, a[n]);
    GreedyAssigns(w, a, m);
    LeastBelowAverage(w, a, n, m, Load(w, a, n, a[n]));
    BinSumIsTotal(w, a, n, m);
  }

  lemma {:induction false} GreedyAssigns(w: seq<real>, a: seq<nat>, m: nat)
    requires IsGreedy(w, a, m)
    ensures Assigns(a, |w|, m)
  {
    forall i | 0 <= i < |w| ensures a[i] < m { assert LeastLoaded(w, a, i, m, a[i]); }
  }

  // ----- Graham's bound -----

  /** `b` is some way to put the jobs on `m` bins with no bin above `t`. */
  ghost predicate Fits(w: seq<real>, b: seq<nat>, m: nat, t: real) {
    && |b| == |w| && Assigns(b, |w|, m)
    && forall k :: 0 <= k < m ==> Load(w, b, |w|, k) <= t
  }

  lemma {:induction false} FitsPrefix(w: seq<real>, b: seq<nat>, m: nat, t: real, n: nat, k: nat)
    requires Fits(w, b, m, t) && NonNegative(w) && n <= |w| && k < m
    ensures Load(w, b, n, k) <= t
  {
    LoadGrows(w, b, n, |w|, k);
  }

  function Ones(n: nat): seq<real> { seq(n, _ => 1.0) }

  ghost predicate Indicator(u: seq<real>) {
    forall i :: 0 <= i < |u| ==> u[i] == 0.0 || u[i] == 1.0
  }

  lemma {:induction false} CountIsIntegral(u: seq<real>, a: seq<nat>, n: nat, k: nat) returns (c: nat)
    requires Indicator(u) && n <= |u| && n <= |a|
    ensures Load(u, a, n, k) == c as real
  {
    if n == 0 { c := 0; } else {
      c := CountIsIntegral(u, a, n - 1, k);
      if a[n - 1] == k && u[n - 1] == 1.0 { c := c + 1; }
    }
  }

  /** `c` jobs of at least `p` each weigh at least `c * p`. */
  lemma {:induction false} CountTimesLeast(w: seq<real>, a: seq<nat>, n: nat, k: nat, p: real)
    requires n <= |w| && n <= |a|
    requires forall i :: 0 <= i < n ==> w[i] >= p
    ensures Load(Ones(|w|), a, n, k) * p <= Load(w, a, n, k)
  {
    if n > 0 {
      CountTimesLeast(w, a, n - 1, k, p);
      var c := Load(Ones(|w|), a, n - 1, k);
      assert (c + 1.0) * p == c * p + p;
    }
  }

  /** A bin below `t` holds at most two jobs heavier than t/3. */
  lemma {:induction false} AtMostTwo(w: seq<real>, a: seq<nat>, n: nat, k: nat, p: real, t: real)
    requires n <= |w| && n <= |a| && p > 0.0
    requires forall i :: 0 <= i < n ==> w[i] >= p
    requires Load(w, a, n, k) <= t < 3.0 * p
    ensures Load(Ones(|w|), a, n, k) in {0.0, 1.0, 2.0}
  {
    CountTimesLeast(w, a, n, k, p);
    var c := CountIsIntegral(Ones(|w|), a, n, k);
    if c >= 3 {
      assert false;
    }
  }

  lemma {:induction false} TotalOfOnes(w: seq<real>, n: nat)
    requires n <= |w|
    ensures Total(Ones(|w|), n) == n as real
  {
    if n > 0 { TotalOfOnes(w, n - 1); }
  }

  /** Marks the jobs that greedy left alone on their bin after `n` jobs. */
  ghost function Alone(w: seq<real>, a: seq<nat>, n: nat): (u: seq<real>)
    requires n <= |w| && |a| == |w|
  {
    seq(|w|, i requires 0 <= i < |w| => if Load(Ones(|w|), a, n, a[i]) == 1.0 then 1.0 else 0.0)
  }

  lemma {:induction false} AloneLoad(w: seq<real>, a: seq<nat>, n: nat, n': nat, k: nat)
    requires n' <= n <= |w| && |a| == |w|
    ensures Load(Alone(w, a, n), a, n', k)
         == if Load(Ones(|w|), a, n, k) == 1.0 then Load(Ones(|w|), a, n', k) else 0.0
  {
    if n' > 0 { AloneLoad(w, a, n, n' - 1, k); }
  }

  /** A job alone on its bin is the whole load of that bin. */
  lemma {:induction false} AloneIsWhole(w: seq<real>, a: seq<nat>, n: nat, i: nat)
    requires NonNegative(w) && i < n <= |w| && |a| == |w|
    requires Load(Ones(|w|), a, n, a[i]) == 1.0
    ensures Load(w, a, n, a[i]) == w[i]
  {
    forall j | 0 <= j < n && a[j] == a[i] ensures j == i {
      if j != i {
        PairBelowLoad(Ones(|w|), a, n, if i < j then i else j, if i < j then j else i);
      }
    }
    SingletonBin(w, a, n, a[i], i);
  }

  /** Slots (two per bin) that a bin leaves free are at least the lone jobs it holds. */
  lemma {:induction false} FreeSlots(w: seq<real>, g: seq<nat>, b: seq<nat>, m: nat, t: real, n: nat, k: nat)
    requires IsGreedy(w, g, m) && Fits(w, b, m, t) && NonNegative(w) && Descending(w)
    requires n < |w| && 3.0 * w[n] > t && k < m
    requires Load(w, g, n, g[n]) + w[n] > t
    ensures Load(Alone(w, g, n), b, n, k) + Load(Ones(|w|), b, n + 1, k) <= 2.0
  {
    var u := Alone(w, g, n);
    if i :| 0 <= i < n && b[i] == k && u[i] == 1.0 {
      AloneIsWhole(w, g, n, i);
      assert LeastLoaded(w, g, n, m, g[n]);
      assert LeastLoaded(w, g, i, m, g[i]);
      assert w[i] + w[n] > t;
      forall j | 0 <= j < n + 1 && b[j] == k ensures j == i {
        if j != i {
          PairBelowLoad(w, b, n + 1, if i < j then i else j, if i < j then j else i);
          FitsPrefix(w, b, m, t, n + 1, k);
        }
      }
      SingletonBin(u, b, n, k, i);
      SingletonBin(Ones(|w|), b, n + 1, k, i);
    } else {
      NothingMarked(u, b, n, k);
      LoadGrows(w, b, 0, |w|, k);
      FitsPrefix(w, b, m, t, n + 1, k);
      AtMostTwo(w, b, n + 1, k, w[n], t);
    }
  }

  lemma {:induction false} NothingMarked(u: seq<real>, b: seq<nat>, n: nat, k: nat)
    requires n <= |u| && n <= |b|
    requires forall i :: 0 <= i < n && b[i] == k ==> u[i] == 0.0
    ensures Load(u, b, n, k) == 0.0
  {
    if n > 0 { NothingMarked(u, b, n - 1, k); }
  }

  /** In the greedy run itself the free slots are exactly the lone jobs. */
  lemma {:induction false} UsedSlots(w: seq<real>, g: seq<nat>, m: nat, t: real, n: nat, k: nat)
    requires IsGreedy(w, g, m) && NonNegative(w) && Descending(w) && n < |w| && k < m
    requires 3.0 * w[n] > t >= w[n]
    requires Load(w, g, n, g[n]) + w[n] > t
    requires forall l :: 0 <= l < m ==> Load(w, g, n, l) <= t
    ensures Load(Alone(w, g, n), g, n, k) + Load(Ones(|w|), g, n, k) == 2.0
  {
    AloneLoad(w, g, n, n, k);
    AtMostTwo(w, g, n, k, w[n], t);
    assert LeastLoaded(w, g, n, m, g[n]);
    assert Load(w, g, n, k) > 0.0;
    if Load(Ones(|w|), g, n, k) == 0.0 {
      forall i | 0 <= i < n ensures g[i] != k {
        if g[i] == k { JobBelowLoad(Ones(|w|), g, n, i); }
      }
      EmptyBin(w, g, n, k);
      assert false;
    }
  }

  lemma {:induction false} AddBinSums(u: seq<real>, v: seq<real>, a: seq<nat>, n: nat, n': nat, m: nat, lower: bool)
    requires n <= |u| && n' <= |v| && n <= |a| && n' <= |a|
    requires forall k :: 0 <= k < m ==>
      if lower then Load(u, a, n, k) + Load(v, a, n', k) == 2.0 else Load(u, a, n, k) + Load(v, a, n', k) <= 2.0
    ensures var s := BinSum(u, a, n, m) + BinSum(v, a, n', m);
      if lower then s == 2.0 * m as real else s <= 2.0 * m as real
  {
    if m > 0 { AddBinSums(u, v, a, n, n', m - 1, lower); }
  }

  /**
   If job `n` is longer than t/3 and greedy has stayed below `t`, greedy stays below `t`:
   otherwise `b` would need more slots than its bins have.
   */
  lemma {:induction false} LongJobFits(w: seq<real>, g: seq<nat>, b: seq<nat>, m: nat, t: real, n: nat)
    requires IsGreedy(w, g, m) && Fits(w, b, m, t) && NonNegative(w) && Descending(w)
    requires n < |w| && 3.0 * w[n] > t
    requires forall l :: 0 <= l < m ==> Load(w, g, n, l) <= t
    ensures Load(w, g, n, g[n]) + w[n] <= t
  {
    JobBelowLoad(w, b, |w|, n);
    TotalOfOnes(w, n + 1);
    if Load(w, g, n, g[n]) + w[n] > t {
      var u, o := Alone(w, g, n), Ones(|w|);
      forall k | 0 <= k < m ensures Load(u, b, n, k) + Load(o, b, n + 1, k) <= 2.0 {
        FreeSlots(w, g, b, m, t, n, k);
      }
      AddBinSums(u, o, b, n, n + 1, m, false);
      forall k | 0 <= k < m ensures Load(u, g, n, k) + Load(o, g, n, k) == 2.0 {
        UsedSlots(w, g, m, t, n, k);
      }
      AddBinSums(u, o, g, n, n, m, true);
      GreedyAssigns(w, g, m);
      BinSumIsTotal(u, b, n, m);
      BinSumIsTotal(u, g, n, m);
      BinSumIsTotal(o, b, n + 1, m);
      BinSumIsTotal(o, g, n, m);
      TotalOfOnes(w, n);
      assert false;
    }
  }

  /** A job of at most t/3 may overshoot `t`, by no more than the share Graham allows. */
  lemma {:induction false} ShortJobFits(w: seq<real>, g: seq<nat>, b: seq<nat>, m: nat, t: real, n: nat)
    requires IsGreedy(w, g, m) && Fits(w, b, m, t) && NonNegative(w)
    requires n < |w| && 3.0 * w[n] <= t
    ensures 3.0 * Times(m, Load(w, g, n, g[n]) + w[n]) <= 4.0 * Times(m, t) - t
  {
    var n', x, p := n + 1, Load(w, g, n, g[n]), w[n];
    LeastJobFits(w, g, m, n);
    BinSumIsTotal(w, b, n', m);
    forall k | 0 <= k < m ensures Load(w, b, n', k) <= t { FitsPrefix(w, b, m, t, n', k); }
    SumBelow(w, b, n', m, t);
    TimesAdds(m, x, p);
    TimesThree(m - 1, p);
    TimesMonotone(m - 1, 3.0 * p, t);
  }

  lemma {:induction false} SumBelow(w: seq<real>, a: seq<nat>, n: nat, m: nat, t: real)
    requires n <= |w| && n <= |a|
    requires forall k :: 0 <= k < m ==> Load(w, a, n, k) <= t
    ensures BinSum(w, a, n, m) <= Times(m, t)
  {
    if m > 0 { SumBelow(w, a, n, m - 1, t); }
  }

  /** Both phases of Graham's argument, carried through every prefix of the run. */
  lemma {:induction false} GrahamPrefix(w: seq<real>, g: seq<nat>, b: seq<nat>, m: nat, t: real, n: nat, k: nat)
    requires IsGreedy(w, g, m) && Fits(w, b, m, t) && NonNegative(w) && Descending(w)
    requires n <= |w| && k < m && t >= 0.0
    ensures 3.0 * Times(m, Load(w, g, n, k)) <= 4.0 * Times(m, t) - t
    ensures (n > 0 ==> 3.0 * w[n - 1] > t) ==> Load(w, g, n, k) <= t
  {
    if n == 0 {
      BelowIsWithinBound(m, 0.0, t);
    } else {
      var p := n - 1;
      GrahamPrefix(w, g, b, m, t, p, k);
      if g[p] == k {
        if 3.0 * w[p] <= t {
          ShortJobFits(w, g, b, m, t, p);
        } else {
          forall l | 0 <= l < m ensures Load(w, g, p, l) <= t { GrahamPrefix(w, g, b, m, t, p, l); }
          LongJobFits(w, g, b, m, t, p);
          BelowIsWithinBound(m, Load(w, g, n, k), t);
        }
      }
    }
  }

  lemma {:induction false} BelowIsWithinBound(m: nat, x: real, t: real)
    requires m >= 1 && x <= t && t >= 0.0
    ensures 3.0 * Times(m, x) <= 4.0 * Times(m, t) - t
  {
    TimesMonotone(m, x, t);
    TimesMonotone(m - 1, 0.0, t);
    TimesIsProduct(m - 1, 0.0);
  }

  /**
   Graham's bound for longest-first greedy: against every placement `b` of the same jobs on `m`
   bins, with `t` its heaviest bin, no greedy bin exceeds (4/3 - 1/(3m)) * t.
   */
  lemma {:induction false} GrahamBound(w: seq<real>, g: seq<nat>, b: seq<nat>, m: nat, t: real, k: nat)
    requires IsGreedy(w, g, m) && Fits(w, b, m, t) && NonNegative(w) && Descending(w) && k < m
    ensures Load(w, g, |w|, k) <= (4.0 / 3.0 - 1.0 / (3.0 * m as real)) * t
  {
    var r, x := m as real, Load(w, g, |w|, k);
    assert 3.0 * Times(m, x) <= 4.0 * Times(m, t) - t by {
      LoadGrows(w, b, 0, |w|, k);
      GrahamPrefix(w, g, b, m, t, |w|, k);
    }
    TimesIsProduct(m, x);
    TimesIsProduct(m, t);
    DivideThrough(r, x, t);
  }

  lemma {:induction false} DivideThrough(r: real, x: real, t: real)
    requires r > 0.0 && 3.0 * (r * x) <= 4.0 * (r * t) - t
    ensures x <= (4.0 / 3.0 - 1.0 / (3.0 * r)) * t
  {
    var q := 1.0 / (3.0 * r);
    assert 3.0 * r * q == 1.0;
    assert (3.0 * r) * ((4.0 / 3.0 - q) * t) == (4.0 * r - (3.0 * r * q)) * t;
    CancelFactor(3.0 * r, x, (4.0 / 3.0 - q) * t);
  }

  lemma {:induction false} CancelFactor(c: real, x: real, y: real)
    requires c > 0.0 && c * x <= c * y
    ensures x <= y
  {
  }

  // ----- The run as a computation -----

  /** The first index of a smallest element, as Python's `min` and `std::min_element` find it. */
  method FirstLeast(loads: array<real>) returns (k: nat)
    requires loads.Length > 0
    ensures k < loads.Length
    ensures forall l :: 0 <= l < loads.Length ==> loads[k] <= loads[l]
    ensures forall l :: 0 <= l < k ==> loads[k] < loads[l]
  {
    k := 0;
    for i := 1 to loads.Length
      invariant k < i
      invariant forall l :: 0 <= l < i ==> loads[k] <= loads[l]
      invariant forall l :: 0 <= l < k ==> loads[k] < loads[l]
    {
      if loads[i] < loads[k] { k := i; }
    }
  }

  /** Extending a greedy prefix by the least-loaded bin keeps it greedy. */
  lemma {:induction false} GreedyExtends(w: seq<real>, a: seq<nat>, m: nat, k: nat)
    requires |a| < |w| && IsGreedy(w[..|a|], a, m) && LeastLoaded(w, a, |a|, m, k)
    ensures IsGreedy(w[..|a| + 1], a + [k], m)
  {
    var n, v, a' := |a|, w[..|a| + 1], a + [k];
    var u := w[..n];
    forall i | 0 <= i < n + 1 ensures LeastLoaded(v, a', i, m, a'[i]) {
      forall l: nat ensures Load(v, a', i, l) == Load(w, a, i, l) {
        LoadOfPrefix(v, a', a, i, l);
        LoadOfWeightPrefix(v, w, a, i, l);
      }
      if i < n {
        assert LeastLoaded(u, a, i, m, a[i]);
        forall l: nat ensures Load(u, a, i, l) == Load(w, a, i, l) {
          LoadOfWeightPrefix(u, w, a, i, l);
        }
      }
    }
  }

  /** The lowest-indexed least-loaded of `m` bins after `n` jobs. */
  function LeastBin(w: seq<real>, a: seq<nat>, n: nat, m: nat): (k: nat)
    requires n <= |w| && n <= |a| && m > 0
    ensures LeastLoaded(w, a, n, m, k)
  {
    if m == 1 then 0
    else
      var k := LeastBin(w, a, n, m - 1);
      if Load(w, a, n, m - 1) < Load(w, a, n, k) then m - 1 else k
  }

  /** The greedy run, job by job. */
  function GreedyRun(w: seq<real>, m: nat): (a: seq<nat>)
    requires m > 0
    ensures IsGreedy(w, a, m)
  {
    if w == [] then [] else
      var n := |w| - 1;
      var a := GreedyRun(w[..n], m);
      var k := LeastBin(w, a, n, m);
      assert w[..n + 1] == w;
      GreedyExtends(w, a, m, k);
      a + [k]
  }
}
