/**
 The makespan bound of the greedy packing is reached for every number of bins: on the jobs
 2m - 1, 2m - 1, 2m - 2, 2m - 2, ..., m, m, m greedy needs 4m - 1 where 3m would do.
 */
module GrahamTight {
  import opened Greedy

  /** The `i`-th of the 2m + 1 jobs. */
  function Job(m: nat, i: nat): int { if i == 2 * m then m else 2 * m - 1 - i / 2 }

  function Jobs(m: nat): (w: seq<real>)
    ensures |w| == 2 * m + 1 && forall i :: 0 <= i < |w| ==> w[i] == Job(m, i) as real
  {
    seq(2 * m + 1, i requires 0 <= i < 2 * m + 1 => Job(m, i) as real)
  }

  // ----- The greedy run -----

  /** The second job of bin `k`. */
  function Mate(m: nat, k: nat): int {
    if k % 2 == 1 then 2 * m - k else if k == m - 1 then m else 2 * m - 2 - k
  }

  /** The bin of job `i`: one job each, then a second one from the last bins back, then bin 0. */
  function Bin(m: nat, i: nat): int {
    if i < m then i
    else if i == 2 * m then 0
    else if i % 2 == 0 then 2 * m - 2 - i
    else if i == m then m - 1
    else 2 * m - i
  }

  lemma {:induction false} BinAndMate(m: nat, i: nat, k: nat)
    requires 0 < m <= i < 2 * m && k < m
    ensures 0 <= Bin(m, i) < m && (Bin(m, i) == k <==> Mate(m, k) == i)
  {
  }

  lemma {:induction false} MateRange(m: nat, k: nat)
    requires k < m
    ensures m <= Mate(m, k) < 2 * m && Job(m, k) + Job(m, Mate(m, k)) == 3 * m - 1
  {
  }

  function Run(m: nat): (a: seq<nat>)
    requires m > 0
    ensures |a| == 2 * m + 1 && forall i :: 0 <= i < |a| ==> a[i] == Bin(m, i)
  {
    seq(2 * m + 1, i requires 0 <= i < 2 * m + 1 => BinOf(m, i))
  }

  function BinOf(m: nat, i: nat): (k: nat)
    requires m > 0 && i <= 2 * m
    ensures k == Bin(m, i) < m
  {
    Bin(m, i)
  }

  /** The load of bin `k` after `n` jobs. */
  function LoadAt(m: nat, n: nat, k: nat): int {
    if n <= m then (if k < n then Job(m, k) else 0)
    else if n <= 2 * m then (if Mate(m, k) < n then 3 * m - 1 else Job(m, k))
    else if k == 0 then 4 * m - 1 else 3 * m - 1
  }

  lemma {:induction false} LoadsOfRun(m: nat, n: nat, k: nat)
    requires m > 0 && n <= 2 * m + 1 && k < m
    ensures Load(Jobs(m), Run(m), n, k) == LoadAt(m, n, k) as real
  {
    if n > 0 {
      var i := n - 1;
      LoadsOfRun(m, i, k);
      LoadStep(m, i, k);
    }
  }

  lemma {:induction false} LoadStep(m: nat, i: nat, k: nat)
    requires m > 0 && i <= 2 * m && k < m
    ensures LoadAt(m, i + 1, k) == LoadAt(m, i, k) + if Bin(m, i) == k then Job(m, i) else 0
  {
    MateRange(m, k);
    if m <= i < 2 * m { BinAndMate(m, i, k); }
  }

  /** The bin a job goes to is the least loaded, and the first of those. */
  lemma {:induction false} BinIsLeast(m: nat, i: nat, l: nat)
    requires m > 0 && i <= 2 * m && l < m
    ensures 0 <= Bin(m, i) < m
    ensures LoadAt(m, i, Bin(m, i)) <= LoadAt(m, i, l)
    ensures l < Bin(m, i) ==> LoadAt(m, i, Bin(m, i)) < LoadAt(m, i, l)
  {
    MateRange(m, l);
    if m <= i < 2 * m {
      BinAndMate(m, i, l);
      SecondIsLeast(m, i, Bin(m, i), l);
    }
  }

  lemma {:induction false} SecondIsLeast(m: nat, i: nat, k: nat, l: nat)
    requires 0 < m <= i < 2 * m && k < m && l < m && Bin(m, i) == k
    ensures LoadAt(m, i, k) <= LoadAt(m, i, l) && (l < k ==> LoadAt(m, i, k) < LoadAt(m, i, l))
  {
    BinAndMate(m, i, k);
    if i > m && Mate(m, l) >= i { LaterMate(m, k, l); }
  }

  /** A bin that still waits for its second job is no later than the one being filled. */
  lemma {:induction false} LaterMate(m: nat, k: nat, l: nat)
    requires k < m && l < m && Mate(m, l) >= Mate(m, k)
    ensures l / 2 <= k / 2 && (l < k ==> l / 2 < k / 2)
  {
  }

  lemma {:induction false} RunIsGreedy(m: nat)
    requires m > 0
    ensures IsGreedy(Jobs(m), Run(m), m)
  {
    var w, a := Jobs(m), Run(m);
    forall i | 0 <= i < |w| ensures LeastLoaded(w, a, i, m, a[i]) {
      forall l | 0 <= l < m
        ensures Load(w, a, i, a[i]) <= Load(w, a, i, l) && (l < a[i] ==> Load(w, a, i, a[i]) < Load(w, a, i, l))
      {
        BinIsLeast(m, i, l);
        LoadsOfRun(m, i, a[i]);
        LoadsOfRun(m, i, l);
      }
    }
  }

  // ----- A better packing -----

  /** Longest with shortest, and the last three together. */
  function Better(m: nat): (b: seq<nat>)
    requires m > 0
    ensures |b| == 2 * m + 1 && forall i :: 0 <= i < |b| ==> b[i] == BetterBin(m, i)
  {
    seq(2 * m + 1, i requires 0 <= i < 2 * m + 1 => BetterBin(m, i))
  }

  function BetterBin(m: nat, i: nat): (k: nat)
    requires m > 0 && i <= 2 * m
    ensures k < m
  {
    if i < m - 1 then i else if i < 2 * m - 2 then 2 * m - 3 - i else m - 1
  }

  function BetterLoad(m: nat, n: nat, k: nat): int {
    if k < m - 1 then
      (if k < n then Job(m, k) else 0) + (if 2 * m - 3 - k < n then 3 * m - Job(m, k) else 0)
    else
      (if 2 * m - 2 < n then m else 0) + (if 2 * m - 1 < n then m else 0) + (if 2 * m < n then m else 0)
  }

  lemma {:induction false} BetterStep(m: nat, i: nat, k: nat)
    requires m > 0 && i <= 2 * m && k < m
    ensures BetterLoad(m, i + 1, k) == BetterLoad(m, i, k) + if BetterBin(m, i) == k then Job(m, i) else 0
  {
  }

  lemma {:induction false} LoadsOfBetter(m: nat, n: nat, k: nat)
    requires m > 0 && n <= 2 * m + 1 && k < m
    ensures Load(Jobs(m), Better(m), n, k) == BetterLoad(m, n, k) as real
  {
    if n > 0 {
      var i := n - 1;
      LoadsOfBetter(m, i, k);
      BetterStep(m, i, k);
    }
  }

  lemma {:induction false} BetterFits(m: nat)
    requires m > 0
    ensures Fits(Jobs(m), Better(m), m, 3.0 * m as real)
  {
    var n := 2 * m + 1;
    forall k | 0 <= k < m ensures Load(Jobs(m), Better(m), n, k) <= 3.0 * m as real {
      LoadsOfBetter(m, n, k);
      assert BetterLoad(m, n, k) == 3 * m;
    }
  }

  // ----- The bound is reached -----

  lemma {:induction false} JobsDescend(m: nat)
    requires m > 0
    ensures Descending(Jobs(m)) && NonNegative(Jobs(m))
  {
    forall i, j | 0 <= i < j < 2 * m + 1 ensures Job(m, i) >= Job(m, j) >= 0 { }
  }

  /** For every number of bins some jobs make greedy reach its bound against a real packing. */
  lemma {:induction false} GrahamBoundIsTight(m: nat)
    requires m > 0
    ensures var w, g, b, t := Jobs(m), Run(m), Better(m), 3.0 * m as real;
      && IsGreedy(w, g, m) && Descending(w) && NonNegative(w) && Fits(w, b, m, t)
      && Load(w, g, |w|, 0) == (4.0 / 3.0 - 1.0 / (3.0 * m as real)) * t
  {
    RunIsGreedy(m);
    JobsDescend(m);
    BetterFits(m);
    LastLoad(m);
    Reached(m as real);
  }

  lemma {:induction false} LastLoad(m: nat)
    requires m > 0
    ensures Load(Jobs(m), Run(m), 2 * m + 1, 0) == 4.0 * m as real - 1.0
  {
    LoadsOfRun(m, 2 * m + 1, 0);
  }

  lemma {:induction false} Reached(m: real)
    requires m > 0.0
    ensures 3.0 * m > 0.0 && (4.0 / 3.0 - 1.0 / (3.0 * m)) * (3.0 * m) == 4.0 * m - 1.0
  {
    var t := 3.0 * m;
    assert (1.0 / t) * t == 1.0;
  }
}
