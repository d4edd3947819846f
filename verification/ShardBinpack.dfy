/**
 Duration-based packing of test files into CI shards (`scripts/ci_shard_binpack.py`).
 */
module ShardBinpack {
  import opened Wrappers
  import opened Sorting
  import opened Greedy

  datatype PartitionError =
    | InvalidTotal
    | InvalidShard
    | Duplicated(files: set<string>)
    | Leaked(files: set<string>)
    | Dropped(files: set<string>)
    | Extra(files: set<string>)

  /** The timings dictionary in insertion order: one `(path, seconds)` entry per key. */
  type Durations = seq<(string, real)>

  const DEFAULT_DURATION: real := 30.0

  // ----- Weights -----

  /** The measured seconds that count as known: the positive ones. */
  function Known(d: Durations): seq<real> {
    if d == [] then [] else (if d[0].1 > 0.0 then [d[0].1] else []) + Known(d[1..])
  }

  function DefaultDuration(d: Durations): real {
    if Known(d) == [] then DEFAULT_DURATION else Median(Known(d))
  }

  function DurationFor(path: string, d: Durations, fallback: real): real {
    if d == [] then fallback
    else if d[0].0 == path then (if d[0].1 <= 0.0 then fallback else d[0].1)
    else DurationFor(path, d[1..], fallback)
  }

  /** The packing weight of a file. */
  function Seconds(d: Durations, path: string): real {
    DurationFor(path, d, DefaultDuration(d))
  }

  lemma {:induction false} KnownIsPositive(d: Durations)
    ensures forall v :: v in Known(d) ==> v > 0.0
  {
    if d != [] { KnownIsPositive(d[1..]); }
  }

  lemma {:induction false} DefaultDurationIsPositive(d: Durations)
    ensures DefaultDuration(d) > 0.0
  {
    KnownIsPositive(d);
    if Known(d) != [] { MedianOfPositive(Known(d)); }
  }

  /** The weight of an unmeasured file lies among the known ones, when there are any. */
  lemma {:induction false} DefaultDurationIsRepresentative(d: Durations, lo: real, hi: real)
    requires Known(d) != [] && forall v :: v in Known(d) ==> lo <= v <= hi
    ensures lo <= DefaultDuration(d) <= hi
  {
    MedianWithin(Known(d), lo, hi);
  }

  lemma {:induction false} DurationForIsPositive(path: string, d: Durations, fallback: real)
    requires fallback > 0.0
    ensures DurationFor(path, d, fallback) > 0.0
  {
    if d != [] { DurationForIsPositive(path, d[1..], fallback); }
  }

  lemma {:induction false} SecondsIsPositive(d: Durations, path: string)
    ensures Seconds(d, path) > 0.0
  {
    DefaultDurationIsPositive(d);
    DurationForIsPositive(path, d, DefaultDuration(d));
  }

  // ----- Packing order -----

  /** Descending seconds, then ascending path. */
  function PackOrder(d: Durations): (string, string) -> bool {
    (f: string, g: string) =>
      Seconds(d, f) > Seconds(d, g) || (Seconds(d, f) == Seconds(d, g) && StringLess(f, g))
  }

  lemma {:induction false} PackOrderIsStrictTotal(d: Durations)
    ensures StrictTotal(PackOrder(d))
  {
    StringLessIsStrictTotal();
    var less := PackOrder(d);
    forall f: string, g: string, h: string | less(f, g) && less(g, h) ensures less(f, h) {
      if StringLess(f, g) && StringLess(g, h) { StringLessTransitive(f, g, h); }
    }
    forall f: string, g: string ensures less(f, g) || f == g || less(g, f) { StringLessTotal(f, g); }
    forall f: string ensures !less(f, f) { StringLessTotal(f, f); }
  }

  function Ordered(files: seq<string>, d: Durations): seq<string> {
    SortUnique(PackOrder(d), files)
  }

  function Weights(ordered: seq<string>, d: Durations): seq<real> {
    seq(|ordered|, i requires 0 <= i < |ordered| => Seconds(d, ordered[i]))
  }

  lemma {:induction false} OrderedWeights(files: seq<string>, d: Durations)
    ensures var o := Ordered(files, d); var w := Weights(o, d);
      Distinct(o) && Elements(o) == Elements(files) && Descending(w) && NonNegative(w)
  {
    PackOrderIsStrictTotal(d);
    SortUniqueSorts(PackOrder(d), files);
    var o := Ordered(files, d);
    forall i | 0 <= i < |o| ensures Weights(o, d)[i] >= 0.0 { SecondsIsPositive(d, o[i]); }
    forall i, j | 0 <= i < j < |o| ensures Weights(o, d)[i] >= Weights(o, d)[j] {
      assert PackOrder(d)(o[i], o[j]);
    }
  }

  // ----- Shards -----

  /** The jobs among the first `n` that were put on bin `k`, in order. */
  function Pick(ordered: seq<string>, a: seq<nat>, n: nat, k: nat): seq<string>
    requires n <= |ordered| && n <= |a|
  {
    if n == 0 then []
    else Pick(ordered, a, n - 1, k) + if a[n - 1] == k then [ordered[n - 1]] else []
  }

  /** What `assign_shards` returns for a positive shard count. */
  function Shards(files: seq<string>, m: nat, d: Durations): (shards: seq<seq<string>>)
    requires m > 0
    ensures |shards| == m
  {
    var o := Ordered(files, d);
    var a := GreedyRun(Weights(o, d), m);
    seq(m, k requires 0 <= k < m => SortUnique(StringLess, Pick(o, a, |o|, k)))
  }

  /** The packing loop: each file in turn goes to the least-loaded shard. */
  method Deal(ordered: seq<string>, w: seq<real>, m: nat) returns (shards: array<seq<string>>)
    requires m > 0 && |w| == |ordered|
    ensures shards.Length == m
    ensures var a := GreedyRun(w, m);
      forall k :: 0 <= k < m ==> shards[k] == Pick(ordered, a, |ordered|, k)
  {
    shards := new seq<string>[m](_ => []);
    var loads := new real[m](_ => 0.0);
    ghost var a: seq<nat> := [];
    for i := 0 to |ordered|
      invariant |a| == i && IsGreedy(w[..i], a, m)
      invariant forall k :: 0 <= k < m ==> loads[k] == Load(w, a, i, k)
      invariant forall k :: 0 <= k < m ==> shards[k] == Pick(ordered, a, i, k)
    {
      var target := FirstLeast(loads);
      assert LeastLoaded(w, a, i, m, target) by {
        assert forall k :: 0 <= k < m ==> Load(w, a, i, k) == loads[k];
      }
      GreedyExtends(w, a, m, target);
      DealStep(ordered, w, a, m, target);
      shards[target] := shards[target] + [ordered[i]];
      loads[target] := loads[target] + w[i];
      a := a + [target];
    }
    assert w[..|w|] == w;
    GreedyIsDeterministic(w, a, GreedyRun(w, m), m, |w|);
    assert a == a[..|w|] == GreedyRun(w, m)[..|w|] == GreedyRun(w, m);
  }

  lemma {:induction false} DealStep(ordered: seq<string>, w: seq<real>, a: seq<nat>, m: nat, target: nat)
    requires |a| < |ordered| == |w|
    ensures var i, a' := |a|, a + [target];
      && (forall k :: 0 <= k < m ==>
            Load(w, a', i + 1, k) == Load(w, a, i, k) + if k == target then w[i] else 0.0)
      && (forall k :: 0 <= k < m ==>
            Pick(ordered, a', i + 1, k) == Pick(ordered, a, i, k) + if k == target then [ordered[i]] else [])
  {
    var i, a' := |a|, a + [target];
    forall k | 0 <= k < m
      ensures Load(w, a', i + 1, k) == Load(w, a, i, k) + if k == target then w[i] else 0.0
      ensures Pick(ordered, a', i + 1, k) == Pick(ordered, a, i, k) + if k == target then [ordered[i]] else []
    {
      LoadOfPrefix(w, a', a, i, k);
      PickOfPrefix(ordered, a', a, i, k);
    }
  }

  /** Files are deduplicated, ordered and dealt; each shard is listed by path. */
  method AssignShards(files: seq<string>, shardTotal: int, d: Durations)
    returns (r: Result<seq<seq<string>>, PartitionError>)
    ensures r == if shardTotal <= 0 then Err(InvalidTotal) else Ok(Shards(files, shardTotal, d))
  {
    if shardTotal <= 0 { return Err(InvalidTotal); }
    var ordered := Ordered(files, d);
    var shards := Deal(ordered, Weights(ordered, d), shardTotal);
    var out := [];
    for k := 0 to shardTotal
      invariant |out| == k
      invariant forall l :: 0 <= l < k ==> out[l] == SortUnique(StringLess, shards[l])
    {
      out := out + [SortUnique(StringLess, shards[k])];
    }
    assert out == Shards(files, shardTotal, d);
    return Ok(out);
  }

  lemma {:induction false} PickOfPrefix(ordered: seq<string>, a: seq<nat>, b: seq<nat>, n: nat, k: nat)
    requires n <= |ordered| && n <= |a| && n <= |b|
    requires forall i :: 0 <= i < n ==> a[i] == b[i]
    ensures Pick(ordered, a, n, k) == Pick(ordered, b, n, k)
  {
    if n > 0 { PickOfPrefix(ordered, a, b, n - 1, k); }
  }

  lemma {:induction false} PickMember(ordered: seq<string>, a: seq<nat>, n: nat, k: nat, f: string)
    requires n <= |ordered| && n <= |a|
    ensures f in Pick(ordered, a, n, k) <==> exists i :: 0 <= i < n && a[i] == k && ordered[i] == f
  {
    if n > 0 { PickMember(ordered, a, n - 1, k, f); }
  }

  lemma {:induction false} PickDistinct(ordered: seq<string>, a: seq<nat>, n: nat, k: nat)
    requires n <= |ordered| && n <= |a| && Distinct(ordered)
    ensures Distinct(Pick(ordered, a, n, k))
  {
    if n > 0 {
      PickDistinct(ordered, a, n - 1, k);
      PickMember(ordered, a, n - 1, k, ordered[n - 1]);
    }
  }

  // ----- Exact covers -----

  function Flatten(shards: seq<seq<string>>): seq<string> {
    if shards == [] then [] else Flatten(shards[..|shards| - 1]) + shards[|shards| - 1]
  }

  /** Every wanted file is in one shard once, and nothing else is in any shard. */
  ghost predicate ExactCover(wanted: set<string>, shards: seq<seq<string>>) {
    Distinct(Flatten(shards)) && Elements(Flatten(shards)) == wanted
  }

  lemma {:induction false} FlattenMember(shards: seq<seq<string>>, f: string)
    ensures f in Flatten(shards) <==> exists k :: 0 <= k < |shards| && f in shards[k]
  {
    if shards != [] {
      var n := |shards| - 1;
      FlattenMember(shards[..n], f);
      assert forall k :: 0 <= k < n ==> shards[..n][k] == shards[k];
      assert f in shards[n] ==> exists k :: 0 <= k < |shards| && f in shards[k];
    }
  }

  lemma {:induction false} FlattenDistinct(shards: seq<seq<string>>)
    requires forall k :: 0 <= k < |shards| ==> Distinct(shards[k])
    requires forall k, l, f :: 0 <= k < l < |shards| && f in shards[k] ==> f !in shards[l]
    ensures Distinct(Flatten(shards))
  {
    if shards != [] {
      var n := |shards| - 1;
      FlattenDistinct(shards[..n]);
      forall f | f in Flatten(shards[..n]) ensures f !in shards[n] { FlattenMember(shards[..n], f); }
      DistinctAppend(Flatten(shards[..n]), shards[n]);
    }
  }

  lemma {:induction false} FlattenParts(shards: seq<seq<string>>, k: nat)
    requires Distinct(Flatten(shards)) && k < |shards|
    ensures Distinct(shards[k])
    ensures forall l, f :: 0 <= l < |shards| && l != k && f in shards[k] ==> f !in shards[l]
  {
    var n := |shards| - 1;
    var head, tail := Flatten(shards[..n]), shards[n];
    assert Flatten(shards) == head + tail;
    forall f ensures Distinct(head) && Distinct(tail) && (f in head ==> f !in tail) { DistinctSplit(head, tail, f); }
    DistinctSplit(head, tail, "");
    if k < n { FlattenParts(shards[..n], k); }
    forall l, f | 0 <= l < |shards| && l != k && f in shards[k] ensures f !in shards[l] {
      FlattenMember(shards[..n], f);
      if l == n { assert shards[..n][k] == shards[k]; }
      else if k == n { assert shards[..n][l] == shards[l]; }
      else { assert shards[..n][l] == shards[l] && shards[..n][k] == shards[k]; }
    }
  }

  /** Shard `k` holds the files that the greedy run put on bin `k`, once each. */
  lemma {:induction false} ShardContents(files: seq<string>, m: nat, d: Durations, k: nat)
    requires m > 0 && k < m
    ensures var o := Ordered(files, d); var a := GreedyRun(Weights(o, d), m); var shard := Shards(files, m, d)[k];
      && Distinct(shard)
      && forall f :: f in shard <==> exists i :: 0 <= i < |o| && a[i] == k && o[i] == f
  {
    var o := Ordered(files, d);
    var a := GreedyRun(Weights(o, d), m);
    var pick, shard := Pick(o, a, |o|, k), Shards(files, m, d)[k];
    StringLessIsStrictTotal();
    SortUniqueSorts(StringLess, pick);
    forall f ensures f in shard <==> exists i :: 0 <= i < |o| && a[i] == k && o[i] == f {
      assert f in shard <==> f in Elements(shard);
      PickMember(o, a, |o|, k, f);
    }
  }

  /** The shards hold each input file exactly once, whatever the repetitions in the input. */
  lemma {:induction false} ShardsCover(files: seq<string>, m: nat, d: Durations)
    requires m > 0
    ensures ExactCover(Elements(files), Shards(files, m, d))
  {
    var o, shards := Ordered(files, d), Shards(files, m, d);
    var a := GreedyRun(Weights(o, d), m);
    OrderedWeights(files, d);
    GreedyAssigns(Weights(o, d), a, m);
    forall k | 0 <= k < m
      ensures Distinct(shards[k])
      ensures forall f :: f in shards[k] <==> exists i :: 0 <= i < |o| && a[i] == k && o[i] == f
    {
      ShardContents(files, m, d, k);
    }
    DealtOnce(o, a, shards);
    assert forall f :: f in o <==> f in Elements(o);
  }

  /** Dealing distinct files by any assignment yields an exact cover. */
  lemma {:induction false} DealtOnce(o: seq<string>, a: seq<nat>, shards: seq<seq<string>>)
    requires |a| == |o| && Distinct(o) && Assigns(a, |o|, |shards|)
    requires forall k :: 0 <= k < |shards| ==> Distinct(shards[k])
    requires forall k :: 0 <= k < |shards| ==>
      forall f :: f in shards[k] <==> exists i :: 0 <= i < |o| && a[i] == k && o[i] == f
    ensures ExactCover(Elements(o), shards)
  {
    forall k, l, f | 0 <= k < l < |shards| && f in shards[k] ensures f !in shards[l] {
      var i :| 0 <= i < |o| && a[i] == k && o[i] == f;
    }
    FlattenDistinct(shards);
    forall f ensures f in Flatten(shards) <==> f in o {
      FlattenMember(shards, f);
      if f in o {
        var i :| 0 <= i < |o| && o[i] == f;
        assert f in shards[a[i]];
      }
    }
  }

  /** Only the set of files matters: order and repetition of the input leave no trace. */
  lemma {:induction false} ShardsDependOnSet(files: seq<string>, files': seq<string>, m: nat, d: Durations)
    requires m > 0 && Elements(files) == Elements(files')
    ensures Shards(files, m, d) == Shards(files', m, d)
  {
    PackOrderIsStrictTotal(d);
    SortUniqueSorts(PackOrder(d), files);
    SortUniqueSorts(PackOrder(d), files');
    IncreasingIsUnique(PackOrder(d), Ordered(files, d), Ordered(files', d));
  }

  // ----- Quality of the packing -----

  function SecondsIn(d: Durations): string -> real { f => Seconds(d, f) }

  function ShardSeconds(d: Durations, shard: seq<string>): real {
    SumOf(SecondsIn(d), shard)
  }

  lemma {:induction false} LoadIsPickSum(o: seq<string>, d: Durations, a: seq<nat>, n: nat, k: nat)
    requires n <= |o| && n <= |a|
    ensures Load(Weights(o, d), a, n, k) == ShardSeconds(d, Pick(o, a, n, k))
  {
    LoadSumsPicks(o, Weights(o, d), SecondsIn(d), a, n, k);
  }

  /** A bin's load is the sum of the weights picked for it, whatever the weights are. */
  lemma {:induction false} LoadSumsPicks(o: seq<string>, w: seq<real>, val: string -> real, a: seq<nat>, n: nat, k: nat)
    requires n <= |o| == |w| && n <= |a| && forall i :: 0 <= i < |o| ==> w[i] == val(o[i])
    ensures Load(w, a, n, k) == SumOf(val, Pick(o, a, n, k))
  {
    if n > 0 {
      var m := n - 1;
      LoadSumsPicks(o, w, val, a, m, k);
      var picked := Pick(o, a, m, k);
      if a[m] == k {
        SumOfAppend(val, picked, [o[m]]);
        SumOfSingle(val, o[m]);
      } else {
        assert Pick(o, a, n, k) == picked;
      }
    }
  }

  /** A shard that holds the files picked for bin `k`, in any order, weighs that bin's load. */
  lemma {:induction false} ShardSecondsIsLoad(o: seq<string>, d: Durations, a: seq<nat>, k: nat, shard: seq<string>)
    requires |o| == |a| && Distinct(o) && Distinct(shard)
    requires forall f :: f in shard <==> exists i :: 0 <= i < |o| && a[i] == k && o[i] == f
    ensures ShardSeconds(d, shard) == Load(Weights(o, d), a, |o|, k)
  {
    var pick := Pick(o, a, |o|, k);
    forall f ensures f in pick <==> f in shard { PickMember(o, a, |o|, k, f); }
    PickDistinct(o, a, |o|, k);
    DistinctMultiset(pick, shard);
    SumOfPermutation(SecondsIn(d), pick, shard);
    LoadIsPickSum(o, d, a, |o|, k);
  }

  lemma {:induction false} ShardLoads(files: seq<string>, m: nat, d: Durations, k: nat)
    requires m > 0 && k < m
    ensures var o := Ordered(files, d); var w := Weights(o, d);
      ShardSeconds(d, Shards(files, m, d)[k]) == Load(w, GreedyRun(w, m), |w|, k)
  {
    var o := Ordered(files, d);
    var a := GreedyRun(Weights(o, d), m);
    OrderedWeights(files, d);
    ShardContents(files, m, d, k);
    ShardSecondsIsLoad(o, d, a, k, Shards(files, m, d)[k]);
  }

  /** The shard of `other` that holds `f`. */
  ghost function Home(other: seq<seq<string>>, f: string): (k: nat)
    requires f in Flatten(other)
    ensures k < |other| && f in other[k]
  {
    FlattenMember(other, f);
    var k: nat :| k < |other| && f in other[k];
    k
  }

  /**
   The heaviest shard is within 4/3 - 1/(3m) of the heaviest shard of every other partition of the
   same files into `m` shards.
   */
  lemma {:induction false} PackingIsNearOptimal(
      files: seq<string>, m: nat, d: Durations, other: seq<seq<string>>, heaviest: real, k: nat)
    requires m > 0 && k < m && |other| == m && ExactCover(Elements(files), other)
    requires forall l :: 0 <= l < m ==> ShardSeconds(d, other[l]) <= heaviest
    ensures ShardSeconds(d, Shards(files, m, d)[k]) <= (4.0 / 3.0 - 1.0 / (3.0 * m as real)) * heaviest
  {
    var o := Ordered(files, d);
    var w := Weights(o, d);
    OrderedWeights(files, d);
    forall f | f in o ensures f in Flatten(other) {
      assert f in Elements(o);
      assert f in Elements(Flatten(other));
    }
    var b := seq(|o|, i requires 0 <= i < |o| => Home(other, o[i]));
    forall l | 0 <= l < m ensures Load(w, b, |w|, l) <= heaviest {
      FlattenParts(other, l);
      forall f ensures f in other[l] <==> exists i :: 0 <= i < |o| && b[i] == l && o[i] == f {
        if f in other[l] {
          FlattenMember(other, f);
          assert f in Elements(Flatten(other));
          assert f in Elements(o);
          var i :| 0 <= i < |o| && o[i] == f;
          assert b[i] == l;
        }
      }
      ShardSecondsIsLoad(o, d, b, l, other[l]);
    }
    GrahamBound(w, GreedyRun(w, m), b, m, heaviest, k);
    ShardLoads(files, m, d, k);
  }

  lemma {:induction false} LongestBoundsWeights(files: seq<string>, d: Durations, longest: real)
    requires forall f :: f in files ==> Seconds(d, f) <= longest
    ensures var w := Weights(Ordered(files, d), d); forall i :: 0 <= i < |w| ==> w[i] <= longest
  {
    var o := Ordered(files, d);
    OrderedWeights(files, d);
    forall i | 0 <= i < |o| ensures Seconds(d, o[i]) <= longest {
      assert o[i] in Elements(o);
      assert o[i] in files;
    }
  }

  /** Two shards differ by at most the longest file. */
  lemma {:induction false} PackingIsBalanced(files: seq<string>, m: nat, d: Durations, longest: real, k: nat, l: nat)
    requires m > 0 && k < m && l < m && longest >= 0.0
    requires forall f :: f in files ==> Seconds(d, f) <= longest
    ensures ShardSeconds(d, Shards(files, m, d)[k]) - ShardSeconds(d, Shards(files, m, d)[l]) <= longest
  {
    var w := Weights(Ordered(files, d), d);
    OrderedWeights(files, d);
    LongestBoundsWeights(files, d, longest);
    ShardLoads(files, m, d, k);
    ShardLoads(files, m, d, l);
    GreedyBalance(w, GreedyRun(w, m), m, |w|, longest, k, l);
  }

  /** No shard exceeds total/m + (1 - 1/m) * longest, multiplied through by `m`. */
  lemma {:induction false} PackingMakespan(files: seq<string>, m: nat, d: Durations, longest: real, k: nat)
    requires m > 0 && k < m && longest >= 0.0
    requires forall f :: f in files ==> Seconds(d, f) <= longest
    ensures Times(m, ShardSeconds(d, Shards(files, m, d)[k]))
         <= ShardSeconds(d, Ordered(files, d)) + Times(m - 1, longest)
  {
    var o := Ordered(files, d);
    var w := Weights(o, d);
    OrderedWeights(files, d);
    LongestBoundsWeights(files, d, longest);
    ShardLoads(files, m, d, k);
    MakespanSteps(w, GreedyRun(w, m), m, |w|, longest, k);
    TotalIsSum(o, d, |o|);
    assert o[..|o|] == o;
  }

  lemma {:induction false} TotalIsSum(o: seq<string>, d: Durations, n: nat)
    requires n <= |o|
    ensures Total(Weights(o, d), n) == ShardSeconds(d, o[..n])
  {
    TotalSumsWeights(o, Weights(o, d), SecondsIn(d), n);
  }

  lemma {:induction false} TotalSumsWeights(o: seq<string>, w: seq<real>, val: string -> real, n: nat)
    requires n <= |o| == |w| && forall i :: 0 <= i < |o| ==> w[i] == val(o[i])
    ensures Total(w, n) == SumOf(val, o[..n])
  {
    if n > 0 {
      var m := n - 1;
      TotalSumsWeights(o, w, val, m);
      assert o[..n] == o[..m] + [o[m]];
      SumOfAppend(val, o[..m], [o[m]]);
      SumOfSingle(val, o[m]);
    }
  }

  // ----- Verification of a partition -----

  ghost function Repeated(s: seq<string>): set<string> {
    set f | f in s && multiset(s)[f] > 1
  }

  /**
   Accepts exactly the exact covers of the input minus the excluded files, and otherwise reports
   the first failing check with exactly the offending files.
   */
  method VerifyPartition(input: seq<string>, shards: seq<seq<string>>, excluded: seq<string>)
    returns (r: Result<(), PartitionError>)
    ensures var flat, wanted := Flatten(shards), Elements(input) - Elements(excluded);
      r == if Repeated(flat) != {} then Err(Duplicated(Repeated(flat)))
           else if Elements(flat) * Elements(excluded) != {} then Err(Leaked(Elements(flat) * Elements(excluded)))
           else if wanted - Elements(flat) != {} then Err(Dropped(wanted - Elements(flat)))
           else if Elements(flat) - Elements(input) != {} then Err(Extra(Elements(flat) - Elements(input)))
           else Ok(())
    ensures r.Ok? <==> ExactCover(Elements(input) - Elements(excluded), shards)
  {
    var inputSet := set f | f in input;
    var excludedSet := set f | f in excluded;
    var excludedPresent := inputSet * excludedSet;
    var seen, duplicates := Scan(shards);
    ghost var flat := Flatten(shards);
    RepeatedIsEmpty(flat);
    var leaked := seen * excludedSet;
    var covered := seen + excludedPresent;
    var missing := inputSet - covered;
    var extra := covered - inputSet;
    ghost var wanted := Elements(input) - Elements(excluded);
    assert missing == wanted - Elements(flat);
    assert extra == Elements(flat) - Elements(input);
    assert leaked == {} && missing == {} && extra == {} ==> Elements(flat) == wanted;
    assert Elements(flat) == wanted ==> leaked == {} && missing == {} && extra == {};
    if duplicates != {} { return Err(Duplicated(duplicates)); }
    if leaked != {} { return Err(Leaked(leaked)); }
    if missing != {} { return Err(Dropped(missing)); }
    if extra != {} { return Err(Extra(extra)); }
    return Ok(());
  }

  /** The loops of `verify_partition` that grow `seen` and `duplicates`. */
  method Scan(shards: seq<seq<string>>) returns (seen: set<string>, duplicates: set<string>)
    ensures seen == Elements(Flatten(shards)) && duplicates == Repeated(Flatten(shards))
  {
    seen, duplicates := {}, {};
    for k := 0 to |shards|
      invariant seen == Elements(Flatten(shards[..k])) && duplicates == Repeated(Flatten(shards[..k]))
    {
      seen, duplicates := ScanShard(shards[k], seen, duplicates, Flatten(shards[..k]));
      assert shards[..k + 1][..k] == shards[..k];
    }
    assert shards[..|shards|] == shards;
  }

  method ScanShard(shard: seq<string>, seen0: set<string>, duplicates0: set<string>, ghost before: seq<string>)
    returns (seen: set<string>, duplicates: set<string>)
    requires seen0 == Elements(before) && duplicates0 == Repeated(before)
    ensures seen == Elements(before + shard) && duplicates == Repeated(before + shard)
  {
    seen, duplicates := seen0, duplicates0;
    assert before + shard[..0] == before;
    for i := 0 to |shard|
      invariant seen == Elements(before + shard[..i]) && duplicates == Repeated(before + shard[..i])
    {
      var f := shard[i];
      SeeOneMore(before + shard[..i], f);
      assert before + shard[..i] + [f] == before + shard[..i + 1];
      if f in seen { duplicates := duplicates + {f}; }
      seen := seen + {f};
    }
    assert shard[..|shard|] == shard;
  }

  lemma {:induction false} SeeOneMore(s: seq<string>, f: string)
    ensures Elements(s + [f]) == Elements(s) + {f}
    ensures Repeated(s + [f]) == Repeated(s) + if f in s then {f} else {}
  {
    assert multiset(s + [f]) == multiset(s) + multiset{f};
    assert f in s <==> multiset(s)[f] > 0;
  }

  lemma {:induction false} RepeatedIsEmpty(s: seq<string>)
    ensures Repeated(s) == {} <==> Distinct(s)
  {
    if Distinct(s) {
      forall f | f in s ensures multiset(s)[f] <= 1 { DistinctCount(s, f); }
    } else if Repeated(s) == {} {
      forall f ensures multiset(s)[f] <= 1 {
        if f in s { assert f !in Repeated(s); }
      }
      CountAtMostOneIsDistinct(s);
      assert false;
    }
  }

  // ----- One job's view -----

  ghost function Shardable(files: seq<string>, excluded: seq<string>): seq<string> {
    Select(f => f !in excluded, files)
  }

  lemma {:induction false} ShardableElements(files: seq<string>, excluded: seq<string>)
    ensures Elements(Shardable(files, excluded)) == Elements(files) - Elements(excluded)
  {
    forall f ensures f in Shardable(files, excluded) <==> f in files && f !in excluded {
      SelectMember(f => f !in excluded, files, f);
    }
  }

  /** A valid request always succeeds: the partition check never rejects the packing. */
  method ShardFiles(files: seq<string>, index: int, total: int, d: Durations, excluded: seq<string>)
    returns (r: Result<seq<string>, PartitionError>)
    ensures r == if total <= 0 || index < 0 || index >= total then Err(InvalidShard)
                 else Ok(Shards(Shardable(files, excluded), total, d)[index])
  {
    if total <= 0 || index < 0 || index >= total { return Err(InvalidShard); }
    var shardable := Select(f => f !in excluded, files);
    var packed := AssignShards(shardable, total, d);
    var verdict := VerifyPartition(files, packed.value, excluded);
    ShardsCover(shardable, total, d);
    ShardableElements(files, excluded);
    assert verdict.Ok?;
    return Ok(packed.value[index]);
  }

  /**
   `m` jobs that each compute only their own shard, from lists that agree as sets, together run
   every non-excluded file exactly once.
   */
  lemma {:induction false} IndependentJobsCover(
      lists: seq<seq<string>>, all: set<string>, d: Durations, excluded: seq<string>)
    requires |lists| > 0 && forall k :: 0 <= k < |lists| ==> Elements(lists[k]) == all
    ensures ExactCover(all - Elements(excluded),
      seq(|lists|, k requires 0 <= k < |lists| => Shards(Shardable(lists[k], excluded), |lists|, d)[k]))
  {
    var m := |lists|;
    var jobs := seq(m, k requires 0 <= k < m => Shards(Shardable(lists[k], excluded), m, d)[k]);
    var reference := Shards(Shardable(lists[0], excluded), m, d);
    ShardableElements(lists[0], excluded);
    forall k | 0 <= k < m ensures jobs[k] == reference[k] {
      ShardableElements(lists[k], excluded);
      ShardsDependOnSet(Shardable(lists[k], excluded), Shardable(lists[0], excluded), m, d);
    }
    assert jobs == reference;
    ShardsCover(Shardable(lists[0], excluded), m, d);
  }
}
