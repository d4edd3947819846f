/**
 What the packing means in measured seconds: the weights are the table's own values, and the bound
 on the heaviest shard holds for their plain sums.
 */
module MeasuredShards {
  import opened Sorting
  import opened ShardBinpack

  // ----- Weights -----

  ghost predicate KeysDistinct(d: Durations) { forall i, j :: 0 <= i < j < |d| ==> d[i].0 != d[j].0 }

  /** A file with a positive entry weighs that entry. */
  lemma {:induction false} MeasuredFile(d: Durations, f: string, v: real)
    requires KeysDistinct(d) && (f, v) in d && v > 0.0
    ensures Seconds(d, f) == v
  {
    Measured(d, f, v, DefaultDuration(d));
  }

  lemma {:induction false} Measured(d: Durations, f: string, v: real, fallback: real)
    requires KeysDistinct(d) && (f, v) in d && v > 0.0
    ensures DurationFor(f, d, fallback) == v
  {
    var i :| 0 <= i < |d| && d[i] == (f, v);
    if i > 0 {
      assert d[0].0 != d[i].0 && d[1..][i - 1] == (f, v);
      Measured(d[1..], f, v, fallback);
    }
  }

  /** A file without a positive entry weighs 30 seconds, or the median of the positive entries. */
  lemma {:induction false} UnmeasuredFile(d: Durations, f: string, o: seq<real>)
    requires forall v :: (f, v) in d ==> v <= 0.0
    requires Ascending(o) && forall v :: multiset(o)[v] == if v > 0.0 then EntriesOf(d, v) else 0
    ensures o == [] ==> Seconds(d, f) == 30.0
    ensures |o| % 2 == 1 ==> Seconds(d, f) == o[|o| / 2]
    ensures |o| % 2 == 0 && o != [] ==> 2.0 * Seconds(d, f) == o[|o| / 2 - 1] + o[|o| / 2]
  {
    Fallback(d, f, DefaultDuration(d));
    forall v ensures multiset(Known(d))[v] == multiset(o)[v] { KnownCounts(d, v); }
    assert multiset(Known(d)) == multiset(o);
    assert |Known(d)| == |multiset(Known(d))| && |o| == |multiset(o)|;
    if o != [] { MedianIsMiddle(Known(d), o); }
  }

  lemma {:induction false} Fallback(d: Durations, f: string, fallback: real)
    requires forall v :: (f, v) in d ==> v <= 0.0
    ensures DurationFor(f, d, fallback) == fallback
  {
    if d != [] {
      assert d[0] in d;
      if d[0].0 == f { assert (f, d[0].1) in d; }
      Fallback(d[1..], f, fallback);
    }
  }

  /** How many entries hold the value `v`. */
  ghost function EntriesOf(d: Durations, v: real): nat {
    if d == [] then 0 else (if d[0].1 == v then 1 else 0) + EntriesOf(d[1..], v)
  }

  lemma {:induction false} KnownCounts(d: Durations, v: real)
    ensures multiset(Known(d))[v] == if v > 0.0 then EntriesOf(d, v) else 0
  {
    if d != [] { KnownCounts(d[1..], v); }
  }

  // ----- Order -----

  /** Longer files first, and among equals the smaller path. */
  lemma {:induction false} LongestFirst(files: seq<string>, d: Durations, i: nat, j: nat)
    requires i < j < |Ordered(files, d)|
    ensures var f, g := Ordered(files, d)[i], Ordered(files, d)[j];
      Seconds(d, f) > Seconds(d, g) || (Seconds(d, f) == Seconds(d, g) && StringLess(f, g))
  {
    PackOrderIsStrictTotal(d);
    SortUniqueSorts(PackOrder(d), files);
    assert PackOrder(d)(Ordered(files, d)[i], Ordered(files, d)[j]);
  }

  /** Every shard is listed by path. */
  lemma {:induction false} ShardsAreListedByPath(files: seq<string>, m: nat, d: Durations, k: nat, i: nat, j: nat)
    requires m > 0 && k < m && i < j < |Shards(files, m, d)[k]|
    ensures StringLess(Shards(files, m, d)[k][i], Shards(files, m, d)[k][j])
  {
    var o := Ordered(files, d);
    StringLessIsStrictTotal();
    SortUniqueSorts(StringLess, Pick(o, Greedy.GreedyRun(Weights(o, d), m), |o|, k));
  }

  // ----- The bound in measured seconds -----

  /** The table lists the timings, each once. */
  ghost predicate Tabulates(d: Durations, times: map<string, real>) {
    && KeysDistinct(d) && (forall f :: f in times ==> times[f] > 0.0)
    && (forall f, v :: (f, v) in d <==> f in times && times[f] == v)
  }

  function TimeIn(times: map<string, real>): string -> real { f => if f in times then times[f] else 0.0 }

  /** The measured seconds of a shard. */
  function TimeOf(times: map<string, real>, shard: seq<string>): real { SumOf(TimeIn(times), shard) }

  lemma {:induction false} SecondsAreTimes(d: Durations, times: map<string, real>, shard: seq<string>)
    requires Tabulates(d, times) && forall f :: f in shard ==> f in times
    ensures ShardSeconds(d, shard) == TimeOf(times, shard)
  {
    forall f | f in shard ensures SecondsIn(d)(f) == TimeIn(times)(f) { MeasuredFile(d, f, times[f]); }
    SumOfSame(SecondsIn(d), TimeIn(times), shard);
  }

  /**
   When every file is timed, no partition into `m` shards has a heaviest shard, in measured seconds,
   that this packing exceeds by more than 4/3 - 1/(3m).
   */
  lemma {:induction false} MeasuredPackingIsNearOptimal(
      files: seq<string>, m: nat, d: Durations, times: map<string, real>,
      other: seq<seq<string>>, heaviest: real, k: nat)
    requires Tabulates(d, times) && forall f :: f in files ==> f in times
    requires m > 0 && k < m && |other| == m && ExactCover(Elements(files), other)
    requires forall l :: 0 <= l < m ==> TimeOf(times, other[l]) <= heaviest
    ensures TimeOf(times, Shards(files, m, d)[k]) <= (4.0 / 3.0 - 1.0 / (3.0 * m as real)) * heaviest
  {
    ShardsCover(files, m, d);
    forall l | 0 <= l < m ensures ShardSeconds(d, other[l]) <= heaviest {
      PartIsTimed(files, other, l, times);
      SecondsAreTimes(d, times, other[l]);
    }
    PackingIsNearOptimal(files, m, d, other, heaviest, k);
    PartIsTimed(files, Shards(files, m, d), k, times);
    SecondsAreTimes(d, times, Shards(files, m, d)[k]);
  }

  lemma {:induction false} PartIsTimed(files: seq<string>, shards: seq<seq<string>>, l: nat, times: map<string, real>)
    requires ExactCover(Elements(files), shards) && l < |shards| && forall f :: f in files ==> f in times
    ensures forall f :: f in shards[l] ==> f in times
  {
    forall f | f in shards[l] ensures f in times {
      FlattenMember(shards, f);
      assert f in Elements(Flatten(shards));
    }
  }
}
