/**
 The shards of a C++ plan (`cpp_target_weights` and `cpp_target_shards` in
 `scripts/ci_select_tests.py`), on top of the duration packing.
 */
module CppShards {
  import opened Sorting
  import opened ShardBinpack
  import opened MeasuredShards
  import opened Wrappers
  import opened Catalogs
  import Sel = CppSelection

  datatype ShardPlan =
    | Sharded(shards: seq<seq<string>>)
    | InvalidShardTotal
    | DuplicateTargets
    | MissingWeights(targets: set<string>)

  const CTEST_PARALLEL_JOBS: real := 4.0

  function Weight(build: map<string, real>, test: map<string, real>, target: string): real
  {
    if target in build && target in test then build[target] + test[target] / CTEST_PARALLEL_JOBS else 0.0
  }

  /** The weight table handed to the packer, one entry per target. */
  function WeightTable(targets: seq<string>, build: map<string, real>, test: map<string, real>): Durations
  {
    seq(|targets|, i requires 0 <= i < |targets| => (targets[i], Weight(build, test, targets[i])))
  }

  ghost function Unweighted(targets: seq<string>, build: map<string, real>, test: map<string, real>): set<string> {
    Elements(targets) - build.Keys * test.Keys
  }

  /** Refuses a bad total, a repeated target or a missing weight; otherwise returns an exact partition. */
  method CppTargetShards(targets: seq<string>, total: int, build: map<string, real>, test: map<string, real>)
    returns (r: ShardPlan)
    ensures r.InvalidShardTotal? <==> total <= 0
    ensures r.DuplicateTargets? <==> total > 0 && !Distinct(targets)
    ensures r.MissingWeights? <==> total > 0 && Distinct(targets) && Unweighted(targets, build, test) != {}
    ensures r.MissingWeights? ==> r.targets == Unweighted(targets, build, test)
    ensures r.Sharded? ==> ExactCover(Elements(targets), r.shards)
    ensures r.Sharded? ==> r.shards == Shards(targets, total, WeightTable(targets, build, test))
  {
    if total <= 0 { return InvalidShardTotal; }
    var all := set t | t in targets;
    DistinctIffSameSize(targets);
    if |targets| != |all| { return DuplicateTargets; }
    var missing := all - build.Keys * test.Keys;
    if missing != {} { return MissingWeights(missing); }
    var shards := PackTargets(targets, total, WeightTable(targets, build, test));
    return Sharded(shards);
  }

  method PackTargets(targets: seq<string>, total: nat, table: Durations) returns (shards: seq<seq<string>>)
    requires total > 0
    ensures shards == Shards(targets, total, table) && ExactCover(Elements(targets), shards)
  {
    var packed := AssignShards(targets, total, table);
    shards := packed.value;
    ShardsCover(targets, total, table);
    var verdict := VerifyPartition(targets, shards, []);
    assert Elements(targets) - Elements<string>([]) == Elements(targets);
    assert verdict.Ok?;
  }

  /** The modelled seconds of a target: its build time and a quarter of its test time. */
  ghost function WallTimes(targets: seq<string>, build: map<string, real>, test: map<string, real>): map<string, real>
    requires forall t :: t in targets ==> t in build && t in test
  {
    map t | t in targets :: build[t] + test[t] / 4.0
  }

  /**
   No partition of the targets into `total` shards has a heaviest shard, in build seconds plus a
   quarter of the test seconds, that this one exceeds by more than 4/3 - 1/(3 total).
   */
  lemma {:induction false} TargetShardsAreNearOptimal(
      targets: seq<string>, total: nat, build: map<string, real>, test: map<string, real>, other: seq<seq<string>>,
      heaviest: real, k: nat)
    requires Distinct(targets) && total > 0 && k < total && |other| == total
    requires forall t :: t in targets ==> t in build && t in test && build[t] > 0.0 && test[t] > 0.0
    requires ExactCover(Elements(targets), other)
    requires forall l :: 0 <= l < total ==> TimeOf(WallTimes(targets, build, test), other[l]) <= heaviest
    ensures var shards := Shards(targets, total, WeightTable(targets, build, test));
      TimeOf(WallTimes(targets, build, test), shards[k]) <= (4.0 / 3.0 - 1.0 / (3.0 * total as real)) * heaviest
  {
    WeightsAreWallTimes(targets, build, test);
    MeasuredPackingIsNearOptimal(
      targets, total, WeightTable(targets, build, test), WallTimes(targets, build, test), other, heaviest, k);
  }

  lemma {:induction false} WeightsAreWallTimes(targets: seq<string>, build: map<string, real>, test: map<string, real>)
    requires Distinct(targets)
    requires forall t :: t in targets ==> t in build && t in test && build[t] > 0.0 && test[t] > 0.0
    ensures Tabulates(WeightTable(targets, build, test), WallTimes(targets, build, test))
  {
    var d, times := WeightTable(targets, build, test), WallTimes(targets, build, test);
    forall i | 0 <= i < |targets| ensures d[i] == (targets[i], build[targets[i]] + test[targets[i]] / 4.0) {
      assert targets[i] in targets;
    }
    forall f, v ensures (f, v) in d <==> f in times && times[f] == v {
      if (f, v) in d { var i :| 0 <= i < |d| && d[i] == (f, v); assert targets[i] in targets; }
      if f in times && times[f] == v {
        var i :| 0 <= i < |targets| && targets[i] == f;
        assert d[i] == (f, v);
      }
    }
  }

  /** A plan made from authenticated catalogues is never refused for a missing weight. */
  lemma {:induction false} PlannedTargetsHaveWeights(
      repo: Sel.Repo, build: Catalog, test: Catalog, changed: seq<string>, forceAll: bool,
      targets: seq<string>)
    requires repo.suites != [] && Covers(build, repo.Names()) && Covers(test, repo.Names())
    requires Elements(targets) == Sel.PlanFor(repo, changed, forceAll).targets
    ensures Unweighted(targets, Load(build).value, Load(test).value) == {}
  {
    forall p | p in changed ensures Sel.Classify(repo, p).Targets() <= repo.Names() { Sel.TargetsAreNames(repo, p); }
    assert Sel.Narrowed(repo, changed) <= repo.Names();
  }

  /**
   End to end: a suite that transitively includes a changed header runs in exactly one of the
   shard jobs, exactly once.
   */
  lemma {:induction false} AffectedSuiteRunsOnce(
      repo: Sel.Repo, changed: seq<string>, forceAll: bool, path: string, suite: Sel.Suite,
      targets: seq<string>, total: nat, d: Durations)
    requires path in changed && Sel.IsHeader(path) && suite in repo.suites &&
      Sel.Includes(repo, suite, Sel.NodeOf(path))
    requires total > 0 && Sel.PlanFor(repo, changed, forceAll).Plan?
    requires Elements(targets) == Sel.PlanFor(repo, changed, forceAll).targets
    ensures multiset(Flatten(Shards(targets, total, d)))[suite.name] == 1
  {
    Sel.HeaderSelectionIsSound(repo, changed, forceAll, path, suite);
    ShardsCover(targets, total, d);
    assert suite.name in Elements(Flatten(Shards(targets, total, d)));
    DistinctCount(Flatten(Shards(targets, total, d)), suite.name);
  }
}
