/**
 What the ABBA assembler and verifier accept, field by field and number by number, and what the
 assembled summaries mean.
 */
module AbbaLaws {
  import opened Wrappers
  import opened Numbers
  import opened Strings
  import opened Sorting
  import opened AbbaReport
  import opened AbbaVerifier
  import AbbaAgreement

  // ----- Measurements -----

  ghost predicate Hex64(s: string) { |s| == 64 && forall c :: c in s ==> '0' <= c <= '9' || 'a' <= c <= 'f' }

  /** Every metric is there, finite and not negative; time and throughput are positive. */
  ghost predicate Measured(m: Metrics) {
    && (forall k: Metric :: k in m && m[k].Finite? && m[k].value >= 0.0)
    && m[TimeToSolution].value > 0.0 && m[Throughput].value > 0.0
  }

  /** The run passed and every error is there, finite and at most 1e-11. */
  ghost predicate Correct(c: Correctness) {
    c.passed && forall k: Check :: k in c.errors && c.errors[k].Finite? && 0.0 <= c.errors[k].value <= 0.00000000001
  }

  ghost predicate Serves(devices: seq<Device>, r: int) { exists i :: 0 <= i < |devices| && devices[i].rank == r }

  ghost predicate OneDevicePerRank(devices: seq<Device>, ranks: int) {
    && |devices| == ranks
    && (forall r :: 0 <= r < ranks ==> Serves(devices, r))
    && (forall i, j :: 0 <= i < j < |devices| ==> devices[i].uuid != devices[j].uuid)
  }

  ghost predicate ProvenStreams(s: Streams) {
    && |s.identities| >= 2 && (forall i :: 0 <= i < |s.identities| ==> s.identities[i] != "")
    && (forall i, j :: 0 <= i < j < |s.identities| ==> s.identities[i] != s.identities[j])
    && s.parity && s.overlap && s.disjoint
  }

  lemma {:induction false} MetricsAreSpelled(m: Metrics)
    ensures GoodMetrics(m) <==> Measured(m)
  {
    assert forall k: Metric :: k in METRICS;
    if forall k: Metric :: k in m { assert m.Keys == METRICS; }
  }

  lemma {:induction false} CorrectnessIsSpelled(c: Correctness)
    ensures GoodCorrectness(c) <==> Correct(c)
  {
    assert forall k: Check :: k in CHECKS;
    if forall k: Check :: k in c.errors { assert c.errors.Keys == CHECKS; }
  }

  lemma {:induction false} DevicesAreSpelled(devices: seq<Device>, ranks: int)
    ensures GoodDevices(devices, ranks) <==> OneDevicePerRank(devices, ranks)
  {
    assert forall i :: 0 <= i < |devices| ==> Uuids(devices)[i] == devices[i].uuid;
    assert forall r :: HasRank(devices, r) <==> Serves(devices, r);
  }

  lemma {:induction false} StreamsAreSpelled(s: Streams)
    ensures GoodStreams(s) <==> ProvenStreams(s)
  {
  }

  /** Which measurements the assembler accepts. */
  lemma {:induction false} AcceptableIsExact(m: Measurement, revision: string, rt: Runtime)
    ensures Acceptable(m, revision, rt) <==>
      && m.passed && m.revision == revision && m.binding.build != "" && m.binding.space != "" && m.binding.ranks >= 2
      && Hex64(m.binding.wheel) && Hex64(m.binding.abi) && Hex64(m.binding.runtime)
      && m.binding.runtime == rt.digest && m.binding.wheel == rt.wheel && m.binding.abi == rt.abi
      && (m.scenario == PreparedLocalTime || m.scenario == CostAwareLoadBalance)
      && (m.route == Baseline || m.route == Candidate)
      && OneDevicePerRank(m.binding.devices, m.binding.ranks) && ProvenStreams(m.streams)
      && Measured(m.metrics) && Correct(m.correctness)
  {
    MetricsAreSpelled(m.metrics);
    CorrectnessIsSpelled(m.correctness);
    DevicesAreSpelled(m.binding.devices, m.binding.ranks);
    StreamsAreSpelled(m.streams);
    DigestIsSpelled(m.binding.wheel);
    DigestIsSpelled(m.binding.abi);
    DigestIsSpelled(m.binding.runtime);
  }

  lemma {:induction false} DigestIsSpelled(s: string)
    ensures IsDigest(s) <==> Hex64(s)
  {
    assert IsDigest(s) ==> Hex64(s);
    if Hex64(s) {
      forall i | 0 <= i < 64 ensures IsHex(s[i]) { assert s[i] in s; }
    }
  }

  // ----- Summaries -----

  /** A summary holds, metric by metric, the median of the runs. */
  lemma {:induction false} SummaryIsMedians(ms: seq<Measurement>, k: Metric, values: seq<real>)
    requires |values| == |ms|
    requires forall i :: 0 <= i < |ms| ==> k in ms[i].metrics && ms[i].metrics[k] == Finite(values[i])
    ensures k in MedianMetrics(ms) && MedianMetrics(ms)[k] == Finite(Median(values))
  {
    assert k in METRICS && AmountsOf(ms, k) == values;
  }

  /** The reported error is the largest of the runs. */
  lemma {:induction false} WorstIsLargest(ms: seq<Measurement>, c: Check)
    requires ms != []
    ensures (forall i :: 0 <= i < |ms| ==> ErrorOf(ms[i], c) <= Worst(ms, c))
    ensures exists i :: 0 <= i < |ms| && ErrorOf(ms[i], c) == Worst(ms, c)
  {
    var n := |ms| - 1;
    if n == 0 {
      assert ErrorOf(ms[0], c) == Worst(ms, c);
    } else {
      var head := ms[..n];
      WorstIsLargest(head, c);
      forall i | 0 <= i < |ms| ensures ErrorOf(ms[i], c) <= Worst(ms, c) { if i < n { assert head[i] == ms[i]; } }
      var i :| 0 <= i < |head| && ErrorOf(head[i], c) == Worst(head, c);
      assert ErrorOf(ms[if Worst(ms, c) == Worst(head, c) then i else n], c) == Worst(ms, c);
    }
  }

  lemma {:induction false} ErrorIsReported(m: Measurement, c: Check)
    requires c in m.correctness.errors && m.correctness.errors[c].Finite?
    ensures ErrorOf(m, c) == m.correctness.errors[c].value
  {
  }

  /** Runs `4b` to `4b + 3` are baseline, candidate, candidate, baseline. */
  ghost predicate InOrder(ms: seq<Measurement>, b: nat)
    requires 4 * b + 4 <= |ms|
  {
    && ms[4 * b].route == Baseline && ms[4 * b + 1].route == Candidate
    && ms[4 * b + 2].route == Candidate && ms[4 * b + 3].route == Baseline
  }

  /** No block is reported exactly when every block is in order. */
  lemma {:induction false} OrderIsSpelled(ms: seq<Measurement>, c: nat)
    requires |ms| % 4 == 0 && 4 * c <= |ms|
    ensures FirstBreak(ms, 4 * c) == |ms| <==> forall b: nat :: c <= b < |ms| / 4 ==> InOrder(ms, b)
    ensures FirstBreak(ms, 4 * c) == |ms| || FirstBreak(ms, 4 * c) + 4 <= |ms|
    decreases |ms| - 4 * c
  {
    if 4 * c < |ms| {
      assert IsAbba(ms, 4 * c) == InOrder(ms, c);
      if InOrder(ms, c) {
        OrderIsSpelled(ms, c + 1);
        assert FirstBreak(ms, 4 * c) == FirstBreak(ms, 4 * (c + 1));
      }
    }
  }

  /** Block `b` holds the times of the runs `4b` to `4b + 3`. */
  lemma {:induction false} BlockIsSpelled(ms: seq<Measurement>, i: nat, b: nat)
    requires i + 4 * b + 4 <= |ms|
    ensures b < |BlocksFrom(ms, i)|
    ensures var k, block := i + 4 * b, BlocksFrom(ms, i)[b];
      && |block| == 4 && block[0] == Finite(Time(ms[k])) && block[1] == Finite(Time(ms[k + 1]))
      && block[2] == Finite(Time(ms[k + 2])) && block[3] == Finite(Time(ms[k + 3]))
    decreases b
  {
    if b > 0 { BlockIsSpelled(ms, i + 4, b - 1); }
  }

  lemma {:induction false} TimeIsReported(m: Measurement)
    requires TimeToSolution in m.metrics && m.metrics[TimeToSolution].Finite?
    ensures Time(m) == m.metrics[TimeToSolution].value
  {
  }

  // ----- The verifier -----

  /** Within a relative 1e-12. */
  ghost predicate Near(x: real, y: real) {
    var d := if x > y then x - y else y - x;
    d <= 0.000000000001 * (if x > 0.0 then x else -x) || d <= 0.000000000001 * (if y > 0.0 then y else -y)
  }

  lemma {:induction false} CloseIsNear(x: real, y: real)
    ensures IsClose(x, y) <==> Near(x, y)
  {
  }

  /** What candidate and baseline must show in either scenario. */
  ghost predicate Improves(b: Metrics, c: Metrics, id: Scenario)
    requires Measured(b) && Measured(c)
  {
    && c[Throughput].value > b[Throughput].value
    && (id == PreparedLocalTime ==> c[UsefulWork].value < b[UsefulWork].value && c[FallbackCount].value == 0.0)
    && (id != PreparedLocalTime ==>
          && c[ImbalanceRatio].value < b[ImbalanceRatio].value
          && c[MigrationBytes].value > 0.0 && c[MigrationSeconds].value > 0.0)
  }

  lemma {:induction false} ComparisonIsExact(b: Metrics, c: Metrics, id: Scenario)
    requires Measured(b) && Measured(c)
    ensures Comparison(b, c, id) == NoFault <==> Improves(b, c, id)
  {
  }

  /** A scenario passes exactly under these conditions. */
  lemma {:induction false} ScenarioPasses(root: real -> real, s: ScenarioReport, id: Scenario)
    ensures FaultOf(root, s, id) == NoFault <==>
      && s.id == id && Measured(s.baseline) && Measured(s.candidate) && Correct(s.correctness)
      && s.minimum.Finite? && s.minimum.value >= 1.0 && |s.blocks| >= 5 && WellFormed(s.blocks)
      && Near(s.baseline[TimeToSolution].value, Median(Samples(s.blocks, Baseline, 0)))
      && Near(s.candidate[TimeToSolution].value, Median(Samples(s.blocks, Candidate, 0)))
      && Median(Speedups(root, s.blocks)) >= s.minimum.value && Improves(s.baseline, s.candidate, id)
  {
    MetricsAreSpelled(s.baseline);
    MetricsAreSpelled(s.candidate);
    CorrectnessIsSpelled(s.correctness);
    if Schema(s, id) == NoFault { SummariesPass(root, s, id); }
  }

  lemma {:induction false} SummariesPass(root: real -> real, s: ScenarioReport, id: Scenario)
    requires WellFormed(s.blocks) && Measured(s.baseline) && Measured(s.candidate) && s.minimum.Finite?
    ensures Summaries(s) == NoFault <==>
      && Near(s.baseline[TimeToSolution].value, Median(Samples(s.blocks, Baseline, 0)))
      && Near(s.candidate[TimeToSolution].value, Median(Samples(s.blocks, Candidate, 0)))
    ensures Performance(root, s, id) == NoFault <==>
      Median(Speedups(root, s.blocks)) >= s.minimum.value && Improves(s.baseline, s.candidate, id)
  {
    CloseIsNear(s.baseline[TimeToSolution].value, Median(Samples(s.blocks, Baseline, 0)));
    CloseIsNear(s.candidate[TimeToSolution].value, Median(Samples(s.blocks, Candidate, 0)));
    ComparisonIsExact(s.baseline, s.candidate, id);
  }

  /** The A and B runs and the squared speedup of one block. */
  lemma {:induction false} BlockIsRead(a1: real, b1: real, b2: real, a2: real)
    requires a1 > 0.0 && b1 > 0.0 && b2 > 0.0 && a2 > 0.0
    ensures var block := [Finite(a1), Finite(b1), Finite(b2), Finite(a2)];
      && |block| == 4 && PositiveBlock(block)
      && Pair(block, Baseline) == [a1, a2] && Pair(block, Candidate) == [b1, b2]
      && Ratio(block) * (b1 * b2) == a1 * a2
  {
    ProductPositive(b1, b2);
    Restored(a1 * a2, b1 * b2);
  }

  lemma {:induction false} Restored(x: real, y: real)
    requires y > 0.0
    ensures (x / y) * y == x
  {
  }

  /** A report is accepted exactly under these conditions. */
  lemma {:induction false} ReportPasses(
      root: real -> real, accelerator: string -> bool, report: Report, revision: string, rt: Runtime)
    ensures VerdictFor(root, accelerator, report, revision, rt) == Accepted <==>
      && OriginHolds(accelerator, report, revision, rt)
      && FaultOf(root, report.scenarios[0], PreparedLocalTime) == NoFault
      && FaultOf(root, report.scenarios[1], CostAwareLoadBalance) == NoFault
  {
    ProvenancePasses(accelerator, report, revision, rt);
    if |report.scenarios| == 2 { BothPass(root, report.scenarios); }
  }

  /** What the report says of its own origin. */
  ghost predicate OriginHolds(accelerator: string -> bool, report: Report, revision: string, rt: Runtime) {
    && report.revision == revision && report.binding.runtime == rt.digest && report.binding.wheel == rt.wheel
    && report.binding.abi == rt.abi && report.binding.build != "" && report.binding.ranks >= 2
    && accelerator(report.binding.space) && OneDevicePerRank(report.binding.devices, report.binding.ranks)
    && (forall i :: 0 <= i < |report.binding.devices| ==> report.binding.devices[i].uuid != "")
    && ProvenStreams(report.streams) && |report.scenarios| == 2
  }

  lemma {:induction false} ProvenancePasses(
      accelerator: string -> bool, report: Report, revision: string, rt: Runtime)
    ensures Provenance(accelerator, report, revision, rt) == Accepted <==>
      OriginHolds(accelerator, report, revision, rt)
  {
    DevicesAreSpelled(report.binding.devices, report.binding.ranks);
    StreamsAreSpelled(report.streams);
    NamesAreSpelled(report.binding.devices);
  }

  lemma {:induction false} NamesAreSpelled(devices: seq<Device>)
    ensures "" !in Uuids(devices) <==> forall i :: 0 <= i < |devices| ==> devices[i].uuid != ""
  {
    assert forall i :: 0 <= i < |devices| ==> Uuids(devices)[i] == devices[i].uuid;
  }

  lemma {:induction false} BothPass(root: real -> real, scenarios: seq<ScenarioReport>)
    requires |scenarios| == 2
    ensures ScenarioVerdict(root, scenarios, 0) == Accepted <==>
      && FaultOf(root, scenarios[0], PreparedLocalTime) == NoFault
      && FaultOf(root, scenarios[1], CostAwareLoadBalance) == NoFault
  {
    assert ScenarioVerdict(root, scenarios, 2) == Accepted;
    assert ScenarioVerdict(root, scenarios, 1) == Accepted <==>
      FaultOf(root, scenarios[1], CostAwareLoadBalance) == NoFault;
  }

  /** The assembler reports exactly under these conditions. */
  lemma {:induction false} AssemblyIsExact(ms: seq<Measurement>, revision: string, minimum: Number, rt: Runtime)
    ensures ReportFor(ms, revision, minimum, rt).Ok? <==>
      && minimum.Finite? && minimum.value >= 1.0 && ms != []
      && (forall i :: 0 <= i < |ms| ==> Acceptable(ms[i], revision, rt) && ms[i].binding == ms[0].binding)
      && Complete(Select(OfScenario(PreparedLocalTime), ms)) && Complete(Select(OfScenario(CostAwareLoadBalance), ms))
  {
    AllScenarios(ms, minimum);
  }

  /** At least five blocks, all complete and in order. */
  ghost predicate Complete(mine: seq<Measurement>) {
    |mine| >= 20 && |mine| % 4 == 0 && forall b: nat :: b < |mine| / 4 ==> InOrder(mine, b)
  }

  lemma {:induction false} AllScenarios(ms: seq<Measurement>, minimum: Number)
    ensures ScenariosFor(ms, minimum).Ok? <==>
      Complete(Select(OfScenario(PreparedLocalTime), ms)) && Complete(Select(OfScenario(CostAwareLoadBalance), ms))
  {
    ScenarioIsReported(ms, PreparedLocalTime, minimum);
    ScenarioIsReported(ms, CostAwareLoadBalance, minimum);
    var first, second := ScenarioFor(ms, PreparedLocalTime, minimum), ScenarioFor(ms, CostAwareLoadBalance, minimum);
    if first.Ok? {
      assert [] + [first.value] == [first.value];
      assert ScenariosFor(ms, minimum) == Gathered(ms, minimum, [first.value]);
      if second.Ok? { assert Gathered(ms, minimum, [first.value] + [second.value]).Ok?; }
    }
  }

  lemma {:induction false} ScenarioIsReported(ms: seq<Measurement>, id: Scenario, minimum: Number)
    ensures ScenarioFor(ms, id, minimum).Ok? <==> Complete(Select(OfScenario(id), ms))
  {
    var mine := Select(OfScenario(id), ms);
    if |mine| % 4 == 0 { OrderIsSpelled(mine, 0); }
  }

  /** The runs of a scenario are those labelled with it. */
  lemma {:induction false} ScenarioRuns(ms: seq<Measurement>, id: Scenario, m: Measurement)
    ensures m in Select(OfScenario(id), ms) <==> m in ms && m.scenario == id
  {
    SelectMember(OfScenario(id), ms, m);
  }

  /** Time and the other metrics of route `r` over the given runs are the values `values`, run by run. */
  ghost predicate MetricOf(ms: seq<Measurement>, r: Route, k: Metric, values: seq<real>) {
    var runs := Select(OfRoute(r), ms);
    && |values| == |runs|
    && forall i :: 0 <= i < |runs| ==> k in runs[i].metrics && runs[i].metrics[k] == Finite(values[i])
  }

  /** A reported scenario is the summary of its runs. */
  lemma {:induction false} ScenarioIsSummary(ms: seq<Measurement>, id: Scenario, minimum: Number)
    requires ScenarioFor(ms, id, minimum).Ok?
    ensures var mine := Select(OfScenario(id), ms);
      mine != [] && ScenarioFor(ms, id, minimum).value == SummaryOf(mine, id, minimum)
  {
  }

  /** A summary names its scenario and threshold, holds every block and the medians of each route. */
  lemma {:induction false} SummarySays(
      mine: seq<Measurement>, id: Scenario, minimum: Number, k: Metric, a: seq<real>, b: seq<real>)
    requires mine != [] && MetricOf(mine, Baseline, k, a) && MetricOf(mine, Candidate, k, b)
    ensures var s := SummaryOf(mine, id, minimum);
      && s.id == id && s.minimum == minimum && s.blocks == BlocksFrom(mine, 0) && s.correctness.passed
      && k in s.baseline && s.baseline[k] == Finite(Median(a))
      && k in s.candidate && s.candidate[k] == Finite(Median(b))
  {
    SummaryIsMedians(Select(OfRoute(Baseline), mine), k, a);
    SummaryIsMedians(Select(OfRoute(Candidate), mine), k, b);
  }

  /** The summary's errors are the largest over both routes. */
  lemma {:induction false} SummaryErrors(mine: seq<Measurement>, id: Scenario, minimum: Number, c: Check)
    requires mine != []
    ensures var errors := SummaryOf(mine, id, minimum).correctness.errors;
      && c in errors && errors[c].Finite?
      && (forall i :: 0 <= i < |mine| ==> ErrorOf(mine[i], c) <= errors[c].value)
      && exists i :: 0 <= i < |mine| && ErrorOf(mine[i], c) == errors[c].value
  {
    WorstIsLargest(mine, c);
    assert c in CHECKS;
  }

  /** A report carries the asked revision, the binding of its runs, and both scenarios in order. */
  lemma {:induction false} ReportSays(ms: seq<Measurement>, revision: string, minimum: Number, rt: Runtime)
    requires ReportFor(ms, revision, minimum, rt).Ok?
    ensures var report := ReportFor(ms, revision, minimum, rt).value;
      && report.revision == revision && (forall i :: 0 <= i < |ms| ==> report.binding == ms[i].binding)
      && report.streams.parity && report.streams.overlap && report.streams.disjoint
      && |report.scenarios| == 2
      && ScenarioFor(ms, PreparedLocalTime, minimum) == Ok(report.scenarios[0])
      && ScenarioFor(ms, CostAwareLoadBalance, minimum) == Ok(report.scenarios[1])
  {
    AbbaAgreement.BothAreThere(ms, minimum);
  }

  /** The streams of a report are those of the first run, named for rank 0. */
  lemma {:induction false} StreamsAreRankZero(s: Streams, i: nat)
    requires i < |s.identities|
    ensures |ReportStreams(s).identities| == |s.identities|
    ensures ReportStreams(s).identities[i] == "rank0:" + s.identities[i]
  {
  }
}
