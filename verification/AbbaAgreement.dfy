/**
 Assembler and verifier agree: of a report the assembler emits, the verifier can refuse nothing but
 the machine it ran on and the performance it measured.
 */
module AbbaAgreement {
  import opened Wrappers
  import opened Numbers
  import opened Sorting
  import opened AbbaReport
  import opened AbbaVerifier

  // ----- Blocks and routes -----

  ghost function Sound(): Measurement -> bool {
    (m: Measurement) => GoodMetrics(m.metrics) && GoodCorrectness(m.correctness)
  }

  ghost predicate AllSound(ms: seq<Measurement>) { forall i :: 0 <= i < |ms| ==> Sound()(ms[i]) }

  lemma {:induction false} SoundAmount(m: Measurement, k: Metric)
    requires Sound()(m)
    ensures Amount(m.metrics, k) >= 0.0
    ensures k == TimeToSolution || k == Throughput ==> Amount(m.metrics, k) > 0.0
  {
    assert k in METRICS;
  }

  lemma {:induction false} SoundError(m: Measurement, c: Check)
    requires Sound()(m)
    ensures 0.0 <= ErrorOf(m, c) <= TOLERANCE
  {
    assert c in CHECKS;
  }

  function Times(ms: seq<Measurement>): seq<real> { AmountsOf(ms, TimeToSolution) }

  lemma {:induction false} BlocksAreWellFormed(ms: seq<Measurement>, i: nat)
    requires AllSound(ms)
    ensures WellFormed(BlocksFrom(ms, i))
    decreases |ms| - i
  {
    if i + 4 <= |ms| {
      var block, rest := BlockAt(ms, i), BlocksFrom(ms, i + 4);
      BlocksAreWellFormed(ms, i + 4);
      BlockIsPositive(ms, i);
      OneMoreBlock(block, rest);
    }
  }

  lemma {:induction false} BlockCount(ms: seq<Measurement>, i: nat)
    requires i <= |ms|
    ensures 4 * |BlocksFrom(ms, i)| > |ms| - i - 4
    decreases |ms| - i
  {
    if i + 4 <= |ms| { BlockCount(ms, i + 4); }
  }

  lemma {:induction false} OneMoreBlock(block: seq<Number>, blocks: seq<seq<Number>>)
    requires WellFormed(blocks) && |block| == 4 && PositiveBlock(block)
    ensures WellFormed([block] + blocks)
  {
  }

  lemma {:induction false} BlockIsPositive(ms: seq<Measurement>, i: nat)
    requires AllSound(ms) && i + 4 <= |ms|
    ensures PositiveBlock(BlockAt(ms, i))
  {
    SoundAmount(ms[i], TimeToSolution);
    SoundAmount(ms[i + 1], TimeToSolution);
    SoundAmount(ms[i + 2], TimeToSolution);
    SoundAmount(ms[i + 3], TimeToSolution);
  }

  lemma {:induction false} SamplesOfCons(block: seq<Number>, blocks: seq<seq<Number>>, r: Route, i: nat)
    requires WellFormed([block] + blocks) && WellFormed(blocks)
    ensures Samples([block] + blocks, r, i + 1) == Samples(blocks, r, i)
    decreases |blocks| - i
  {
    if i < |blocks| { SamplesOfCons(block, blocks, r, i + 1); }
  }

  /** The samples rebuilt from the blocks are the runs of each route, in the order they were measured. */
  lemma {:induction false} BlocksRebuildRoutes(ms: seq<Measurement>, r: Route, i: nat)
    requires AllSound(ms) && r != UnknownRoute && i <= |ms| && (|ms| - i) % 4 == 0 && FirstBreak(ms, i) + 4 > |ms|
    ensures WellFormed(BlocksFrom(ms, i)) && Samples(BlocksFrom(ms, i), r, 0) == Times(Select(OfRoute(r), ms[i..]))
    decreases |ms| - i
  {
    BlocksAreWellFormed(ms, i);
    if i == |ms| {
      assert ms[i..] == [];
    } else {
      var j := i + 4;
      BlocksRebuildRoutes(ms, r, j);
      BlockIsPositive(ms, i);
      SamplesAfter(BlockAt(ms, i), BlocksFrom(ms, j), r);
      SelectQuad(ms, r, i);
    }
  }

  lemma {:induction false} SamplesAfter(block: seq<Number>, blocks: seq<seq<Number>>, r: Route)
    requires WellFormed(blocks) && |block| == 4 && PositiveBlock(block)
    ensures WellFormed([block] + blocks) && Samples([block] + blocks, r, 0) == Pair(block, r) + Samples(blocks, r, 0)
  {
    SamplesOfCons(block, blocks, r, 0);
  }

  lemma {:induction false} SelectQuad(ms: seq<Measurement>, r: Route, i: nat)
    requires r != UnknownRoute && i + 4 <= |ms| && IsAbba(ms, i) && PositiveBlock(BlockAt(ms, i))
    ensures Times(Select(OfRoute(r), ms[i..])) == Pair(BlockAt(ms, i), r) + Times(Select(OfRoute(r), ms[i + 4..]))
  {
    SelectOne(ms, r, i);
    SelectOne(ms, r, i + 1);
    SelectOne(ms, r, i + 2);
    SelectOne(ms, r, i + 3);
  }

  lemma {:induction false} SelectOne(ms: seq<Measurement>, r: Route, i: nat)
    requires i < |ms|
    ensures Times(Select(OfRoute(r), ms[i..]))
         == (if ms[i].route == r then [Time(ms[i])] else []) + Times(Select(OfRoute(r), ms[i + 1..]))
  {
    var tail := ms[i..];
    assert tail[0] == ms[i] && tail[1..] == ms[i + 1..];
  }

  // ----- Summaries -----

  /** Medians of valid metrics are valid metrics. */
  lemma {:induction false} MediansAreGood(ms: seq<Measurement>)
    requires AllSound(ms) && ms != []
    ensures GoodMetrics(MedianMetrics(ms))
  {
    forall k: Metric
      ensures Median(AmountsOf(ms, k)) >= 0.0
      ensures k == TimeToSolution || k == Throughput ==> Median(AmountsOf(ms, k)) > 0.0
    {
      MedianIsGood(ms, k);
    }
  }

  lemma {:induction false} MedianIsGood(ms: seq<Measurement>, k: Metric)
    requires AllSound(ms) && ms != []
    ensures Median(AmountsOf(ms, k)) >= 0.0
    ensures k == TimeToSolution || k == Throughput ==> Median(AmountsOf(ms, k)) > 0.0
  {
    var all := AmountsOf(ms, k);
    forall v | v in all ensures v >= 0.0 && (k == TimeToSolution || k == Throughput ==> v > 0.0) {
      var i :| 0 <= i < |ms| && all[i] == v;
      SoundAmount(ms[i], k);
    }
    MedianOfNonNegative(all);
    if k == TimeToSolution || k == Throughput { MedianOfPositive(all); }
  }

  /** The worst of small errors is a small error. */
  lemma {:induction false} WorstIsGood(ms: seq<Measurement>)
    requires AllSound(ms) && ms != []
    ensures GoodCorrectness(WorstErrors(ms))
  {
    forall c: Check ensures 0.0 <= Worst(ms, c) <= TOLERANCE { WorstIsSmall(ms, c); }
  }

  lemma {:induction false} WorstIsSmall(ms: seq<Measurement>, c: Check)
    requires AllSound(ms) && ms != []
    ensures 0.0 <= Worst(ms, c) <= TOLERANCE
  {
    var n := |ms| - 1;
    SoundError(ms[n], c);
    if n > 0 { WorstIsSmall(ms[..n], c); }
  }

  lemma {:induction false} SelectIsSound(keep: Measurement -> bool, ms: seq<Measurement>)
    requires AllSound(ms)
    ensures AllSound(Select(keep, ms))
  {
    var some := Select(keep, ms);
    forall i | 0 <= i < |some| ensures Sound()(some[i]) {
      SelectMember(keep, ms, some[i]);
      var j :| 0 <= j < |ms| && ms[j] == some[i];
    }
  }

  // ----- One scenario -----

  /** An assembled scenario is consistent: all that is left to judge is its performance. */
  lemma {:induction false} ScenarioIsConsistent(ms: seq<Measurement>, id: Scenario, minimum: Number)
    requires AllSound(ms) && IsMinimum(minimum) && |ms| >= 20 && |ms| % 4 == 0 && AllAbba(ms)
    ensures Consistency(SummaryOf(ms, id, minimum), id) == NoFault
  {
    BlocksAreWellFormed(ms, 0);
    BlockCount(ms, 0);
    RouteIsGood(ms, Baseline);
    RouteIsGood(ms, Candidate);
    WorstIsGood(ms);
    IsConsistent(SummaryOf(ms, id, minimum), id);
  }

  lemma {:induction false} IsConsistent(s: ScenarioReport, id: Scenario)
    requires s.id == id && GoodMetrics(s.baseline) && GoodMetrics(s.candidate) && GoodCorrectness(s.correctness)
    requires IsMinimum(s.minimum) && |s.blocks| >= 5 && WellFormed(s.blocks)
    requires Amount(s.baseline, TimeToSolution) == Median(Samples(s.blocks, Baseline, 0))
    requires Amount(s.candidate, TimeToSolution) == Median(Samples(s.blocks, Candidate, 0))
    ensures Consistency(s, id) == NoFault
  {
    assert BlockFault(s.blocks, 0) == NoFault;
    SummariesMatch(s);
  }

  lemma {:induction false} SummariesMatch(s: ScenarioReport)
    requires WellFormed(s.blocks)
    requires Amount(s.baseline, TimeToSolution) == Median(Samples(s.blocks, Baseline, 0))
    requires Amount(s.candidate, TimeToSolution) == Median(Samples(s.blocks, Candidate, 0))
    ensures Summaries(s) == NoFault
  {
    CloseToItself(Median(Samples(s.blocks, Baseline, 0)));
    CloseToItself(Median(Samples(s.blocks, Candidate, 0)));
  }

  lemma {:induction false} RouteIsGood(ms: seq<Measurement>, r: Route)
    requires AllSound(ms) && r != UnknownRoute && |ms| >= 20 && |ms| % 4 == 0 && AllAbba(ms)
    ensures WellFormed(BlocksFrom(ms, 0)) && GoodMetrics(MedianMetrics(Select(OfRoute(r), ms)))
    ensures Amount(MedianMetrics(Select(OfRoute(r), ms)), TimeToSolution) == Median(Samples(BlocksFrom(ms, 0), r, 0))
  {
    var runs := Select(OfRoute(r), ms);
    assert ms[0..] == ms;
    BlocksRebuildRoutes(ms, r, 0);
    BlockCount(ms, 0);
    assert |Times(runs)| == |runs| && Samples(BlocksFrom(ms, 0), r, 0) != [];
    SelectIsSound(OfRoute(r), ms);
    MediansAreGood(runs);
  }

  lemma {:induction false} CloseToItself(x: real)
    ensures IsClose(x, x)
  {
  }

  // ----- The report -----

  lemma {:induction false} PrefixKeepsDifferent(identities: seq<string>)
    requires AllDifferent(identities)
    ensures AllDifferent(RankZero(identities)) && "" !in RankZero(identities)
  {
    var named := RankZero(identities);
    forall i, j | 0 <= i < j < |named| ensures named[i] != named[j] {
      assert named[i][6..] == identities[i] && named[j][6..] == identities[j];
    }
  }

  /** All measurements were acceptable, none moved, and both scenarios were complete. */
  lemma {:induction false} ReportFacts(ms: seq<Measurement>, revision: string, minimum: Number, rt: Runtime)
    requires ReportFor(ms, revision, minimum, rt).Ok?
    ensures IsMinimum(minimum) && ms != [] && (forall i :: 0 <= i < |ms| ==> Acceptable(ms[i], revision, rt))
    ensures var report := ReportFor(ms, revision, minimum, rt).value;
      && report.revision == revision && report.binding == ms[0].binding
      && report.streams == ReportStreams(ms[0].streams) && ScenariosFor(ms, minimum) == Ok(report.scenarios)
  {
    var k := FirstBad(Accepts(revision, rt), ms, 0);
    assert forall i :: 0 <= i < k ==> Accepts(revision, rt)(ms[i]);
  }

  /** Both scenarios of an assembled report are consistent. */
  lemma {:induction false} ScenariosAreConsistent(ms: seq<Measurement>, minimum: Number)
    requires AllSound(ms) && IsMinimum(minimum) && ScenariosFor(ms, minimum).Ok?
    ensures var reports := ScenariosFor(ms, minimum).value;
      |reports| == 2 && forall i :: 0 <= i < 2 ==> Consistency(reports[i], SCENARIOS[i]) == NoFault
  {
    var reports := ScenariosFor(ms, minimum).value;
    BothAreThere(ms, minimum);
    forall i | 0 <= i < 2 ensures Consistency(reports[i], SCENARIOS[i]) == NoFault {
      SelectIsSound(OfScenario(SCENARIOS[i]), ms);
      ScenarioIsConsistent(Select(OfScenario(SCENARIOS[i]), ms), SCENARIOS[i], minimum);
    }
  }

  lemma {:induction false} BothAreThere(ms: seq<Measurement>, minimum: Number)
    requires ScenariosFor(ms, minimum).Ok?
    ensures var reports := ScenariosFor(ms, minimum).value;
      |reports| == 2 && forall i :: 0 <= i < 2 ==> ScenarioFor(ms, SCENARIOS[i], minimum) == Ok(reports[i])
  {
    var first := ScenarioFor(ms, SCENARIOS[0], minimum).value;
    var second := ScenarioFor(ms, SCENARIOS[1], minimum).value;
    assert [] + [first] == [first] && [first] + [second] == [first, second];
    assert Gathered(ms, minimum, [first, second]) == Ok([first, second]);
  }

  /** What is left to the verifier: the accelerator, the device names and the performance. */
  function Remaining(root: real -> real, accelerator: string -> bool, report: Report): Verdict
    requires |report.scenarios| == 2 && forall i :: 0 <= i < 2 ==> WellFormed(report.scenarios[i].blocks)
  {
    var local := Performance(root, report.scenarios[0], PreparedLocalTime);
    var balance := Performance(root, report.scenarios[1], CostAwareLoadBalance);
    if !accelerator(report.binding.space) then NotAccelerator
    else if "" in Uuids(report.binding.devices) then BadDevices
    else if local != NoFault then ScenarioFault(0, local)
    else if balance != NoFault then ScenarioFault(1, balance)
    else Accepted
  }

  /**
   For every report the assembler emits, the verifier's verdict is exactly the remaining one: no
   provenance, schema, correctness, block or summary refusal can fire.
   */
  lemma {:induction false} VerifierAgrees(
      root: real -> real, accelerator: string -> bool, ms: seq<Measurement>, revision: string, minimum: Number,
      rt: Runtime)
    requires ReportFor(ms, revision, minimum, rt).Ok?
    ensures var report := ReportFor(ms, revision, minimum, rt).value;
      && |report.scenarios| == 2 && (forall i :: 0 <= i < 2 ==> WellFormed(report.scenarios[i].blocks))
      && VerdictFor(root, accelerator, report, revision, rt) == Remaining(root, accelerator, report)
  {
    ReportFacts(ms, revision, minimum, rt);
    assert AllSound(ms) by { assert forall i :: 0 <= i < |ms| ==> Acceptable(ms[i], revision, rt); }
    ScenariosAreConsistent(ms, minimum);
    var report := ReportFor(ms, revision, minimum, rt).value;
    ProvenanceAgrees(accelerator, report, ms[0], revision, rt);
    forall i | 0 <= i < 2 ensures Judged(root)(report.scenarios[i], SCENARIOS[i]) {
      ConsistentScenario(root, report.scenarios[i], SCENARIOS[i]);
    }
    ScenariosAgree(root, accelerator, report, revision, rt);
  }

  lemma {:induction false} ProvenanceAgrees(
      accelerator: string -> bool, report: Report, first: Measurement, revision: string, rt: Runtime)
    requires Acceptable(first, revision, rt) && report.revision == revision && report.binding == first.binding
    requires report.streams == ReportStreams(first.streams) && |report.scenarios| == 2
    ensures Provenance(accelerator, report, revision, rt)
         == if !accelerator(report.binding.space) then NotAccelerator
            else if "" in Uuids(report.binding.devices) then BadDevices
            else Accepted
  {
    PrefixKeepsDifferent(first.streams.identities);
  }

  lemma {:induction false} ScenariosAgree(
      root: real -> real, accelerator: string -> bool, report: Report, revision: string, rt: Runtime)
    requires |report.scenarios| == 2 && forall i :: 0 <= i < 2 ==> Judged(root)(report.scenarios[i], SCENARIOS[i])
    requires Provenance(accelerator, report, revision, rt)
          == if !accelerator(report.binding.space) then NotAccelerator
             else if "" in Uuids(report.binding.devices) then BadDevices
             else Accepted
    ensures forall i :: 0 <= i < 2 ==> WellFormed(report.scenarios[i].blocks)
    ensures VerdictFor(root, accelerator, report, revision, rt) == Remaining(root, accelerator, report)
  {
    assert Judged(root)(report.scenarios[0], SCENARIOS[0]) && Judged(root)(report.scenarios[1], SCENARIOS[1]);
    TwoScenarios(root, report.scenarios);
    RemainingIs(root, accelerator, report, Performance(root, report.scenarios[0], PreparedLocalTime),
                Performance(root, report.scenarios[1], CostAwareLoadBalance),
                Provenance(accelerator, report, revision, rt));
  }

  lemma {:induction false} RemainingIs(
      root: real -> real, accelerator: string -> bool, report: Report, local: Fault, balance: Fault,
      provenance: Verdict)
    requires |report.scenarios| == 2 && forall i :: 0 <= i < 2 ==> WellFormed(report.scenarios[i].blocks)
    requires local == Performance(root, report.scenarios[0], PreparedLocalTime)
    requires balance == Performance(root, report.scenarios[1], CostAwareLoadBalance)
    requires provenance == if !accelerator(report.binding.space) then NotAccelerator
                           else if "" in Uuids(report.binding.devices) then BadDevices
                           else Accepted
    ensures Remaining(root, accelerator, report)
         == if provenance != Accepted then provenance
            else if local != NoFault then ScenarioFault(0, local)
            else if balance != NoFault then ScenarioFault(1, balance)
            else Accepted
  {
  }

  /** A scenario that is judged by its performance alone. */
  ghost function Judged(root: real -> real): (ScenarioReport, Scenario) -> bool {
    (s: ScenarioReport, id: Scenario) => JudgedBySpeed(root, s, id)
  }

  ghost predicate JudgedBySpeed(root: real -> real, s: ScenarioReport, id: Scenario) {
    WellFormed(s.blocks) && FaultOf(root, s, id) == Performance(root, s, id)
  }

  lemma {:induction false} ConsistentScenario(root: real -> real, s: ScenarioReport, id: Scenario)
    requires Consistency(s, id) == NoFault
    ensures Judged(root)(s, id)
  {
    assert JudgedBySpeed(root, s, id);
  }

  lemma {:induction false} TwoScenarios(root: real -> real, scenarios: seq<ScenarioReport>)
    requires |scenarios| == 2
    ensures var a := FaultOf(root, scenarios[0], PreparedLocalTime);
      var b := FaultOf(root, scenarios[1], CostAwareLoadBalance);
      ScenarioVerdict(root, scenarios, 0)
        == if a != NoFault then ScenarioFault(0, a) else if b != NoFault then ScenarioFault(1, b) else Accepted
  {
    assert ScenarioVerdict(root, scenarios, 2) == Accepted;
    var b := FaultOf(root, scenarios[1], CostAwareLoadBalance);
    assert ScenarioVerdict(root, scenarios, 1) == if b != NoFault then ScenarioFault(1, b) else Accepted;
  }
}
