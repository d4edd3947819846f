/**
 The ABBA report assembler (`benchmarks/adc757/assemble.py`): authenticated measurements of two
 scenarios, grouped into blocks A, B, B, A and summarised by route. Numbers are reals or
 non-finite; field types and key sets of the surrounding JSON are taken as read.
 */
module AbbaReport {
  import opened Wrappers
  import opened Numbers
  import opened Strings
  import opened Sorting

  datatype Scenario = PreparedLocalTime | CostAwareLoadBalance | UnknownScenario

  datatype Route = Baseline | Candidate | UnknownRoute

  datatype Metric =
    | TimeToSolution | Throughput | MemoryTraffic | KernelLaunches | TaskCount | CommunicationBytes
    | CommunicationSeconds | FallbackCount | UsefulWork | ImbalanceRatio | MigrationBytes | MigrationSeconds

  datatype Check = MassError | RestartError | RollbackError | LedgerError

  const METRICS: set<Metric> := set k: Metric | true
  const CHECKS: set<Check> := set c: Check | true
  const SCENARIOS: seq<Scenario> := [PreparedLocalTime, CostAwareLoadBalance]
  const TOLERANCE: real := 0.00000000001

  type Metrics = map<Metric, Number>

  datatype Correctness = Correctness(passed: bool, errors: map<Check, Number>)

  datatype Device = Device(rank: int, uuid: string)

  datatype Streams = Streams(identities: seq<string>, parity: bool, overlap: bool, disjoint: bool)

  /** What must not change during a campaign. */
  datatype Binding = Binding(
    build: string, wheel: string, abi: string, runtime: string, space: string, ranks: int, devices: seq<Device>)

  datatype Measurement = Measurement(
    passed: bool, revision: string, binding: Binding, scenario: Scenario, route: Route,
    streams: Streams, metrics: Metrics, correctness: Correctness)

  /** The digests of the installed runtime evidence. */
  datatype Runtime = Runtime(digest: string, wheel: string, abi: string)

  datatype ScenarioReport = ScenarioReport(
    id: Scenario, baseline: Metrics, candidate: Metrics, correctness: Correctness, minimum: Number,
    blocks: seq<seq<Number>>)

  datatype Report = Report(revision: string, binding: Binding, streams: Streams, scenarios: seq<ScenarioReport>)

  datatype Refusal =
    | MinimumTooLow | NoMeasurements | BadMeasurement(index: nat) | Unstable(index: nat)
    | IncompleteBlocks(scenario: Scenario) | NotAbba(scenario: Scenario, block: nat)

  // ----- One measurement -----

  predicate IsAmount(n: Number) { n.Finite? && n.value >= 0.0 }

  predicate IsPositive(n: Number) { n.Finite? && n.value > 0.0 }

  predicate GoodMetrics(m: Metrics) {
    && m.Keys == METRICS && (forall k :: k in m ==> IsAmount(m[k]))
    && IsPositive(m[TimeToSolution]) && IsPositive(m[Throughput])
  }

  predicate GoodCorrectness(c: Correctness) {
    && c.passed && c.errors.Keys == CHECKS
    && forall k :: k in c.errors ==> IsAmount(c.errors[k]) && c.errors[k].value <= TOLERANCE
  }

  predicate AllDifferent(s: seq<string>) { forall i, j :: 0 <= i < j < |s| ==> s[i] != s[j] }

  function Uuids(devices: seq<Device>): seq<string> {
    seq(|devices|, i requires 0 <= i < |devices| => devices[i].uuid)
  }

  predicate HasRank(devices: seq<Device>, r: int) { exists i :: 0 <= i < |devices| && devices[i].rank == r }

  /** One device per rank, and no device twice. */
  predicate GoodDevices(devices: seq<Device>, ranks: int) {
    && |devices| == ranks && (forall r :: 0 <= r < ranks ==> HasRank(devices, r))
    && AllDifferent(Uuids(devices))
  }

  predicate GoodStreams(s: Streams) {
    && |s.identities| >= 2 && "" !in s.identities && AllDifferent(s.identities)
    && s.parity && s.overlap && s.disjoint
  }

  predicate Valid(m: Measurement, revision: string) {
    && m.passed && m.revision == revision && m.binding.build != ""
    && IsDigest(m.binding.wheel) && IsDigest(m.binding.abi) && IsDigest(m.binding.runtime)
    && m.binding.space != "" && m.binding.ranks >= 2
    && m.scenario != UnknownScenario && m.route != UnknownRoute
    && GoodDevices(m.binding.devices, m.binding.ranks) && GoodStreams(m.streams)
    && GoodMetrics(m.metrics) && GoodCorrectness(m.correctness)
  }

  /** Valid, and bound to the installed runtime. */
  predicate Acceptable(m: Measurement, revision: string, rt: Runtime) {
    && Valid(m, revision)
    && m.binding.runtime == rt.digest && m.binding.wheel == rt.wheel && m.binding.abi == rt.abi
  }

  function Accepts(revision: string, rt: Runtime): Measurement -> bool {
    (m: Measurement) => Acceptable(m, revision, rt)
  }

  function BoundTo(b: Binding): Measurement -> bool { (m: Measurement) => m.binding == b }

  /** The first measurement from `i` on that fails the test, or the end. */
  function FirstBad(ok: Measurement -> bool, ms: seq<Measurement>, i: nat): (k: nat)
    requires i <= |ms|
    ensures i <= k <= |ms| && (forall j :: i <= j < k ==> ok(ms[j])) && (k < |ms| ==> !ok(ms[k]))
    decreases |ms| - i
  {
    if i == |ms| || !ok(ms[i]) then i else FirstBad(ok, ms, i + 1)
  }

  method FindBad(ok: Measurement -> bool, ms: seq<Measurement>) returns (k: nat)
    ensures k == FirstBad(ok, ms, 0)
  {
    k := 0;
    while k < |ms| && ok(ms[k])
      invariant k <= |ms| && FirstBad(ok, ms, k) == FirstBad(ok, ms, 0)
    {
      k := k + 1;
    }
  }

  // ----- Blocks -----

  function OfRoute(r: Route): Measurement -> bool { (m: Measurement) => m.route == r }

  function OfScenario(id: Scenario): Measurement -> bool { (m: Measurement) => m.scenario == id }

  function Amount(m: Metrics, k: Metric): real { if k in m && m[k].Finite? then m[k].value else 0.0 }

  function Time(m: Measurement): real { Amount(m.metrics, TimeToSolution) }

  /** The four runs from `i` are in the order A, B, B, A. */
  predicate IsAbba(ms: seq<Measurement>, i: nat)
    requires i + 4 <= |ms|
  {
    && ms[i].route == Baseline && ms[i + 1].route == Candidate
    && ms[i + 2].route == Candidate && ms[i + 3].route == Baseline
  }

  function BlockAt(ms: seq<Measurement>, i: nat): seq<Number>
    requires i + 4 <= |ms|
  {
    [Finite(Time(ms[i])), Finite(Time(ms[i + 1])), Finite(Time(ms[i + 2])), Finite(Time(ms[i + 3]))]
  }

  /** The blocks of times from offset `i` on. */
  function BlocksFrom(ms: seq<Measurement>, i: nat): seq<seq<Number>>
    decreases |ms| - i
  {
    if i + 4 > |ms| then [] else [BlockAt(ms, i)] + BlocksFrom(ms, i + 4)
  }

  /** The offset of the first block out of order, from `i` on, or the end. */
  function FirstBreak(ms: seq<Measurement>, i: nat): (k: nat)
    ensures k >= i && (k + 4 <= |ms| ==> !IsAbba(ms, k))
    decreases |ms| - i
  {
    if i + 4 > |ms| || !IsAbba(ms, i) then i else FirstBreak(ms, i + 4)
  }

  /** Every complete block is in order. */
  predicate AllAbba(ms: seq<Measurement>) { FirstBreak(ms, 0) + 4 > |ms| }

  /** The block loop. */
  method GroupBlocks(ms: seq<Measurement>) returns (blocks: seq<seq<Number>>, stop: nat)
    requires |ms| % 4 == 0
    ensures stop == FirstBreak(ms, 0) <= |ms|
    ensures stop == |ms| ==> blocks == BlocksFrom(ms, 0)
    ensures stop < |ms| <==> !AllAbba(ms)
  {
    var offset := 0;
    blocks := [];
    while offset < |ms|
      invariant offset <= |ms| && (|ms| - offset) % 4 == 0
      invariant blocks + BlocksFrom(ms, offset) == BlocksFrom(ms, 0)
      invariant FirstBreak(ms, offset) == FirstBreak(ms, 0)
    {
      if !IsAbba(ms, offset) { return blocks, offset; }
      assert blocks + ([BlockAt(ms, offset)] + BlocksFrom(ms, offset + 4))
          == (blocks + [BlockAt(ms, offset)]) + BlocksFrom(ms, offset + 4);
      blocks := blocks + [BlockAt(ms, offset)];
      offset := offset + 4;
    }
    stop := offset;
  }

  // ----- Summaries -----

  function AmountsOf(ms: seq<Measurement>, k: Metric): seq<real> {
    seq(|ms|, i requires 0 <= i < |ms| => Amount(ms[i].metrics, k))
  }

  function MedianMetrics(ms: seq<Measurement>): Metrics {
    map k | k in METRICS :: Finite(Median(AmountsOf(ms, k)))
  }

  function ErrorOf(m: Measurement, c: Check): real {
    if c in m.correctness.errors && m.correctness.errors[c].Finite? then m.correctness.errors[c].value else 0.0
  }

  /** The largest error of a check over all runs. */
  function Worst(ms: seq<Measurement>, c: Check): real
    requires ms != []
  {
    var n := |ms| - 1;
    if n == 0 then ErrorOf(ms[0], c)
    else
      var before := Worst(ms[..n], c);
      if before < ErrorOf(ms[n], c) then ErrorOf(ms[n], c) else before
  }

  function WorstErrors(ms: seq<Measurement>): Correctness
    requires ms != []
  {
    Correctness(true, map c | c in CHECKS :: Finite(Worst(ms, c)))
  }

  function SummaryOf(ms: seq<Measurement>, id: Scenario, minimum: Number): ScenarioReport
    requires ms != []
  {
    ScenarioReport(id, MedianMetrics(Select(OfRoute(Baseline), ms)), MedianMetrics(Select(OfRoute(Candidate), ms)),
                   WorstErrors(ms), minimum, BlocksFrom(ms, 0))
  }

  function ScenarioFor(ms: seq<Measurement>, id: Scenario, minimum: Number): Result<ScenarioReport, Refusal> {
    var mine := Select(OfScenario(id), ms);
    if |mine| < 20 || |mine| % 4 != 0 then Err(IncompleteBlocks(id))
    else if !AllAbba(mine) then Err(NotAbba(id, FirstBreak(mine, 0) / 4))
    else Ok(SummaryOf(mine, id, minimum))
  }

  method SummariseScenario(ms: seq<Measurement>, id: Scenario, minimum: Number)
    returns (r: Result<ScenarioReport, Refusal>)
    ensures r == ScenarioFor(ms, id, minimum)
  {
    var mine := Select(OfScenario(id), ms);
    if |mine| < 20 || |mine| % 4 != 0 { return Err(IncompleteBlocks(id)); }
    var blocks, stop := GroupBlocks(mine);
    if stop < |mine| { return Err(NotAbba(id, stop / 4)); }
    var baseline, candidate := Select(OfRoute(Baseline), mine), Select(OfRoute(Candidate), mine);
    r := Ok(ScenarioReport(id, MedianMetrics(baseline), MedianMetrics(candidate), WorstErrors(mine), minimum, blocks));
  }

  // ----- The report -----

  predicate IsMinimum(n: Number) { n.Finite? && n.value >= 1.0 }

  function RankZero(identities: seq<string>): seq<string> {
    seq(|identities|, i requires 0 <= i < |identities| => "rank0:" + identities[i])
  }

  function ReportStreams(s: Streams): Streams { Streams(RankZero(s.identities), true, true, true) }

  /** The given summaries and those of the scenarios still to come, or the first refusal. */
  function Gathered(
      ms: seq<Measurement>, minimum: Number, done: seq<ScenarioReport>): Result<seq<ScenarioReport>, Refusal>
    decreases |SCENARIOS| - |done|
  {
    if |done| >= |SCENARIOS| then Ok(done)
    else
      var next := ScenarioFor(ms, SCENARIOS[|done|], minimum);
      if next.Err? then Err(next.error) else Gathered(ms, minimum, done + [next.value])
  }

  function ScenariosFor(ms: seq<Measurement>, minimum: Number): Result<seq<ScenarioReport>, Refusal> {
    Gathered(ms, minimum, [])
  }

  /** What the assembler returns, refusal by refusal. */
  function ReportFor(ms: seq<Measurement>, revision: string, minimum: Number, rt: Runtime): Result<Report, Refusal> {
    if !IsMinimum(minimum) then Err(MinimumTooLow)
    else if FirstBad(Accepts(revision, rt), ms, 0) < |ms| then
      Err(BadMeasurement(FirstBad(Accepts(revision, rt), ms, 0)))
    else if ms == [] then Err(NoMeasurements)
    else if FirstBad(BoundTo(ms[0].binding), ms, 0) < |ms| then Err(Unstable(FirstBad(BoundTo(ms[0].binding), ms, 0)))
    else
      var scenarios := ScenariosFor(ms, minimum);
      if scenarios.Err? then Err(scenarios.error)
      else Ok(Report(revision, ms[0].binding, ReportStreams(ms[0].streams), scenarios.value))
  }

  /** Authenticates every measurement, then summarises each scenario. */
  method Assemble(ms: seq<Measurement>, revision: string, minimum: Number, rt: Runtime)
    returns (r: Result<Report, Refusal>)
    ensures r == ReportFor(ms, revision, minimum, rt)
  {
    if !IsMinimum(minimum) { return Err(MinimumTooLow); }
    var bad := FindBad(Accepts(revision, rt), ms);
    if bad < |ms| { return Err(BadMeasurement(bad)); }
    if ms == [] { return Err(NoMeasurements); }
    var first := ms[0];
    var moved := FindBad(BoundTo(first.binding), ms);
    if moved < |ms| { return Err(Unstable(moved)); }
    var reports := SummariseAll(ms, minimum);
    if reports.Err? { return Err(reports.error); }
    r := Ok(Report(revision, first.binding, ReportStreams(first.streams), reports.value));
  }

  /** The loop over the scenarios. */
  method SummariseAll(ms: seq<Measurement>, minimum: Number) returns (r: Result<seq<ScenarioReport>, Refusal>)
    ensures r == ScenariosFor(ms, minimum)
  {
    var reports: seq<ScenarioReport> := [];
    for i := 0 to |SCENARIOS|
      invariant |reports| == i && Gathered(ms, minimum, reports) == ScenariosFor(ms, minimum)
    {
      var report := SummariseScenario(ms, SCENARIOS[i], minimum);
      if report.Err? { return Err(report.error); }
      reports := reports + [report.value];
    }
    return Ok(reports);
  }
}
