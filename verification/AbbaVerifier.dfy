/**
 The report verifier (`benchmarks/adc757/verify.py`): every refusal of a scenario, and the
 provenance, device and stream checks of the report around it. `root` stands for the square root,
 `accelerator` for the test of the execution space's name.
 */
module AbbaVerifier {
  import opened Numbers
  import opened Sorting
  import opened AbbaReport

  datatype Fault =
    | NoFault | WrongId | BadBaseline | BadCandidate | BadCorrectness | MinimumBelowOne | TooFewBlocks
    | BadBlock(block: nat) | NotPositive(block: nat) | BaselineDiffers | CandidateDiffers
    | TooSlow | NoThroughputGain | NoWorkSaved | FellBack | NoBalanceGain | NoMigrationCost

  datatype Verdict =
    | Accepted | WrongRevision | ForeignRuntime | ForeignWheel | ForeignAbi | NoBuildIdentity | TooFewRanks
    | NotAccelerator | BadDevices | BadStreams | WrongScenarios | ScenarioFault(scenario: nat, fault: Fault)

  // ----- Blocks -----

  predicate PositiveBlock(block: seq<Number>) { forall i :: 0 <= i < |block| ==> IsPositive(block[i]) }

  predicate WellFormed(blocks: seq<seq<Number>>) {
    forall i :: 0 <= i < |blocks| ==> |blocks[i]| == 4 && PositiveBlock(blocks[i])
  }

  /** The A runs, or the B runs, of a block. */
  function Pair(block: seq<Number>, r: Route): seq<real>
    requires |block| == 4 && PositiveBlock(block)
  {
    if r == Baseline then [block[0].value, block[3].value] else [block[1].value, block[2].value]
  }

  /** The A runs, or the B runs, of every block from `i` on, in order. */
  function Samples(blocks: seq<seq<Number>>, r: Route, i: nat): seq<real>
    requires WellFormed(blocks)
    decreases |blocks| - i
  {
    if i >= |blocks| then [] else Pair(blocks[i], r) + Samples(blocks, r, i + 1)
  }

  /** The squared speedup of one block. */
  function Ratio(block: seq<Number>): real
    requires |block| == 4 && PositiveBlock(block)
  {
    Quotient(block[0].value, block[1].value, block[2].value, block[3].value)
  }

  function Quotient(a1: real, b1: real, b2: real, a2: real): real
    requires b1 > 0.0 && b2 > 0.0
  {
    ProductPositive(b1, b2);
    (a1 * a2) / (b1 * b2)
  }

  lemma {:induction false} ProductPositive(x: real, y: real)
    requires x > 0.0 && y > 0.0
    ensures x * y > 0.0
  {
  }

  function Speedups(root: real -> real, blocks: seq<seq<Number>>): seq<real>
    requires WellFormed(blocks)
  {
    seq(|blocks|, i requires 0 <= i < |blocks| => root(Ratio(blocks[i])))
  }

  /** `math.isclose` with a relative tolerance of 1e-12. */
  predicate IsClose(x: real, y: real) {
    var d := if x < y then y - x else x - y;
    var ax, ay := if x < 0.0 then -x else x, if y < 0.0 then -y else y;
    d <= 0.000000000001 * if ax < ay then ay else ax
  }

  /** The first malformed block from `i` on, if any. */
  function BlockFault(blocks: seq<seq<Number>>, i: nat): (f: Fault)
    ensures f.NoFault? || f.BadBlock? || f.NotPositive?
    ensures f.NoFault? <==> forall k :: i <= k < |blocks| ==> |blocks[k]| == 4 && PositiveBlock(blocks[k])
    decreases |blocks| - i
  {
    if i >= |blocks| then NoFault
    else if |blocks[i]| != 4 then BadBlock(i)
    else if !PositiveBlock(blocks[i]) then NotPositive(i)
    else BlockFault(blocks, i + 1)
  }

  /** The loop over the blocks. */
  method Collect(root: real -> real, blocks: seq<seq<Number>>)
    returns (fault: Fault, baseline: seq<real>, candidate: seq<real>, ratios: seq<real>)
    ensures fault == BlockFault(blocks, 0)
    ensures fault == NoFault ==> baseline == Samples(blocks, Baseline, 0) && candidate == Samples(blocks, Candidate, 0)
    ensures fault == NoFault ==> ratios == Speedups(root, blocks)
  {
    baseline, candidate, ratios := [], [], [];
    for i := 0 to |blocks|
      invariant BlockFault(blocks, i) == BlockFault(blocks, 0) && WellFormed(blocks[..i])
      invariant baseline == Samples(blocks[..i], Baseline, 0) && candidate == Samples(blocks[..i], Candidate, 0)
      invariant ratios == Speedups(root, blocks[..i])
    {
      var block := blocks[i];
      if |block| != 4 { return BadBlock(i), [], [], []; }
      if !PositiveBlock(block) { return NotPositive(i), [], [], []; }
      assert blocks[..i + 1] == blocks[..i] + [block];
      SamplesOfLast(blocks[..i], block, Baseline, 0);
      SamplesOfLast(blocks[..i], block, Candidate, 0);
      baseline := baseline + [block[0].value, block[3].value];
      candidate := candidate + [block[1].value, block[2].value];
      ratios := ratios + [root(Ratio(block))];
    }
    assert blocks[..|blocks|] == blocks;
    fault := NoFault;
  }

  lemma {:induction false} SamplesOfLast(blocks: seq<seq<Number>>, block: seq<Number>, r: Route, i: nat)
    requires WellFormed(blocks) && |block| == 4 && PositiveBlock(block) && i <= |blocks|
    ensures WellFormed(blocks + [block])
    ensures Samples(blocks + [block], r, i) == Samples(blocks, r, i) + Pair(block, r)
    decreases |blocks| - i
  {
    var longer := blocks + [block];
    if i < |blocks| {
      SamplesOfLast(blocks, block, r, i + 1);
      assert longer[i] == blocks[i];
      assert Pair(blocks[i], r) + (Samples(blocks, r, i + 1) + Pair(block, r))
          == (Pair(blocks[i], r) + Samples(blocks, r, i + 1)) + Pair(block, r);
    } else {
      assert longer[i] == block && Samples(longer, r, i + 1) == [];
    }
  }

  // ----- One scenario -----

  /** The refusals that are about the measured performance. */
  function Performance(root: real -> real, s: ScenarioReport, id: Scenario): Fault
    requires WellFormed(s.blocks)
  {
    if Median(Speedups(root, s.blocks)) < Value(s.minimum) then TooSlow else Comparison(s.baseline, s.candidate, id)
  }

  function Value(n: Number): real { if n.Finite? then n.value else 0.0 }

  function Comparison(baseline: Metrics, candidate: Metrics, id: Scenario): Fault {
    if Amount(candidate, Throughput) <= Amount(baseline, Throughput) then NoThroughputGain
    else if id == PreparedLocalTime then
      if Amount(candidate, UsefulWork) >= Amount(baseline, UsefulWork) then NoWorkSaved
      else if Amount(candidate, FallbackCount) != 0.0 then FellBack
      else NoFault
    else
      if Amount(candidate, ImbalanceRatio) >= Amount(baseline, ImbalanceRatio) then NoBalanceGain
      else if Amount(candidate, MigrationBytes) <= 0.0 then NoMigrationCost
      else if Amount(candidate, MigrationSeconds) <= 0.0 then NoMigrationCost
      else NoFault
  }

  /** Everything that can be judged without the samples: identity, schema, correctness and blocks. */
  function Schema(s: ScenarioReport, id: Scenario): (f: Fault)
    ensures f == NoFault ==> WellFormed(s.blocks)
  {
    if s.id != id then WrongId
    else if !GoodMetrics(s.baseline) then BadBaseline
    else if !GoodMetrics(s.candidate) then BadCandidate
    else if !GoodCorrectness(s.correctness) then BadCorrectness
    else if !IsMinimum(s.minimum) then MinimumBelowOne
    else if |s.blocks| < 5 then TooFewBlocks
    else BlockFault(s.blocks, 0)
  }

  /** The summaries against the medians rebuilt from the blocks. */
  function Summaries(s: ScenarioReport): Fault
    requires WellFormed(s.blocks)
  {
    if !IsClose(Amount(s.baseline, TimeToSolution), Median(Samples(s.blocks, Baseline, 0))) then BaselineDiffers
    else if !IsClose(Amount(s.candidate, TimeToSolution), Median(Samples(s.blocks, Candidate, 0))) then CandidateDiffers
    else NoFault
  }

  /** Everything but the performance. */
  function Consistency(s: ScenarioReport, id: Scenario): (f: Fault)
    ensures f == NoFault ==> WellFormed(s.blocks)
  {
    if Schema(s, id) != NoFault then Schema(s, id) else Summaries(s)
  }

  function FaultOf(root: real -> real, s: ScenarioReport, id: Scenario): Fault {
    if Consistency(s, id) != NoFault then Consistency(s, id) else Performance(root, s, id)
  }

  method ValidateScenario(root: real -> real, s: ScenarioReport, id: Scenario) returns (fault: Fault)
    ensures fault == FaultOf(root, s, id)
  {
    if s.id != id { return WrongId; }
    if !GoodMetrics(s.baseline) { return BadBaseline; }
    if !GoodMetrics(s.candidate) { return BadCandidate; }
    if !GoodCorrectness(s.correctness) { return BadCorrectness; }
    if !IsMinimum(s.minimum) { return MinimumBelowOne; }
    if |s.blocks| < 5 { return TooFewBlocks; }
    var bad, baseline, candidate, ratios := Collect(root, s.blocks);
    if bad != NoFault { return bad; }
    if !IsClose(Amount(s.baseline, TimeToSolution), Median(baseline)) { return BaselineDiffers; }
    if !IsClose(Amount(s.candidate, TimeToSolution), Median(candidate)) { return CandidateDiffers; }
    if Median(ratios) < Value(s.minimum) { return TooSlow; }
    fault := Compare(s.baseline, s.candidate, id);
  }

  /** The scenario's own comparison of the two routes. */
  method Compare(baseline: Metrics, candidate: Metrics, id: Scenario) returns (fault: Fault)
    ensures fault == Comparison(baseline, candidate, id)
  {
    if Amount(candidate, Throughput) <= Amount(baseline, Throughput) { return NoThroughputGain; }
    if id == PreparedLocalTime {
      if Amount(candidate, UsefulWork) >= Amount(baseline, UsefulWork) { return NoWorkSaved; }
      if Amount(candidate, FallbackCount) != 0.0 { return FellBack; }
    } else {
      if Amount(candidate, ImbalanceRatio) >= Amount(baseline, ImbalanceRatio) { return NoBalanceGain; }
      if Amount(candidate, MigrationBytes) <= 0.0 { return NoMigrationCost; }
      if Amount(candidate, MigrationSeconds) <= 0.0 { return NoMigrationCost; }
    }
    fault := NoFault;
  }

  // ----- The report -----

  /** Besides one distinct device per rank, every device must have a name. */
  predicate NamedDevices(devices: seq<Device>, ranks: int) {
    GoodDevices(devices, ranks) && "" !in Uuids(devices)
  }

  /** The refusals before the scenarios are looked at. */
  function Provenance(accelerator: string -> bool, report: Report, revision: string, rt: Runtime): Verdict {
    if report.revision != revision then WrongRevision
    else if report.binding.runtime != rt.digest then ForeignRuntime
    else if report.binding.wheel != rt.wheel then ForeignWheel
    else if report.binding.abi != rt.abi then ForeignAbi
    else if report.binding.build == "" then NoBuildIdentity
    else if report.binding.ranks < 2 then TooFewRanks
    else if !accelerator(report.binding.space) then NotAccelerator
    else if !NamedDevices(report.binding.devices, report.binding.ranks) then BadDevices
    else if !GoodStreams(report.streams) then BadStreams
    else if |report.scenarios| != |SCENARIOS| then WrongScenarios
    else Accepted
  }

  /** The first faulty scenario from `i` on, if any. */
  function ScenarioVerdict(root: real -> real, scenarios: seq<ScenarioReport>, i: nat): Verdict
    requires |scenarios| == |SCENARIOS|
    decreases |scenarios| - i
  {
    if i >= |scenarios| then Accepted
    else if FaultOf(root, scenarios[i], SCENARIOS[i]) != NoFault then
      ScenarioFault(i, FaultOf(root, scenarios[i], SCENARIOS[i]))
    else ScenarioVerdict(root, scenarios, i + 1)
  }

  function VerdictFor(
      root: real -> real, accelerator: string -> bool, report: Report, revision: string, rt: Runtime): Verdict {
    if Provenance(accelerator, report, revision, rt) != Accepted then Provenance(accelerator, report, revision, rt)
    else ScenarioVerdict(root, report.scenarios, 0)
  }

  method Validate(root: real -> real, accelerator: string -> bool, report: Report, revision: string, rt: Runtime)
    returns (v: Verdict)
    ensures v == VerdictFor(root, accelerator, report, revision, rt)
  {
    if report.revision != revision { return WrongRevision; }
    if report.binding.runtime != rt.digest { return ForeignRuntime; }
    if report.binding.wheel != rt.wheel { return ForeignWheel; }
    if report.binding.abi != rt.abi { return ForeignAbi; }
    if report.binding.build == "" { return NoBuildIdentity; }
    if report.binding.ranks < 2 { return TooFewRanks; }
    if !accelerator(report.binding.space) { return NotAccelerator; }
    if !NamedDevices(report.binding.devices, report.binding.ranks) { return BadDevices; }
    if !GoodStreams(report.streams) { return BadStreams; }
    if |report.scenarios| != |SCENARIOS| { return WrongScenarios; }
    v := ValidateScenarios(root, report.scenarios);
  }

  method ValidateScenarios(root: real -> real, scenarios: seq<ScenarioReport>) returns (v: Verdict)
    requires |scenarios| == |SCENARIOS|
    ensures v == ScenarioVerdict(root, scenarios, 0)
  {
    for i := 0 to |SCENARIOS|
      invariant ScenarioVerdict(root, scenarios, i) == ScenarioVerdict(root, scenarios, 0)
    {
      var fault := ValidateScenario(root, scenarios[i], SCENARIOS[i]);
      if fault != NoFault { return ScenarioFault(i, fault); }
    }
    v := Accepted;
  }
}
