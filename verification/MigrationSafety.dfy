/**
 What the greedy balance guarantees for the migration built on it: no MPI count or displacement
 leaves the int range, something always moves, and the exchange loses and invents nothing.
 */
module MigrationSafety {
  import opened Sorting
  import opened TaskBalance
  import opened Migration

  const MAX_VALUES := 1_000_000
  const DOUBLE_BYTES := 8

  // ----- Row and column sums of a table -----

  ghost function Row(f: (nat, nat) -> int, i: nat, m: nat): int {
    if m == 0 then 0 else Row(f, i, m - 1) + f(i, m - 1)
  }

  ghost function Column(f: (nat, nat) -> int, j: nat, n: nat): int {
    if n == 0 then 0 else Column(f, j, n - 1) + f(n - 1, j)
  }

  ghost function ByRows(f: (nat, nat) -> int, n: nat, m: nat): int {
    if n == 0 then 0 else ByRows(f, n - 1, m) + Row(f, n - 1, m)
  }

  ghost function ByColumns(f: (nat, nat) -> int, n: nat, m: nat): int {
    if m == 0 then 0 else ByColumns(f, n, m - 1) + Column(f, m - 1, n)
  }

  lemma {:induction false} RowsEqualColumns(f: (nat, nat) -> int, n: nat, m: nat)
    ensures ByRows(f, n, m) == ByColumns(f, n, m)
  {
    if n == 0 {
      if m > 0 { RowsEqualColumns(f, 0, m - 1); }
    } else {
      RowsEqualColumns(f, n - 1, m);
      AddRow(f, n, m);
    }
  }

  lemma {:induction false} AddRow(f: (nat, nat) -> int, n: nat, m: nat)
    requires n > 0
    ensures ByColumns(f, n, m) == ByColumns(f, n - 1, m) + Row(f, n - 1, m)
  {
    if m > 0 { AddRow(f, n, m - 1); }
  }

  // ----- Conservation -----

  ghost function ByteSum(s: seq<byte>): int {
    if s == [] then 0 else ByteSum(s[..|s| - 1]) + s[|s| - 1] as int
  }

  lemma {:induction false} ByteSumAppend(s: seq<byte>, t: seq<byte>)
    ensures ByteSum(s + t) == ByteSum(s) + ByteSum(t)
  {
    if t == [] { assert s + t == s; } else {
      var n := |t| - 1;
      ByteSumAppend(s, t[..n]);
      var u := s + t;
      assert u[..|u| - 1] == s + t[..n];
    }
  }

  /** The checksum of what `src` addresses to `dst`. */
  ghost function Checksum(tasks: seq<Task>, bytes: nat): (nat, nat) -> int {
    (src: nat, dst: nat) => ByteSum(Packed(Outgoing(tasks, src, dst), bytes))
  }

  lemma {:induction false} SendChecksum(tasks: seq<Task>, src: nat, ranks: nat, bytes: nat, n: nat)
    requires n <= ranks
    ensures ByteSum(JoinTo(SendBlocks(tasks, src, ranks, bytes), n)) == Row(Checksum(tasks, bytes), src, n)
  {
    if n > 0 {
      SendChecksum(tasks, src, ranks, bytes, n - 1);
      var blocks := SendBlocks(tasks, src, ranks, bytes);
      ByteSumAppend(JoinTo(blocks, n - 1), blocks[n - 1]);
    }
  }

  lemma {:induction false} ReceiveChecksum(tasks: seq<Task>, dst: nat, ranks: nat, bytes: nat, n: nat)
    requires n <= ranks
    ensures ByteSum(JoinTo(ReceiveBlocks(tasks, dst, ranks, bytes), n)) == Column(Checksum(tasks, bytes), dst, n)
  {
    if n > 0 {
      ReceiveChecksum(tasks, dst, ranks, bytes, n - 1);
      var blocks := ReceiveBlocks(tasks, dst, ranks, bytes);
      ByteSumAppend(JoinTo(blocks, n - 1), blocks[n - 1]);
    }
  }

  /** `all_reduce_sum` over `n` ranks. */
  ghost function SumOver(g: nat -> int, n: nat): int {
    if n == 0 then 0 else SumOver(g, n - 1) + g(n - 1)
  }

  ghost function Sent(tasks: seq<Task>, ranks: nat, bytes: nat): nat -> int {
    (r: nat) => ByteSum(Join(SendBlocks(tasks, r, ranks, bytes)))
  }

  ghost function Received(tasks: seq<Task>, ranks: nat, bytes: nat): nat -> int {
    (r: nat) => ByteSum(Join(ReceiveBlocks(tasks, r, ranks, bytes)))
  }

  /** The global checksum of all send buffers equals that of all receive buffers. */
  lemma {:induction false} ChecksumIsConserved(tasks: seq<Task>, ranks: nat, bytes: nat)
    ensures SumOver(Sent(tasks, ranks, bytes), ranks) == SumOver(Received(tasks, ranks, bytes), ranks)
  {
    var f, sent, received := Checksum(tasks, bytes), Sent(tasks, ranks, bytes), Received(tasks, ranks, bytes);
    forall r: nat | r < ranks ensures sent(r) == Row(f, r, ranks) && received(r) == Column(f, r, ranks) {
      SendChecksum(tasks, r, ranks, bytes, ranks);
      ReceiveChecksum(tasks, r, ranks, bytes, ranks);
    }
    SumOverRows(f, sent, ranks, ranks);
    SumOverColumns(f, received, ranks, ranks);
    RowsEqualColumns(f, ranks, ranks);
  }

  /** The checksum of one buffer per rank. */
  ghost function BytesIn(buffers: seq<seq<byte>>): int {
    if buffers == [] then 0 else BytesIn(buffers[..|buffers| - 1]) + ByteSum(buffers[|buffers| - 1])
  }

  /** Buffers that hold what was packed and what was delivered have one checksum. */
  lemma {:induction false} BuffersBalance(
      tasks: seq<Task>, ranks: nat, bytes: nat, sent: seq<seq<byte>>, received: seq<seq<byte>>)
    requires |sent| == ranks && |received| == ranks
    requires forall r :: 0 <= r < ranks ==> sent[r] == Join(SendBlocks(tasks, r, ranks, bytes))
    requires forall r :: 0 <= r < ranks ==> received[r] == Join(ReceiveBlocks(tasks, r, ranks, bytes))
    ensures BytesIn(sent) == BytesIn(received)
  {
    BytesOver(Sent(tasks, ranks, bytes), sent);
    BytesOver(Received(tasks, ranks, bytes), received);
    ChecksumIsConserved(tasks, ranks, bytes);
  }

  lemma {:induction false} BytesOver(g: nat -> int, buffers: seq<seq<byte>>)
    requires forall r: nat :: r < |buffers| ==> g(r) == ByteSum(buffers[r])
    ensures BytesIn(buffers) == SumOver(g, |buffers|)
  {
    if buffers != [] { BytesOver(g, buffers[..|buffers| - 1]); }
  }

  lemma {:induction false} SumOverRows(f: (nat, nat) -> int, g: nat -> int, n: nat, m: nat)
    requires forall r: nat :: r < n ==> g(r) == Row(f, r, m)
    ensures SumOver(g, n) == ByRows(f, n, m)
  {
    if n > 0 { SumOverRows(f, g, n - 1, m); }
  }

  lemma {:induction false} SumOverColumns(f: (nat, nat) -> int, g: nat -> int, n: nat, m: nat)
    requires forall r: nat :: r < m ==> g(r) == Column(f, r, n)
    ensures SumOver(g, m) == ByColumns(f, n, m)
  {
    if m > 0 { SumOverColumns(f, g, n, m - 1); }
  }

  // ----- What a rank ends up holding -----

  /** The tasks whose payloads rank `dst` receives from the first `n` ranks, in buffer order. */
  ghost function Incoming(tasks: seq<Task>, dst: int, n: nat): seq<Task> {
    if n == 0 then [] else Incoming(tasks, dst, n - 1) + Outgoing(tasks, n - 1, dst)
  }

  function ArrivesFrom(dst: int, n: nat): Task -> bool {
    (t: Task) => t.candidateOwner == dst && t.baselineOwner != dst && 0 <= t.baselineOwner < n
  }

  lemma {:induction false} ReceiveIsPacked(tasks: seq<Task>, dst: nat, ranks: nat, bytes: nat, n: nat)
    requires n <= ranks
    ensures JoinTo(ReceiveBlocks(tasks, dst, ranks, bytes), n) == Packed(Incoming(tasks, dst, n), bytes)
  {
    if n > 0 {
      ReceiveIsPacked(tasks, dst, ranks, bytes, n - 1);
      PackedAppend(Incoming(tasks, dst, n - 1), Outgoing(tasks, n - 1, dst), bytes);
    }
  }

  lemma {:induction false} IncomingCount(tasks: seq<Task>, dst: int, n: nat, t: Task)
    ensures multiset(Incoming(tasks, dst, n))[t] == if ArrivesFrom(dst, n)(t) then multiset(tasks)[t] else 0
  {
    if n > 0 {
      IncomingCount(tasks, dst, n - 1, t);
      SelectCount(MovesTo(n - 1, dst), tasks, t);
    }
  }

  /**
   After `migrate`, rank `dst` holds the payloads of exactly the tasks it owns in the candidate
   plan and did not own in the baseline, each once.
   */
  lemma {:induction false} RanksHoldTheirTasks(tasks: seq<Task>, dst: nat, ranks: nat, bytes: nat)
    requires forall t :: t in tasks ==> 0 <= t.baselineOwner < ranks
    ensures Join(ReceiveBlocks(tasks, dst, ranks, bytes)) == Packed(Incoming(tasks, dst, ranks), bytes)
    ensures multiset(Incoming(tasks, dst, ranks))
         == multiset(Select((t: Task) => t.candidateOwner == dst && t.baselineOwner != dst, tasks))
  {
    ReceiveIsPacked(tasks, dst, ranks, bytes, ranks);
    var mine := (t: Task) => t.candidateOwner == dst && t.baselineOwner != dst;
    forall t ensures multiset(Incoming(tasks, dst, ranks))[t] == multiset(Select(mine, tasks))[t] {
      IncomingCount(tasks, dst, ranks, t);
      SelectCount(mine, tasks, t);
      assert multiset(tasks)[t] > 0 ==> t in tasks;
    }
  }

  // ----- Task counts -----

  /** How many tasks `src` sends to `dst`. */
  ghost function Traffic(tasks: seq<Task>): (nat, nat) -> int {
    (src: nat, dst: nat) => |Outgoing(tasks, src, dst)|
  }

  lemma {:induction false} SendRowStep(tasks: seq<Task>, i: nat, src: nat, m: nat)
    requires i < |tasks|
    ensures var t := tasks[i];
      Row(Traffic(tasks[..i + 1]), src, m) == Row(Traffic(tasks[..i]), src, m)
        + if t.baselineOwner == src && t.candidateOwner != src && 0 <= t.candidateOwner < m then 1 else 0
  {
    if m > 0 {
      SendRowStep(tasks, i, src, m - 1);
      OutgoingStep(tasks, i, src, m - 1);
    }
  }

  lemma {:induction false} ReceiveColumnStep(tasks: seq<Task>, i: nat, dst: nat, n: nat)
    requires i < |tasks|
    ensures var t := tasks[i];
      Column(Traffic(tasks[..i + 1]), dst, n) == Column(Traffic(tasks[..i]), dst, n)
        + if t.candidateOwner == dst && t.baselineOwner != dst && 0 <= t.baselineOwner < n then 1 else 0
  {
    if n > 0 {
      ReceiveColumnStep(tasks, i, dst, n - 1);
      OutgoingStep(tasks, i, n - 1, dst);
    }
  }

  lemma {:induction false} NoTraffic(src: nat, m: nat)
    ensures Row(Traffic([]), src, m) == 0 && Column(Traffic([]), src, m) == 0
  {
    if m > 0 { NoTraffic(src, m - 1); }
  }

  /** A rank sends at most the eight tasks it owns in the baseline. */
  lemma {:induction false} SendsAtMostEight(tasks: seq<Task>, ranks: nat, src: nat, m: nat, i: nat)
    requires ranks > 0 && IsPlan(tasks, ranks) && src < ranks && i <= |tasks|
    ensures Row(Traffic(tasks[..i]), src, m) <= Hits(ranks, i, src)
  {
    if i == 0 {
      assert tasks[..0] == [];
      NoTraffic(src, m);
    } else {
      SendsAtMostEight(tasks, ranks, src, m, i - 1);
      SendRowStep(tasks, i - 1, src, m);
    }
  }

  /** A rank receives at most as many tasks as its candidate load, each task weighing at least one. */
  lemma {:induction false} ReceivesAtMostLoad(tasks: seq<Task>, ranks: nat, dst: nat, n: nat, i: nat)
    requires ranks > 0 && IsPlan(tasks, ranks) && i <= |tasks|
    ensures Column(Traffic(tasks[..i]), dst, n) <= OwnerLoad(tasks[..i], Candidate, dst)
  {
    PlanWeights(tasks, ranks);
    ReceivesAtMostWeight(tasks, dst, n, i);
  }

  lemma {:induction false} ReceivesAtMostWeight(tasks: seq<Task>, dst: nat, n: nat, i: nat)
    requires i <= |tasks| && forall t :: t in tasks ==> t.weight >= 1
    ensures Column(Traffic(tasks[..i]), dst, n) <= OwnerLoad(tasks[..i], Candidate, dst)
  {
    if i == 0 {
      assert tasks[..0] == [];
      NoTraffic(dst, n);
    } else {
      var j := i - 1;
      ReceivesAtMostWeight(tasks, dst, n, j);
      ReceiveColumnStep(tasks, j, dst, n);
      var prefix := tasks[..i];
      assert prefix[..j] == tasks[..j] && prefix[j] == tasks[j] && tasks[j] in tasks;
    }
  }

  // ----- Byte counts -----

  lemma {:induction false} SendOffset(tasks: seq<Task>, src: nat, ranks: nat, bytes: nat, m: nat)
    requires m <= ranks
    ensures Offset(Sizes(SendBlocks(tasks, src, ranks, bytes)), m) == Row(Traffic(tasks), src, m) * bytes
  {
    var g := (j: nat) => Traffic(tasks)(src, j);
    var c := Sizes(SendBlocks(tasks, src, ranks, bytes));
    forall j: nat | j < m ensures c[j] == g(j) * bytes { SendSize(tasks, src, ranks, bytes, j); }
    OffsetScales(c, g, bytes, m);
    RowIsSum(Traffic(tasks), g, src, m);
  }

  lemma {:induction false} ReceiveOffset(tasks: seq<Task>, dst: nat, ranks: nat, bytes: nat, n: nat)
    requires n <= ranks
    ensures Offset(Sizes(ReceiveBlocks(tasks, dst, ranks, bytes)), n) == Column(Traffic(tasks), dst, n) * bytes
  {
    var g := (i: nat) => Traffic(tasks)(i, dst);
    var c := Sizes(ReceiveBlocks(tasks, dst, ranks, bytes));
    forall i: nat | i < n ensures c[i] == g(i) * bytes { ReceiveSize(tasks, dst, ranks, bytes, i); }
    OffsetScales(c, g, bytes, n);
    ColumnIsSum(Traffic(tasks), g, dst, n);
  }

  lemma {:induction false} SendSize(tasks: seq<Task>, src: nat, ranks: nat, bytes: nat, j: nat)
    requires j < ranks
    ensures Sizes(SendBlocks(tasks, src, ranks, bytes))[j] == Traffic(tasks)(src, j) * bytes
  {
    PackedSize(Outgoing(tasks, src, j), bytes);
    assert SendBlocks(tasks, src, ranks, bytes)[j] == Packed(Outgoing(tasks, src, j), bytes);
  }

  lemma {:induction false} ReceiveSize(tasks: seq<Task>, dst: nat, ranks: nat, bytes: nat, i: nat)
    requires i < ranks
    ensures Sizes(ReceiveBlocks(tasks, dst, ranks, bytes))[i] == Traffic(tasks)(i, dst) * bytes
  {
    PackedSize(Outgoing(tasks, i, dst), bytes);
    assert ReceiveBlocks(tasks, dst, ranks, bytes)[i] == Packed(Outgoing(tasks, i, dst), bytes);
  }

  /** Prefix sums of equal multiples are the multiple of the prefix sums. */
  lemma {:induction false} OffsetScales(c: seq<int>, g: nat -> int, bytes: nat, m: nat)
    requires m <= |c| && forall j: nat :: j < m ==> c[j] == g(j) * bytes
    ensures Offset(c, m) == SumOver(g, m) * bytes
  {
    if m > 0 {
      var k := m - 1;
      OffsetScales(c, g, bytes, k);
      Distribute(SumOver(g, k), g(k), bytes);
    }
  }

  lemma {:induction false} RowIsSum(f: (nat, nat) -> int, g: nat -> int, i: nat, m: nat)
    requires forall j: nat :: j < m ==> g(j) == f(i, j)
    ensures Row(f, i, m) == SumOver(g, m)
  {
    if m > 0 { RowIsSum(f, g, i, m - 1); }
  }

  lemma {:induction false} ColumnIsSum(f: (nat, nat) -> int, g: nat -> int, j: nat, n: nat)
    requires forall i: nat :: i < n ==> g(i) == f(i, j)
    ensures Column(f, j, n) == SumOver(g, n)
  {
    if n > 0 { ColumnIsSum(f, g, j, n - 1); }
  }

  lemma {:induction false} Distribute(x: int, y: int, b: int)
    ensures (x + y) * b == x * b + y * b
  {
  }

  lemma {:induction false} ScaleBound(x: int, cap: int, bytes: nat)
    requires x <= cap && cap >= 0 && bytes <= MAX_VALUES * DOUBLE_BYTES
    ensures x * bytes <= cap * (MAX_VALUES * DOUBLE_BYTES)
  {
    ScaleUpTo(x, cap, bytes);
    ScaleUpTo(bytes, MAX_VALUES * DOUBLE_BYTES, cap);
  }

  lemma {:induction false} ScaleUpTo(x: int, y: int, k: int)
    requires x <= y && k >= 0
    ensures x * k <= y * k
  {
  }

  /**
   For every rank count from two up and every accepted payload size, each displacement and buffer
   size is at most 64,000,000 bytes on the sending side and 744,000,000 on the receiving side.
   */
  lemma {:induction false} DisplacementsFitInt(tasks: seq<Task>, ranks: nat, values: nat, r: nat, k: nat)
    requires ranks >= 2 && IsPlan(tasks, ranks) && values <= MAX_VALUES && r < ranks && k <= ranks
    ensures 0 <= Offset(Sizes(SendBlocks(tasks, r, ranks, values * DOUBLE_BYTES)), k) <= 64_000_000 < INT_MAX
    ensures 0 <= Offset(Sizes(ReceiveBlocks(tasks, r, ranks, values * DOUBLE_BYTES)), k) <= 744_000_000 < INT_MAX
  {
    var bytes := values * DOUBLE_BYTES;
    assert tasks[..|tasks|] == tasks;
    SendsAtMostEight(tasks, ranks, r, k, |tasks|);
    EightPerRank(ranks, r);
    SendOffset(tasks, r, ranks, bytes, k);
    ScaleBound(Row(Traffic(tasks), r, k), 8, bytes);
    ReceivesAtMostLoad(tasks, ranks, r, k, |tasks|);
    CandidateLoadBound(tasks, ranks, r);
    ReceiveOffset(tasks, r, ranks, bytes, k);
    ScaleBound(Column(Traffic(tasks), r, k), 93, bytes);
    OffsetGrows(Sizes(SendBlocks(tasks, r, ranks, bytes)), 0, k);
    OffsetGrows(Sizes(ReceiveBlocks(tasks, r, ranks, bytes)), 0, k);
  }

  /** Neither overflow refusal of the plan's constructor can fire. */
  lemma {:induction false} CountsFitInt(tasks: seq<Task>, ranks: nat, values: nat)
    requires ranks >= 2 && IsPlan(tasks, ranks) && values <= MAX_VALUES
    ensures CountsFit(tasks, ranks, values * DOUBLE_BYTES)
  {
    var bytes := values * DOUBLE_BYTES;
    forall r, dst | 0 <= r < ranks && 0 <= dst < ranks ensures |Packed(Outgoing(tasks, r, dst), bytes)| <= INT_MAX {
      CountFitsInt(tasks, ranks, values, r, dst);
    }
  }

  lemma {:induction false} CountFitsInt(tasks: seq<Task>, ranks: nat, values: nat, r: nat, dst: nat)
    requires ranks >= 2 && IsPlan(tasks, ranks) && values <= MAX_VALUES && r < ranks && dst < ranks
    ensures |Packed(Outgoing(tasks, r, dst), values * DOUBLE_BYTES)| <= INT_MAX
  {
    DisplacementsFitInt(tasks, ranks, values, r, dst);
    DisplacementsFitInt(tasks, ranks, values, r, dst + 1);
    OneCount(SendBlocks(tasks, r, ranks, values * DOUBLE_BYTES), dst);
  }

  lemma {:induction false} OneCount(blocks: seq<seq<byte>>, k: nat)
    requires k < |blocks|
    ensures |blocks[k]| == Offset(Sizes(blocks), k + 1) - Offset(Sizes(blocks), k)
  {
  }

  // ----- Something moves -----

  lemma {:induction false} SameOwnersSameLoad(tasks: seq<Task>, r: int)
    requires forall t :: t in tasks ==> t.candidateOwner == t.baselineOwner
    ensures OwnerLoad(tasks, Candidate, r) == OwnerLoad(tasks, Baseline, r)
  {
    if tasks != [] {
      assert tasks[|tasks| - 1] in tasks;
      SameOwnersSameLoad(tasks[..|tasks| - 1], r);
    }
  }

  /** Some task changes rank: otherwise rank 0 would keep its load of at least 128. */
  lemma {:induction false} SomeTaskMoves(tasks: seq<Task>, ranks: nat) returns (t: Task)
    requires ranks >= 2 && IsPlan(tasks, ranks)
    ensures t in tasks && t.candidateOwner != t.baselineOwner
    ensures 0 <= t.baselineOwner < ranks && 0 <= t.candidateOwner < ranks
  {
    PlanOwners(tasks, ranks);
    CandidateLoadBound(tasks, ranks, 0);
    BaselineLoadBounds(tasks, ranks, 0);
    if forall u :: u in tasks ==> u.candidateOwner == u.baselineOwner {
      SameOwnersSameLoad(tasks, 0);
      assert false;
    }
    t :| t in tasks && t.candidateOwner != t.baselineOwner;
  }

  /** Hence some rank's send buffer is not empty. */
  lemma {:induction false} SomeBytesMove(tasks: seq<Task>, ranks: nat, bytes: nat) returns (r: nat)
    requires ranks >= 2 && IsPlan(tasks, ranks) && bytes > 0
    ensures r < ranks && |Join(SendBlocks(tasks, r, ranks, bytes))| > 0
  {
    var t := SomeTaskMoves(tasks, ranks);
    r := t.baselineOwner;
    var dst := t.candidateOwner;
    var blocks := SendBlocks(tasks, r, ranks, bytes);
    SelectMember(MovesTo(r, dst), tasks, t);
    PackedSize(Outgoing(tasks, r, dst), bytes);
    assert |blocks[dst]| >= bytes by { ScaleUp(|Outgoing(tasks, r, dst)|, bytes); }
    JoinSlice(blocks, dst, ranks);
  }

  lemma {:induction false} ScaleUp(n: nat, bytes: nat)
    requires n >= 1
    ensures n * bytes >= bytes
  {
  }

  // ----- The whole campaign -----

  /** Counts of rank `r` are known on both sides. */
  ghost predicate Counted(p: MigrationPlan, tasks: seq<Task>, ranks: nat, bytes: nat)
    reads p
  {
    && p.sendCounts == Sizes(SendBlocks(tasks, p.rank, ranks, bytes))
    && p.receiveCounts == Sizes(ReceiveBlocks(tasks, p.rank, ranks, bytes))
  }

  /** Every byte count the ranks would send is an MPI int. */
  ghost predicate CountsFit(tasks: seq<Task>, ranks: nat, bytes: nat) {
    && bytes <= INT_MAX
    && forall r, dst :: 0 <= r < ranks && 0 <= dst < ranks ==> |Packed(Outgoing(tasks, r, dst), bytes)| <= INT_MAX
  }

  ghost predicate NothingToSend(tasks: seq<Task>, ranks: nat, bytes: nat) {
    forall r :: 0 <= r < ranks ==> Join(SendBlocks(tasks, r, ranks, bytes)) == []
  }

  method CountAll(plans: seq<MigrationPlan>, tasks: seq<Task>, bytes: nat) returns (outcome: Outcome)
    requires Team(plans) && forall t :: t in tasks ==> 0 <= t.candidateOwner < |plans|
    modifies (set p | p in plans)`sendCounts
    ensures outcome == Done ==> forall r :: 0 <= r < |plans| ==>
      plans[r].sendCounts == Sizes(SendBlocks(tasks, r, |plans|, bytes))
    ensures outcome in {Done, Overflow}
    ensures |plans| > 0 ==> (outcome == Done <==> CountsFit(tasks, |plans|, bytes))
  {
    for r := 0 to |plans|
      invariant r > 0 ==> bytes <= INT_MAX
      invariant forall q, dst :: 0 <= q < r && 0 <= dst < |plans| ==>
        |Packed(Outgoing(tasks, q, dst), bytes)| <= INT_MAX
      invariant forall q :: 0 <= q < r ==> plans[q].sendCounts == Sizes(SendBlocks(tasks, q, |plans|, bytes))
    {
      outcome := plans[r].CountSends(tasks, bytes);
      if outcome != Done { return; }
    }
    outcome := Done;
  }

  lemma {:induction false} TransposedCounts(tasks: seq<Task>, ranks: nat, bytes: nat, r: nat, counts: seq<int>)
    requires r < ranks && |counts| == ranks
    requires forall s :: 0 <= s < ranks ==> counts[s] == Sizes(SendBlocks(tasks, s, ranks, bytes))[r]
    ensures counts == Sizes(ReceiveBlocks(tasks, r, ranks, bytes))
  {
  }

  method PlaceAndPackAll(plans: seq<MigrationPlan>, tasks: seq<Task>, bytes: nat)
    requires Team(plans) && forall t :: t in tasks ==> 0 <= t.candidateOwner < |plans|
    requires forall r :: 0 <= r < |plans| ==> Counted(plans[r], tasks, |plans|, bytes)
    modifies plans
    ensures Ready(plans, tasks, bytes)
  {
    for r := 0 to |plans|
      invariant forall q :: 0 <= q < |plans| ==> Counted(plans[q], tasks, |plans|, bytes)
      invariant forall q :: 0 <= q < r ==> Prepared(plans[q], tasks, |plans|, bytes)
    {
      assert Counted(plans[r], tasks, |plans|, bytes);
      plans[r].Place();
      plans[r].Pack(tasks, bytes);
      assert Prepared(plans[r], tasks, |plans|, bytes);
    }
  }

  /** `all_reduce_sum` of the send buffer sizes. */
  method GlobalBytes(plans: seq<MigrationPlan>, ghost tasks: seq<Task>, ghost bytes: nat) returns (total: int)
    requires forall r :: 0 <= r < |plans| ==> plans[r].send == Join(SendBlocks(tasks, r, |plans|, bytes))
    ensures total <= 0 <==> NothingToSend(tasks, |plans|, bytes)
  {
    total := SumSizes(plans);
  }

  method SumSizes(plans: seq<MigrationPlan>) returns (total: int)
    ensures total <= 0 <==> forall r :: 0 <= r < |plans| ==> plans[r].send == []
  {
    total := 0;
    for r := 0 to |plans|
      invariant total >= 0 && (total == 0 <==> forall q :: 0 <= q < r ==> plans[q].send == [])
    {
      total := total + |plans[r].send|;
    }
  }

  /** One plan per rank, prepared in the order of the constructor, then migrated. */
  method MigrateTasks(tasks: seq<Task>, ranks: nat, values: nat) returns (plans: seq<MigrationPlan>, outcome: Outcome)
    requires ranks > 0 && forall t :: t in tasks ==> 0 <= t.candidateOwner < ranks
    ensures |plans| == ranks
    ensures outcome == Done ==> forall r :: 0 <= r < ranks ==>
      && plans[r].send == Join(SendBlocks(tasks, r, ranks, values * DOUBLE_BYTES))
      && plans[r].receive == Join(ReceiveBlocks(tasks, r, ranks, values * DOUBLE_BYTES))
    ensures outcome == Overflow <==> !CountsFit(tasks, ranks, values * DOUBLE_BYTES)
    ensures outcome == NothingMigrated <==>
      CountsFit(tasks, ranks, values * DOUBLE_BYTES) && NothingToSend(tasks, ranks, values * DOUBLE_BYTES)
  {
    var bytes := values * DOUBLE_BYTES;
    plans := NewTeam(ranks);
    outcome := Prepare(plans, tasks, bytes);
    if outcome != Done { return; }
    var globalBytes := GlobalBytes(plans, tasks, bytes);
    if globalBytes <= 0 { return plans, NothingMigrated; }
    Migrate(plans, tasks, bytes);
  }

  /** One plan per rank. */
  method NewTeam(ranks: nat) returns (plans: seq<MigrationPlan>)
    ensures |plans| == ranks && Team(plans) && forall r :: 0 <= r < ranks ==> fresh(plans[r])
  {
    plans := [];
    for r := 0 to ranks
      invariant |plans| == r && forall q :: 0 <= q < r ==> fresh(plans[q])
      invariant forall q :: 0 <= q < r ==> plans[q].rank == q && plans[q].ranks == ranks
    {
      var p := new MigrationPlan(r, ranks);
      plans := plans + [p];
    }
  }

  /** Counting, the exchange of counts, placing and packing. */
  method Prepare(plans: seq<MigrationPlan>, tasks: seq<Task>, bytes: nat) returns (outcome: Outcome)
    requires |plans| > 0 && Team(plans) && forall t :: t in tasks ==> 0 <= t.candidateOwner < |plans|
    modifies plans
    ensures outcome == Done ==> Ready(plans, tasks, bytes) && forall r :: 0 <= r < |plans| ==>
      plans[r].send == Join(SendBlocks(tasks, r, |plans|, bytes))
    ensures outcome in {Done, Overflow} && (outcome == Done <==> CountsFit(tasks, |plans|, bytes))
  {
    outcome := CountAll(plans, tasks, bytes);
    if outcome != Done { return; }
    ExchangeCounts(plans);
    forall r | 0 <= r < |plans| ensures Counted(plans[r], tasks, |plans|, bytes) {
      TransposedCounts(tasks, |plans|, bytes, r, plans[r].receiveCounts);
    }
    PlaceAndPackAll(plans, tasks, bytes);
    forall r | 0 <= r < |plans| ensures plans[r].send == Join(SendBlocks(tasks, r, |plans|, bytes)) {
      assert Prepared(plans[r], tasks, |plans|, bytes);
    }
  }

  ghost function SendBuffers(plans: seq<MigrationPlan>): seq<seq<byte>>
    reads plans
  {
    seq(|plans|, r requires 0 <= r < |plans| reads plans => plans[r].send)
  }

  ghost function ReceiveBuffers(plans: seq<MigrationPlan>): seq<seq<byte>>
    reads plans
  {
    seq(|plans|, r requires 0 <= r < |plans| reads plans => plans[r].receive)
  }

  function SumBytes(s: seq<byte>): (sum: int)
    ensures sum == ByteSum(s)
  {
    if s == [] then 0 else SumBytes(s[..|s| - 1]) + s[|s| - 1] as int
  }

  /** `checksum_error`: the distance between the reduced sums of all send and all receive buffers. */
  method ChecksumError(plans: seq<MigrationPlan>) returns (error: int)
    ensures var d := BytesIn(SendBuffers(plans)) - BytesIn(ReceiveBuffers(plans)); error == if d < 0 then -d else d
  {
    var sent, received := 0, 0;
    ghost var out, back := SendBuffers(plans), ReceiveBuffers(plans);
    for r := 0 to |plans|
      invariant sent == BytesIn(out[..r]) && received == BytesIn(back[..r])
    {
      assert out[..r + 1][..r] == out[..r] && back[..r + 1][..r] == back[..r];
      sent, received := sent + SumBytes(plans[r].send), received + SumBytes(plans[r].receive);
    }
    assert out[..|plans|] == out && back[..|plans|] == back;
    error := if sent < received then received - sent else sent - received;
  }

  /**
   On every accepted configuration with two ranks or more the migration runs to its end, every rank
   holds what it should, and the checksum error over the ranks' own buffers is zero.
   */
  method RunMigration(ranks: nat, values: nat)
    returns (tasks: seq<Task>, plans: seq<MigrationPlan>, outcome: Outcome, checksumError: int)
    requires ranks >= 2 && 1 <= values <= MAX_VALUES
    ensures IsPlan(tasks, ranks) && |plans| == ranks && outcome == Done && checksumError == 0
    ensures forall r :: 0 <= r < ranks ==>
      plans[r].receive == Packed(Incoming(tasks, r, ranks), values * DOUBLE_BYTES)
  {
    tasks := MakeTasks(ranks);
    PlanOwners(tasks, ranks);
    CountsFitInt(tasks, ranks, values);
    ghost var mover := SomeBytesMove(tasks, ranks, values * DOUBLE_BYTES);
    plans, outcome, checksumError := MigrateAndCheck(tasks, ranks, values);
    forall r | 0 <= r < ranks ensures plans[r].receive == Packed(Incoming(tasks, r, ranks), values * DOUBLE_BYTES) {
      RanksHoldTheirTasks(tasks, r, ranks, values * DOUBLE_BYTES);
    }
  }

  /** Any exchange that runs to its end has a checksum error of zero. */
  method MigrateAndCheck(tasks: seq<Task>, ranks: nat, values: nat)
    returns (plans: seq<MigrationPlan>, outcome: Outcome, checksumError: int)
    requires ranks > 0 && forall t :: t in tasks ==> 0 <= t.candidateOwner < ranks
    ensures |plans| == ranks
    ensures outcome == Done ==> checksumError == 0 && forall r :: 0 <= r < ranks ==>
      plans[r].receive == Join(ReceiveBlocks(tasks, r, ranks, values * DOUBLE_BYTES))
    ensures outcome == Done <==>
      CountsFit(tasks, ranks, values * DOUBLE_BYTES) && !NothingToSend(tasks, ranks, values * DOUBLE_BYTES)
  {
    plans, outcome := MigrateTasks(tasks, ranks, values);
    checksumError := 0;
    if outcome == Done { checksumError := CheckTeam(plans, tasks, values * DOUBLE_BYTES); }
  }

  /** Buffers that hold what was packed and delivered have a checksum error of zero. */
  method CheckTeam(plans: seq<MigrationPlan>, ghost tasks: seq<Task>, ghost bytes: nat) returns (error: int)
    requires forall r :: 0 <= r < |plans| ==> plans[r].send == Join(SendBlocks(tasks, r, |plans|, bytes))
    requires forall r :: 0 <= r < |plans| ==> plans[r].receive == Join(ReceiveBlocks(tasks, r, |plans|, bytes))
    ensures error == 0
  {
    error := ChecksumError(plans);
    BuffersBalance(tasks, |plans|, bytes, SendBuffers(plans), ReceiveBuffers(plans));
  }
}
