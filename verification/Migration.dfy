/**
 The all-to-all task migration of `benchmarks/adc757/heterogeneous_numerics.cpp` (`MigrationPlan`).
 Every rank owns one `MigrationPlan`; the two MPI collectives act on the plans of all ranks at once.
 */
module Migration {
  import opened Sorting
  import opened TaskBalance

  newtype byte = x: int | 0 <= x < 256

  datatype Outcome = Done | Overflow | NothingMigrated

  // ----- Blocks laid end to end -----

  ghost function JoinTo<T>(blocks: seq<seq<T>>, n: nat): seq<T>
    requires n <= |blocks|
  {
    if n == 0 then [] else JoinTo(blocks, n - 1) + blocks[n - 1]
  }

  ghost function Join<T>(blocks: seq<seq<T>>): seq<T> { JoinTo(blocks, |blocks|) }

  /** Sum of the first `n` counts: the displacement of block `n`. */
  ghost function Offset(counts: seq<int>, n: nat): int
    requires n <= |counts|
  {
    if n == 0 then 0 else Offset(counts, n - 1) + counts[n - 1]
  }

  ghost function Sizes<T>(blocks: seq<seq<T>>): (c: seq<int>)
    ensures |c| == |blocks| && forall i :: 0 <= i < |c| ==> c[i] == |blocks[i]|
  {
    seq(|blocks|, i requires 0 <= i < |blocks| => |blocks[i]|)
  }

  lemma {:induction false} OffsetGrows(c: seq<int>, n: nat, n': nat)
    requires n <= n' <= |c| && forall i :: 0 <= i < |c| ==> c[i] >= 0
    ensures 0 <= Offset(c, n) <= Offset(c, n')
  {
    if n < n' { OffsetGrows(c, n, n' - 1); } else if n > 0 { OffsetGrows(c, n - 1, n' - 1); }
  }

  lemma {:induction false} OffsetApart(c: seq<int>, k: nat, l: nat)
    requires k < l <= |c| && forall i :: 0 <= i < |c| ==> c[i] >= 0
    ensures 0 <= Offset(c, k) && Offset(c, k) + c[k] <= Offset(c, l)
  {
    OffsetGrows(c, k, k + 1);
    OffsetGrows(c, k + 1, l);
  }

  lemma {:induction false} JoinSize<T>(blocks: seq<seq<T>>, n: nat)
    requires n <= |blocks|
    ensures |JoinTo(blocks, n)| == Offset(Sizes(blocks), n)
  {
    if n > 0 { JoinSize(blocks, n - 1); }
  }

  /** Block `k` of a joined buffer sits between its displacement and the next one. */
  lemma {:induction false} JoinSlice<T>(blocks: seq<seq<T>>, k: nat, n: nat)
    requires k < n <= |blocks|
    ensures var lo, hi := Offset(Sizes(blocks), k), Offset(Sizes(blocks), k) + |blocks[k]|;
      0 <= lo <= hi <= |JoinTo(blocks, n)| && JoinTo(blocks, n)[lo..hi] == blocks[k]
  {
    if k == n - 1 { JoinSize(blocks, k); } else { JoinSlice(blocks, k, n - 1); }
  }

  /** A buffer whose slices are the blocks is their join. */
  lemma {:induction false} JoinFromSlices<T>(blocks: seq<seq<T>>, buffer: seq<T>, n: nat)
    requires n <= |blocks| && |buffer| == Offset(Sizes(blocks), |blocks|)
    requires forall k :: 0 <= k < |blocks| ==> Slice(blocks, buffer, k)
    ensures 0 <= Offset(Sizes(blocks), n) <= |buffer|
    ensures buffer[..Offset(Sizes(blocks), n)] == JoinTo(blocks, n)
  {
    var c := Sizes(blocks);
    OffsetGrows(c, n, |blocks|);
    if n > 0 {
      JoinFromSlices(blocks, buffer, n - 1);
      assert Slice(blocks, buffer, n - 1);
      var lo, hi := Offset(c, n - 1), Offset(c, n);
      assert buffer[..hi] == buffer[..lo] + buffer[lo..hi];
    }
  }

  ghost predicate Slice<T>(blocks: seq<seq<T>>, buffer: seq<T>, k: nat)
    requires k < |blocks|
  {
    var lo, hi := Offset(Sizes(blocks), k), Offset(Sizes(blocks), k) + |blocks[k]|;
    0 <= lo <= hi <= |buffer| && buffer[lo..hi] == blocks[k]
  }

  // ----- What each rank sends to each other rank -----

  predicate Moves(t: Task, src: int, dst: int) {
    t.baselineOwner == src && t.candidateOwner != t.baselineOwner && t.candidateOwner == dst
  }

  function MovesTo(src: int, dst: int): Task -> bool { (t: Task) => Moves(t, src, dst) }

  function Outgoing(tasks: seq<Task>, src: int, dst: int): seq<Task> {
    Select(MovesTo(src, dst), tasks)
  }

  /** The marker byte of a task. */
  function Marker(t: Task): byte { (t.id % 251 + 1) as byte }

  function Payload(t: Task, bytes: nat): (p: seq<byte>)
    ensures |p| == bytes && forall i :: 0 <= i < bytes ==> p[i] == Marker(t)
  {
    seq(bytes, _ => Marker(t))
  }

  function Packed(ts: seq<Task>, bytes: nat): seq<byte> {
    if ts == [] then [] else Packed(ts[..|ts| - 1], bytes) + Payload(ts[|ts| - 1], bytes)
  }

  lemma {:induction false} PackedSize(ts: seq<Task>, bytes: nat)
    ensures |Packed(ts, bytes)| == |ts| * bytes
  {
    if ts != [] {
      PackedSize(ts[..|ts| - 1], bytes);
      assert |ts| * bytes == (|ts| - 1) * bytes + bytes;
    }
  }

  lemma {:induction false} PackedAppend(ts: seq<Task>, us: seq<Task>, bytes: nat)
    ensures Packed(ts + us, bytes) == Packed(ts, bytes) + Packed(us, bytes)
  {
    if us == [] { assert ts + us == ts; } else {
      var n := |us| - 1;
      PackedAppend(ts, us[..n], bytes);
      assert (ts + us)[..|ts + us| - 1] == ts + us[..n];
    }
  }

  ghost function SendBlocks(tasks: seq<Task>, src: nat, ranks: nat, bytes: nat): (blocks: seq<seq<byte>>)
    ensures |blocks| == ranks
    ensures forall dst :: 0 <= dst < ranks ==> blocks[dst] == Packed(Outgoing(tasks, src, dst), bytes)
  {
    seq(ranks, dst requires 0 <= dst < ranks => Packed(Outgoing(tasks, src, dst), bytes))
  }

  ghost function ReceiveBlocks(tasks: seq<Task>, dst: nat, ranks: nat, bytes: nat): (blocks: seq<seq<byte>>)
    ensures |blocks| == ranks
    ensures forall src :: 0 <= src < ranks ==> blocks[src] == Packed(Outgoing(tasks, src, dst), bytes)
  {
    seq(ranks, src requires 0 <= src < ranks => Packed(Outgoing(tasks, src, dst), bytes))
  }

  lemma {:induction false} OutgoingStep(tasks: seq<Task>, i: nat, src: int, dst: int)
    requires i < |tasks|
    ensures Outgoing(tasks[..i + 1], src, dst)
         == Outgoing(tasks[..i], src, dst) + if Moves(tasks[i], src, dst) then [tasks[i]] else []
  {
    assert tasks[..i + 1] == tasks[..i] + [tasks[i]];
    SelectAppend(MovesTo(src, dst), tasks[..i], [tasks[i]]);
  }

  lemma {:induction false} PackedStep(tasks: seq<Task>, i: nat, src: int, dst: int, bytes: nat)
    requires i < |tasks|
    ensures Packed(Outgoing(tasks[..i + 1], src, dst), bytes)
         == Packed(Outgoing(tasks[..i], src, dst), bytes)
          + if Moves(tasks[i], src, dst) then Payload(tasks[i], bytes) else []
  {
    OutgoingStep(tasks, i, src, dst);
    var ts := Outgoing(tasks[..i], src, dst);
    if Moves(tasks[i], src, dst) {
      assert (ts + [tasks[i]])[..|ts|] == ts;
    } else {
      assert ts + [] == ts;
      assert Packed(ts, bytes) + [] == Packed(ts, bytes);
    }
  }

  lemma {:induction false} PackedPrefix(tasks: seq<Task>, i: nat, src: int, dst: int, bytes: nat)
    requires i <= |tasks|
    ensures |Packed(Outgoing(tasks[..i], src, dst), bytes)| <= |Packed(Outgoing(tasks, src, dst), bytes)|
  {
    assert tasks == tasks[..i] + tasks[i..];
    SelectAppend(MovesTo(src, dst), tasks[..i], tasks[i..]);
    PackedAppend(Outgoing(tasks[..i], src, dst), Outgoing(tasks[i..], src, dst), bytes);
  }

  // ----- One rank -----

  class MigrationPlan {
    const rank: nat
    const ranks: nat
    var sendCounts: seq<int>
    var receiveCounts: seq<int>
    var sendDisplacements: seq<int>
    var receiveDisplacements: seq<int>
    var send: seq<byte>
    var receive: seq<byte>

    constructor (rank: nat, ranks: nat)
      requires rank < ranks
      ensures this.rank == rank && this.ranks == ranks
    {
      this.rank, this.ranks := rank, ranks;
      sendCounts, receiveCounts := seq(ranks, _ => 0), seq(ranks, _ => 0);
      sendDisplacements, receiveDisplacements := seq(ranks, _ => 0), seq(ranks, _ => 0);
      send, receive := [], [];
    }

    /** Byte counts per destination; refuses exactly when a count leaves the MPI int range. */
    method CountSends(tasks: seq<Task>, bytes: nat) returns (outcome: Outcome)
      requires forall t :: t in tasks ==> 0 <= t.candidateOwner < ranks
      modifies this`sendCounts
      ensures outcome == Done ==> sendCounts == Sizes(SendBlocks(tasks, rank, ranks, bytes))
      ensures outcome in {Done, Overflow}
      ensures outcome == Done <==>
        (bytes <= INT_MAX && forall dst :: 0 <= dst < ranks ==> |Packed(Outgoing(tasks, rank, dst), bytes)| <= INT_MAX)
    {
      if bytes > INT_MAX { return Overflow; }
      var counts := new int[ranks](_ => 0);
      for i := 0 to |tasks|
        invariant forall dst :: 0 <= dst < ranks ==> counts[dst] == |Packed(Outgoing(tasks[..i], rank, dst), bytes)|
        invariant forall dst :: 0 <= dst < ranks ==> counts[dst] <= INT_MAX
      {
        var task := tasks[i];
        assert task in tasks;
        forall dst | 0 <= dst < ranks
          ensures |Packed(Outgoing(tasks[..i + 1], rank, dst), bytes)|
               == |Packed(Outgoing(tasks[..i], rank, dst), bytes)| + if Moves(task, rank, dst) then bytes else 0
        {
          PackedStep(tasks, i, rank, dst, bytes);
        }
        if task.baselineOwner == rank && task.candidateOwner != task.baselineOwner {
          if counts[task.candidateOwner] > INT_MAX - bytes {
            PackedPrefix(tasks, i + 1, rank, task.candidateOwner, bytes);
            return Overflow;
          }
          counts[task.candidateOwner] := counts[task.candidateOwner] + bytes;
        }
      }
      assert tasks[..|tasks|] == tasks;
      sendCounts := counts[..];
      return Done;
    }

    /** Displacements by prefix sums, and the buffer sizes they imply. */
    method Place()
      requires |sendCounts| == ranks && |receiveCounts| == ranks && ranks > 0
      modifies this`sendDisplacements, this`receiveDisplacements, this`receive
      requires forall r :: 0 <= r < ranks ==> sendCounts[r] >= 0 && receiveCounts[r] >= 0
      ensures |sendDisplacements| == ranks && |receiveDisplacements| == ranks
      ensures forall r {:trigger sendDisplacements[r]} :: 0 <= r < ranks ==>
        sendDisplacements[r] == Offset(sendCounts, r)
      ensures forall r {:trigger receiveDisplacements[r]} :: 0 <= r < ranks ==>
        receiveDisplacements[r] == Offset(receiveCounts, r)
      ensures |receive| == Offset(receiveCounts, ranks)
    {
      sendDisplacements := PrefixSums(sendCounts);
      receiveDisplacements := PrefixSums(receiveCounts);
      var receiveBytes := receiveDisplacements[ranks - 1] + receiveCounts[ranks - 1];
      OffsetGrows(receiveCounts, 0, ranks);
      receive := seq(receiveBytes, _ => 0);
    }

    /** Cursor packing: every outgoing payload lands once, in its destination's interval. */
    method Pack(tasks: seq<Task>, bytes: nat)
      requires ranks > 0 && forall t :: t in tasks ==> 0 <= t.candidateOwner < ranks
      requires sendCounts == Sizes(SendBlocks(tasks, rank, ranks, bytes)) && |sendDisplacements| == ranks
      requires forall r {:trigger sendDisplacements[r]} :: 0 <= r < ranks ==>
        sendDisplacements[r] == Offset(sendCounts, r)
      modifies this`send
      ensures send == Join(SendBlocks(tasks, rank, ranks, bytes))
    {
      send := PackBuffer(tasks, bytes, rank, sendCounts, sendDisplacements);
    }
  }

  /** `std::fill_n`. */
  method FillN(buffer: array<byte>, start: int, n: nat, value: byte)
    requires 0 <= start && start + n <= buffer.Length
    modifies buffer
    ensures forall i :: 0 <= i < buffer.Length ==>
      buffer[i] == if start <= i < start + n then value else old(buffer[i])
  {
    for i := 0 to n
      invariant forall j :: 0 <= j < buffer.Length ==>
        buffer[j] == if start <= j < start + i then value else old(buffer[j])
    {
      buffer[start + i] := value;
    }
  }

  method PackBuffer(tasks: seq<Task>, bytes: nat, rank: nat, counts: seq<int>, displacements: seq<int>)
    returns (send: seq<byte>)
    requires counts != [] && forall t :: t in tasks ==> 0 <= t.candidateOwner < |counts|
    requires counts == Sizes(SendBlocks(tasks, rank, |counts|, bytes)) && |displacements| == |counts|
    requires forall r {:trigger displacements[r]} :: 0 <= r < |counts| ==> displacements[r] == Offset(counts, r)
    ensures send == Join(SendBlocks(tasks, rank, |counts|, bytes))
  {
    var ranks := |counts|;
    OffsetGrows(counts, 0, ranks);
    var buffer := new byte[displacements[ranks - 1] + counts[ranks - 1]](_ => 0);
    var cursors := new int[ranks](k requires 0 <= k < |displacements| => displacements[k]);
    NothingPacked(counts, tasks, rank, bytes, buffer[..], cursors[..]);
    PackLoop(buffer, cursors, counts, tasks, rank, bytes);
    send := buffer[..];
    AllPacked(send, cursors[..], counts, SendBlocks(tasks, rank, ranks, bytes));
  }

  method PackLoop(
      buffer: array<byte>, cursors: array<int>, ghost counts: seq<int>, tasks: seq<Task>, rank: nat, bytes: nat)
    requires forall t :: t in tasks ==> 0 <= t.candidateOwner < |counts|
    requires counts == Sizes(SendBlocks(tasks, rank, |counts|, bytes))
    requires Progress(buffer[..], cursors[..], counts, SendBlocks(tasks[..0], rank, |counts|, bytes))
    modifies buffer, cursors
    ensures Progress(buffer[..], cursors[..], counts, SendBlocks(tasks, rank, |counts|, bytes))
  {
    ghost var ranks := |counts|;
    for i := 0 to |tasks|
      invariant Progress(buffer[..], cursors[..], counts, SendBlocks(tasks[..i], rank, ranks, bytes))
    {
      var task := tasks[i];
      assert task in tasks;
      BlocksStep(tasks, i, rank, ranks, bytes);
      if task.baselineOwner == rank && task.candidateOwner != task.baselineOwner {
        ghost var parts := SendBlocks(tasks[..i], rank, ranks, bytes);
        RoomForOne(tasks, i, rank, ranks, bytes);
        PackTask(buffer, cursors, counts, parts, task.candidateOwner, bytes, Marker(task));
      }
    }
    assert tasks[..|tasks|] == tasks;
  }

  method PrefixSums(counts: seq<int>) returns (displacements: seq<int>)
    requires counts != []
    ensures |displacements| == |counts|
    ensures forall r {:trigger displacements[r]} :: 0 <= r < |counts| ==> displacements[r] == Offset(counts, r)
  {
    var d := new int[|counts|](_ => 0);
    for k := 1 to |counts|
      invariant forall j {:trigger d[j]} :: 0 <= j < k ==> d[j] == Offset(counts, j)
    {
      d[k] := d[k - 1] + counts[k - 1];
    }
    displacements := d[..];
  }

  ghost predicate Holds(buffer: seq<byte>, lo: int, content: seq<byte>) {
    0 <= lo && lo + |content| <= |buffer| && buffer[lo..lo + |content|] == content
  }

  /** Every destination's interval holds its share so far, and its cursor stands behind it. */
  ghost predicate Progress(buffer: seq<byte>, cursors: seq<int>, counts: seq<int>, parts: seq<seq<byte>>) {
    && |cursors| == |counts| == |parts|
    && |buffer| == Offset(counts, |counts|)
    && (forall dst :: 0 <= dst < |counts| ==> |parts[dst]| <= counts[dst])
    && forall dst {:trigger cursors[dst]} {:trigger parts[dst]} :: 0 <= dst < |counts| ==>
         && cursors[dst] == Offset(counts, dst) + |parts[dst]|
         && Holds(buffer, Offset(counts, dst), parts[dst])
  }

  lemma {:induction false} BlocksStep(tasks: seq<Task>, i: nat, src: nat, ranks: nat, bytes: nat)
    requires i < |tasks| && 0 <= tasks[i].candidateOwner < ranks
    ensures var t, parts := tasks[i], SendBlocks(tasks[..i], src, ranks, bytes);
      SendBlocks(tasks[..i + 1], src, ranks, bytes) ==
        if t.baselineOwner == src && t.candidateOwner != t.baselineOwner
        then parts[t.candidateOwner := parts[t.candidateOwner] + Payload(t, bytes)] else parts
  {
    var t, lhs := tasks[i], SendBlocks(tasks[..i + 1], src, ranks, bytes);
    var parts := SendBlocks(tasks[..i], src, ranks, bytes);
    forall dst | 0 <= dst < ranks
      ensures lhs[dst] == if Moves(t, src, dst) then parts[dst] + Payload(t, bytes) else parts[dst]
    {
      PackedStep(tasks, i, src, dst, bytes);
      assert parts[dst] + [] == parts[dst];
    }
    if t.baselineOwner == src && t.candidateOwner != t.baselineOwner {
      assert lhs == parts[t.candidateOwner := parts[t.candidateOwner] + Payload(t, bytes)];
    } else {
      assert lhs == parts;
    }
  }

  /** The next payload still fits inside its destination's interval. */
  lemma {:induction false} RoomForOne(tasks: seq<Task>, i: nat, src: nat, ranks: nat, bytes: nat)
    requires i < |tasks| && 0 <= tasks[i].candidateOwner < ranks
    requires tasks[i].baselineOwner == src && tasks[i].candidateOwner != src
    ensures var to := tasks[i].candidateOwner;
      |SendBlocks(tasks[..i], src, ranks, bytes)[to]| + bytes <= |SendBlocks(tasks, src, ranks, bytes)[to]|
  {
    var to := tasks[i].candidateOwner;
    PackedStep(tasks, i, src, to, bytes);
    PackedPrefix(tasks, i + 1, src, to, bytes);
  }

  lemma {:induction false} NothingPacked(
      counts: seq<int>, tasks: seq<Task>, src: nat, bytes: nat, buffer: seq<byte>, cursors: seq<int>)
    requires |buffer| == Offset(counts, |counts|) && |cursors| == |counts|
    requires forall dst {:trigger cursors[dst]} :: 0 <= dst < |counts| ==> cursors[dst] == Offset(counts, dst)
    requires forall dst :: 0 <= dst < |counts| ==> counts[dst] >= 0
    ensures Progress(buffer, cursors, counts, SendBlocks(tasks[..0], src, |counts|, bytes))
  {
    forall dst | 0 <= dst < |counts|
      ensures SendBlocks(tasks[..0], src, |counts|, bytes)[dst] == [] && Holds(buffer, Offset(counts, dst), [])
    {
      OffsetGrows(counts, dst, |counts|);
    }
  }

  /** One payload, written at its destination's cursor. */
  method PackTask(buffer: array<byte>, cursors: array<int>, ghost counts: seq<int>, ghost parts: seq<seq<byte>>,
                  to: nat, bytes: nat, value: byte)
    requires Progress(buffer[..], cursors[..], counts, parts) && to < |counts| && |parts[to]| + bytes <= counts[to]
    modifies buffer, cursors
    ensures Progress(buffer[..], cursors[..], counts, parts[to := parts[to] + seq(bytes, _ => value)])
  {
    ghost var before, standing := buffer[..], cursors[..];
    OffsetApart(counts, to, |counts|);
    FillN(buffer, cursors[to], bytes, value);
    cursors[to] := cursors[to] + bytes;
    ProgressStep(before, buffer[..], standing, counts, parts, to, bytes, value);
  }

  lemma {:induction false} ProgressStep(before: seq<byte>, after: seq<byte>, cursors: seq<int>, counts: seq<int>,
                                        parts: seq<seq<byte>>, to: nat, bytes: nat, value: byte)
    requires Progress(before, cursors, counts, parts) && to < |counts| && |parts[to]| + bytes <= counts[to]
    requires |after| == |before|
    requires var at := cursors[to]; forall j :: 0 <= j < |after| ==>
      after[j] == if at <= j < at + bytes then value else before[j]
    ensures Progress(after, cursors[to := cursors[to] + bytes], counts, parts[to := parts[to] + seq(bytes, _ => value)])
  {
    var payload := seq(bytes, _ => value);
    var parts' := parts[to := parts[to] + payload];
    OffsetApart(counts, to, |counts|);
    forall dst {:trigger parts'[dst]} | 0 <= dst < |counts| ensures Holds(after, Offset(counts, dst), parts'[dst]) {
      if dst == to {
        HoldsOwn(before, after, Offset(counts, to), parts[to], payload);
      } else {
        OthersApart(counts, parts, to, dst, bytes);
        HoldsOther(before, after, Offset(counts, dst), parts[dst], cursors[to], bytes);
      }
    }
  }

  /** The bytes of two destinations never meet. */
  lemma {:induction false} OthersApart(counts: seq<int>, parts: seq<seq<byte>>, to: nat, dst: nat, bytes: nat)
    requires |parts| == |counts| && to < |counts| && dst < |counts| && dst != to
    requires forall k :: 0 <= k < |counts| ==> |parts[k]| <= counts[k]
    requires |parts[to]| + bytes <= counts[to]
    ensures var at := Offset(counts, to) + |parts[to]|;
      Offset(counts, dst) + |parts[dst]| <= at || at + bytes <= Offset(counts, dst)
  {
    if dst < to { OffsetApart(counts, dst, to); } else { OffsetApart(counts, to, dst); }
  }

  lemma {:induction false} AllPacked(send: seq<byte>, cursors: seq<int>, counts: seq<int>, blocks: seq<seq<byte>>)
    requires counts == Sizes(blocks) && Progress(send, cursors, counts, blocks)
    ensures send == Join(blocks)
  {
    forall k | 0 <= k < |blocks| ensures Slice(blocks, send, k) {
      assert Holds(send, Offset(counts, k), blocks[k]);
    }
    JoinFromSlices(blocks, send, |blocks|);
    assert send[..|send|] == send;
  }

  lemma {:induction false} HoldsOwn(
      before: seq<byte>, after: seq<byte>, lo: int, content: seq<byte>, payload: seq<byte>)
    requires Holds(before, lo, content) && |after| == |before| && lo + |content| + |payload| <= |before|
    requires var at := lo + |content|; forall j :: 0 <= j < |after| ==>
      after[j] == if at <= j < at + |payload| then payload[j - at] else before[j]
    ensures Holds(after, lo, content + payload)
  {
    var at := lo + |content|;
    forall j | 0 <= j < |content + payload| ensures after[lo..at + |payload|][j] == (content + payload)[j] {
      if j < |content| { assert before[lo..at][j] == content[j]; }
    }
  }

  lemma {:induction false} HoldsOther(before: seq<byte>, after: seq<byte>, lo: int, content: seq<byte>, at: int, n: nat)
    requires Holds(before, lo, content) && |after| == |before|
    requires forall j :: 0 <= j < |after| && !(at <= j < at + n) ==> after[j] == before[j]
    requires lo + |content| <= at || at + n <= lo
    ensures Holds(after, lo, content)
  {
    assert after[lo..lo + |content|] == before[lo..lo + |content|];
  }


  // ----- All ranks -----

  ghost predicate Team(plans: seq<MigrationPlan>) {
    forall r :: 0 <= r < |plans| ==> plans[r].rank == r && plans[r].ranks == |plans|
  }

  /** `MPI_Alltoall` on the counts: what `r` receives from `s` is what `s` sends to `r`. */
  method ExchangeCounts(plans: seq<MigrationPlan>)
    requires Team(plans) && forall r :: 0 <= r < |plans| ==> |plans[r].sendCounts| == |plans|
    modifies (set p | p in plans)`receiveCounts
    ensures forall r :: 0 <= r < |plans| ==> |plans[r].receiveCounts| == |plans|
    ensures forall r, s :: 0 <= r < |plans| && 0 <= s < |plans| ==>
      plans[r].receiveCounts[s] == plans[s].sendCounts[r]
  {
    for r := 0 to |plans|
      invariant forall q :: 0 <= q < r ==> |plans[q].receiveCounts| == |plans|
      invariant forall q, s :: 0 <= q < r && 0 <= s < |plans| ==>
        plans[q].receiveCounts[s] == plans[s].sendCounts[q]
    {
      var column := [];
      for s := 0 to |plans|
        invariant |column| == s && forall q :: 0 <= q < s ==> column[q] == plans[q].sendCounts[r]
      {
        column := column + [plans[s].sendCounts[r]];
      }
      plans[r].receiveCounts := column;
    }
  }

  /** Every rank has counted, exchanged counts, placed and packed. */
  ghost predicate Ready(plans: seq<MigrationPlan>, tasks: seq<Task>, bytes: nat)
    reads plans
  {
    && Team(plans)
    && forall r :: 0 <= r < |plans| ==> Prepared(plans[r], tasks, |plans|, bytes)
  }

  ghost predicate Prepared(p: MigrationPlan, tasks: seq<Task>, ranks: nat, bytes: nat)
    reads p
  {
    && p.sendCounts == Sizes(SendBlocks(tasks, p.rank, ranks, bytes))
    && p.receiveCounts == Sizes(ReceiveBlocks(tasks, p.rank, ranks, bytes))
    && |p.sendDisplacements| == ranks && |p.receiveDisplacements| == ranks
    && (forall s {:trigger p.sendDisplacements[s]} :: 0 <= s < ranks ==>
         p.sendDisplacements[s] == Offset(p.sendCounts, s))
    && (forall s {:trigger p.receiveDisplacements[s]} :: 0 <= s < ranks ==>
         p.receiveDisplacements[s] == Offset(p.receiveCounts, s))
    && |p.receive| == Offset(p.receiveCounts, ranks)
    && p.send == Join(SendBlocks(tasks, p.rank, ranks, bytes))
  }

  /** The slices of all send buffers that are addressed to rank `r`. */
  method Addressed(plans: seq<MigrationPlan>, r: nat, ghost tasks: seq<Task>, ghost bytes: nat)
    returns (chunks: seq<seq<byte>>)
    requires Ready(plans, tasks, bytes) && r < |plans|
    ensures chunks == ReceiveBlocks(tasks, r, |plans|, bytes)
  {
    chunks := [];
    ghost var blocks := ReceiveBlocks(tasks, r, |plans|, bytes);
    for s := 0 to |plans|
      invariant chunks == blocks[..s]
    {
      assert Prepared(plans[s], tasks, |plans|, bytes);
      var chunk := SliceFor(plans[s], r, tasks, |plans|, bytes);
      assert blocks[..s + 1] == blocks[..s] + [blocks[s]];
      chunks := chunks + [chunk];
    }
  }

  method SliceFor(you: MigrationPlan, r: nat, ghost tasks: seq<Task>, ghost ranks: nat, ghost bytes: nat)
    returns (chunk: seq<byte>)
    requires Prepared(you, tasks, ranks, bytes) && r < ranks
    ensures chunk == Packed(Outgoing(tasks, you.rank, r), bytes)
  {
    JoinSlice(SendBlocks(tasks, you.rank, ranks, bytes), r, ranks);
    var from := you.sendDisplacements[r];
    chunk := you.send[from..from + you.sendCounts[r]];
  }

  function Spliced(buffer: seq<byte>, at: nat, chunk: seq<byte>): (after: seq<byte>)
    requires at + |chunk| <= |buffer|
    ensures |after| == |buffer|
    ensures forall j :: 0 <= j < |after| ==> after[j] == if at <= j < at + |chunk| then chunk[j - at] else buffer[j]
  {
    buffer[..at] + chunk + buffer[at + |chunk|..]
  }

  /** Places the chunks at the receive displacements. */
  method Lay(receive: seq<byte>, displacements: seq<int>, chunks: seq<seq<byte>>) returns (buffer: seq<byte>)
    requires |displacements| == |chunks| && |receive| == Offset(Sizes(chunks), |chunks|)
    requires forall s {:trigger displacements[s]} :: 0 <= s < |chunks| ==> displacements[s] == Offset(Sizes(chunks), s)
    ensures buffer == Join(chunks)
  {
    buffer := receive;
    for s := 0 to |chunks|
      invariant Laid(buffer, chunks, s)
    {
      var at, chunk := displacements[s], chunks[s];
      LaidStep(buffer, chunks, s);
      buffer := Spliced(buffer, at, chunk);
    }
    AllLaid(buffer, chunks);
  }

  ghost predicate Laid(buffer: seq<byte>, chunks: seq<seq<byte>>, s: nat)
    requires s <= |chunks|
  {
    && |buffer| == Offset(Sizes(chunks), |chunks|)
    && forall k {:trigger Holds(buffer, Offset(Sizes(chunks), k), chunks[k])} ::
         0 <= k < s ==> Holds(buffer, Offset(Sizes(chunks), k), chunks[k])
  }

  lemma {:induction false} LaidStep(before: seq<byte>, chunks: seq<seq<byte>>, s: nat)
    requires s < |chunks| && Laid(before, chunks, s)
    ensures var at, chunk := Offset(Sizes(chunks), s), chunks[s];
      0 <= at && at + |chunk| <= |before| && Laid(Spliced(before, at, chunk), chunks, s + 1)
  {
    var at, chunk, counts := Offset(Sizes(chunks), s), chunks[s], Sizes(chunks);
    OffsetApart(counts, s, |chunks|);
    var after := Spliced(before, at, chunk);
    assert after[at..at + |chunk|] == chunk;
    forall k {:trigger Holds(after, Offset(counts, k), chunks[k])} | 0 <= k < s + 1
      ensures Holds(after, Offset(counts, k), chunks[k])
    {
      if k < s {
        OffsetApart(counts, k, s);
        HoldsOther(before, after, Offset(counts, k), chunks[k], at, |chunk|);
      }
    }
  }

  lemma {:induction false} AllLaid(buffer: seq<byte>, chunks: seq<seq<byte>>)
    requires Laid(buffer, chunks, |chunks|)
    ensures buffer == Join(chunks)
  {
    forall k | 0 <= k < |chunks| ensures Slice(chunks, buffer, k) {
      assert Holds(buffer, Offset(Sizes(chunks), k), chunks[k]);
    }
    JoinFromSlices(chunks, buffer, |chunks|);
    assert buffer[..|buffer|] == buffer;
  }

  method Deliveries(plans: seq<MigrationPlan>, ghost tasks: seq<Task>, ghost bytes: nat)
    returns (buffers: seq<seq<byte>>)
    requires Ready(plans, tasks, bytes)
    ensures |buffers| == |plans|
    ensures forall r :: 0 <= r < |plans| ==> buffers[r] == Join(ReceiveBlocks(tasks, r, |plans|, bytes))
  {
    buffers := [];
    for r := 0 to |plans|
      invariant |buffers| == r
      invariant forall q :: 0 <= q < r ==> buffers[q] == Join(ReceiveBlocks(tasks, q, |plans|, bytes))
    {
      assert Prepared(plans[r], tasks, |plans|, bytes);
      var chunks := Addressed(plans, r, tasks, bytes);
      var buffer := Lay(plans[r].receive, plans[r].receiveDisplacements, chunks);
      buffers := buffers + [buffer];
    }
  }

  /**
   `migrate` (`MPI_Alltoallv`): afterwards every rank holds, sender by sender, the payloads
   addressed to it.
   */
  method Migrate(plans: seq<MigrationPlan>, ghost tasks: seq<Task>, ghost bytes: nat)
    requires Ready(plans, tasks, bytes)
    modifies (set p | p in plans)`receive
    ensures forall r :: 0 <= r < |plans| ==> plans[r].receive == Join(ReceiveBlocks(tasks, r, |plans|, bytes))
  {
    var buffers := Deliveries(plans, tasks, bytes);
    Store(plans, buffers);
  }

  /** Every rank keeps its own buffer. */
  method Store(plans: seq<MigrationPlan>, buffers: seq<seq<byte>>)
    requires Team(plans) && |buffers| == |plans|
    modifies (set p | p in plans)`receive
    ensures forall r :: 0 <= r < |plans| ==> plans[r].receive == buffers[r]
  {
    for r := 0 to |plans|
      invariant forall q :: 0 <= q < r ==> plans[q].receive == buffers[q]
    {
      plans[r].receive := buffers[r];
    }
  }
}
