/**
 What the migrated bytes say: every payload byte names its task, so a receive buffer tells which
 tasks arrived.
 */
module MigrationPayloads {
  import opened TaskBalance
  import opened Migration
  import opened MigrationSafety

  /** Payloads tell tasks apart up to 251, and no payload byte is zero. */
  lemma {:induction false} PayloadNamesTask(t: Task, u: Task, bytes: nat)
    requires bytes > 0
    ensures Payload(t, bytes) == Payload(u, bytes) <==> t.id % 251 == u.id % 251
    ensures forall i :: 0 <= i < bytes ==> Payload(t, bytes)[i] as int == 1 + t.id % 251
    ensures forall i :: 0 <= i < bytes ==> Payload(t, bytes)[i] != 0
  {
    assert Payload(t, bytes)[0] == Marker(t) && Payload(u, bytes)[0] == Marker(u);
  }

  /** Byte `j` of the `k`-th packed payload. */
  lemma {:induction false} PackedByte(ts: seq<Task>, bytes: nat, k: nat, j: nat)
    requires k < |ts| && j < bytes
    ensures 0 <= k * bytes + j < |Packed(ts, bytes)|
    ensures Packed(ts, bytes)[k * bytes + j] as int == 1 + ts[k].id % 251
  {
    var n := |ts| - 1;
    var head := ts[..n];
    PackedSize(ts, bytes);
    PackedSize(head, bytes);
    PayloadNamesTask(ts[n], ts[n], bytes);
    Within(n, bytes, k, j);
    if k < n {
      PackedByte(head, bytes, k, j);
      assert Packed(ts, bytes)[k * bytes + j] == Packed(head, bytes)[k * bytes + j];
    } else {
      assert Packed(ts, bytes)[k * bytes + j] == Payload(ts[n], bytes)[j];
    }
  }

  lemma {:induction false} Within(n: nat, bytes: nat, k: nat, j: nat)
    requires k <= n && j < bytes
    ensures 0 <= k * bytes && (n + 1) * bytes == n * bytes + bytes
    ensures if k < n then k * bytes + j < n * bytes else k * bytes == n * bytes
  {
    OneMore(n, bytes);
    if k < n { NextMultiple(k, n, bytes); }
  }

  /** `n` bytes from `from` on all hold `value`. */
  ghost predicate Says(buffer: seq<byte>, from: int, n: nat, value: int) {
    0 <= from && from + n <= |buffer| && forall i :: from <= i < from + n ==> buffer[i] as int == value
  }

  /** The buffer holds, payload by payload, one more than the task number modulo 251. */
  ghost predicate Spells(buffer: seq<byte>, ts: seq<Task>, bytes: nat) {
    && |buffer| == |ts| * bytes
    && forall k :: 0 <= k < |ts| ==> Says(buffer, k * bytes, bytes, 1 + ts[k].id % 251)
  }

  lemma {:induction false} PackedSpells(ts: seq<Task>, bytes: nat)
    ensures Spells(Packed(ts, bytes), ts, bytes)
  {
    PackedSize(ts, bytes);
    forall k | 0 <= k < |ts| ensures Says(Packed(ts, bytes), k * bytes, bytes, 1 + ts[k].id % 251) {
      SaidAt(ts, bytes, k, k * bytes);
    }
  }

  lemma {:induction false} SaidAt(ts: seq<Task>, bytes: nat, k: nat, from: int)
    requires k < |ts| && from == k * bytes
    ensures Says(Packed(ts, bytes), from, bytes, 1 + ts[k].id % 251)
  {
    PackedSize(ts, bytes);
    PayloadFits(k, |ts|, bytes);
    forall i | from <= i < from + bytes ensures Packed(ts, bytes)[i] as int == 1 + ts[k].id % 251 {
      PackedByte(ts, bytes, k, i - from);
    }
  }

  lemma {:induction false} PayloadFits(k: nat, n: nat, bytes: nat)
    requires k < n
    ensures 0 <= k * bytes && k * bytes + bytes <= n * bytes
  {
    NextMultiple(k, n, bytes);
  }

  /** With at most 31 ranks, equal buffers come from the same tasks in the same order. */
  lemma {:induction false} BufferNamesTasks(tasks: seq<Task>, ranks: nat, bytes: nat, ts: seq<Task>, us: seq<Task>)
    requires 0 < ranks <= 31 && IsPlan(tasks, ranks) && bytes > 0
    requires (forall t :: t in ts ==> t in tasks) && (forall u :: u in us ==> u in tasks)
    requires Packed(ts, bytes) == Packed(us, bytes)
    ensures ts == us
  {
    SameNumbers(ts, us, bytes);
    forall k | 0 <= k < |ts| ensures ts[k] == us[k] { SameTask(tasks, ranks, ts[k], us[k]); }
  }

  /** Equal buffers hold as many tasks, with the same numbers modulo 251. */
  lemma {:induction false} SameNumbers(ts: seq<Task>, us: seq<Task>, bytes: nat)
    requires bytes > 0 && Packed(ts, bytes) == Packed(us, bytes)
    ensures |ts| == |us| && forall k :: 0 <= k < |ts| ==> ts[k].id % 251 == us[k].id % 251
  {
    PackedSize(ts, bytes);
    PackedSize(us, bytes);
    SameCount(|ts|, |us|, bytes);
    forall k | 0 <= k < |ts| ensures ts[k].id % 251 == us[k].id % 251 {
      PackedByte(ts, bytes, k, 0);
      PackedByte(us, bytes, k, 0);
    }
  }

  lemma {:induction false} SameTask(tasks: seq<Task>, ranks: nat, t: Task, u: Task)
    requires 0 < ranks <= 31 && IsPlan(tasks, ranks) && t in tasks && u in tasks && t.id % 251 == u.id % 251
    ensures t == u
  {
    PlannedTask(tasks, ranks, t);
    PlannedTask(tasks, ranks, u);
    SmallNumbers(t.id, u.id);
  }

  lemma {:induction false} SmallNumbers(x: nat, y: nat)
    requires x < 248 && y < 248 && x % 251 == y % 251
    ensures x == y
  {
  }

  lemma {:induction false} SameCount(a: nat, b: nat, bytes: nat)
    requires bytes > 0 && a * bytes == b * bytes
    ensures a == b
  {
    if a < b { NextMultiple(a, b, bytes); }
    if b < a { NextMultiple(b, a, bytes); }
  }

  lemma {:induction false} PlannedTask(tasks: seq<Task>, ranks: nat, t: Task)
    requires 0 < ranks <= 31 && IsPlan(tasks, ranks) && t in tasks
    ensures t.id < 248 && t.id < |tasks| && tasks[t.id] == t
  {
    var i :| 0 <= i < |tasks| && tasks[i] == t;
  }

  /** The whole run, down to the bytes every rank ends with. */
  method RunAndRead(ranks: nat, values: nat)
    returns (tasks: seq<Task>, plans: seq<MigrationPlan>, outcome: Outcome, checksumError: int)
    requires ranks >= 2 && 1 <= values <= 1_000_000
    ensures IsPlan(tasks, ranks) && |plans| == ranks && outcome == Done && checksumError == 0
    ensures forall r :: 0 <= r < ranks ==>
      Spells(plans[r].receive, Incoming(tasks, r, ranks), values * 8)
  {
    tasks, plans, outcome, checksumError := RunMigration(ranks, values);
    forall r | 0 <= r < ranks ensures Spells(plans[r].receive, Incoming(tasks, r, ranks), values * 8) {
      PackedSpells(Incoming(tasks, r, ranks), values * 8);
    }
  }
}
