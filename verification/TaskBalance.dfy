/**
 The cost-aware task balance of `benchmarks/adc757/heterogeneous_numerics.cpp`: task weights, the
 round-robin baseline owner, and the greedy candidate owner.
 */
module TaskBalance {
  import opened Sorting
  import opened Greedy

  datatype Route = Baseline | Candidate

  datatype Task = Task(id: nat, weight: int, baselineOwner: int, candidateOwner: int) {
    function Owner(route: Route): int {
      if route == Baseline then baselineOwner else candidateOwner
    }
  }

  const TASKS_PER_RANK := 8
  const INT_MAX := 0x7fff_ffff

  // ----- Weights and order -----

  /** `task % ranks`, by repeated subtraction; `RoundRobinIsMod` ties it to the operator. */
  function RoundRobin(ranks: nat, task: nat): (owner: nat)
    requires ranks > 0
    ensures owner < ranks
  {
    if task < ranks then task else RoundRobin(ranks, task - ranks)
  }

  lemma {:induction false} RoundRobinIsMod(ranks: nat, task: nat)
    requires ranks > 0
    ensures RoundRobin(ranks, task) == task % ranks
  {
    if task >= ranks {
      RoundRobinIsMod(ranks, task - ranks);
      SameRemainder(ranks, task - ranks, task);
    } else {
      Remainder(ranks, task);
      QuotientIsUnique(ranks, 0, task, task / ranks, task % ranks);
    }
  }

  lemma {:induction false} SameRemainder(m: int, t: int, u: int)
    requires m > 0 && u == t + m
    ensures t % m == u % m
  {
    Remainder(m, t);
    Remainder(m, u);
    OneMore(t / m, m);
    QuotientIsUnique(m, t / m + 1, t % m, u / m, u % m);
  }

  lemma {:induction false} Remainder(m: int, t: int)
    requires m > 0
    ensures 0 <= t % m < m && (t / m) * m + t % m == t
  {
  }

  lemma {:induction false} QuotientIsUnique(m: int, q: int, r: int, q': int, r': int)
    requires 0 <= r < m && 0 <= r' < m && q * m + r == q' * m + r'
    ensures q == q' && r == r'
  {
    if q < q' { NextMultiple(q, q', m); }
    if q' < q { NextMultiple(q', q, m); }
  }

  lemma {:induction false} NextMultiple(q: int, q': int, m: int)
    requires q < q' && m >= 0
    ensures q * m + m <= q' * m
    decreases q' - q
  {
    var p := q' - 1;
    OneMore(p, m);
    if q < p { NextMultiple(q, p, m); }
  }

  lemma {:induction false} OneMore(p: int, m: int)
    ensures (p + 1) * m == p * m + m
  {
  }

  function TaskWeight(ranks: nat, task: nat): (weight: int)
    requires ranks > 0
    ensures 1 <= weight <= 18
  {
    if RoundRobin(ranks, task) == 0 then 16 + task % 3 else 1 + task % 3
  }

  function Indices(n: nat): (s: seq<nat>)
    ensures |s| == n && forall i :: 0 <= i < n ==> s[i] == i
  {
    seq(n, i requires 0 <= i < n => i)
  }

  /** Heavier first; `std::stable_sort` keeps equal weights in index order. */
  function HeavierFirst(ranks: nat): (nat, nat) -> bool
    requires ranks > 0
  {
    (l: nat, r: nat) =>
      TaskWeight(ranks, l) > TaskWeight(ranks, r) || (TaskWeight(ranks, l) == TaskWeight(ranks, r) && l < r)
  }

  function Order(ranks: nat): seq<nat>
    requires ranks > 0
  {
    SortUnique(HeavierFirst(ranks), Indices(TASKS_PER_RANK * ranks))
  }

  lemma {:induction false} OrderIsPermutation(ranks: nat)
    requires ranks > 0
    ensures multiset(Order(ranks)) == multiset(Indices(TASKS_PER_RANK * ranks))
    ensures |Order(ranks)| == TASKS_PER_RANK * ranks && Distinct(Order(ranks))
    ensures forall i :: 0 <= i < |Order(ranks)| ==> Order(ranks)[i] < TASKS_PER_RANK * ranks
  {
    var less, all := HeavierFirst(ranks), Indices(TASKS_PER_RANK * ranks);
    assert StrictTotal(less);
    SortUniqueSorts(less, all);
    DistinctMultiset(Order(ranks), all);
    assert |Order(ranks)| == |multiset(Order(ranks))| && |all| == |multiset(all)|;
    forall i | 0 <= i < |Order(ranks)| ensures Order(ranks)[i] < TASKS_PER_RANK * ranks {
      assert Order(ranks)[i] in Elements(Order(ranks));
      assert Order(ranks)[i] in all;
    }
  }

  function OrderWeights(ranks: nat, order: seq<nat>): (w: seq<real>)
    requires ranks > 0
    ensures |w| == |order| && forall i :: 0 <= i < |w| ==> w[i] == TaskWeight(ranks, order[i]) as real
  {
    seq(|order|, i requires 0 <= i < |order| => TaskWeight(ranks, order[i]) as real)
  }

  function CandidateRun(ranks: nat): seq<nat>
    requires ranks > 0
  {
    GreedyRun(OrderWeights(ranks, Order(ranks)), ranks)
  }

  // ----- The plan -----

  /** The tasks `make_tasks` returns: fixed weights and baseline, and the greedy candidate owners. */
  ghost predicate IsPlan(tasks: seq<Task>, ranks: nat)
    requires ranks > 0
  {
    && |tasks| == TASKS_PER_RANK * ranks
    && (forall t :: 0 <= t < |tasks| ==>
          tasks[t].id == t && tasks[t].weight == TaskWeight(ranks, t) && tasks[t].baselineOwner == RoundRobin(ranks, t))
    && |Order(ranks)| == |tasks| && |CandidateRun(ranks)| == |tasks|
    && (forall i :: 0 <= i < |tasks| ==>
          && Order(ranks)[i] < |tasks|
          && tasks[Order(ranks)[i]].candidateOwner == CandidateRun(ranks)[i])
  }

  /** First position of a smallest load, as `std::min_element` returns it. */
  method MinElement(loads: array<int>) returns (k: nat)
    requires loads.Length > 0
    ensures k < loads.Length
    ensures forall l :: 0 <= l < loads.Length ==> loads[k] <= loads[l]
    ensures forall l :: 0 <= l < k ==> loads[k] < loads[l]
  {
    k := 0;
    for i := 1 to loads.Length
      invariant k < i
      invariant forall l :: 0 <= l < i ==> loads[k] <= loads[l]
      invariant forall l :: 0 <= l < k ==> loads[k] < loads[l]
    {
      if loads[i] < loads[k] { k := i; }
    }
  }

  method MakeTasks(ranks: nat) returns (result: seq<Task>)
    requires ranks > 0
    ensures IsPlan(result, ranks)
  {
    var tasks := BaselineTasks(ranks);
    var order := Order(ranks);
    OrderIsPermutation(ranks);
    ghost var w := OrderWeights(ranks, order);
    var a := AssignOwners(tasks, order, ranks, w);
    assert a == CandidateRun(ranks) by {
      GreedyIsDeterministic(w, a, CandidateRun(ranks), ranks, |w|);
      assert a == a[..|w|] && CandidateRun(ranks)[..|w|] == CandidateRun(ranks);
    }
    result := tasks[..];
  }

  /** Ids, weights and round-robin owners, before any candidate owner is chosen. */
  method BaselineTasks(ranks: nat) returns (tasks: array<Task>)
    requires ranks > 0
    ensures fresh(tasks) && tasks.Length == TASKS_PER_RANK * ranks
    ensures forall t :: 0 <= t < tasks.Length ==> tasks[t] == Task(t, TaskWeight(ranks, t), RoundRobin(ranks, t), -1)
  {
    var taskCount := TASKS_PER_RANK * ranks;
    tasks := new Task[taskCount](_ => Task(0, 0, 0, -1));
    for t := 0 to taskCount
      invariant forall u :: 0 <= u < t ==> tasks[u] == Task(u, TaskWeight(ranks, u), RoundRobin(ranks, u), -1)
    {
      var task := BaselineTask(ranks, t);
      tasks[t] := task;
    }
  }

  method BaselineTask(ranks: nat, t: nat) returns (task: Task)
    requires ranks > 0
    ensures task == Task(t, TaskWeight(ranks, t), RoundRobin(ranks, t), -1)
  {
    var baselineOwner := t % ranks;
    var weight := if baselineOwner == 0 then 16 + t % 3 else 1 + t % 3;
    RoundRobinIsMod(ranks, t);
    task := Task(t, weight, baselineOwner, -1);
  }

  /** The greedy loop: each task in order is owned by the least-loaded rank. */
  method AssignOwners(tasks: array<Task>, order: seq<nat>, ranks: nat, ghost w: seq<real>) returns (ghost a: seq<nat>)
    requires ranks > 0 && |order| == |w| && Distinct(order)
    requires forall i :: 0 <= i < |order| ==> order[i] < tasks.Length && tasks[order[i]].weight as real == w[i]
    modifies tasks
    ensures IsGreedy(w, a, ranks)
    ensures forall t :: 0 <= t < tasks.Length ==>
      tasks[t] == old(tasks[t]).(candidateOwner := tasks[t].candidateOwner)
    ensures forall i :: 0 <= i < |order| ==> tasks[order[i]].candidateOwner == a[i]
  {
    var loads := new int[ranks](_ => 0);
    a := [];
    for i := 0 to |order|
      invariant |a| == i && Running(w, a, ranks, loads[..])
      invariant forall t :: 0 <= t < tasks.Length ==>
        tasks[t] == old(tasks[t]).(candidateOwner := tasks[t].candidateOwner)
      invariant forall j :: 0 <= j < i ==> tasks[order[j]].candidateOwner == a[j]
    {
      var owner := MinElement(loads);
      RunningStep(w, a, ranks, loads[..], owner, tasks[order[i]].weight);
      tasks[order[i]] := tasks[order[i]].(candidateOwner := owner);
      loads[owner] := loads[owner] + tasks[order[i]].weight;
      a := a + [owner];
    }
    assert w[..|w|] == w;
  }

  /** `loads` are the integer bin loads of a greedy run over the first `|a|` jobs. */
  ghost predicate Running(w: seq<real>, a: seq<nat>, m: nat, loads: seq<int>) {
    && |a| <= |w| && IsGreedy(w[..|a|], a, m) && |loads| == m
    && forall k :: 0 <= k < m ==> loads[k] as real == Load(w, a, |a|, k)
  }

  lemma {:induction false} RunningStep(w: seq<real>, a: seq<nat>, m: nat, loads: seq<int>, owner: nat, weight: int)
    requires Running(w, a, m, loads) && |a| < |w| && weight as real == w[|a|]
    requires owner < m && (forall k :: 0 <= k < m ==> loads[owner] <= loads[k])
    requires forall k :: 0 <= k < owner ==> loads[owner] < loads[k]
    ensures Running(w, a + [owner], m, loads[owner := loads[owner] + weight])
  {
    var i := |a|;
    assert LeastLoaded(w, a, i, m, owner) by {
      assert forall k :: 0 <= k < m ==> Load(w, a, i, k) == loads[k] as real;
    }
    GreedyExtends(w, a, m, owner);
    LoadsStep(w, a, m, owner);
  }

  lemma {:induction false} LoadsStep(w: seq<real>, a: seq<nat>, m: nat, target: nat)
    requires |a| < |w|
    ensures forall k :: 0 <= k < m ==>
      Load(w, a + [target], |a| + 1, k) == Load(w, a, |a|, k) + if k == target then w[|a|] else 0.0
  {
    forall k | 0 <= k < m
      ensures Load(w, a + [target], |a| + 1, k) == Load(w, a, |a|, k) + if k == target then w[|a|] else 0.0
    {
      LoadOfPrefix(w, a + [target], a, |a|, k);
    }
  }

  // ----- Loads per rank -----

  function OwnerLoad(tasks: seq<Task>, route: Route, r: int): int {
    if tasks == [] then 0
    else
      var last := tasks[|tasks| - 1];
      OwnerLoad(tasks[..|tasks| - 1], route, r) + if last.Owner(route) == r then last.weight else 0
  }

  method OwnerLoads(tasks: seq<Task>, ranks: nat, route: Route) returns (result: seq<int>)
    requires forall t :: t in tasks ==> 0 <= t.Owner(route) < ranks
    ensures |result| == ranks
    ensures forall r :: 0 <= r < ranks ==> result[r] == OwnerLoad(tasks, route, r)
  {
    var loads := new int[ranks](_ => 0);
    for i := 0 to |tasks|
      invariant forall r :: 0 <= r < ranks ==> loads[r] == OwnerLoad(tasks[..i], route, r)
    {
      assert tasks[..i + 1][..i] == tasks[..i];
      assert tasks[i] in tasks;
      var owner := tasks[i].Owner(route);
      loads[owner] := loads[owner] + tasks[i].weight;
    }
    assert tasks[..|tasks|] == tasks;
    result := loads[..];
  }

  /** The weight task `t` puts on rank `r`. */
  function Share(tasks: seq<Task>, r: int): nat -> real {
    (t: nat) => if t < |tasks| && tasks[t].candidateOwner == r then tasks[t].weight as real else 0.0
  }

  lemma {:induction false} OwnerLoadIsSum(tasks: seq<Task>, r: int, n: nat)
    requires n <= |tasks|
    ensures OwnerLoad(tasks[..n], Candidate, r) as real == SumOf(Share(tasks, r), Indices(n))
  {
    if n > 0 {
      OwnerLoadIsSum(tasks, r, n - 1);
      assert tasks[..n][..n - 1] == tasks[..n - 1];
      var last: seq<nat> := [n - 1];
      assert Indices(n) == Indices(n - 1) + last;
      SumOfAppend(Share(tasks, r), Indices(n - 1), last);
    }
  }

  /** A bin's load is the sum of what each job, named by its key, puts on it. */
  lemma {:induction false} LoadIsSum(w: seq<real>, a: seq<nat>, o: seq<nat>, val: nat -> real, n: nat, k: nat)
    requires n <= |w| && n <= |a| && n <= |o|
    requires forall i :: 0 <= i < n ==> val(o[i]) == if a[i] == k then w[i] else 0.0
    ensures Load(w, a, n, k) == SumOf(val, o[..n])
  {
    if n > 0 {
      LoadIsSum(w, a, o, val, n - 1, k);
      var last: seq<nat> := [o[n - 1]];
      assert o[..n] == o[..n - 1] + last;
      SumOfAppend(val, o[..n - 1], last);
    }
  }

  /** A rank's candidate load is the load of its greedy bin. */
  lemma {:induction false} CandidateLoadIsGreedy(tasks: seq<Task>, ranks: nat, r: nat)
    requires ranks > 0 && IsPlan(tasks, ranks)
    ensures OwnerLoad(tasks, Candidate, r) as real
         == Load(OrderWeights(ranks, Order(ranks)), CandidateRun(ranks), |tasks|, r)
  {
    var n, o := |tasks|, Order(ranks);
    OwnerLoadIsSum(tasks, r, n);
    LoadIsSum(OrderWeights(ranks, o), CandidateRun(ranks), o, Share(tasks, r), n, r);
    assert tasks[..n] == tasks && o[..n] == o;
    OrderIsPermutation(ranks);
    SumOfPermutation(Share(tasks, r), o, Indices(n));
  }

  // ----- Counting tasks by residue -----

  /** How many of the first `n` task indices have baseline owner `r`. */
  ghost function Hits(m: nat, n: nat, r: nat): nat
    requires m > 0
  {
    if n == 0 then 0 else Hits(m, n - 1, r) + if RoundRobin(m, n - 1) == r then 1 else 0
  }

  lemma {:induction false} RoundRobinOfBlock(q: nat, m: nat, j: nat)
    requires j < m
    ensures q * m >= 0 && RoundRobin(m, q * m + j) == j
  {
    if q > 0 {
      RoundRobinOfBlock(q - 1, m, j);
      assert q * m == (q - 1) * m + m;
    }
  }

  lemma {:induction false} HitsPerBlock(m: nat, q: nat, j: nat, r: nat)
    requires r < m && j <= m
    ensures q * m >= 0 && Hits(m, q * m + j, r) == q + if j > r then 1 else 0
    decreases q, j
  {
    if j > 0 {
      HitsPerBlock(m, q, j - 1, r);
      RoundRobinOfBlock(q, m, j - 1);
    } else if q > 0 {
      HitsPerBlock(m, q - 1, m, r);
      assert q * m == (q - 1) * m + m;
    }
  }

  /** Each rank is the baseline owner of exactly eight tasks. */
  lemma {:induction false} EightPerRank(m: nat, r: nat)
    requires r < m
    ensures Hits(m, TASKS_PER_RANK * m, r) == TASKS_PER_RANK
  {
    HitsPerBlock(m, TASKS_PER_RANK, 0, r);
  }

  // ----- Bounds -----

  lemma {:induction false} TotalWeightSteps(ranks: nat, n: nat)
    requires ranks > 0
    ensures Total(OrderWeights(ranks, Indices(n)), n) <= 3.0 * n as real + 15.0 * Hits(ranks, n, 0) as real
  {
    if n > 0 {
      TotalWeightSteps(ranks, n - 1);
      TotalOfPrefix(OrderWeights(ranks, Indices(n)), OrderWeights(ranks, Indices(n - 1)), n - 1);
    }
  }

  lemma {:induction false} TotalOfPrefix(w: seq<real>, v: seq<real>, n: nat)
    requires n <= |w| && n <= |v| && forall i :: 0 <= i < n ==> w[i] == v[i]
    ensures Total(w, n) == Total(v, n)
  {
    if n > 0 { TotalOfPrefix(w, v, n - 1); }
  }

  function RealWeight(ranks: nat): nat -> real
    requires ranks > 0
  {
    (t: nat) => TaskWeight(ranks, t) as real
  }

  lemma {:induction false} TotalIsSum(ranks: nat, o: seq<nat>, n: nat)
    requires ranks > 0 && n <= |o|
    ensures Total(OrderWeights(ranks, o), n) == SumOf(RealWeight(ranks), o[..n])
  {
    if n > 0 {
      TotalIsSum(ranks, o, n - 1);
      assert o[..n] == o[..n - 1] + [o[n - 1]];
      SumOfAppend(RealWeight(ranks), o[..n - 1], [o[n - 1]]);
    }
  }

  /** All tasks together weigh at most 24 per rank plus 120. */
  lemma {:induction false} TotalWeightBound(ranks: nat)
    requires ranks > 0
    ensures var o := Order(ranks); Total(OrderWeights(ranks, o), |o|) <= 24.0 * ranks as real + 120.0
  {
    var o, all := Order(ranks), Indices(TASKS_PER_RANK * ranks);
    OrderIsPermutation(ranks);
    TotalIsSum(ranks, o, |o|);
    TotalIsSum(ranks, all, |all|);
    assert o[..|o|] == o && all[..|all|] == all;
    SumOfPermutation(RealWeight(ranks), o, all);
    TotalWeightSteps(ranks, TASKS_PER_RANK * ranks);
    EightPerRank(ranks, 0);
  }

  /** No candidate rank carries more than 42 + 102 / ranks, which with two ranks or more is at most 93. */
  lemma {:induction false} CandidateLoadBound(tasks: seq<Task>, ranks: nat, r: nat)
    requires ranks >= 2 && IsPlan(tasks, ranks) && r < ranks
    ensures OwnerLoad(tasks, Candidate, r) as real <= 42.0 + 102.0 / ranks as real
    ensures OwnerLoad(tasks, Candidate, r) <= 93
  {
    var w := OrderWeights(ranks, Order(ranks));
    var x := OwnerLoad(tasks, Candidate, r);
    CandidateLoadIsGreedy(tasks, ranks, r);
    TotalWeightBound(ranks);
    MakespanSteps(w, CandidateRun(ranks), ranks, |w|, 18.0, r);
    LoadArithmetic(ranks, x);
  }

  lemma {:induction false} LoadArithmetic(ranks: nat, x: int)
    requires ranks >= 2 && Times(ranks, x as real) <= 24.0 * ranks as real + 120.0 + Times(ranks - 1, 18.0)
    ensures x as real <= 42.0 + 102.0 / ranks as real
    ensures x <= 93
  {
    TimesIsProduct(ranks, x as real);
    TimesIsProduct(ranks - 1, 18.0);
    assert (ranks - 1) as real == ranks as real - 1.0;
    CancelRanks(ranks as real, x as real);
  }

  lemma {:induction false} CancelRanks(m: real, x: real)
    requires m >= 2.0 && m * x <= 24.0 * m + 120.0 + (m - 1.0) * 18.0
    ensures x <= 42.0 + 102.0 / m <= 93.0
  {
    assert m * x <= 42.0 * m + 102.0;
    assert m * x <= m * 93.0;
    ShareOut(m, x, 102.0 / m);
    assert m * (102.0 / m) <= m * 51.0;
    CancelFactor(m, 102.0 / m, 51.0);
  }

  lemma {:induction false} ShareOut(m: real, x: real, share: real)
    requires m > 0.0 && m * x <= 42.0 * m + 102.0 && share == 102.0 / m
    ensures m * share == 102.0 && x <= 42.0 + share
  {
    assert m * share == 102.0;
    assert m * (42.0 + share) == 42.0 * m + m * share;
    CancelFactor(m, x, 42.0 + share);
  }

  lemma {:induction false} BaselineLoadSteps(tasks: seq<Task>, ranks: nat, r: nat, n: nat)
    requires ranks > 0 && IsPlan(tasks, ranks) && n <= |tasks|
    ensures OwnerLoad(tasks[..n], Baseline, r) <= 18 * Hits(ranks, n, r)
    ensures r == 0 ==> OwnerLoad(tasks[..n], Baseline, r) >= 16 * Hits(ranks, n, r)
  {
    if n > 0 {
      BaselineLoadSteps(tasks, ranks, r, n - 1);
      assert tasks[..n][..n - 1] == tasks[..n - 1];
    }
  }

  /** Rank 0 carries at least 128 in the round-robin baseline, and no rank more than 144. */
  lemma {:induction false} BaselineLoadBounds(tasks: seq<Task>, ranks: nat, r: nat)
    requires ranks > 0 && IsPlan(tasks, ranks) && r < ranks
    ensures OwnerLoad(tasks, Baseline, r) <= 144
    ensures r == 0 ==> OwnerLoad(tasks, Baseline, r) >= 128
  {
    BaselineLoadSteps(tasks, ranks, r, |tasks|);
    assert tasks[..|tasks|] == tasks;
    EightPerRank(ranks, r);
  }

  lemma {:induction false} PlanOwners(tasks: seq<Task>, ranks: nat)
    requires ranks > 0 && IsPlan(tasks, ranks)
    ensures forall t :: t in tasks ==> 0 <= t.baselineOwner < ranks && 0 <= t.candidateOwner < ranks
  {
    var o := Order(ranks);
    OrderIsPermutation(ranks);
    GreedyAssigns(OrderWeights(ranks, o), CandidateRun(ranks), ranks);
    assert forall t :: 0 <= t < |tasks| ==> 0 <= tasks[t].baselineOwner < ranks;
    forall t | 0 <= t < |tasks| ensures 0 <= tasks[t].candidateOwner < ranks {
      assert t == Indices(|tasks|)[t] && t in multiset(Indices(|tasks|));
      assert t in multiset(o);
      var i :| 0 <= i < |o| && o[i] == t;
    }
  }

  // ----- Imbalance -----

  function Sum(loads: seq<int>): int {
    if loads == [] then 0 else Sum(loads[..|loads| - 1]) + loads[|loads| - 1]
  }

  function Largest(loads: seq<int>): (x: int)
    requires loads != []
    ensures x in loads && forall i :: 0 <= i < |loads| ==> loads[i] <= x
  {
    if |loads| == 1 then loads[0]
    else
      var x, last := Largest(loads[..|loads| - 1]), loads[|loads| - 1];
      assert forall i :: 0 <= i < |loads| - 1 ==> loads[i] == loads[..|loads| - 1][i];
      if last > x then last else x
  }

  /** Heaviest rank over average rank. */
  function ImbalanceRatio(loads: seq<int>): real
    requires loads != [] && Sum(loads) > 0
  {
    Largest(loads) as real / (Sum(loads) as real / |loads| as real)
  }

  function LoadsOf(tasks: seq<Task>, ranks: nat, route: Route): (loads: seq<int>)
    ensures |loads| == ranks && forall r :: 0 <= r < ranks ==> loads[r] == OwnerLoad(tasks, route, r)
  {
    seq(ranks, r requires 0 <= r < ranks => OwnerLoad(tasks, route, r))
  }

  function AllWeights(tasks: seq<Task>): int {
    if tasks == [] then 0 else AllWeights(tasks[..|tasks| - 1]) + tasks[|tasks| - 1].weight
  }

  /** Neither route gains or loses work: the rank loads add up to all the weights. */
  lemma {:induction false} LoadsSumToWeights(tasks: seq<Task>, ranks: nat, route: Route)
    requires forall t :: t in tasks ==> 0 <= t.Owner(route) < ranks
    ensures Sum(LoadsOf(tasks, ranks, route)) == AllWeights(tasks)
  {
    if tasks == [] {
      SumWithOneMore(LoadsOf(tasks, ranks, route), LoadsOf(tasks, ranks, route), 0, 0, true);
    } else {
      var n := |tasks| - 1;
      var last := tasks[n];
      assert last in tasks;
      LoadsSumToWeights(tasks[..n], ranks, route);
      var before, after := LoadsOf(tasks[..n], ranks, route), LoadsOf(tasks, ranks, route);
      SumWithOneMore(before, after, last.Owner(route), last.weight, false);
    }
  }

  lemma {:induction false} SumWithOneMore(a: seq<int>, b: seq<int>, k: nat, x: int, zero: bool)
    requires |a| == |b|
    requires forall i :: 0 <= i < |a| ==> b[i] == a[i] + if i == k then x else 0
    requires zero ==> forall i :: 0 <= i < |a| ==> a[i] == 0
    ensures Sum(b) == Sum(a) + if k < |a| then x else 0
    ensures zero ==> Sum(a) == 0
  {
    if |a| > 0 { SumWithOneMore(a[..|a| - 1], b[..|b| - 1], k, x, zero); }
  }

  lemma {:induction false} PlanWeights(tasks: seq<Task>, ranks: nat)
    requires ranks > 0 && IsPlan(tasks, ranks)
    ensures forall t :: t in tasks ==> 1 <= t.weight <= 18
  {
    assert forall i :: 0 <= i < |tasks| ==> tasks[i].weight == TaskWeight(ranks, i);
  }

  lemma {:induction false} WeightsAddUp(tasks: seq<Task>)
    requires forall t :: t in tasks ==> t.weight >= 1
    ensures AllWeights(tasks) >= |tasks|
  {
    if tasks != [] { WeightsAddUp(tasks[..|tasks| - 1]); }
  }

  /** On every rank count from two up, the greedy candidate is strictly better balanced. */
  lemma {:induction false} CandidateReducesImbalance(tasks: seq<Task>, ranks: nat)
    requires ranks >= 2 && IsPlan(tasks, ranks)
    ensures Sum(LoadsOf(tasks, ranks, Candidate)) == Sum(LoadsOf(tasks, ranks, Baseline)) > 0
    ensures Largest(LoadsOf(tasks, ranks, Candidate)) <= 93
    ensures 128 <= Largest(LoadsOf(tasks, ranks, Baseline)) <= 144
    ensures ImbalanceRatio(LoadsOf(tasks, ranks, Candidate)) < ImbalanceRatio(LoadsOf(tasks, ranks, Baseline))
  {
    var c, b := LoadsOf(tasks, ranks, Candidate), LoadsOf(tasks, ranks, Baseline);
    PlanOwners(tasks, ranks);
    LoadsSumToWeights(tasks, ranks, Candidate);
    LoadsSumToWeights(tasks, ranks, Baseline);
    PlanWeights(tasks, ranks);
    WeightsAddUp(tasks);
    assert tasks[..|tasks|] == tasks;
    forall r | 0 <= r < ranks ensures c[r] <= 93 && b[r] <= 144 && b[0] >= 128 {
      CandidateLoadBound(tasks, ranks, r);
      BaselineLoadBounds(tasks, ranks, r);
      BaselineLoadBounds(tasks, ranks, 0);
    }
    RatioArithmetic(Largest(c) as real, Largest(b) as real, Sum(b) as real, ranks as real);
  }

  lemma {:induction false} RatioArithmetic(x: real, y: real, total: real, m: real)
    requires x < y && total > 0.0 && m > 0.0
    ensures total / m > 0.0 && x / (total / m) < y / (total / m)
  {
    var q := total / m;
    assert q * m == total;
    assert q > 0.0;
    var u, v := x / q, y / q;
    assert u * q == x && v * q == y;
  }

  // ----- Kernel work -----

  datatype Work = Work(amount: int) | KernelOverflow

  const MAX_INNER_ITERATIONS := 1_000_000

  function CheckedKernelWork(weight: int, innerIterations: int): Work
    requires innerIterations > 0
  {
    if weight < 0 || weight > INT_MAX / innerIterations then KernelOverflow else Work(weight * innerIterations)
  }

  lemma {:induction false} SmallWorkFits(weight: int, innerIterations: int)
    requires 0 <= weight <= 144 && 1 <= innerIterations <= MAX_INNER_ITERATIONS
    ensures CheckedKernelWork(weight, innerIterations) == Work(weight * innerIterations)
    ensures weight * innerIterations <= 144_000_000 < INT_MAX
  {
    assert weight * innerIterations <= 144 * MAX_INNER_ITERATIONS by {
      assert weight * innerIterations <= 144 * innerIterations;
    }
    QuotientAtLeast(INT_MAX, innerIterations, weight);
  }

  lemma {:induction false} QuotientAtLeast(x: int, d: int, q: int)
    requires d > 0 && q * d <= x
    ensures q <= x / d
  {
    if x / d < q { NextMultiple(x / d, q, d); }
  }

  ghost predicate DescendingInts(s: seq<int>) {
    forall i, j :: 0 <= i < j < |s| ==> s[i] >= s[j]
  }

  function InsertDescending(x: int, s: seq<int>): seq<int> {
    if s == [] || x <= s[|s| - 1] then s + [x]
    else InsertDescending(x, s[..|s| - 1]) + [s[|s| - 1]]
  }

  /** `std::sort` with `std::greater`. */
  function SortDescending(s: seq<int>): seq<int> { SortFirst(s, |s|) }

  /** The first `n` elements, sorted. */
  function SortFirst(s: seq<int>, n: nat): seq<int>
    requires n <= |s|
  {
    if n == 0 then [] else InsertDescending(s[n - 1], SortFirst(s, n - 1))
  }

  /** How often `y` occurs. */
  ghost function CountOf(s: seq<int>, y: int): nat {
    if s == [] then 0 else CountOf(s[..|s| - 1], y) + if s[|s| - 1] == y then 1 else 0
  }

  lemma {:induction false} LastJoins(head: seq<int>, last: int, y: int)
    ensures CountOf(head + [last], y) == CountOf(head, y) + if last == y then 1 else 0
    ensures Sum(head + [last]) == Sum(head) + last
  {
    assert (head + [last])[..|head|] == head;
  }

  lemma {:induction false} CountIsMultiset(s: seq<int>, y: int)
    ensures multiset(s)[y] == CountOf(s, y)
  {
    if s != [] {
      var n := |s| - 1;
      CountIsMultiset(s[..n], y);
      assert s == s[..n] + [s[n]];
    }
  }

  /** Insertion adds one element. */
  lemma {:induction false} InsertDescendingAdds(x: int, s: seq<int>, y: int)
    ensures CountOf(InsertDescending(x, s), y) == CountOf(s, y) + if x == y then 1 else 0
    ensures Sum(InsertDescending(x, s)) == Sum(s) + x
  {
    if s == [] || x <= s[|s| - 1] {
      LastJoins(s, x, y);
    } else {
      var n := |s| - 1;
      InsertDescendingAdds(x, s[..n], y);
      LastJoins(InsertDescending(x, s[..n]), s[n], y);
    }
  }

  /** Insertion keeps the order. */
  lemma {:induction false} InsertDescendingSorts(x: int, s: seq<int>)
    requires DescendingInts(s)
    ensures DescendingInts(InsertDescending(x, s))
  {
    if s != [] && x > s[|s| - 1] {
      var n := |s| - 1;
      var head, last := s[..n], s[n];
      InsertDescendingSorts(x, head);
      var inner := InsertDescending(x, head);
      forall i | 0 <= i < |inner| ensures inner[i] >= last { InsertedFrom(x, head, inner[i]); }
    }
  }

  lemma {:induction false} InsertedFrom(x: int, s: seq<int>, y: int)
    requires y in InsertDescending(x, s)
    ensures y == x || y in s
  {
    InsertDescendingAdds(x, s, y);
    Occurs(InsertDescending(x, s), y);
    Occurs(s, y);
  }

  lemma {:induction false} Occurs(s: seq<int>, y: int)
    ensures y in s <==> CountOf(s, y) > 0
  {
    if s != [] {
      var n := |s| - 1;
      Occurs(s[..n], y);
      assert y in s <==> y in s[..n] || y == s[n];
    }
  }

  /** Sorting keeps every weight with its multiplicity, and the sum. */
  lemma {:induction false} SortDescendingPermutes(s: seq<int>)
    ensures multiset(SortDescending(s)) == multiset(s) && Sum(SortDescending(s)) == Sum(s)
  {
    assert s[..|s|] == s;
    SortFirstKeeps(s, |s|, 0);
    forall y ensures multiset(SortDescending(s))[y] == multiset(s)[y] {
      SortFirstKeeps(s, |s|, y);
      CountIsMultiset(s, y);
      CountIsMultiset(SortDescending(s), y);
    }
  }

  lemma {:induction false} SortFirstKeeps(s: seq<int>, n: nat, y: int)
    requires n <= |s|
    ensures CountOf(SortFirst(s, n), y) == CountOf(s[..n], y) && Sum(SortFirst(s, n)) == Sum(s[..n])
  {
    if n > 0 {
      var m := n - 1;
      SortFirstKeeps(s, m, y);
      InsertDescendingAdds(s[m], SortFirst(s, m), y);
      LastJoins(s[..m], s[m], y);
      assert s[..n] == s[..m] + [s[m]];
    }
  }

  lemma {:induction false} SortDescendingSorts(s: seq<int>)
    ensures DescendingInts(SortDescending(s))
  {
    SortFirstSorts(s, |s|);
  }

  lemma {:induction false} SortFirstSorts(s: seq<int>, n: nat)
    requires n <= |s|
    ensures DescendingInts(SortFirst(s, n))
  {
    if n > 0 {
      SortFirstSorts(s, n - 1);
      InsertDescendingSorts(s[n - 1], SortFirst(s, n - 1));
    }
  }

  /** The weights of a rank's candidate tasks, in task order. */
  function LocalWeights(tasks: seq<Task>, rank: int): seq<int> {
    if tasks == [] then []
    else
      var n := |tasks| - 1;
      LocalWeights(tasks[..n], rank) + if tasks[n].candidateOwner == rank then [tasks[n].weight] else []
  }

  /** The same weights, heaviest first, as the two-lane split takes them. */
  function LaneWeights(tasks: seq<Task>, rank: int): (w: seq<real>) {
    var sorted := SortDescending(LocalWeights(tasks, rank));
    seq(|sorted|, i requires 0 <= i < |sorted| => sorted[i] as real)
  }

  /** A rank's candidate work split over two lanes: the greedy run over the sorted weights, nothing lost. */
  method SplitCandidateLoad(tasks: seq<Task>, rank: int) returns (lane0: int, lane1: int)
    ensures var w := LaneWeights(tasks, rank);
      lane0 as real == Load(w, GreedyRun(w, 2), |w|, 0) && lane1 as real == Load(w, GreedyRun(w, 2), |w|, 1)
    ensures lane0 + lane1 == OwnerLoad(tasks, Candidate, rank)
    ensures (forall t :: t in tasks ==> t.weight >= 0) ==> lane0 >= 0 && lane1 >= 0
  {
    var local := CollectLocal(tasks, rank);
    var sorted := SortDescending(local);
    ghost var w := LaneWeights(tasks, rank);
    lane0, lane1 := SplitSorted(sorted, w);
    LocalWeightsSum(tasks, rank);
    SortDescendingPermutes(local);
    if forall t :: t in tasks ==> t.weight >= 0 { LanesAreNatural(tasks, rank); }
  }

  lemma {:induction false} LanesAreNatural(tasks: seq<Task>, rank: int)
    requires forall t :: t in tasks ==> t.weight >= 0
    ensures var w := LaneWeights(tasks, rank); forall k :: 0 <= k < 2 ==> Load(w, GreedyRun(w, 2), |w|, k) >= 0.0
  {
    var w := LaneWeights(tasks, rank);
    LaneWeightsDescend(tasks, rank);
    forall k | 0 <= k < 2 ensures Load(w, GreedyRun(w, 2), |w|, k) >= 0.0 { LoadGrows(w, GreedyRun(w, 2), 0, |w|, k); }
  }

  method SplitSorted(sorted: seq<int>, ghost w: seq<real>) returns (lane0: int, lane1: int)
    requires |w| == |sorted| && forall i :: 0 <= i < |w| ==> w[i] == sorted[i] as real
    ensures lane0 as real == Load(w, GreedyRun(w, 2), |w|, 0) && lane1 as real == Load(w, GreedyRun(w, 2), |w|, 1)
    ensures lane0 + lane1 == Sum(sorted)
  {
    ghost var a: seq<nat> := [];
    lane0, lane1 := 0, 0;
    for i := 0 to |sorted|
      invariant |a| == i && Lanes(w, a, lane0, lane1) && lane0 + lane1 == Sum(sorted[..i])
    {
      assert sorted[..i + 1][..i] == sorted[..i];
      LaneStep(w, a, lane0, lane1, sorted[i]);
      if lane0 <= lane1 {
        lane0, a := lane0 + sorted[i], a + [0];
      } else {
        lane1, a := lane1 + sorted[i], a + [1];
      }
    }
    assert sorted[..|sorted|] == sorted;
    LanesDone(w, a, lane0, lane1);
  }

  /** The lanes hold the two loads of a greedy run over the first `|a|` weights. */
  ghost predicate Lanes(w: seq<real>, a: seq<nat>, lane0: int, lane1: int) {
    && |a| <= |w| && IsGreedy(w[..|a|], a, 2)
    && lane0 as real == Load(w, a, |a|, 0) && lane1 as real == Load(w, a, |a|, 1)
  }

  lemma {:induction false} LaneStep(w: seq<real>, a: seq<nat>, lane0: int, lane1: int, weight: int)
    requires Lanes(w, a, lane0, lane1) && |a| < |w| && w[|a|] == weight as real
    ensures if lane0 <= lane1 then Lanes(w, a + [0], lane0 + weight, lane1)
            else Lanes(w, a + [1], lane0, lane1 + weight)
  {
    var lane: nat := if lane0 <= lane1 then 0 else 1;
    assert LeastLoaded(w, a, |a|, 2, lane);
    GreedyExtends(w, a, 2, lane);
    LoadsStep(w, a, 2, lane);
  }

  lemma {:induction false} LanesDone(w: seq<real>, a: seq<nat>, lane0: int, lane1: int)
    requires Lanes(w, a, lane0, lane1) && |a| == |w|
    ensures lane0 as real == Load(w, GreedyRun(w, 2), |w|, 0) && lane1 as real == Load(w, GreedyRun(w, 2), |w|, 1)
  {
    var g := GreedyRun(w, 2);
    assert w[..|w|] == w;
    GreedyIsDeterministic(w, a, g, 2, |w|);
    assert a[..|w|] == a && g[..|w|] == g;
  }

  method CollectLocal(tasks: seq<Task>, rank: int) returns (local: seq<int>)
    ensures local == LocalWeights(tasks, rank)
  {
    local := [];
    for i := 0 to |tasks|
      invariant local == LocalWeights(tasks[..i], rank)
    {
      assert tasks[..i + 1][..i] == tasks[..i];
      if tasks[i].candidateOwner == rank { local := local + [tasks[i].weight]; }
    }
    assert tasks[..|tasks|] == tasks;
  }

  lemma {:induction false} LocalWeightsSum(tasks: seq<Task>, rank: int)
    ensures Sum(LocalWeights(tasks, rank)) == OwnerLoad(tasks, Candidate, rank)
    ensures forall x :: x in LocalWeights(tasks, rank) ==> exists t :: t in tasks && t.weight == x
  {
    if tasks != [] {
      var n := |tasks| - 1;
      var head := LocalWeights(tasks[..n], rank);
      LocalWeightsSum(tasks[..n], rank);
      assert (head + [tasks[n].weight])[..|head|] == head && head + [] == head;
      forall x | x in LocalWeights(tasks, rank) ensures exists t :: t in tasks && t.weight == x {
        if x in head {
          var t :| t in tasks[..n] && t.weight == x;
          assert t in tasks;
        } else {
          assert tasks[n] in tasks;
        }
      }
    }
  }

  lemma {:induction false} LaneWeightsDescend(tasks: seq<Task>, rank: int)
    requires forall t :: t in tasks ==> t.weight >= 0
    ensures Descending(LaneWeights(tasks, rank)) && NonNegative(LaneWeights(tasks, rank))
  {
    var local := LocalWeights(tasks, rank);
    var sorted := SortDescending(local);
    LocalWeightsSum(tasks, rank);
    SortDescendingSorts(local);
    forall i | 0 <= i < |sorted| ensures sorted[i] >= 0 { SortedFrom(local, sorted[i]); }
  }

  lemma {:induction false} SortedFrom(s: seq<int>, y: int)
    requires y in SortDescending(s)
    ensures y in s
  {
    assert s[..|s|] == s;
    SortFirstKeeps(s, |s|, y);
    Occurs(SortDescending(s), y);
    Occurs(s, y);
  }

  /** No way of splitting a rank's tasks over two lanes beats this one by more than a sixth. */
  lemma {:induction false} LanesAreNearOptimal(tasks: seq<Task>, rank: int, other: seq<nat>, longest: real, lane: nat)
    requires (forall t :: t in tasks ==> t.weight >= 0) && lane < 2
    requires Fits(LaneWeights(tasks, rank), other, 2, longest)
    ensures var w := LaneWeights(tasks, rank); 6.0 * Load(w, GreedyRun(w, 2), |w|, lane) <= 7.0 * longest
  {
    var w := LaneWeights(tasks, rank);
    LaneWeightsDescend(tasks, rank);
    GrahamBound(w, GreedyRun(w, 2), other, 2, longest, lane);
  }

  /** No kernel launch of the campaign leaves the int range, on either route and on any rank. */
  lemma {:induction false} KernelWorkFits(tasks: seq<Task>, ranks: nat, r: nat, lane: int, innerIterations: int)
    requires ranks >= 2 && IsPlan(tasks, ranks) && r < ranks && 1 <= innerIterations <= 1_000_000
    requires 0 <= lane <= OwnerLoad(tasks, Candidate, r)
    ensures CheckedKernelWork(lane, innerIterations).Work?
    ensures CheckedKernelWork(OwnerLoad(tasks, Baseline, r), innerIterations).Work?
  {
    CandidateLoadBound(tasks, ranks, r);
    BaselineLoadBounds(tasks, ranks, r);
    PlanWeights(tasks, ranks);
    LoadIsNatural(tasks, Baseline, r);
    SmallWorkFits(lane, innerIterations);
    SmallWorkFits(OwnerLoad(tasks, Baseline, r), innerIterations);
  }

  /** The two launches of a rank on the candidate route: both fit, and together do all its work. */
  method CandidateLaunches(tasks: seq<Task>, ranks: nat, r: nat, innerIterations: int)
    returns (first: Work, second: Work)
    requires ranks >= 2 && IsPlan(tasks, ranks) && r < ranks && 1 <= innerIterations <= 1_000_000
    ensures first.Work? && second.Work? && first.amount >= 0 && second.amount >= 0
    ensures first.amount + second.amount == OwnerLoad(tasks, Candidate, r) * innerIterations
  {
    var lane0, lane1 := SplitCandidateLoad(tasks, r);
    PlanWeights(tasks, ranks);
    KernelWorkFits(tasks, ranks, r, lane0, innerIterations);
    KernelWorkFits(tasks, ranks, r, lane1, innerIterations);
    first, second := CheckedKernelWork(lane0, innerIterations), CheckedKernelWork(lane1, innerIterations);
    WorkAdds(lane0, lane1, innerIterations);
  }

  lemma {:induction false} WorkAdds(x: int, y: int, n: int)
    requires x >= 0 && y >= 0 && n > 0
    ensures x * n >= 0 && y * n >= 0 && x * n + y * n == (x + y) * n
  {
  }

  lemma {:induction false} LoadIsNatural(tasks: seq<Task>, route: Route, r: int)
    requires forall t :: t in tasks ==> t.weight >= 0
    ensures OwnerLoad(tasks, route, r) >= 0
  {
    if tasks != [] { LoadIsNatural(tasks[..|tasks| - 1], route, r); }
  }
}
