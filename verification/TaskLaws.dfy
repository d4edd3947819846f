/**
 The numbers of the task balance, spelled out: weights and owners by task number, the stable order,
 the ratio, and the range of the kernel work.
 */
module TaskLaws {
  import opened Sorting
  import opened TaskBalance

  /** Task `t` weighs 16 on rank 0 and 1 elsewhere, and its number modulo 3 on top. */
  lemma {:induction false} WeightIsSpelled(ranks: nat, t: nat)
    requires ranks > 0
    ensures TaskWeight(ranks, t) == (if t % ranks == 0 then 16 else 1) + t % 3
  {
    RoundRobinIsMod(ranks, t);
  }

  /** Every task of a plan: eight for each rank, with its number, weight and baseline owner. */
  lemma {:induction false} PlanIsSpelled(tasks: seq<Task>, ranks: nat, t: nat)
    requires ranks > 0 && IsPlan(tasks, ranks) && t < |tasks|
    ensures |tasks| == 8 * ranks && tasks[t].id == t && tasks[t].baselineOwner == t % ranks
    ensures tasks[t].weight == (if t % ranks == 0 then 16 else 1) + t % 3
  {
    WeightIsSpelled(ranks, t);
    RoundRobinIsMod(ranks, t);
  }

  /** Heavier tasks come first, and equal ones in the order of their numbers. */
  lemma {:induction false} HeaviestFirst(ranks: nat, i: nat, j: nat)
    requires ranks > 0 && i < j < |Order(ranks)|
    ensures var s, t := Order(ranks)[i], Order(ranks)[j];
      TaskWeight(ranks, s) > TaskWeight(ranks, t) || (TaskWeight(ranks, s) == TaskWeight(ranks, t) && s < t)
  {
    OrderIsIncreasing(ranks);
    assert HeavierFirst(ranks)(Order(ranks)[i], Order(ranks)[j]);
  }

  lemma {:induction false} OrderIsIncreasing(ranks: nat)
    requires ranks > 0
    ensures Increasing(HeavierFirst(ranks), Order(ranks))
  {
    SortUniqueSorts(HeavierFirst(ranks), Indices(TASKS_PER_RANK * ranks));
  }

  /** The ratio times the average load is the largest load. */
  lemma {:induction false} RatioIsLargestOverAverage(loads: seq<int>)
    requires loads != [] && Sum(loads) > 0
    ensures ImbalanceRatio(loads) * (Sum(loads) as real / |loads| as real) == Largest(loads) as real
  {
    var average := Sum(loads) as real / |loads| as real;
    PositiveQuotient(Sum(loads) as real, |loads| as real);
    Undo(Largest(loads) as real, average);
  }

  lemma {:induction false} PositiveQuotient(x: real, y: real)
    requires x > 0.0 && y > 0.0
    ensures x / y > 0.0
  {
  }

  lemma {:induction false} Undo(x: real, y: real)
    requires y > 0.0
    ensures (x / y) * y == x
  {
  }

  /** The kernel work is the product, exactly when that is a non-negative 32-bit integer. */
  lemma {:induction false} KernelWorkIsExact(weight: int, innerIterations: int, amount: int)
    requires innerIterations > 0
    ensures CheckedKernelWork(weight, innerIterations) == Work(amount) <==>
      weight >= 0 && amount == weight * innerIterations && amount <= 2147483647
  {
    if weight >= 0 { ProductFits(weight, innerIterations, INT_MAX); }
  }

  lemma {:induction false} ProductFits(w: int, n: int, limit: int)
    requires n > 0 && w >= 0
    ensures w <= limit / n <==> w * n <= limit
  {
    var q := limit / n;
    Remainder(n, limit);
    if w <= q {
      if w < q { NextMultiple(w, q, n); }
    } else {
      NextMultiple(q, w, n);
    }
  }
}
