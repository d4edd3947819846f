/** Why the runs of a block are ordered A, B, B, A: a geometric drift leaves its speedup unchanged. */
module Drift {
  import opened Numbers
  import opened AbbaReport
  import opened AbbaVerifier

  /** A block whose runs each slow down by the factor `c` from one to the next. */
  function Drifted(block: seq<Number>, c: real): seq<Number>
    requires |block| == 4 && PositiveBlock(block)
  {
    Scaled(block, c, c * c)
  }

  /** The second run slower by `p`, the third by `q`, the last by both. */
  function Scaled(block: seq<Number>, p: real, q: real): seq<Number>
    requires |block| == 4 && PositiveBlock(block)
  {
    [block[0], Finite(block[1].value * p), Finite(block[2].value * q), Finite(block[3].value * (p * q))]
  }

  /** A geometric drift over the four runs leaves the block's speedup unchanged. */
  lemma {:induction false} DriftCancels(block: seq<Number>, c: real)
    requires |block| == 4 && PositiveBlock(block) && c > 0.0
    ensures PositiveBlock(Drifted(block, c)) && Ratio(Drifted(block, c)) == Ratio(block)
  {
    var d := c * c;
    IsPositiveProduct(c, c, d);
    ScaleCancels(block, c, d);
  }

  lemma {:induction false} IsPositiveProduct(x: real, y: real, d: real)
    requires x > 0.0 && y > 0.0 && d == x * y
    ensures d > 0.0
  {
    ProductPositive(x, y);
  }

  lemma {:induction false} ScaleCancels(block: seq<Number>, p: real, q: real)
    requires |block| == 4 && PositiveBlock(block) && p > 0.0 && q > 0.0
    ensures PositiveBlock(Scaled(block, p, q)) && Ratio(Scaled(block, p, q)) == Ratio(block)
  {
    ScaledQuotient(block[0].value, block[1].value, block[2].value, block[3].value, p, q, p * q);
  }

  lemma {:induction false} ScaledQuotient(a1: real, b1: real, b2: real, a2: real, p: real, q: real, k: real)
    requires a1 > 0.0 && b1 > 0.0 && b2 > 0.0 && a2 > 0.0 && p > 0.0 && q > 0.0 && k == p * q
    ensures b1 * p > 0.0 && b2 * q > 0.0 && a2 * k > 0.0
    ensures Quotient(a1, b1 * p, b2 * q, a2 * k) == Quotient(a1, b1, b2, a2)
  {
    var y, z := b1 * p, b2 * q;
    ProductPositive(p, q);
    ProductPositive(b1, p);
    ProductPositive(b2, q);
    ProductPositive(a2, k);
    ProductPositive(b1, b2);
    Regroup(a1, a2, k);
    Denominator(b1, p, b2, q);
    Cancel(a1 * a2, b1 * b2, k, a1 * (a2 * k), y * z);
  }

  lemma {:induction false} Regroup(x: real, y: real, z: real)
    ensures x * (y * z) == (x * y) * z
  {
  }

  lemma {:induction false} Denominator(b1: real, p: real, b2: real, q: real)
    ensures (b1 * p) * (b2 * q) == (b1 * b2) * (p * q)
  {
    var z := b2 * q;
    Regroup(b1, p, z);
    Regroup(p, b2, q);
    Swapped(b2, p, q);
    Regroup(b1, b2, p * q);
  }

  lemma {:induction false} Swapped(b: real, p: real, q: real)
    ensures (p * b) * q == b * (p * q)
  {
  }

  lemma {:induction false} Cancel(x: real, y: real, k: real, num: real, den: real)
    requires y > 0.0 && k > 0.0 && num == x * k && den == y * k
    ensures den > 0.0 && num / den == x / y
  {
    ProductPositive(y, k);
    var q := x / y;
    assert q * y == x;
    Regroup(q, y, k);
    SolveFor(q, num, den);
  }

  lemma {:induction false} SolveFor(q: real, num: real, den: real)
    requires den > 0.0 && q * den == num
    ensures num / den == q
  {
  }

  /** Hence the verdict's speedups are the same whatever drift each block suffered. */
  lemma {:induction false} SpeedupIgnoresDrift(root: real -> real, blocks: seq<seq<Number>>, drift: seq<real>)
    requires WellFormed(blocks) && |drift| == |blocks| && forall i :: 0 <= i < |drift| ==> drift[i] > 0.0
    ensures WellFormed(DriftedBlocks(blocks, drift))
    ensures Speedups(root, DriftedBlocks(blocks, drift)) == Speedups(root, blocks)
  {
    var drifted := DriftedBlocks(blocks, drift);
    forall i | 0 <= i < |blocks|
      ensures |drifted[i]| == 4 && PositiveBlock(drifted[i]) && Ratio(drifted[i]) == Ratio(blocks[i])
    {
      DriftCancels(blocks[i], drift[i]);
    }
  }

  ghost function DriftedBlocks(blocks: seq<seq<Number>>, drift: seq<real>): seq<seq<Number>>
    requires WellFormed(blocks) && |drift| == |blocks|
  {
    seq(|blocks|, i requires 0 <= i < |blocks| => Drifted(blocks[i], drift[i]))
  }
}
