/**
 Masking automata: read one character at a time in some mode, and either keep the character or
 blank it. Newlines are always kept.
 */
module Automaton {

  function Blank(c: char): char { if c == '\n' then '\n' else ' ' }

  /** The output from position `i` in mode `mode`, one character per input character. */
  function Run<M>(next: (nat, M) -> M, hides: (nat, M) -> bool, s: string, i: nat, mode: M): (out: string)
    requires i <= |s|
    ensures |out| == |s| - i
    decreases |s| - i
  {
    if i == |s| then ""
    else [if hides(i, mode) then Blank(s[i]) else s[i]] + Run(next, hides, s, i + 1, next(i, mode))
  }

  /** The mode reached at `e` from `mode` at `i`. */
  ghost function ModeAt<M>(next: (nat, M) -> M, i: nat, e: nat, mode: M): M
    requires i <= e
    decreases e - i
  {
    if i == e then mode else ModeAt(next, i + 1, e, next(i, mode))
  }

  /** Every character from `i` to `e` is hidden. */
  ghost predicate AllMasked<M>(next: (nat, M) -> M, hides: (nat, M) -> bool, i: nat, e: nat, mode: M)
    requires i <= e
    decreases e - i
  {
    i < e ==> hides(i, mode) && AllMasked(next, hides, i + 1, e, next(i, mode))
  }

  function Blanked(s: string, i: nat, e: nat): (b: string)
    requires i <= e <= |s|
    ensures |b| == e - i && forall k :: 0 <= k < e - i ==> b[k] == Blank(s[i + k])
  {
    seq(e - i, k requires 0 <= k < e - i => Blank(s[i + k]))
  }

  lemma {:induction false} RunAt<M>(next: (nat, M) -> M, hides: (nat, M) -> bool, s: string, i: nat, mode: M, k: nat)
    requires i <= k < |s|
    ensures Run(next, hides, s, i, mode)[k - i] == if hides(k, ModeAt(next, i, k, mode)) then Blank(s[k]) else s[k]
    decreases k - i
  {
    if i < k { RunAt(next, hides, s, i + 1, next(i, mode), k); }
  }

  /** A masked stretch comes out blank, and the rest continues from its end. */
  lemma {:induction false} RunOfStretch<M>(
      next: (nat, M) -> M, hides: (nat, M) -> bool, s: string, i: nat, e: nat, mode: M)
    requires i <= e <= |s| && AllMasked(next, hides, i, e, mode)
    ensures Run(next, hides, s, i, mode) == Blanked(s, i, e) + Run(next, hides, s, e, ModeAt(next, i, e, mode))
    decreases e - i
  {
    var rest := Run(next, hides, s, e, ModeAt(next, i, e, mode));
    if i == e {
      assert Blanked(s, i, e) + rest == rest;
    } else {
      RunOfStretch(next, hides, s, i + 1, e, next(i, mode));
      var head, tail := [Blank(s[i])], Blanked(s, i + 1, e);
      assert Blanked(s, i, e) == head + tail;
      assert head + (tail + rest) == (head + tail) + rest;
    }
  }

  lemma {:induction false} StretchesJoin<M>(
      next: (nat, M) -> M, hides: (nat, M) -> bool, i: nat, k: nat, e: nat, mode: M)
    requires i <= k <= e && AllMasked(next, hides, i, k, mode) && AllMasked(next, hides, k, e, ModeAt(next, i, k, mode))
    ensures AllMasked(next, hides, i, e, mode)
    ensures ModeAt(next, i, e, mode) == ModeAt(next, k, e, ModeAt(next, i, k, mode))
    decreases k - i
  {
    if i < k { StretchesJoin(next, hides, i + 1, k, e, next(i, mode)); }
  }
}
