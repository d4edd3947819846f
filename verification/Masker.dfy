/**
 The comment and literal masker `_cpp_code_only` of `scripts/run_m3_gate.py`: a jump-ahead scanner,
 and the character-by-character automaton it refines.
 */
module Masker {
  import opened Automaton

  // ----- Characters and openers -----

  /** The characters Python's `\s` matches in a `str` pattern. */
  predicate IsSpace(c: char) {
    || '\U{9}' <= c <= '\U{D}' || '\U{1C}' <= c <= '\U{20}'
    || c in {'\U{85}', '\U{A0}', '\U{1680}', '\U{2028}', '\U{2029}', '\U{202F}', '\U{205F}', '\U{3000}'}
    || '\U{2000}' <= c <= '\U{200A}'
  }

  /** A raw-string delimiter character: the class `[^\s()\\]`. */
  predicate IsDelimiterChar(c: char) {
    !IsSpace(c) && c != '(' && c != ')' && c != '\\'
  }

  predicate IsQuote(c: char) { c == '"' || c == '\'' }

  predicate MatchesAt(s: string, i: nat, p: string) {
    i + |p| <= |s| && s[i..i + |p|] == p
  }

  /** Length of the longest run of delimiter characters from `i`. */
  function DelimiterRun(s: string, i: nat): (n: nat)
    requires i <= |s|
    ensures i + n <= |s|
    decreases |s| - i
  {
    if i < |s| && IsDelimiterChar(s[i]) then 1 + DelimiterRun(s, i + 1) else 0
  }

  /** Length of the encoding prefix `u8`, `u`, `U`, `L` or nothing, when `R"` follows it. */
  function RawPrefix(s: string, i: nat): int {
    if MatchesAt(s, i, "u8R\"") then 2
    else if MatchesAt(s, i, "uR\"") || MatchesAt(s, i, "UR\"") || MatchesAt(s, i, "LR\"") then 1
    else if MatchesAt(s, i, "R\"") then 0
    else -1
  }

  datatype RawStart = NoRaw | Raw(body: nat, terminator: string)

  const MAX_DELIMITER := 16

  /**
   The regular expression `(?:u8|u|U|L)?R"([^\s()\\]{0,16})\(` at `i`: where the raw body begins and
   what ends it. The delimiter class excludes the parenthesis, so the run is the only candidate.
   */
  function MatchRaw(s: string, i: nat): (r: RawStart)
    ensures r.Raw? ==> i + 3 <= r.body <= |s| && |r.terminator| >= 2
  {
    var p := RawPrefix(s, i);
    if p < 0 then NoRaw
    else
      var from := i + p + 2;
      var n := DelimiterRun(s, from);
      if n <= MAX_DELIMITER && from + n < |s| && s[from + n] == '('
      then Raw(from + n + 1, ")" + s[from..from + n] + "\"")
      else NoRaw
  }

  // ----- The automaton -----

  datatype Mode =
    | Code
    | Line
    | BlockOpen
    | Block(star: bool)
    | RawBody(start: nat, terminator: string)
    | Quoted(quote: char, escaped: bool)

  /** Whether `s[..i+1]` closes a raw literal whose body begins at `start`. */
  predicate ClosesRaw(s: string, i: nat, start: nat, terminator: string)
    requires i < |s|
  {
    start + |terminator| <= i + 1 && s[i + 1 - |terminator|..i + 1] == terminator
  }

  predicate Opens(s: string, i: nat)
    requires i < |s|
  {
    MatchesAt(s, i, "//") || MatchesAt(s, i, "/*") || MatchRaw(s, i).Raw? || IsQuote(s[i])
  }

  /** The mode after reading character `i`. Only openers look ahead; every other mode remembers. */
  function Next(s: string, i: nat, mode: Mode): Mode
    requires i < |s|
  {
    match mode
    case Code =>
      if MatchesAt(s, i, "//") then Line
      else if MatchesAt(s, i, "/*") then BlockOpen
      else
        var raw := MatchRaw(s, i);
        if raw.Raw? then RawBody(raw.body, raw.terminator)
        else if IsQuote(s[i]) then Quoted(s[i], false)
        else Code
    case Line => if s[i] == '\n' then Code else Line
    case BlockOpen => Block(false)
    case Block(star) => if star && s[i] == '/' then Code else Block(s[i] == '*')
    case RawBody(start, terminator) => if ClosesRaw(s, i, start, terminator) then Code else mode
    case Quoted(quote, escaped) =>
      if escaped then Quoted(quote, false)
      else if s[i] == '\\' then Quoted(quote, true)
      else if s[i] == quote then Code
      else mode
  }

  predicate Masks(s: string, i: nat, mode: Mode)
    requires i < |s|
  {
    mode != Code || Opens(s, i)
  }

  /** The transition and masking functions of the automaton over a fixed source. */
  function Step(s: string): (nat, Mode) -> Mode {
    (i: nat, mode: Mode) => if i < |s| then Next(s, i, mode) else mode
  }

  function Hides(s: string): (nat, Mode) -> bool {
    (i: nat, mode: Mode) => i < |s| && Masks(s, i, mode)
  }

  function Masked(s: string): string { Run(Step(s), Hides(s), s, 0, Code) }

  // ----- Stretches that are masked throughout -----

  lemma {:induction false} LineStretch(s: string, i: nat, e: nat)
    requires i <= e <= |s| && forall k :: i <= k < e ==> s[k] != '\n'
    ensures AllMasked(Step(s), Hides(s), i, e, Line) && ModeAt(Step(s), i, e, Line) == Line
    decreases e - i
  {
    if i < e { LineStretch(s, i + 1, e); }
  }

  /** Inside a block comment, up to the first `*` `/` pair that lies wholly in the body. */
  lemma {:induction false} BlockStretch(s: string, from: nat, i: nat, e: nat)
    requires from <= i <= e <= |s|
    requires forall k :: from <= k && k + 1 < e ==> !(s[k] == '*' && s[k + 1] == '/')
    ensures var star := i > from && s[i - 1] == '*';
      AllMasked(Step(s), Hides(s), i, e, Block(star)) &&
        ModeAt(Step(s), i, e, Block(star)) == Block(e > from && s[e - 1] == '*')
    decreases e - i
  {
    if i < e {
      BlockStretch(s, from, i + 1, e);
      var star := i > from && s[i - 1] == '*';
      if star { assert !(s[i - 1] == '*' && s[i - 1 + 1] == '/'); }
    }
  }

  lemma {:induction false} RawStretch(s: string, i: nat, e: nat, start: nat, terminator: string)
    requires i <= e <= |s|
    requires forall k :: i <= k < e ==> !ClosesRaw(s, k, start, terminator)
    ensures AllMasked(Step(s), Hides(s), i, e, RawBody(start, terminator))
    ensures ModeAt(Step(s), i, e, RawBody(start, terminator)) == RawBody(start, terminator)
    decreases e - i
  {
    if i < e { RawStretch(s, i + 1, e, start, terminator); }
  }

  // ----- The scanner -----

  /** `source.find(pattern, from)`: the first position at or after `from`, or none. */
  method Find(s: string, pattern: string, from: nat) returns (at: int)
    requires from <= |s|
    ensures at == -1 || from <= at <= |s|
    ensures at >= 0 ==> MatchesAt(s, at, pattern)
    ensures forall k: nat :: from <= k && (at == -1 || k < at) ==> !MatchesAt(s, k, pattern)
  {
    var k := from;
    while k + |pattern| <= |s|
      invariant from <= k
      invariant forall j: nat :: from <= j < k ==> !MatchesAt(s, j, pattern)
    {
      if s[k..k + |pattern|] == pattern { return k; }
      k := k + 1;
    }
    return -1;
  }

  /** The closure `mask`: blanks a range in place and keeps newlines. */
  method Mask(code: array<char>, begin: nat, end: nat)
    requires begin <= end <= code.Length
    modifies code
    ensures forall k :: 0 <= k < code.Length ==>
      code[k] == if begin <= k < end then Blank(old(code[k])) else old(code[k])
  {
    for offset := begin to end
      invariant forall k :: 0 <= k < code.Length ==>
        code[k] == if begin <= k < offset then Blank(old(code[k])) else old(code[k])
    {
      if code[offset] != '\n' { code[offset] := ' '; }
    }
  }

  /** A literal opened at `i` ends at `e`: everything between is masked and code resumes at `e`. */
  ghost predicate Skips(s: string, i: nat, e: nat) {
    && i < e <= |s|
    && Masks(s, i, Code)
    && Run(Step(s), Hides(s), s, i, Code) == Blanked(s, i, e) + Run(Step(s), Hides(s), s, e, Code)
  }

  lemma {:induction false} SkipsTo(s: string, i: nat, e: nat)
    requires i < e <= |s| && Masks(s, i, Code)
    requires AllMasked(Step(s), Hides(s), i + 1, e, Next(s, i, Code))
    requires e == |s| || ModeAt(Step(s), i + 1, e, Next(s, i, Code)) == Code
    ensures Skips(s, i, e)
  {
    RunOfStretch(Step(s), Hides(s), s, i, e, Code);
  }

  method SkipLineComment(s: string, i: nat) returns (e: nat)
    requires i < |s| && MatchesAt(s, i, "//")
    ensures Skips(s, i, e)
  {
    var end := Find(s, "\n", i + 2);
    e := if end < 0 then |s| else end;
    assert s[i..i + 2][0] == '/' && s[i..i + 2][1] == '/';
    forall k | i + 1 <= k < e ensures s[k] != '\n' {
      if k >= i + 2 { assert !MatchesAt(s, k, "\n"); assert s[k..k + 1] == [s[k]]; }
    }
    LineStretch(s, i + 1, e);
    assert Next(s, i, Code) == Line;
    RunOfStretch(Step(s), Hides(s), s, i, e, Code);
    if e < |s| {
      assert s[e..e + 1][0] == '\n';
      NewlineLeavesLine(s, e);
    }
  }

  /** At a newline a line comment and plain code behave alike. */
  lemma {:induction false} NewlineLeavesLine(s: string, e: nat)
    requires e < |s| && s[e] == '\n'
    ensures Run(Step(s), Hides(s), s, e, Line) == Run(Step(s), Hides(s), s, e, Code)
  {
    assert !Opens(s, e) by { NotAnOpener(s, e); }
  }

  lemma {:induction false} NotAnOpener(s: string, i: nat)
    requires i < |s| && s[i] !in {'/', '"', '\'', 'u', 'U', 'L', 'R'}
    ensures !Opens(s, i)
  {
    FirstCharacter(s, i, "//");
    FirstCharacter(s, i, "/*");
    FirstCharacter(s, i, "u8R\"");
    FirstCharacter(s, i, "uR\"");
    FirstCharacter(s, i, "UR\"");
    FirstCharacter(s, i, "LR\"");
    FirstCharacter(s, i, "R\"");
  }

  lemma {:induction false} FirstCharacter(s: string, i: nat, p: string)
    requires i < |s| && p != ""
    ensures MatchesAt(s, i, p) ==> s[i] == p[0]
  {
    if MatchesAt(s, i, p) { assert s[i..i + |p|][0] == s[i]; }
  }

  method SkipBlockComment(s: string, i: nat) returns (e: nat)
    requires i < |s| && !MatchesAt(s, i, "//") && MatchesAt(s, i, "/*")
    ensures Skips(s, i, e)
  {
    var end := Find(s, "*/", i + 2);
    e := if end < 0 then |s| else end + 2;
    ghost var stop := if end < 0 then |s| else end + 1;
    forall k | i + 2 <= k && k + 1 < stop ensures !(s[k] == '*' && s[k + 1] == '/') {
      assert !MatchesAt(s, k, "*/");
      assert s[k..k + 2] == [s[k], s[k + 1]];
    }
    BlockStretch(s, i + 2, i + 2, stop);
    assert Next(s, i, Code) == BlockOpen && Next(s, i + 1, BlockOpen) == Block(false);
    assert AllMasked(Step(s), Hides(s), i + 1, stop, BlockOpen);
    if end >= 0 {
      assert s[end..end + 2][0] == '*' && s[end..end + 2][1] == '/';
      StretchesJoin(Step(s), Hides(s), i + 1, stop, e, BlockOpen);
    }
    SkipsTo(s, i, e);
  }

  method SkipRaw(s: string, i: nat) returns (e: nat)
    requires i < |s| && !MatchesAt(s, i, "//") && !MatchesAt(s, i, "/*") && MatchRaw(s, i).Raw?
    ensures Skips(s, i, e)
  {
    var raw := MatchRaw(s, i);
    var end := Find(s, raw.terminator, raw.body);
    e := if end < 0 then |s| else end + |raw.terminator|;
    assert Next(s, i, Code) == RawBody(raw.body, raw.terminator);
    RawCloses(s, i, raw.body, raw.terminator, end, e);
    SkipsTo(s, i, e);
  }

  /** Up to the end of the first terminator at or behind `body` the automaton stays in the raw literal. */
  lemma {:induction false} RawCloses(s: string, i: nat, body: nat, terminator: string, end: int, e: nat)
    requires i < body <= |s| && terminator != "" && (end == -1 || body <= end <= |s|)
    requires end >= 0 ==> MatchesAt(s, end, terminator)
    requires forall k: nat :: body <= k && (end == -1 || k < end) ==> !MatchesAt(s, k, terminator)
    requires e == if end < 0 then |s| else end + |terminator|
    ensures e <= |s| && AllMasked(Step(s), Hides(s), i + 1, e, RawBody(body, terminator))
    ensures end >= 0 ==> ModeAt(Step(s), i + 1, e, RawBody(body, terminator)) == Code
  {
    var n, mode := |terminator|, RawBody(body, terminator);
    var stop := if end < 0 then |s| else e - 1;
    forall k | i + 1 <= k < stop ensures !ClosesRaw(s, k, body, terminator) {
      if body + n <= k + 1 { assert !MatchesAt(s, k + 1 - n, terminator); }
    }
    RawStretch(s, i + 1, stop, body, terminator);
    if end >= 0 {
      assert ClosesRaw(s, stop, body, terminator);
      LastRawCharacter(s, stop, body, terminator);
      StretchesJoin(Step(s), Hides(s), i + 1, stop, e, mode);
    }
  }

  lemma {:induction false} LastRawCharacter(s: string, stop: nat, body: nat, terminator: string)
    requires stop < |s| && ClosesRaw(s, stop, body, terminator)
    ensures AllMasked(Step(s), Hides(s), stop, stop + 1, RawBody(body, terminator))
    ensures ModeAt(Step(s), stop, stop + 1, RawBody(body, terminator)) == Code
  {
    assert Next(s, stop, RawBody(body, terminator)) == Code;
  }

  lemma {:induction false} EscapeStretch(s: string, e: nat, next: nat, quote: char)
    requires e < |s| && s[e] == '\\' && next == if |s| < e + 2 then |s| else e + 2
    ensures AllMasked(Step(s), Hides(s), e, next, Quoted(quote, false))
    ensures next == e + 2 ==> ModeAt(Step(s), e, next, Quoted(quote, false)) == Quoted(quote, false)
  {
    assert Next(s, e, Quoted(quote, false)) == Quoted(quote, true);
    if e + 1 < |s| {
      assert Next(s, e + 1, Quoted(quote, true)) == Quoted(quote, false);
      assert ModeAt(Step(s), e + 1, next, Quoted(quote, true)) == ModeAt(Step(s), e + 2, next, Quoted(quote, false));
    }
  }

  /** One more character of a literal, up to and including its closing quote. */
  lemma {:induction false} PlainQuoted(s: string, from: nat, e: nat, quote: char)
    requires from <= e < |s| && s[e] != '\\'
    requires AllMasked(Step(s), Hides(s), from, e, Quoted(quote, false))
    requires ModeAt(Step(s), from, e, Quoted(quote, false)) == Quoted(quote, false)
    ensures AllMasked(Step(s), Hides(s), from, e + 1, Quoted(quote, false))
    ensures ModeAt(Step(s), from, e + 1, Quoted(quote, false)) == if s[e] == quote then Code else Quoted(quote, false)
  {
    var mode := Quoted(quote, false);
    assert Next(s, e, mode) == if s[e] == quote then Code else mode;
    assert AllMasked(Step(s), Hides(s), e, e + 1, mode);
    StretchesJoin(Step(s), Hides(s), from, e, e + 1, mode);
  }

  method SkipQuoted(s: string, i: nat) returns (e: nat)
    requires i < |s| && !MatchesAt(s, i, "//") && !MatchesAt(s, i, "/*") && MatchRaw(s, i).NoRaw? && IsQuote(s[i])
    ensures Skips(s, i, e)
  {
    assert Next(s, i, Code) == Quoted(s[i], false);
    e := FindClose(s, i + 1, s[i]);
    SkipsTo(s, i, e);
  }

  /** The inner loop: past the closing quote, or to the end. */
  method FindClose(s: string, from: nat, quote: char) returns (e: nat)
    requires from <= |s|
    ensures from <= e <= |s| && AllMasked(Step(s), Hides(s), from, e, Quoted(quote, false))
    ensures e == |s| || ModeAt(Step(s), from, e, Quoted(quote, false)) == Code
  {
    ghost var mode := Quoted(quote, false);
    e := from;
    while e < |s|
      invariant from <= e <= |s|
      invariant AllMasked(Step(s), Hides(s), from, e, mode)
      invariant e == |s| || ModeAt(Step(s), from, e, mode) == mode
    {
      if s[e] == '\\' {
        var next := if |s| < e + 2 then |s| else e + 2;
        EscapeStretch(s, e, next, quote);
        StretchesJoin(Step(s), Hides(s), from, e, next, mode);
        e := next;
        continue;
      }
      PlainQuoted(s, from, e, quote);
      e := e + 1;
      if s[e - 1] == quote { break; }
    }
  }

  /** Where scanning resumes: past the literal or comment at `i`, or at `i` when there is none. */
  method SkipFrom(s: string, i: nat) returns (e: nat)
    requires i < |s|
    ensures if Opens(s, i) then Skips(s, i, e) else e == i
  {
    if MatchesAt(s, i, "//") {
      e := SkipLineComment(s, i);
    } else if MatchesAt(s, i, "/*") {
      e := SkipBlockComment(s, i);
    } else if MatchRaw(s, i).Raw? {
      e := SkipRaw(s, i);
    } else if IsQuote(s[i]) {
      e := SkipQuoted(s, i);
    } else {
      e := i;
    }
  }

  /** `code` is done up to `i` and untouched from there on. */
  ghost predicate Scanned(source: string, code: seq<char>, i: nat) {
    && i <= |source| == |code|
    && code[..i] + Run(Step(source), Hides(source), source, i, Code) == Masked(source)
    && code[i..] == source[i..]
  }

  lemma {:induction false} ScannedSkip(source: string, before: seq<char>, after: seq<char>, i: nat, e: nat)
    requires Scanned(source, before, i) && Skips(source, i, e) && |after| == |before|
    requires forall k :: 0 <= k < |after| ==> after[k] == if i <= k < e then Blank(before[k]) else before[k]
    ensures Scanned(source, after, e)
  {
    var blank, rest := Blanked(source, i, e), Run(Step(source), Hides(source), source, e, Code);
    BlankRange(source, before, after, i, e);
    Rejoin(before[..i], blank, rest);
  }

  lemma {:induction false} Rejoin(a: string, b: string, c: string)
    ensures a + (b + c) == (a + b) + c
  {
  }

  lemma {:induction false} BlankRange(source: string, before: seq<char>, after: seq<char>, i: nat, e: nat)
    requires i <= e <= |source| == |before| == |after| && before[i..] == source[i..]
    requires forall k :: 0 <= k < |after| ==> after[k] == if i <= k < e then Blank(before[k]) else before[k]
    ensures after[..e] == before[..i] + Blanked(source, i, e)
    ensures after[e..] == source[e..]
  {
    forall k | i <= k < |source| ensures before[k] == source[k] { assert before[i..][k - i] == source[i..][k - i]; }
    forall k | 0 <= k < e ensures after[..e][k] == (before[..i] + Blanked(source, i, e))[k] {
      if k >= i { assert Blanked(source, i, e)[k - i] == Blank(source[i + (k - i)]); }
    }
    forall k | 0 <= k < |source| - e ensures after[e..][k] == source[e..][k] {
      assert after[e + k] == before[e + k] == source[e + k];
    }
  }

  lemma {:induction false} PlainRun(s: string, i: nat)
    requires i < |s| && !Opens(s, i)
    ensures Run(Step(s), Hides(s), s, i, Code) == [s[i]] + Run(Step(s), Hides(s), s, i + 1, Code)
  {
    assert Next(s, i, Code) == Code;
  }

  lemma {:induction false} ScannedPlain(source: string, code: seq<char>, i: nat)
    requires Scanned(source, code, i) && i < |source| && !Opens(source, i)
    ensures Scanned(source, code, i + 1)
  {
    PlainRun(source, i);
    ShiftOne(source, code, i, Run(Step(source), Hides(source), source, i + 1, Code), Masked(source));
  }

  lemma {:induction false} ShiftOne(source: string, code: seq<char>, i: nat, rest: string, all: string)
    requires i < |source| == |code| && code[i..] == source[i..]
    requires code[..i] + ([source[i]] + rest) == all
    ensures code[..i + 1] + rest == all && code[i + 1..] == source[i + 1..]
  {
    assert code[i] == code[i..][0] == source[i..][0] == source[i];
    assert code[..i + 1] == code[..i] + [source[i]];
    assert code[..i] + ([source[i]] + rest) == (code[..i] + [source[i]]) + rest;
    assert code[i + 1..] == code[i..][1..] && source[i + 1..] == source[i..][1..];
  }

  /** The scanner equals the automaton on every input. */
  method CppCodeOnly(source: string) returns (result: string)
    ensures result == Masked(source)
  {
    var size := |source|;
    var code := new char[size](k requires 0 <= k < size => source[k]);
    assert code[..] == source;
    assert Scanned(source, code[..], 0) by { assert code[..][..0] + Masked(source) == Masked(source); }
    var index := 0;
    while index < size
      invariant Scanned(source, code[..], index)
      decreases size - index
    {
      var end := SkipFrom(source, index);
      if end > index {
        ghost var before := code[..];
        Mask(code, index, end);
        ScannedSkip(source, before, code[..], index, end);
        index := end;
      } else {
        ScannedPlain(source, code[..], index);
        index := index + 1;
      }
    }
    result := code[..];
    assert result[..index] == result;
  }

  // ----- What masking guarantees -----

  /** The mode the automaton is in when it reads character `i`. */
  ghost function ModeBefore(s: string, i: nat): Mode
    requires i <= |s|
  {
    ModeAt(Step(s), 0, i, Code)
  }

  /** Length, newlines and code survive; everything else becomes a blank. */
  lemma {:induction false} MaskingIsPositional(s: string, k: nat)
    requires k < |s|
    ensures |Masked(s)| == |s|
    ensures Masked(s)[k] == '\n' <==> s[k] == '\n'
    ensures Masked(s)[k] != s[k] ==> Masked(s)[k] == ' ' && Masks(s, k, ModeBefore(s, k))
    ensures !Masks(s, k, ModeBefore(s, k)) ==> Masked(s)[k] == s[k]
  {
    RunAt(Step(s), Hides(s), s, 0, Code, k);
  }

  /** A character that survives as something other than a blank was read as plain code. */
  lemma {:induction false} SurvivorsAreCode(s: string, k: nat)
    requires k < |s| && Masked(s)[k] != ' ' && Masked(s)[k] != '\n'
    ensures ModeBefore(s, k) == Code && !Opens(s, k) && Masked(s)[k] == s[k]
  {
    RunAt(Step(s), Hides(s), s, 0, Code, k);
  }

  /** No quote and no comment opener is left. */
  lemma {:induction false} NothingLeftToMask(s: string, k: nat)
    requires k < |s|
    ensures !IsQuote(Masked(s)[k])
    ensures !MatchesAt(Masked(s), k, "//") && !MatchesAt(Masked(s), k, "/*")
  {
    var out := Masked(s);
    if IsQuote(out[k]) { SurvivorsAreCode(s, k); assert false; }
    if MatchesAt(out, k, "//") { NoPair(s, k, '/'); assert false; }
    if MatchesAt(out, k, "/*") { NoPair(s, k, '*'); assert false; }
  }

  lemma {:induction false} NoPair(s: string, k: nat, c: char)
    requires k < |s| && (c == '/' || c == '*')
    ensures !MatchesAt(Masked(s), k, ['/', c])
  {
    var out := Masked(s);
    if MatchesAt(out, k, ['/', c]) {
      assert out[k] == out[k..k + 2][0] == '/' && out[k + 1] == out[k..k + 2][1] == c;
      SurvivorsAreCode(s, k);
      SurvivorsAreCode(s, k + 1);
      PairOpens(s, k, c);
      assert false;
    }
  }

  lemma {:induction false} PairOpens(s: string, k: nat, c: char)
    requires k + 1 < |s| && s[k] == '/' && s[k + 1] == c && (c == '/' || c == '*')
    ensures Opens(s, k)
  {
    assert s[k..k + 2] == ['/', c];
  }

  /** Hence the output holds no opener at all. */
  lemma {:induction false} OutputNeverOpens(s: string, k: nat)
    requires k < |s|
    ensures !Opens(Masked(s), k)
  {
    var out := Masked(s);
    NothingLeftToMask(s, k);
    var p := RawPrefix(out, k);
    if p >= 0 {
      NothingLeftToMask(s, k + p + 1);
      RawPrefixHasQuote(out, k);
      assert false;
    }
  }

  lemma {:induction false} RawPrefixHasQuote(s: string, i: nat)
    requires RawPrefix(s, i) >= 0
    ensures i + RawPrefix(s, i) + 1 < |s| && s[i + RawPrefix(s, i) + 1] == '"'
  {
    var p := RawPrefix(s, i);
    assert s[i..i + p + 2][p + 1] == '"';
  }

  lemma {:induction false} StaysCode(s: string, i: nat, k: nat)
    requires i <= k <= |s| && forall j :: i <= j < k ==> !Opens(s, j)
    ensures ModeAt(Step(s), i, k, Code) == Code
    decreases k - i
  {
    if i < k {
      assert !Opens(s, i);
      StaysCode(s, i + 1, k);
    }
  }

  /** Masking is idempotent. */
  lemma {:induction false} MaskingIsIdempotent(s: string)
    ensures Masked(Masked(s)) == Masked(s)
  {
    var out := Masked(s);
    forall k | 0 <= k < |out| ensures !Opens(out, k) { OutputNeverOpens(s, k); }
    forall k | 0 <= k < |out| ensures Masked(out)[k] == out[k] {
      StaysCode(out, 0, k);
      RunAt(Step(out), Hides(out), out, 0, Code, k);
    }
  }
}
