/**
 The native-variant manifest (`scripts/write_native_variant_manifest.py`) and its preservation
 across a package replacement (`scripts/preserve_native_variants.py`), over a tree of leaves. The
 digest function and the interpreter's extension suffixes are parameters.
 */
module VariantManifest {
  import opened Wrappers
  import opened Strings
  import opened Sorting

  type Bytes = seq<bv8>

  datatype Row = Row(
    dimension: int, path: string, sha: string, version: string, abi: string, hasMpi: bool, hasKokkos: bool)

  datatype Manifest = Manifest(schema: int, rows: seq<Row>)

  datatype Error =
    | MissingManifest | BadSchema | NoRows | BadRow | NotSorted | DuplicatePath | BadDimensions | WrongDimensions
    | MissingLeaf | WrongDigest | BadVersion | WrongModule | Unauthenticated | NotInstalled

  /** `sha` hashes leaf bytes; `suffixes` are the accepted endings after `_pops`. */
  datatype Env = Env(sha: Bytes -> string, suffixes: set<string>)

  const SCHEMA_VERSION := 1
  const DIMENSIONS: set<int> := {1, 2, 3}

  // ----- Rows -----

  /** Every value of the digest function is a well-formed digest. */
  ghost predicate Hashes(env: Env) { forall b :: IsDigest(env.sha(b)) }

  function Digit(dimension: int): string {
    if dimension == 1 then "1" else if dimension == 2 then "2" else "3"
  }

  function LeafPath(dimension: int, suffix: string): string {
    "dim" + Digit(dimension) + "/_pops" + suffix
  }

  /** `dimN/_pops<suffix>` for the row's own dimension. */
  predicate IsLeafPath(env: Env, dimension: int, path: string) {
    exists suffix :: suffix in env.suffixes && path == LeafPath(dimension, suffix)
  }

  predicate ValidRow(env: Env, row: Row) {
    && row.dimension in DIMENSIONS && IsLeafPath(env, row.dimension, row.path)
    && IsDigest(row.sha) && row.version != "" && row.abi != ""
  }

  lemma {:induction false} LeavesDiffer(env: Env, d: int, p: string, e: int, q: string)
    requires d in DIMENSIONS && e in DIMENSIONS && d != e && IsLeafPath(env, d, p) && IsLeafPath(env, e, q)
    ensures p != q
  {
    var s :| s in env.suffixes && p == LeafPath(d, s);
    var t :| t in env.suffixes && q == LeafPath(e, t);
    assert p[3] == Digit(d)[0] && q[3] == Digit(e)[0];
  }

  // ----- Validation -----

  function Dimensions(rows: seq<Row>): seq<int> { seq(|rows|, i requires 0 <= i < |rows| => rows[i].dimension) }

  predicate Climbing(rows: seq<Row>) {
    forall i, j :: 0 <= i < j < |rows| ==> rows[i].dimension < rows[j].dimension
  }

  predicate PathsUnique(rows: seq<Row>) {
    forall i, j :: 0 <= i < j < |rows| ==> rows[i].path != rows[j].path
  }

  function Validate(env: Env, m: Manifest): Result<seq<Row>, Error> {
    if m.schema != SCHEMA_VERSION then Err(BadSchema)
    else if m.rows == [] then Err(NoRows)
    else if exists i :: 0 <= i < |m.rows| && !ValidRow(env, m.rows[i]) then Err(BadRow)
    else if !Climbing(m.rows) then Err(NotSorted)
    else if !PathsUnique(m.rows) then Err(DuplicatePath)
    else Ok(m.rows)
  }

  /** The duplicate-path check can never fire: sorted valid rows already have distinct paths. */
  lemma {:induction false} PathsAreUnique(env: Env, rows: seq<Row>)
    requires Climbing(rows) && forall i :: 0 <= i < |rows| ==> ValidRow(env, rows[i])
    ensures PathsUnique(rows)
  {
    forall i, j | 0 <= i < j < |rows| ensures rows[i].path != rows[j].path {
      LeavesDiffer(env, rows[i].dimension, rows[i].path, rows[j].dimension, rows[j].path);
    }
  }

  /** What a valid row list looks like. */
  ghost predicate ValidRows(env: Env, rows: seq<Row>) {
    rows != [] && Climbing(rows) && forall i :: 0 <= i < |rows| ==> ValidRow(env, rows[i])
  }

  lemma {:induction false} ValidateIsExact(env: Env, m: Manifest)
    ensures Validate(env, m).Ok? <==> m.schema == SCHEMA_VERSION && ValidRows(env, m.rows)
    ensures Validate(env, m) != Err(DuplicatePath)
    ensures Validate(env, m).Ok? ==> Validate(env, m).value == m.rows
  {
    if Climbing(m.rows) && forall i :: 0 <= i < |m.rows| ==> ValidRow(env, m.rows[i]) {
      PathsAreUnique(env, m.rows);
    }
  }

  // ----- Trees -----

  /** A native root: its manifest, if present, and its regular files by relative path. */
  datatype Tree = Tree(manifest: Option<Manifest>, files: map<string, Bytes>)

  predicate Matches(env: Env, files: map<string, Bytes>, row: Row) {
    row.path in files && env.sha(files[row.path]) == row.sha
  }

  /** `load_manifest` with files and hashes verified. */
  function Load(env: Env, t: Tree): Result<seq<Row>, Error> {
    if t.manifest.None? then Err(MissingManifest)
    else
      var v := Validate(env, t.manifest.value);
      if v.Err? then v
      else if forall i :: 0 <= i < |v.value| ==> Matches(env, t.files, v.value[i]) then v
      else Err(WrongDigest)
  }

  ghost predicate Authenticated(env: Env, t: Tree) {
    && t.manifest.Some? && t.manifest.value.schema == SCHEMA_VERSION
    && ValidRows(env, t.manifest.value.rows)
    && forall i :: 0 <= i < |t.manifest.value.rows| ==> Matches(env, t.files, t.manifest.value.rows[i])
  }

  /** Loading succeeds exactly on authenticated trees. */
  lemma {:induction false} LoadIsExact(env: Env, t: Tree)
    ensures Load(env, t).Ok? <==> Authenticated(env, t)
    ensures Load(env, t).Ok? ==> Load(env, t).value == t.manifest.value.rows
  {
    if t.manifest.Some? { ValidateIsExact(env, t.manifest.value); }
  }

  // ----- Row lists as maps -----

  function OfDimension(d: int): Row -> bool { (r: Row) => r.dimension == d }

  /** The stable sort by dimension of rows whose dimensions are 1, 2 or 3. */
  function SortRows(rows: seq<Row>): seq<Row> {
    Select(OfDimension(1), rows) + Select(OfDimension(2), rows) + Select(OfDimension(3), rows)
  }

  function RowOf(m: map<int, Row>, d: int): seq<Row> { if d in m then [m[d]] else [] }

  /** The canonical row list of a dimension-indexed table. */
  function Canon(m: map<int, Row>): seq<Row> { RowOf(m, 1) + RowOf(m, 2) + RowOf(m, 3) }

  ghost predicate DimensionsUnique(rows: seq<Row>) {
    forall i, j :: 0 <= i < j < |rows| ==> rows[i].dimension != rows[j].dimension
  }

  ghost function Table(rows: seq<Row>): map<int, Row> {
    if rows == [] then map[] else Table(rows[..|rows| - 1])[rows[|rows| - 1].dimension := rows[|rows| - 1]]
  }

  /** A list with distinct dimensions sorts to the canonical list of its table. */
  lemma {:induction false} SortIsCanon(rows: seq<Row>)
    requires DimensionsUnique(rows)
    ensures SortRows(rows) == Canon(Table(rows))
    ensures forall d :: d in Table(rows) <==> exists i :: 0 <= i < |rows| && rows[i].dimension == d
    ensures forall i :: 0 <= i < |rows| ==>
      rows[i].dimension in Table(rows) && Table(rows)[rows[i].dimension] == rows[i]
  {
    TableMembers(rows);
    SelectDimension(rows, 1);
    SelectDimension(rows, 2);
    SelectDimension(rows, 3);
  }

  lemma {:induction false} TableMembers(rows: seq<Row>)
    requires DimensionsUnique(rows)
    ensures forall d :: d in Table(rows) <==> exists i :: 0 <= i < |rows| && rows[i].dimension == d
    ensures forall i :: 0 <= i < |rows| ==>
      rows[i].dimension in Table(rows) && Table(rows)[rows[i].dimension] == rows[i]
  {
    if rows != [] {
      var n := |rows| - 1;
      var head := rows[..n];
      TableMembers(head);
      forall d ensures d in Table(rows) <==> exists i :: 0 <= i < |rows| && rows[i].dimension == d {
        if i :| 0 <= i < |rows| && rows[i].dimension == d && i < n { assert head[i].dimension == d; }
        if i :| 0 <= i < |head| && head[i].dimension == d { assert rows[i].dimension == d; }
        assert rows[n].dimension == d ==> exists i :: 0 <= i < |rows| && rows[i].dimension == d;
      }
      forall i | 0 <= i < |rows|
        ensures rows[i].dimension in Table(rows) && Table(rows)[rows[i].dimension] == rows[i]
      {
        if i < n { assert head[i] == rows[i]; }
      }
    }
  }

  lemma {:induction false} SelectDimension(rows: seq<Row>, d: int)
    requires DimensionsUnique(rows)
    ensures Select(OfDimension(d), rows) == RowOf(Table(rows), d)
  {
    if rows != [] {
      var n := |rows| - 1;
      var head, last := rows[..n], rows[n];
      SelectDimension(head, d);
      assert rows == head + [last];
      SelectAppend(OfDimension(d), head, [last]);
      SelectSingle(OfDimension(d), last);
      LastIsNew(rows, head, last);
      assert Table(rows) == Table(head)[last.dimension := last];
    }
  }

  lemma {:induction false} LastIsNew(rows: seq<Row>, head: seq<Row>, last: Row)
    requires DimensionsUnique(rows) && rows == head + [last]
    ensures last.dimension !in Table(head)
  {
    var n := |head|;
    assert forall i :: 0 <= i < n ==> head[i] == rows[i] && rows[i].dimension != rows[n].dimension;
    TableMembers(head);
  }

  /** Rows in climbing order are their own canonical list. */
  lemma {:induction false} ClimbingIsCanon(env: Env, rows: seq<Row>)
    requires ValidRows(env, rows)
    ensures DimensionsUnique(rows) && rows == Canon(Table(rows))
  {
    ClimbingIsSorted(rows);
    SortIsCanon(rows);
  }

  lemma {:induction false} ClimbingIsSorted(rows: seq<Row>)
    requires Climbing(rows) && forall i :: 0 <= i < |rows| ==> rows[i].dimension in DIMENSIONS
    ensures SortRows(rows) == rows
  {
    if rows != [] {
      var n := |rows| - 1;
      var head, last := rows[..n], rows[n];
      ClimbingIsSorted(head);
      assert rows == head + [last];
      if last.dimension < 3 { SelectNothing(head, 3); }
      if last.dimension < 2 { SelectNothing(head, 2); }
      SortLast(rows, head, last);
    }
  }

  lemma {:induction false} SortLast(rows: seq<Row>, head: seq<Row>, last: Row)
    requires rows == head + [last] && last.dimension in DIMENSIONS
    requires last.dimension < 3 ==> Select(OfDimension(3), head) == []
    requires last.dimension < 2 ==> Select(OfDimension(2), head) == []
    ensures SortRows(rows) == SortRows(head) + [last]
  {
    SelectLast(rows, head, last, 1);
    SelectLast(rows, head, last, 2);
    SelectLast(rows, head, last, 3);
    AppendLast(Select(OfDimension(1), head), Select(OfDimension(2), head), Select(OfDimension(3), head), last);
  }

  lemma {:induction false} SelectLast(rows: seq<Row>, head: seq<Row>, last: Row, d: int)
    requires rows == head + [last]
    ensures Select(OfDimension(d), rows) == Select(OfDimension(d), head) + if last.dimension == d then [last] else []
  {
    SelectAppend(OfDimension(d), head, [last]);
    SelectSingle(OfDimension(d), last);
  }

  lemma {:induction false} AppendLast(a: seq<Row>, b: seq<Row>, c: seq<Row>, last: Row)
    requires last.dimension in DIMENSIONS
    requires (last.dimension < 3 ==> c == []) && (last.dimension < 2 ==> b == [])
    ensures (a + if last.dimension == 1 then [last] else []) + (b + if last.dimension == 2 then [last] else [])
          + (c + if last.dimension == 3 then [last] else []) == (a + b + c) + [last]
  {
  }

  lemma {:induction false} SelectNothing(rows: seq<Row>, d: int)
    requires forall i :: 0 <= i < |rows| ==> rows[i].dimension != d
    ensures Select(OfDimension(d), rows) == []
  {
    if rows != [] { SelectNothing(rows[1..], d); }
  }

  /** A canonical list climbs, and holds exactly the rows of its table. */
  lemma {:induction false} CanonClimbs(m: map<int, Row>)
    requires m.Keys <= DIMENSIONS && forall d :: d in m ==> m[d].dimension == d
    ensures Climbing(Canon(m)) && (m != map[] ==> Canon(m) != [])
    ensures forall i :: 0 <= i < |Canon(m)| ==> Canon(m)[i].dimension in m && Canon(m)[i] == m[Canon(m)[i].dimension]
    ensures forall d :: d in m ==> m[d] in Canon(m)
  {
    if m != map[] { var d :| d in m; assert d in DIMENSIONS; }
  }
}
