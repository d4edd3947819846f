/**
 What the manifest operations keep over whole runs: authentication, the newest bytes of every
 replaced dimension, and the old bytes of every other one.
 */
module ManifestRuns {
  import opened Wrappers
  import opened Strings
  import opened Sorting
  import opened VariantManifest
  import opened NativeTree

  // ----- Row lists -----

  lemma {:induction false} SelectKeepsUnique(keep: Row -> bool, rows: seq<Row>)
    requires DimensionsUnique(rows)
    ensures DimensionsUnique(Select(keep, rows))
  {
    if rows != [] {
      var tail := rows[1..];
      SelectKeepsUnique(keep, tail);
      var rest := Select(keep, tail);
      forall i | 0 <= i < |rest| ensures rest[i].dimension != rows[0].dimension {
        SelectMember(keep, tail, rest[i]);
        var j :| 0 <= j < |tail| && tail[j] == rest[i];
        assert rows[j + 1] == rest[i];
      }
    }
  }

  lemma {:induction false} AppendKeepsUnique(a: seq<Row>, b: seq<Row>)
    requires DimensionsUnique(a) && DimensionsUnique(b)
    requires forall i, j :: 0 <= i < |a| && 0 <= j < |b| ==> a[i].dimension != b[j].dimension
    ensures DimensionsUnique(a + b)
  {
  }

  /** Looking a dimension up finds the row of that dimension. */
  lemma {:induction false} TableFinds(rows: seq<Row>, r: Row)
    requires DimensionsUnique(rows)
    ensures r in rows <==> r.dimension in Table(rows) && Table(rows)[r.dimension] == r
  {
    TableMembers(rows);
    if r.dimension in Table(rows) && Table(rows)[r.dimension] == r {
      var i :| 0 <= i < |rows| && rows[i].dimension == r.dimension;
    }
  }

  /** A table is determined by which rows are in the list. */
  lemma {:induction false} TableIs(rows: seq<Row>, m: map<int, Row>)
    requires DimensionsUnique(rows) && forall d :: d in m ==> m[d].dimension == d
    requires forall r :: r in rows <==> r.dimension in m && m[r.dimension] == r
    ensures Table(rows) == m
  {
    TableMembers(rows);
    forall d ensures d in Table(rows) <==> d in m {
      if d in m { assert m[d] in rows; TableFinds(rows, m[d]); }
      if d in Table(rows) { var i :| 0 <= i < |rows| && rows[i].dimension == d; assert rows[i] in rows; }
    }
    forall d | d in m ensures Table(rows)[d] == m[d] { assert m[d] in rows; TableFinds(rows, m[d]); }
  }

  lemma {:induction false} TableIsKeyed(rows: seq<Row>)
    requires DimensionsUnique(rows)
    ensures forall d :: d in Table(rows) ==> Table(rows)[d].dimension == d && Table(rows)[d] in rows
  {
    TableMembers(rows);
    forall d | d in Table(rows) ensures Table(rows)[d].dimension == d && Table(rows)[d] in rows {
      var i :| 0 <= i < |rows| && rows[i].dimension == d;
    }
  }

  lemma {:induction false} TableKeys(env: Env, rows: seq<Row>)
    requires DimensionsUnique(rows) && forall i :: 0 <= i < |rows| ==> ValidRow(env, rows[i])
    ensures Table(rows).Keys <= DIMENSIONS
    ensures rows != [] ==> Table(rows) != map[]
  {
    TableMembers(rows);
    forall d | d in Table(rows) ensures d in DIMENSIONS { var i :| 0 <= i < |rows| && rows[i].dimension == d; }
    if rows != [] { assert rows[0].dimension in Table(rows); }
  }

  // ----- Writing -----

  /** Valid rows of distinct dimensions are always written, in canonical order. */
  lemma {:induction false} WriteSucceeds(env: Env, t: Tree, rows: seq<Row>)
    requires rows != [] && DimensionsUnique(rows) && forall i :: 0 <= i < |rows| ==> ValidRow(env, rows[i])
    ensures Write(env, t, rows) == Ok(t.(manifest := Some(Manifest(SCHEMA_VERSION, Canon(Table(rows))))))
    ensures ValidRows(env, Canon(Table(rows)))
  {
    SortIsCanon(rows);
    CanonIsValid(env, rows);
    ValidateIsExact(env, Manifest(SCHEMA_VERSION, Canon(Table(rows))));
  }

  lemma {:induction false} CanonIsValid(env: Env, rows: seq<Row>)
    requires rows != [] && DimensionsUnique(rows) && forall i :: 0 <= i < |rows| ==> ValidRow(env, rows[i])
    ensures ValidRows(env, Canon(Table(rows)))
  {
    TableIsKeyed(rows);
    TableKeys(env, rows);
    CanonClimbs(Table(rows));
    var sorted := Canon(Table(rows));
    forall i | 0 <= i < |sorted| ensures ValidRow(env, sorted[i]) {
      var j :| 0 <= j < |rows| && rows[j] == sorted[i];
    }
  }

  /** The table of an authenticated tree. */
  ghost function TableOf(t: Tree): map<int, Row> {
    if t.manifest.None? then map[] else Table(t.manifest.value.rows)
  }

  lemma {:induction false} TableOfCanon(m: map<int, Row>)
    requires m.Keys <= DIMENSIONS && forall d :: d in m ==> m[d].dimension == d
    ensures DimensionsUnique(Canon(m)) && Table(Canon(m)) == m
  {
    CanonClimbs(m);
    TableIs(Canon(m), m);
  }

  // ----- Updates -----

  /** Either nothing has been published yet, or everything published is authentic. */
  ghost predicate Healthy(env: Env, t: Tree) { t.manifest.None? || Authenticated(env, t) }

  lemma {:induction false} HealthyRows(env: Env, t: Tree)
    requires Healthy(env, t)
    ensures CurrentRows(env, t).Ok?
    ensures var rows := CurrentRows(env, t).value;
      && DimensionsUnique(rows) && Table(rows) == TableOf(t)
      && forall i :: 0 <= i < |rows| ==> ValidRow(env, rows[i]) && Matches(env, t.files, rows[i])
  {
    if t.manifest.Some? {
      ValidateIsExact(env, t.manifest.value);
      ClimbingIsCanon(env, t.manifest.value.rows);
    }
  }

  /** The link step: the compiler writes the leaf, then the manifest is updated. */
  ghost function Built(t: Tree, q: Request, bytes: Bytes): Tree { t.(files := t.files[q.path := bytes]) }

  ghost function BuiltRow(env: Env, q: Request, bytes: Bytes): Row {
    Row(q.dimension, q.path, env.sha(bytes), q.version, q.facts.abi, q.facts.hasMpi, q.facts.hasKokkos)
  }

  /**
   On a healthy tree an update succeeds exactly when the request is sound. It then replaces its own
   dimension's row, keeps every other row and file, and leaves an authenticated tree.
   */
  lemma {:induction false} UpdateIsExact(env: Env, t: Tree, q: Request, bytes: Bytes)
    requires Hashes(env) && Healthy(env, t)
    ensures Updated(env, Built(t, q, bytes), q).1.Ok? <==> Sound(env, q)
    ensures !Sound(env, q) ==> Updated(env, Built(t, q, bytes), q).0 == Built(t, q, bytes)
    ensures Sound(env, q) ==> var after := Updated(env, Built(t, q, bytes), q).0;
      && Authenticated(env, after)
      && after.files == t.files[q.path := bytes]
      && after.manifest == Some(Manifest(SCHEMA_VERSION, Canon(TableOf(t)[q.dimension := BuiltRow(env, q, bytes)])))
  {
    HealthyRows(env, t);
    if Sound(env, q) { UpdateSucceeds(env, t, q, bytes); }
  }

  lemma {:induction false} UpdateSucceeds(env: Env, t: Tree, q: Request, bytes: Bytes)
    requires Hashes(env) && Healthy(env, t) && Sound(env, q)
    ensures var b := Built(t, q, bytes);
      var rows := Canon(TableOf(t)[q.dimension := BuiltRow(env, q, bytes)]);
      var after := b.(manifest := Some(Manifest(SCHEMA_VERSION, rows)));
      Updated(env, b, q) == (after, Load(env, after)) && Authenticated(env, after) && Load(env, after).Ok?
  {
    HealthyRows(env, t);
    var b, rows, row := Built(t, q, bytes), CurrentRows(env, t).value, BuiltRow(env, q, bytes);
    var retained := Select(Others(q.dimension), rows);
    RetainedRows(env, t, q, bytes, rows);
    MergedTable(env, rows, row);
    BuiltRowIsValid(env, t, q, bytes);
    AppendFacts(env, b.files, retained, row);
    PublishSucceeds(env, b, retained + [row]);
    UpdatedWith(env, b, q, rows, row);
  }

  lemma {:induction false} BuiltRowIsValid(env: Env, t: Tree, q: Request, bytes: Bytes)
    requires Hashes(env) && Sound(env, q)
    ensures var b, row := Built(t, q, bytes), BuiltRow(env, q, bytes);
      ValidRow(env, row) && Matches(env, b.files, row) && NativeRow(env, b.files, q) == Ok(row)
  {
    assert IsDigest(env.sha(bytes));
  }

  /** The row list describes valid, matching leaves. */
  ghost predicate Describes(env: Env, files: map<string, Bytes>, rows: seq<Row>) {
    forall i :: 0 <= i < |rows| ==> ValidRow(env, rows[i]) && Matches(env, files, rows[i])
  }

  lemma {:induction false} AppendFacts(env: Env, files: map<string, Bytes>, rows: seq<Row>, row: Row)
    requires Describes(env, files, rows) && ValidRow(env, row) && Matches(env, files, row)
    ensures Describes(env, files, rows + [row])
  {
  }

  /** Writing distinct, matching rows leaves an authenticated tree. */
  lemma {:induction false} PublishSucceeds(env: Env, t: Tree, rows: seq<Row>)
    requires rows != [] && DimensionsUnique(rows) && Describes(env, t.files, rows)
    ensures var after := t.(manifest := Some(Manifest(SCHEMA_VERSION, Canon(Table(rows)))));
      Write(env, t, rows) == Ok(after) && Authenticated(env, after) && Load(env, after).Ok?
  {
    WriteSucceeds(env, t, rows);
    TableKeys(env, rows);
    MatchesAll(env, t, rows);
    LoadIsExact(env, t.(manifest := Some(Manifest(SCHEMA_VERSION, Canon(Table(rows))))));
  }

  lemma {:induction false} UpdatedWith(env: Env, b: Tree, q: Request, rows: seq<Row>, row: Row)
    requires CurrentRows(env, b) == Ok(rows) && NativeRow(env, b.files, q) == Ok(row)
    requires Describes(env, b.files, Select(Others(q.dimension), rows))
    requires Write(env, b, Select(Others(q.dimension), rows) + [row]).Ok?
    ensures var w := Write(env, b, Select(Others(q.dimension), rows) + [row]).value;
      Updated(env, b, q) == (w, Load(env, w))
  {
  }

  /** Writing one dimension's leaf leaves the other dimensions' leaves alone. */
  lemma {:induction false} RetainedRows(env: Env, t: Tree, q: Request, bytes: Bytes, rows: seq<Row>)
    requires Sound(env, q)
    requires forall i :: 0 <= i < |rows| ==> ValidRow(env, rows[i]) && Matches(env, t.files, rows[i])
    ensures Describes(env, Built(t, q, bytes).files, Select(Others(q.dimension), rows))
  {
    var retained := Select(Others(q.dimension), rows);
    forall i | 0 <= i < |retained|
      ensures ValidRow(env, retained[i]) && Matches(env, Built(t, q, bytes).files, retained[i])
    {
      SelectMember(Others(q.dimension), rows, retained[i]);
      var j :| 0 <= j < |rows| && rows[j] == retained[i];
      LeavesDiffer(env, q.dimension, q.path, rows[j].dimension, rows[j].path);
    }
  }

  lemma {:induction false} MergedTable(env: Env, rows: seq<Row>, row: Row)
    requires DimensionsUnique(rows)
    ensures var merged := Select(Others(row.dimension), rows) + [row];
      DimensionsUnique(merged) && Table(merged) == Table(rows)[row.dimension := row]
  {
    var d := row.dimension;
    var retained := Select(Others(d), rows);
    SelectKeepsUnique(Others(d), rows);
    forall i | 0 <= i < |retained| ensures retained[i].dimension != d { SelectMember(Others(d), rows, retained[i]); }
    AppendKeepsUnique(retained, [row]);
    var m := Table(rows)[d := row];
    TableIsKeyed(rows);
    forall r ensures r in retained + [row] <==> r.dimension in m && m[r.dimension] == r {
      SelectMember(Others(d), rows, r);
      TableFinds(rows, r);
    }
    TableIs(retained + [row], m);
  }

  /** If every row matched before sorting, every row of the written manifest matches. */
  lemma {:induction false} MatchesAll(env: Env, t: Tree, rows: seq<Row>)
    requires DimensionsUnique(rows) && forall i :: 0 <= i < |rows| ==> Matches(env, t.files, rows[i])
    requires Table(rows).Keys <= DIMENSIONS
    ensures var sorted := Canon(Table(rows)); forall i :: 0 <= i < |sorted| ==> Matches(env, t.files, sorted[i])
  {
    TableIsKeyed(rows);
    CanonClimbs(Table(rows));
    var sorted := Canon(Table(rows));
    forall i | 0 <= i < |sorted| ensures Matches(env, t.files, sorted[i]) {
      var j :| 0 <= j < |rows| && rows[j] == sorted[i];
    }
  }

  /**
   Whatever the tree and the request: an update that fails leaves the tree as it was, and one that
   succeeds leaves an authenticated tree. Neither touches a leaf.
   */
  lemma {:induction false} UpdateFailsClosed(env: Env, t: Tree, q: Request)
    ensures Updated(env, t, q).0.files == t.files
    ensures Updated(env, t, q).1.Err? ==> Updated(env, t, q).0 == t
    ensures Updated(env, t, q).1.Ok? ==> Authenticated(env, Updated(env, t, q).0)
    ensures Updated(env, t, q).1.Ok? ==> Updated(env, t, q).1.value == Updated(env, t, q).0.manifest.value.rows
  {
    LoadIsExact(env, Updated(env, t, q).0);
    if ReachesWrite(env, t, q) {
      WriteIsTheLastTest(env, t, q);
    } else {
      EarlyRefusal(env, t, q);
    }
  }

  /** The current rows are readable, the new row is extracted, and every retained leaf matches. */
  ghost predicate ReachesWrite(env: Env, t: Tree, q: Request) {
    && CurrentRows(env, t).Ok? && NativeRow(env, t.files, q).Ok?
    && var retained := Select(Others(q.dimension), CurrentRows(env, t).value);
    forall i :: 0 <= i < |retained| ==> Matches(env, t.files, retained[i])
  }

  lemma {:induction false} EarlyRefusal(env: Env, t: Tree, q: Request)
    requires !ReachesWrite(env, t, q)
    ensures Updated(env, t, q).1.Err? && Updated(env, t, q).0 == t
  {
  }

  /** Once every row has been authenticated, only the write can refuse; the final load never does. */
  lemma {:induction false} WriteIsTheLastTest(env: Env, t: Tree, q: Request)
    requires ReachesWrite(env, t, q)
    ensures Updated(env, t, q).1.Err? ==> Updated(env, t, q).0 == t
  {
    var rows, row := CurrentRows(env, t).value, NativeRow(env, t.files, q).value;
    var retained := Select(Others(q.dimension), rows);
    if Write(env, t, retained + [row]).Ok? {
      CurrentAreValid(env, t);
      RetainedAreValid(env, rows, q.dimension);
      MergedTable(env, rows, row);
      WrittenRowIsValid(env, t, retained, row);
      AppendFacts(env, t.files, retained, row);
      PublishSucceeds(env, t, retained + [row]);
      UpdatedWith(env, t, q, rows, row);
    } else {
      WriteRefused(env, t, q);
    }
  }

  lemma {:induction false} WriteRefused(env: Env, t: Tree, q: Request)
    requires ReachesWrite(env, t, q)
    requires var retained := Select(Others(q.dimension), CurrentRows(env, t).value);
      Write(env, t, retained + [NativeRow(env, t.files, q).value]).Err?
    ensures Updated(env, t, q).0 == t
  {
  }

  lemma {:induction false} CurrentAreValid(env: Env, t: Tree)
    requires CurrentRows(env, t).Ok?
    ensures var rows := CurrentRows(env, t).value;
      DimensionsUnique(rows) && forall i :: 0 <= i < |rows| ==> ValidRow(env, rows[i])
  {
    if t.manifest.Some? { ValidateIsExact(env, t.manifest.value); }
  }

  lemma {:induction false} RetainedAreValid(env: Env, rows: seq<Row>, d: int)
    requires forall i :: 0 <= i < |rows| ==> ValidRow(env, rows[i])
    ensures var retained := Select(Others(d), rows); forall i :: 0 <= i < |retained| ==> ValidRow(env, retained[i])
  {
    var retained := Select(Others(d), rows);
    forall i | 0 <= i < |retained| ensures ValidRow(env, retained[i]) {
      SelectMember(Others(d), rows, retained[i]);
      var j :| 0 <= j < |rows| && rows[j] == retained[i];
    }
  }

  lemma {:induction false} WrittenRowIsValid(env: Env, t: Tree, retained: seq<Row>, row: Row)
    requires Write(env, t, retained + [row]).Ok?
    ensures ValidRow(env, row)
  {
    assert (retained + [row])[|retained|] == row;
  }

  /** The tree after building and publishing one leaf. */
  ghost function AfterBuild(env: Env, t: Tree, q: Request, bytes: Bytes): Tree { Updated(env, Built(t, q, bytes), q).0 }

  /** Builds of different dimensions commute: same manifest, same files. */
  lemma {:induction false} BuildsCommute(env: Env, t: Tree, q: Request, a: Bytes, r: Request, b: Bytes)
    requires Hashes(env) && Healthy(env, t) && Sound(env, q) && Sound(env, r) && q.dimension != r.dimension
    ensures AfterBuild(env, AfterBuild(env, t, q, a), r, b) == AfterBuild(env, AfterBuild(env, t, r, b), q, a)
  {
    BuildTwice(env, t, q, a, r, b);
    BuildTwice(env, t, r, b, q, a);
    LeavesDiffer(env, q.dimension, q.path, r.dimension, r.path);
    SwapUpdates(t.files, q.path, a, r.path, b);
    SwapUpdates(TableOf(t), q.dimension, BuiltRow(env, q, a), r.dimension, BuiltRow(env, r, b));
  }

  lemma {:induction false} SwapUpdates<K, V>(m: map<K, V>, k: K, v: V, l: K, w: V)
    requires k != l
    ensures m[k := v][l := w] == m[l := w][k := v]
  {
  }

  lemma {:induction false} BuildTwice(env: Env, t: Tree, q: Request, a: Bytes, r: Request, b: Bytes)
    requires Hashes(env) && Healthy(env, t) && Sound(env, q) && Sound(env, r)
    ensures var rows := Canon(TableOf(t)[q.dimension := BuiltRow(env, q, a)][r.dimension := BuiltRow(env, r, b)]);
      AfterBuild(env, AfterBuild(env, t, q, a), r, b)
        == Tree(Some(Manifest(SCHEMA_VERSION, rows)), t.files[q.path := a][r.path := b])
  {
    UpdateIsExact(env, t, q, a);
    BuiltTable(env, t, q, a);
    UpdateIsExact(env, AfterBuild(env, t, q, a), r, b);
  }

  lemma {:induction false} HealthyTable(env: Env, t: Tree)
    requires Healthy(env, t)
    ensures TableOf(t).Keys <= DIMENSIONS && forall d :: d in TableOf(t) ==> TableOf(t)[d].dimension == d
    ensures forall d :: d in TableOf(t) ==> ValidRow(env, TableOf(t)[d]) && Matches(env, t.files, TableOf(t)[d])
    ensures t.manifest.Some? ==> TableOf(t) != map[]
  {
    HealthyRows(env, t);
    var rows := CurrentRows(env, t).value;
    TableKeys(env, rows);
    TableIsKeyed(rows);
    if t.manifest.Some? { ValidateIsExact(env, t.manifest.value); }
  }

  lemma {:induction false} BuiltTable(env: Env, t: Tree, q: Request, bytes: Bytes)
    requires Hashes(env) && Healthy(env, t) && Sound(env, q)
    ensures TableOf(AfterBuild(env, t, q, bytes)) == TableOf(t)[q.dimension := BuiltRow(env, q, bytes)]
  {
    UpdateIsExact(env, t, q, bytes);
    HealthyTable(env, t);
    TableOfCanon(TableOf(t)[q.dimension := BuiltRow(env, q, bytes)]);
  }

  // ----- What a tree publishes -----

  /** A published dimension: its row and the bytes of its leaf. */
  datatype Leaf = Leaf(row: Row, bytes: Bytes)

  ghost function BytesAt(files: map<string, Bytes>, path: string): Bytes {
    if path in files then files[path] else []
  }

  ghost function Leaves(table: map<int, Row>, files: map<string, Bytes>): map<int, Leaf> {
    map d | d in table :: Leaf(table[d], BytesAt(files, table[d].path))
  }

  ghost function View(t: Tree): map<int, Leaf> { Leaves(TableOf(t), t.files) }

  lemma {:induction false} LeavesAfterBuild(
      table: map<int, Row>, files: map<string, Bytes>, d: int, row: Row, bytes: Bytes)
    requires forall e :: e in table && e != d ==> table[e].path != row.path
    ensures Leaves(table[d := row], files[row.path := bytes]) == Leaves(table, files)[d := Leaf(row, bytes)]
  {
    var after := Leaves(table[d := row], files[row.path := bytes]);
    var expected := Leaves(table, files)[d := Leaf(row, bytes)];
    assert forall e :: e in after <==> e in expected;
    assert forall e :: e in after ==> after[e] == expected[e];
  }

  lemma {:induction false} LeavesAfterMerge(
      kept: map<int, Row>, src: map<string, Bytes>, installed: map<int, Row>, root: map<string, Bytes>,
      files: map<string, Bytes>)
    requires forall d :: d in installed ==> BytesAt(files, installed[d].path) == BytesAt(root, installed[d].path)
    requires forall d :: d in kept && d !in installed ==> BytesAt(files, kept[d].path) == BytesAt(src, kept[d].path)
    ensures Leaves(kept + installed, files) == Leaves(kept, src) + Leaves(installed, root)
  {
    var after, expected := Leaves(kept + installed, files), Leaves(kept, src) + Leaves(installed, root);
    assert forall d :: d in after <==> d in expected;
    assert forall d :: d in after ==> after[d] == expected[d];
  }

  lemma {:induction false} BuiltView(env: Env, t: Tree, q: Request, bytes: Bytes)
    requires Hashes(env) && Healthy(env, t) && Sound(env, q)
    ensures View(AfterBuild(env, t, q, bytes)) == View(t)[q.dimension := Leaf(BuiltRow(env, q, bytes), bytes)]
  {
    UpdateFailsClosed(env, Built(t, q, bytes), q);
    BuiltTable(env, t, q, bytes);
    HealthyTable(env, t);
    var table := TableOf(t);
    forall d | d in table && d != q.dimension ensures table[d].path != q.path {
      LeavesDiffer(env, q.dimension, q.path, d, table[d].path);
    }
    LeavesAfterBuild(table, t.files, q.dimension, BuiltRow(env, q, bytes), bytes);
  }

  // ----- Snapshot -----

  predicate Names(rows: seq<Row>, path: string) { exists i :: 0 <= i < |rows| && rows[i].path == path }

  /** Copying takes the named leaves from the source and leaves every other file alone. */
  lemma {:induction false} CopiedAt(from: map<string, Bytes>, files: map<string, Bytes>, rows: seq<Row>, path: string)
    requires forall i :: 0 <= i < |rows| ==> rows[i].path in from
    ensures var c := Copied(from, files, rows);
      if Names(rows, path) then path in c && c[path] == from[path]
      else (path in c <==> path in files) && (path in c ==> c[path] == files[path])
  {
    if rows != [] {
      var n := |rows| - 1;
      var head := rows[..n];
      CopiedAt(from, files, head, path);
      assert Names(rows, path) <==> Names(head, path) || rows[n].path == path by {
        if Names(head, path) { var i :| 0 <= i < |head| && head[i].path == path; assert rows[i].path == path; }
        if i :| 0 <= i < |rows| && rows[i].path == path && i < n { assert head[i].path == path; }
      }
    }
  }

  lemma {:induction false} SameLeaves(env: Env, rows: seq<Row>, files: map<string, Bytes>, copy: map<string, Bytes>)
    requires ValidRows(env, rows)
    requires forall i :: 0 <= i < |rows| ==> BytesAt(copy, rows[i].path) == BytesAt(files, rows[i].path)
    ensures Leaves(Table(rows), copy) == Leaves(Table(rows), files)
  {
    ClimbingIsCanon(env, rows);
    TableIsKeyed(rows);
    var table := Table(rows);
    forall d | d in table ensures BytesAt(copy, table[d].path) == BytesAt(files, table[d].path) {
      var i :| 0 <= i < |rows| && rows[i] == table[d];
    }
    assert Leaves(table, copy).Keys == Leaves(table, files).Keys;
  }

  /** A snapshot of an authenticated root publishes the same dimensions with the same bytes. */
  lemma {:induction false} SnapshotIsFaithful(env: Env, root: Tree, dest: Tree)
    requires Authenticated(env, root)
    ensures var (copy, r) := Snapshotted(env, root, dest);
      r.Ok? && copy.manifest == root.manifest && Authenticated(env, copy) && View(copy) == View(root)
  {
    LoadIsExact(env, root);
    var rows := root.manifest.value.rows;
    var copy := Snapshotted(env, root, dest).0;
    forall i | 0 <= i < |rows|
      ensures rows[i].path in copy.files && copy.files[rows[i].path] == root.files[rows[i].path]
    {
      CopiedAt(root.files, dest.files, rows, rows[i].path);
    }
    SameLeaves(env, rows, root.files, copy.files);
  }

  // ----- Restore -----

  lemma {:induction false} HasDimensionIsKey(env: Env, rows: seq<Row>, d: int)
    requires ValidRows(env, rows)
    ensures DimensionsUnique(rows) && (HasDimension(rows, d) <==> d in Table(rows))
  {
    TableMembers(rows);
  }

  /** Installed rows win; the snapshot fills in the dimensions they lack. */
  lemma {:induction false} RestoredTable(env: Env, installed: seq<Row>, kept: seq<Row>)
    requires ValidRows(env, installed) && ValidRows(env, kept)
    ensures var merged := installed + Select(Absent(installed), kept);
      DimensionsUnique(merged) && Table(merged) == Table(kept) + Table(installed)
  {
    var missing := Select(Absent(installed), kept);
    SelectKeepsUnique(Absent(installed), kept);
    forall j | 0 <= j < |missing| ensures !HasDimension(installed, missing[j].dimension) {
      SelectMember(Absent(installed), kept, missing[j]);
    }
    AppendKeepsUnique(installed, missing);
    TableIsKeyed(installed);
    TableIsKeyed(kept);
    var m := Table(kept) + Table(installed);
    forall r ensures r in installed + missing <==> r.dimension in m && m[r.dimension] == r {
      SelectMember(Absent(installed), kept, r);
      TableFinds(installed, r);
      TableFinds(kept, r);
      HasDimensionIsKey(env, installed, r.dimension);
    }
    TableIs(installed + missing, m);
  }

  /** Copying the missing leaves back disturbs none of the installed ones. */
  lemma {:induction false} RestoredFiles(env: Env, root: Tree, src: Tree, row: Row)
    requires Authenticated(env, root) && Authenticated(env, src)
    requires row in root.manifest.value.rows + Select(Absent(root.manifest.value.rows), src.manifest.value.rows)
    ensures var missing := Select(Absent(root.manifest.value.rows), src.manifest.value.rows);
      var files := Copied(src.files, root.files, missing);
      && ValidRow(env, row) && Matches(env, files, row)
      && files[row.path] == BytesAt(if row in root.manifest.value.rows then root.files else src.files, row.path)
  {
    var installed, kept := root.manifest.value.rows, src.manifest.value.rows;
    var missing := Select(Absent(installed), kept);
    forall i | 0 <= i < |missing| ensures missing[i] in kept && missing[i].path in src.files {
      SelectMember(Absent(installed), kept, missing[i]);
    }
    CopiedAt(src.files, root.files, missing, row.path);
    SelectMember(Absent(installed), kept, row);
    if row in installed {
      forall i | 0 <= i < |missing| ensures missing[i].path != row.path {
        SelectMember(Absent(installed), kept, missing[i]);
        LeavesDiffer(env, row.dimension, row.path, missing[i].dimension, missing[i].path);
      }
      assert !Names(missing, row.path);
    } else {
      assert row in missing;
      assert Names(missing, row.path);
    }
  }

  /**
   For every pair of trees: without a snapshot a restore does nothing; with one it succeeds exactly
   when both trees are authenticated and the expected dimension was installed. Every installed
   dimension then keeps its row and bytes, every other snapshotted dimension comes back with its
   own, and the result is authenticated. A restore that fails leaves the tree as it was.
   */
  lemma {:induction false} RestoreIsExact(env: Env, root: Tree, src: Tree, expectDim: int)
    ensures var (after, r) := Restored(env, root, src, expectDim);
      && (src.manifest.None? ==> r.Ok? && after == root)
      && (src.manifest.Some? ==>
            (r.Ok? <==> Authenticated(env, root) && Authenticated(env, src) && expectDim in View(root)))
      && (r.Err? ==> after == root)
      && (src.manifest.Some? && r.Ok? ==> Authenticated(env, after) && View(after) == View(src) + View(root))
  {
    LoadIsExact(env, root);
    LoadIsExact(env, src);
    if Authenticated(env, root) && Authenticated(env, src) {
      HasDimensionIsKey(env, root.manifest.value.rows, expectDim);
      if expectDim in View(root) { RestoreSucceeds(env, root, src, expectDim); }
    }
  }

  lemma {:induction false} RestoreSucceeds(env: Env, root: Tree, src: Tree, expectDim: int)
    requires Authenticated(env, root) && Authenticated(env, src) && HasDimension(root.manifest.value.rows, expectDim)
    ensures var (after, r) := Restored(env, root, src, expectDim);
      r.Ok? && Authenticated(env, after) && View(after) == View(src) + View(root)
  {
    LoadIsExact(env, root);
    LoadIsExact(env, src);
    var installed, kept := root.manifest.value.rows, src.manifest.value.rows;
    var missing := Select(Absent(installed), kept);
    var merged, t := installed + missing, Tree(root.manifest, Copied(src.files, root.files, missing));
    RestoredTable(env, installed, kept);
    forall i | 0 <= i < |merged| ensures ValidRow(env, merged[i]) && Matches(env, t.files, merged[i]) {
      RestoredFiles(env, root, src, merged[i]);
    }
    PublishSucceeds(env, t, merged);
    RestoredWith(env, root, src, expectDim, installed, kept);
    RestoredView(env, root, src, t.(manifest := Some(Manifest(SCHEMA_VERSION, Canon(Table(merged))))));
  }

  lemma {:induction false} RestoredWith(
      env: Env, root: Tree, src: Tree, expectDim: int, installed: seq<Row>, kept: seq<Row>)
    requires root.manifest.Some? && src.manifest.Some?
    requires Load(env, root) == Ok(installed) && Load(env, src) == Ok(kept) && HasDimension(installed, expectDim)
    ensures var missing := Select(Absent(installed), kept);
      var w := Write(env, Tree(root.manifest, Copied(src.files, root.files, missing)), installed + missing);
      w.Ok? && Load(env, w.value).Ok? ==> Restored(env, root, src, expectDim) == (w.value, Ok(()))
  {
  }

  lemma {:induction false} RestoredView(env: Env, root: Tree, src: Tree, after: Tree)
    requires Authenticated(env, root) && Authenticated(env, src)
    requires after.files ==
      Copied(src.files, root.files, Select(Absent(root.manifest.value.rows), src.manifest.value.rows))
    requires after.manifest == Some(Manifest(SCHEMA_VERSION, Canon(TableOf(src) + TableOf(root))))
    ensures View(after) == View(src) + View(root)
  {
    HealthyTable(env, root);
    HealthyTable(env, src);
    TableOfCanon(TableOf(src) + TableOf(root));
    var installed, kept := root.manifest.value.rows, src.manifest.value.rows;
    var missing := Select(Absent(installed), kept);
    RestoredTable(env, installed, kept);
    TableIsKeyed(installed + missing);
    var ours, theirs := TableOf(root), TableOf(src);
    var both: map<int, Row> := theirs + ours;
    forall d | d in both
      ensures BytesAt(after.files, both[d].path) == BytesAt(if d in ours then root.files else src.files, both[d].path)
    {
      var row := both[d];
      RestoredFiles(env, root, src, row);
      TableFinds(installed, row);
      HasDimensionIsKey(env, installed, d);
    }
    LeavesAfterMerge(theirs, src.files, ours, root.files, after.files);
  }

  // ----- Whole runs -----

  /**
   One maintenance step: build and publish a leaf, or replace the package by a freshly installed
   tree with a snapshot (into a directory already holding `scratch`) before and a restore after.
   */
  datatype Event = Build(request: Request, bytes: Bytes) | Replace(package: Tree, expectDim: int, scratch: Tree)

  /** The tree after one step, if the step succeeds. */
  ghost function Step(env: Env, t: Tree, e: Event): Option<Tree> {
    match e
    case Build(q, bytes) =>
      var (after, r) := Updated(env, Built(t, q, bytes), q);
      if r.Ok? then Some(after) else None
    case Replace(package, expectDim, scratch) =>
      var (kept, s) := Snapshotted(env, t, scratch);
      if s.Err? then None
      else
        var (after, r) := Restored(env, package, kept, expectDim);
        if r.Ok? then Some(after) else None
  }

  ghost function Run(env: Env, t: Tree, events: seq<Event>): Option<Tree>
    decreases |events|
  {
    if events == [] then Some(t)
    else
      var next := Step(env, t, events[0]);
      if next.None? then None else Run(env, next.value, events[1..])
  }

  /** Replacement packages are authenticated, and a scratch directory holds an intact snapshot or none. */
  ghost predicate Plausible(env: Env, e: Event) {
    e.Replace? ==> Authenticated(env, e.package) && Healthy(env, e.scratch)
  }

  /** The same step on what is published, with no tree, manifest or digest check. */
  ghost function AbstractStep(env: Env, v: map<int, Leaf>, e: Event): Option<map<int, Leaf>> {
    match e
    case Build(q, bytes) =>
      if Sound(env, q) then Some(v[q.dimension := Leaf(BuiltRow(env, q, bytes), bytes)]) else None
    case Replace(package, expectDim, scratch) =>
      var kept := if v == map[] then View(scratch) else v;
      if kept == map[] || expectDim in View(package) then Some(kept + View(package)) else None
  }

  ghost function AbstractRun(env: Env, v: map<int, Leaf>, events: seq<Event>): Option<map<int, Leaf>>
    decreases |events|
  {
    if events == [] then Some(v)
    else
      var next := AbstractStep(env, v, events[0]);
      if next.None? then None else AbstractRun(env, next.value, events[1..])
  }

  ghost function ViewIf(t: Option<Tree>): Option<map<int, Leaf>> { if t.None? then None else Some(View(t.value)) }

  lemma {:induction false} EmptyView(env: Env, t: Tree)
    requires Healthy(env, t)
    ensures View(t) == map[] <==> t.manifest.None?
  {
    HealthyTable(env, t);
    if t.manifest.Some? {
      var d :| d in TableOf(t);
      assert d in View(t);
    }
  }

  lemma {:induction false} NothingKept(kept: map<int, Leaf>, installed: map<int, Leaf>)
    requires kept == map[]
    ensures kept + installed == installed
  {
  }

  lemma {:induction false} ReplaceIsExact(env: Env, t: Tree, package: Tree, expectDim: int, scratch: Tree)
    requires Healthy(env, t) && Healthy(env, scratch) && Authenticated(env, package)
    ensures var e := Replace(package, expectDim, scratch);
      && ViewIf(Step(env, t, e)) == AbstractStep(env, View(t), e)
      && (Step(env, t, e).Some? ==> Healthy(env, Step(env, t, e).value))
  {
    EmptyView(env, t);
    EmptyView(env, scratch);
    if t.manifest.Some? { SnapshotIsFaithful(env, t, scratch); }
    var kept := Snapshotted(env, t, scratch).0;
    if kept.manifest.None? {
      NothingKept(View(kept), View(package));
    } else {
      RestoreIsExact(env, package, kept, expectDim);
    }
  }

  lemma {:induction false} StepIsExact(env: Env, t: Tree, e: Event)
    requires Hashes(env) && Healthy(env, t) && Plausible(env, e)
    ensures ViewIf(Step(env, t, e)) == AbstractStep(env, View(t), e)
    ensures Step(env, t, e).Some? ==> Healthy(env, Step(env, t, e).value)
  {
    match e
    case Build(q, bytes) =>
      UpdateIsExact(env, t, q, bytes);
      if Sound(env, q) { BuiltView(env, t, q, bytes); }
    case Replace(package, expectDim, scratch) =>
      ReplaceIsExact(env, t, package, expectDim, scratch);
  }

  /**
   Safety over whole runs: the concrete run succeeds exactly when the abstract one does, publishes
   exactly what the abstract one publishes, and ends authenticated.
   */
  lemma {:induction false} RunIsExact(env: Env, t: Tree, events: seq<Event>)
    requires Hashes(env) && Healthy(env, t) && forall i :: 0 <= i < |events| ==> Plausible(env, events[i])
    ensures ViewIf(Run(env, t, events)) == AbstractRun(env, View(t), events)
    ensures Run(env, t, events).Some? ==> Healthy(env, Run(env, t, events).value)
    ensures Run(env, t, events).Some? && (events != [] || t.manifest.Some?) ==>
      Authenticated(env, Run(env, t, events).value)
    decreases |events|
  {
    if events != [] {
      StepIsExact(env, t, events[0]);
      var next := Step(env, t, events[0]);
      if next.Some? {
        StepPublishes(env, t, events[0]);
        RunIsExact(env, next.value, events[1..]);
      }
    }
  }

  lemma {:induction false} AbstractStepPublishes(env: Env, v: map<int, Leaf>, e: Event)
    requires AbstractStep(env, v, e).Some? && (e.Replace? ==> View(e.package) != map[])
    ensures AbstractStep(env, v, e).value != map[]
  {
    var w := AbstractStep(env, v, e).value;
    if e.Build? { assert e.request.dimension in w; }
  }

  lemma {:induction false} StepPublishes(env: Env, t: Tree, e: Event)
    requires Hashes(env) && Healthy(env, t) && Plausible(env, e) && Step(env, t, e).Some?
    ensures Step(env, t, e).value.manifest.Some?
  {
    StepIsExact(env, t, e);
    EmptyView(env, Step(env, t, e).value);
    if e.Replace? { EmptyView(env, e.package); }
    AbstractStepPublishes(env, View(t), e);
  }

  /**
   Where no two different leaves of the trees share a digest, the rows pin the bytes: two
   authenticated trees with the same rows publish the same bytes.
   */
  lemma {:induction false} RowsPinBytes(env: Env, t: Tree, u: Tree)
    requires forall p :: p in t.files && p in u.files && env.sha(t.files[p]) == env.sha(u.files[p]) ==>
      t.files[p] == u.files[p]
    requires Authenticated(env, t) && Authenticated(env, u) && t.manifest == u.manifest
    ensures View(t) == View(u)
  {
    HealthyTable(env, t);
    HealthyTable(env, u);
    forall d | d in TableOf(t) ensures View(t)[d] == View(u)[d] {
      var row := TableOf(t)[d];
      assert env.sha(t.files[row.path]) == env.sha(u.files[row.path]);
    }
  }
}
