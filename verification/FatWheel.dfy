/**
 The fat-wheel assembler (`scripts/assemble_native_variant_wheel.py`): three repaired wheels, one
 per dimension, become one wheel with a common part, three native leaves, a manifest and a RECORD.
 */
module FatWheel {
  import opened Wrappers
  import opened Strings
  import opened Sorting
  import opened VariantManifest
  import opened NativeTree
  import opened ManifestRuns
  import opened WheelNames
  import opened WheelRecord
  import Reachability

  const NATIVE_ROOT := "pops/_native/"
  const MANIFEST := "pops/_native/variants.json"

  function Member(row: Row): string { NATIVE_ROOT + row.path }

  function RecordsIn(files: map<string, Bytes>): set<string> { set n | n in files && EndsWith(n, RECORD_END) }

  function NativesIn(env: Env, files: map<string, Bytes>): set<string> { set n | n in files && IsNative(env, n) }

  // ----- One input wheel -----

  /** An input wheel's files, its one manifest row and its RECORD member. */
  datatype Mono = Mono(files: map<string, Bytes>, row: Row, record: string)

  /** The archive is a clean wheel with one manifest and one RECORD, which covers it. */
  ghost predicate Archive(codec: Codec, wheel: seq<Entry>, files: map<string, Bytes>, record: string) {
    && Clean(wheel) && files == FilesOf(wheel)
    && MANIFEST in files && RecordsIn(files) == {record} && record in files
    && RecordCovers(codec, files, record)
  }

  /** The manifest has one row, of dimension `d`, and its leaf is the one native member. */
  ghost predicate SingleLeaf(env: Env, codec: Codec, files: map<string, Bytes>, d: int, row: Row) {
    && MANIFEST in files && codec.decodeManifest(files[MANIFEST]).Some?
    && Validate(env, codec.decodeManifest(files[MANIFEST]).value) == Ok([row])
    && row.dimension == d && NativesIn(env, files) == {Member(row)}
  }

  ghost predicate Opens(env: Env, codec: Codec, wheel: seq<Entry>, d: int, m: Mono) {
    Archive(codec, wheel, m.files, m.record) && SingleLeaf(env, codec, m.files, d, m.row)
  }

  lemma {:induction false} Singleton<T>(s: set<T>, x: T)
    requires x in s
    ensures |s| == 1 <==> s == {x}
  {
    if |s| == 1 {
      assert |s - {x}| == 0;
      assert s == (s - {x}) + {x};
    }
  }

  method OpenArchive(codec: Codec, wheel: seq<Entry>) returns (r: Option<(map<string, Bytes>, string)>)
    ensures r.Some? ==> Archive(codec, wheel, r.value.0, r.value.1)
    ensures r.None? ==> forall files, record :: !Archive(codec, wheel, files, record)
  {
    var clean := CheckEntries(wheel);
    if !clean { return None; }
    var files := FilesOf(wheel);
    var records := RecordsIn(files);
    if MANIFEST !in files || |records| != 1 { return None; }
    var record :| record in records;
    Singleton(records, record);
    var covered := ReadRecord(codec, files, record);
    if !covered { return None; }
    return Some((files, record));
  }

  lemma {:induction false} OneRow(rows: seq<Row>, d: int)
    ensures Dimensions(rows) == [d] <==> |rows| == 1 && rows[0].dimension == d
    ensures forall row :: rows == [row] <==> |rows| == 1 && rows[0] == row
  {
    if Dimensions(rows) == [d] { assert |Dimensions(rows)| == 1 && Dimensions(rows)[0] == d; }
  }

  method ReadLeaf(env: Env, codec: Codec, files: map<string, Bytes>, d: int) returns (r: Option<Row>)
    requires MANIFEST in files
    ensures r.Some? ==> SingleLeaf(env, codec, files, d, r.value)
    ensures r.None? ==> forall row :: !SingleLeaf(env, codec, files, d, row)
  {
    var manifest := codec.decodeManifest(files[MANIFEST]);
    if manifest.None? { return None; }
    var rows := Validate(env, manifest.value);
    if rows.Err? { return None; }
    OneRow(rows.value, d);
    if Dimensions(rows.value) != [d] { return None; }
    var row := rows.value[0];
    if NativesIn(env, files) != {Member(row)} { return None; }
    return Some(row);
  }

  method OpenWheel(env: Env, codec: Codec, wheel: seq<Entry>, d: int) returns (r: Option<Mono>)
    ensures r.Some? ==> Opens(env, codec, wheel, d, r.value)
    ensures r.None? ==> forall m :: !Opens(env, codec, wheel, d, m)
  {
    var archive := OpenArchive(codec, wheel);
    if archive.None? { return None; }
    var (files, record) := archive.value;
    var row := ReadLeaf(env, codec, files, d);
    if row.None? { return None; }
    return Some(Mono(files, row.value, record));
  }

  /** What later steps use of an opened wheel. */
  ghost predicate Sane(env: Env, m: Mono, d: int) {
    && MANIFEST in m.files && RecordsIn(m.files) == {m.record} && NativesIn(env, m.files) == {Member(m.row)}
    && ValidRow(env, m.row) && m.row.dimension == d
    && Every(IsFile, m.files.Keys) && Every(SafeMember, m.files.Keys)
  }

  lemma {:induction false} OpenedIsSane(env: Env, codec: Codec, wheel: seq<Entry>, d: int, m: Mono)
    requires Opens(env, codec, wheel, d, m)
    ensures Sane(env, m, d)
  {
    FilesAreSafe(wheel);
    ValidateIsExact(env, codec.decodeManifest(m.files[MANIFEST]).value);
    assert ValidRow(env, [m.row][0]);
  }

  lemma {:induction false} OpensOneWay(env: Env, codec: Codec, wheel: seq<Entry>, d: int, m: Mono, n: Mono)
    requires Opens(env, codec, wheel, d, m) && Opens(env, codec, wheel, d, n)
    ensures m == n
  {
    assert m.record in RecordsIn(n.files);
    assert [m.row][0] == [n.row][0];
  }

  // ----- Three wheels together -----

  ghost predicate AllOpen(env: Env, codec: Codec, wheels: map<int, seq<Entry>>, ms: seq<Mono>) {
    wheels.Keys == DIMENSIONS && |ms| == 3 && Each(Opening(env, codec, wheels), ms)
  }

  /** The wheel of dimension `k + 1` opens as the given input. */
  ghost function Opening(env: Env, codec: Codec, wheels: map<int, seq<Entry>>): (int, Mono) -> bool {
    (k, m) => k + 1 in wheels && Opens(env, codec, wheels[k + 1], k + 1, m)
  }

  ghost predicate Each(good: (int, Mono) -> bool, ms: seq<Mono>) { forall k :: 0 <= k < |ms| ==> good(k, ms[k]) }

  ghost predicate AllSane(env: Env, ms: seq<Mono>) {
    |ms| == 3 && Each(Sanity(env), ms)
  }

  ghost function Sanity(env: Env): (int, Mono) -> bool { (k, m) => Sane(env, m, k + 1) }

  method OpenAll(env: Env, codec: Codec, wheels: map<int, seq<Entry>>) returns (r: Option<seq<Mono>>)
    ensures r.Some? ==> AllOpen(env, codec, wheels, r.value)
    ensures r.None? ==> forall ms :: !AllOpen(env, codec, wheels, ms)
  {
    if wheels.Keys != DIMENSIONS { return None; }
    var ms: seq<Mono> := [];
    for d := 1 to 4
      invariant |ms| == d - 1 && Each(Opening(env, codec, wheels), ms)
    {
      var m := OpenWheel(env, codec, wheels[d], d);
      if m.None? {
        forall all ensures !AllOpen(env, codec, wheels, all) { StuckAt(env, codec, wheels, d, all); }
        return None;
      }
      EachOneMore(Opening(env, codec, wheels), ms, m.value);
      ms := ms + [m.value];
    }
    return Some(ms);
  }

  lemma {:induction false} StuckAt(env: Env, codec: Codec, wheels: map<int, seq<Entry>>, d: int, ms: seq<Mono>)
    requires d in DIMENSIONS && wheels.Keys == DIMENSIONS && forall m :: !Opens(env, codec, wheels[d], d, m)
    ensures !AllOpen(env, codec, wheels, ms)
  {
    if AllOpen(env, codec, wheels, ms) { OpenAt(env, codec, wheels, ms, d - 1); }
  }

  lemma {:induction false} OpenAt(env: Env, codec: Codec, wheels: map<int, seq<Entry>>, ms: seq<Mono>, k: nat)
    requires AllOpen(env, codec, wheels, ms) && k < 3
    ensures k + 1 in wheels && Opens(env, codec, wheels[k + 1], k + 1, ms[k])
  {
    assert Opening(env, codec, wheels)(k, ms[k]);
  }

  lemma {:induction false} EachOneMore(good: (int, Mono) -> bool, ms: seq<Mono>, m: Mono)
    requires Each(good, ms) && good(|ms|, m)
    ensures Each(good, ms + [m])
  {
  }

  lemma {:induction false} OpenedAreSane(env: Env, codec: Codec, wheels: map<int, seq<Entry>>, ms: seq<Mono>)
    requires AllOpen(env, codec, wheels, ms)
    ensures AllSane(env, ms)
  {
    forall k | 0 <= k < 3 ensures Sane(env, ms[k], k + 1) {
      OpenAt(env, codec, wheels, ms, k);
      OpenedIsSane(env, codec, wheels[k + 1], k + 1, ms[k]);
    }
  }

  lemma {:induction false} AllOpenOneWay(
      env: Env, codec: Codec, wheels: map<int, seq<Entry>>, ms: seq<Mono>, ns: seq<Mono>)
    requires AllOpen(env, codec, wheels, ms) && AllOpen(env, codec, wheels, ns)
    ensures ms == ns
  {
    forall k | 0 <= k < 3 ensures ms[k] == ns[k] {
      OpenAt(env, codec, wheels, ms, k);
      OpenAt(env, codec, wheels, ns, k);
      OpensOneWay(env, codec, wheels[k + 1], k + 1, ms[k], ns[k]);
    }
  }

  /** Manifest, RECORD and native leaves: the members that may differ between the inputs. */
  function Excluded(ms: seq<Mono>): set<string>
    requires |ms| == 3
  {
    {MANIFEST, ms[0].record, Member(ms[0].row), Member(ms[1].row), Member(ms[2].row)}
  }

  function Common(ms: seq<Mono>, k: nat): map<string, Bytes>
    requires |ms| == 3 && k < 3
  {
    ms[k].files - Excluded(ms)
  }

  /** One input agrees with the first one and with the requested backend. */
  predicate Agrees(ms: seq<Mono>, k: nat, mpi: bool, kokkos: bool)
    requires |ms| == 3 && k < 3
  {
    && ms[k].row.hasMpi == mpi && ms[k].row.hasKokkos == kokkos && ms[k].record == ms[0].record
    && Common(ms, k) == Common(ms, 0) && SameFacts(ms[k].row, ms[0].row)
  }

  predicate Homogeneous(ms: seq<Mono>, mpi: bool, kokkos: bool)
    requires |ms| == 3
  {
    forall k :: 0 <= k < 3 ==> Agrees(ms, k, mpi, kokkos)
  }

  /** The common parts compared name by name, as the source does. */
  method SameCommon(ms: seq<Mono>, k: nat) returns (ok: bool)
    requires |ms| == 3 && k < 3
    ensures ok <==> Common(ms, k) == Common(ms, 0)
  {
    var first, other := Common(ms, 0), Common(ms, k);
    if other.Keys != first.Keys { return false; }
    var names := Reachability.SomeOrder(first.Keys);
    for i := 0 to |names|
      invariant forall j :: 0 <= j < i ==> other[names[j]] == first[names[j]]
    {
      if other[names[i]] != first[names[i]] { return false; }
    }
    forall n | n in first ensures other[n] == first[n] { var j :| 0 <= j < |names| && names[j] == n; }
    return true;
  }

  predicate SameFacts(row: Row, first: Row) {
    && row.version == first.version && CommonAbi(row).Some? && CommonAbi(row) == CommonAbi(first)
    && Basename(row.path) == Basename(first.path)
  }

  method CheckHomogeneous(ms: seq<Mono>, mpi: bool, kokkos: bool) returns (ok: bool)
    requires |ms| == 3
    ensures ok <==> Homogeneous(ms, mpi, kokkos)
  {
    for k := 0 to 3
      invariant forall j :: 0 <= j < k ==> Agrees(ms, j, mpi, kokkos)
    {
      var row := ms[k].row;
      var same := SameCommon(ms, k);
      if row.hasMpi != mpi || row.hasKokkos != kokkos || ms[k].record != ms[0].record || !same
         || !SameFacts(row, ms[0].row)
      {
        assert !Agrees(ms, k, mpi, kokkos);
        return false;
      }
    }
    return true;
  }

  // ----- The assembled payload -----

  predicate HasLeaf(m: Mono) { Member(m.row) in m.files }

  predicate HaveLeaves(ms: seq<Mono>) { |ms| == 3 && forall k :: 0 <= k < 3 ==> HasLeaf(ms[k]) }

  function LeafBytes(m: Mono): Bytes
    requires HasLeaf(m)
  {
    m.files[Member(m.row)]
  }

  /** The row with the digest of the final bytes. */
  function FinalRow(env: Env, m: Mono): Row
    requires HasLeaf(m)
  {
    m.row.(sha := env.sha(LeafBytes(m)))
  }

  function FinalRows(env: Env, ms: seq<Mono>): seq<Row>
    requires HaveLeaves(ms)
  {
    seq(3, k requires 0 <= k < 3 => FinalRow(env, ms[k]))
  }

  /** The native members of the assembled wheel. */
  function Leaves(ms: seq<Mono>): seq<(string, Bytes)>
    requires HaveLeaves(ms)
  {
    seq(3, k requires 0 <= k < 3 => (Member(ms[k].row), LeafBytes(ms[k])))
  }

  function Overlay(files: map<string, Bytes>, leaves: seq<(string, Bytes)>): map<string, Bytes> {
    if leaves == [] then files
    else
      var n := |leaves| - 1;
      Overlay(files, leaves[..n])[leaves[n].0 := leaves[n].1]
  }

  ghost predicate LeavesDistinct(leaves: seq<(string, Bytes)>) {
    forall i, j :: 0 <= i < j < |leaves| ==> leaves[i].0 != leaves[j].0
  }

  lemma {:induction false} OverlayAt(files: map<string, Bytes>, leaves: seq<(string, Bytes)>)
    requires LeavesDistinct(leaves)
    ensures forall k :: 0 <= k < |leaves| ==>
      leaves[k].0 in Overlay(files, leaves) && Overlay(files, leaves)[leaves[k].0] == leaves[k].1
    ensures forall n :: (forall k :: 0 <= k < |leaves| ==> leaves[k].0 != n) ==>
      (n in Overlay(files, leaves) <==> n in files) && (n in files ==> Overlay(files, leaves)[n] == files[n])
  {
    if leaves != [] {
      var n := |leaves| - 1;
      var head := leaves[..n];
      OverlayAt(files, head);
      forall k | 0 <= k < |leaves|
        ensures leaves[k].0 in Overlay(files, leaves) && Overlay(files, leaves)[leaves[k].0] == leaves[k].1
      {
        if k < n { assert head[k] == leaves[k]; }
      }
    }
  }

  /** Everything but the RECORD. */
  function Base(env: Env, codec: Codec, ms: seq<Mono>): map<string, Bytes>
    requires HaveLeaves(ms)
  {
    Overlay(Common(ms, 0), Leaves(ms))[MANIFEST := codec.encodeManifest(Manifest(SCHEMA_VERSION, FinalRows(env, ms)))]
  }

  lemma {:induction false} SaneHasLeaves(env: Env, ms: seq<Mono>)
    requires AllSane(env, ms)
    ensures HaveLeaves(ms)
  {
    forall k | 0 <= k < 3 ensures HasLeaf(ms[k]) { assert Member(ms[k].row) in NativesIn(env, ms[k].files); }
  }

  /** The final rows always form a valid manifest, already in order. */
  lemma {:induction false} FinalRowsAreValid(env: Env, ms: seq<Mono>)
    requires Hashes(env) && AllSane(env, ms) && HaveLeaves(ms)
    ensures Payload(env, FinalRows(env, ms)) == Ok(Manifest(SCHEMA_VERSION, FinalRows(env, ms)))
    ensures ValidRows(env, FinalRows(env, ms))
  {
    var rows := FinalRows(env, ms);
    forall i | 0 <= i < |rows| ensures ValidRow(env, rows[i]) && rows[i].dimension == i + 1 {
      assert rows[i] == FinalRow(env, ms[i]);
      FinalRowIsValid(env, ms[i], i + 1);
    }
    PayloadOfClimbing(env, rows);
  }

  lemma {:induction false} FinalRowIsValid(env: Env, m: Mono, d: int)
    requires Hashes(env) && Sane(env, m, d) && HasLeaf(m)
    ensures ValidRow(env, FinalRow(env, m)) && FinalRow(env, m).dimension == d
  {
    assert IsDigest(env.sha(LeafBytes(m)));
  }

  lemma {:induction false} PayloadOfClimbing(env: Env, rows: seq<Row>)
    requires rows != [] && forall i :: 0 <= i < |rows| ==> ValidRow(env, rows[i]) && rows[i].dimension == i + 1
    ensures Payload(env, rows) == Ok(Manifest(SCHEMA_VERSION, rows)) && ValidRows(env, rows)
  {
    ClimbingIsSorted(rows);
    ValidateIsExact(env, Manifest(SCHEMA_VERSION, rows));
  }

  // ----- The proof of the final leaves -----

  /** Loading a leaf in a fresh process, and its code signature. */
  datatype Loader = Loader(facts: Bytes -> Option<Facts>, signed: Bytes -> bool)

  function FactsOf(row: Row): Facts { Facts(row.dimension, row.version, row.abi, row.hasMpi, row.hasKokkos) }

  predicate Proven(loader: Loader, adhoc: bool, bytes: Bytes, row: Row) {
    (adhoc ==> loader.signed(bytes)) && loader.facts(bytes) == Some(FactsOf(row))
  }

  function Under(name: string): string
    requires StartsWith(name, NATIVE_ROOT)
    ensures NATIVE_ROOT + Under(name) == name
  {
    name[|NATIVE_ROOT|..]
  }

  /** The directories above a member. */
  function Ancestors(name: string): set<string> { set i | 0 <= i < |name| && name[i] == '/' :: name[..i] }

  /** No member is the extraction directory itself, and none is a directory of another one. */
  ghost predicate Extractable(members: set<string>) {
    "." !in members && forall n :: n in members ==> Ancestors(n) !! members
  }

  /**
   Writing every member below a fresh directory, making parents as needed: fails on the directory
   itself, on a file where a directory is needed, and on a directory where a file is needed.
   */
  method ExtractAll(members: set<string>) returns (ok: bool)
    ensures ok <==> Extractable(members)
  {
    var names := SortedNames(members);
    var files: set<string>, directories: set<string> := {}, {};
    for k := 0 to |names|
      invariant Written(names[..k], files, directories)
    {
      var name := names[k];
      assert name in Elements(names);
      if name == "." || name in directories || Ancestors(name) * files != {} {
        Clash(names, k, files, directories);
        return false;
      }
      WriteOne(names, k, files, directories);
      files, directories := files + {name}, directories + Ancestors(name);
    }
    assert names[..|names|] == names;
    return true;
  }

  /** The files and directories on disk once the given members have been written. */
  ghost predicate Written(names: seq<string>, files: set<string>, directories: set<string>) {
    && files == Elements(names) && "." !in files && files !! directories
    && (forall n :: n in names ==> Ancestors(n) <= directories)
    && (forall a :: a in directories ==> exists n :: n in names && a in Ancestors(n))
  }

  lemma {:induction false} WriteOne(names: seq<string>, k: nat, files: set<string>, directories: set<string>)
    requires k < |names| && Written(names[..k], files, directories)
    requires names[k] != "." && names[k] !in directories && Ancestors(names[k]) * files == {}
    ensures Written(names[..k + 1], files + {names[k]}, directories + Ancestors(names[k]))
  {
    var name, before, after := names[k], names[..k], names[..k + 1];
    assert after == before + [name];
    assert forall n :: n in after <==> n in before || n == name;
    assert name !in Ancestors(name);
    assert forall f :: f in files && f in Ancestors(name) ==> f in Ancestors(name) * files;
    forall a | a in directories + Ancestors(name) ensures exists n :: n in after && a in Ancestors(n) {
      if a in directories {
        var n :| n in before && a in Ancestors(n);
        assert n in after;
      } else {
        assert name in after;
      }
    }
  }

  lemma {:induction false} Clash(names: seq<string>, k: nat, files: set<string>, directories: set<string>)
    requires k < |names| && Written(names[..k], files, directories)
    requires names[k] == "." || names[k] in directories || Ancestors(names[k]) * files != {}
    ensures !Extractable(Elements(names))
  {
    var name, all := names[k], Elements(names);
    assert name in all && forall n :: n in names[..k] ==> n in all;
    if name in directories {
      var n :| n in names[..k] && name in Ancestors(n);
      assert !(Ancestors(n) !! all);
    } else if name != "." {
      var a :| a in Ancestors(name) * files;
      assert a in names[..k];
      assert !(Ancestors(name) !! all);
    }
  }

  /** The native root of the extracted wheel. */
  function Extracted(codec: Codec, files: map<string, Bytes>): Tree
    requires MANIFEST in files
  {
    Tree(codec.decodeManifest(files[MANIFEST]),
         map n | n in files && StartsWith(n, NATIVE_ROOT) :: Under(n) := files[n])
  }

  function ProofRequest(row: Row, facts: Facts): Request { Request(row.path, row.dimension, row.version, facts) }

  /**
   Re-proving a row of an authenticated tree: the update returns that very row exactly when the
   loaded facts are the row's own, and then it changes nothing.
   */
  lemma {:induction false} ProofStep(env: Env, t: Tree, row: Row, facts: Facts)
    requires Hashes(env) && Authenticated(env, t) && row in t.manifest.value.rows
    ensures var (after, r) := Updated(env, t, ProofRequest(row, facts));
      && (r.Ok? ==> |Select(OfDimension(row.dimension), r.value)| == 1)
      && (facts == FactsOf(row) <==> r.Ok? && Select(OfDimension(row.dimension), r.value) == [row])
      && (facts == FactsOf(row) ==> after == t)
  {
    var q, bytes := ProofRequest(row, facts), t.files[row.path];
    assert Built(t, q, bytes) == t;
    UpdateIsExact(env, t, q, bytes);
    HealthyTable(env, t);
    if Sound(env, q) {
      var built := BuiltRow(env, q, bytes);
      ProofRow(env, t, q, bytes);
      assert built == row <==> facts == FactsOf(row);
      if facts == FactsOf(row) { SameTable(env, t, row); }
    } else {
      assert facts != FactsOf(row);
    }
  }

  lemma {:induction false} ProofRow(env: Env, t: Tree, q: Request, bytes: Bytes)
    requires Hashes(env) && Healthy(env, t) && Sound(env, q) && Built(t, q, bytes) == t
    ensures var r := Updated(env, t, q).1;
      r.Ok? && Select(OfDimension(q.dimension), r.value) == [BuiltRow(env, q, bytes)]
  {
    UpdateIsExact(env, t, q, bytes);
    UpdateFailsClosed(env, t, q);
    BuiltTable(env, t, q, bytes);
    var rows := Updated(env, t, q).1.value;
    assert DimensionsUnique(rows);
    SelectDimension(rows, q.dimension);
  }

  lemma {:induction false} SameTable(env: Env, t: Tree, row: Row)
    requires Authenticated(env, t) && row in t.manifest.value.rows
    ensures t.manifest == Some(Manifest(SCHEMA_VERSION, Canon(TableOf(t)[row.dimension := row])))
  {
    var rows := t.manifest.value.rows;
    ClimbingIsCanon(env, rows);
    TableFinds(rows, row);
    assert Table(rows)[row.dimension := row] == Table(rows);
  }

  /** Every leaf of the extracted wheel is loaded and its row compared with the manifest's. */
  method ProveFinalWheel(env: Env, loader: Loader, t: Tree, adhoc: bool) returns (ok: bool)
    requires Hashes(env) && Authenticated(env, t)
    ensures ok <==> forall i :: 0 <= i < |t.manifest.value.rows| ==>
      Proven(loader, adhoc, t.files[t.manifest.value.rows[i].path], t.manifest.value.rows[i])
  {
    var rows := t.manifest.value.rows;
    var root := new NativeRoot(t);
    for i := 0 to |rows|
      invariant root.Tree() == t && fresh(root)
      invariant forall j :: 0 <= j < i ==> Proven(loader, adhoc, t.files[rows[j].path], rows[j])
    {
      var bytes := t.files[rows[i].path];
      if adhoc && !loader.signed(bytes) { return false; }
      var facts := loader.facts(bytes);
      if facts.None? { return false; }
      ProofStep(env, t, rows[i], facts.value);
      var r := root.Update(env, ProofRequest(rows[i], facts.value));
      if r.Err? { return false; }
      if Select(OfDimension(rows[i].dimension), r.value)[0] != rows[i] { return false; }
    }
    return true;
  }

  // ----- The files of the assembled wheel -----

  lemma {:induction false} MembersDiffer(env: Env, ms: seq<Mono>, j: nat, k: nat)
    requires AllSane(env, ms) && j < k < 3
    ensures Member(ms[j].row) != Member(ms[k].row)
  {
    RowIsValid(env, ms, j);
    RowIsValid(env, ms, k);
    RowsDiffer(env, ms[j].row, ms[k].row);
  }

  lemma {:induction false} RowIsValid(env: Env, ms: seq<Mono>, k: nat)
    requires AllSane(env, ms) && k < 3
    ensures ValidRow(env, ms[k].row) && ms[k].row.dimension == k + 1
  {
    assert Sanity(env)(k, ms[k]);
  }

  lemma {:induction false} RowsDiffer(env: Env, a: Row, b: Row)
    requires ValidRow(env, a) && ValidRow(env, b) && a.dimension != b.dimension
    ensures Member(a) != Member(b)
  {
    LeavesDiffer(env, a.dimension, a.path, b.dimension, b.path);
    assert Member(a)[|NATIVE_ROOT|..] == a.path && Member(b)[|NATIVE_ROOT|..] == b.path;
  }

  lemma {:induction false} MemberIsNotManifest(env: Env, row: Row)
    requires ValidRow(env, row)
    ensures Member(row) != MANIFEST
  {
    assert row.path[0] == 'd';
    assert Member(row)[|NATIVE_ROOT|] == 'd' && MANIFEST[|NATIVE_ROOT|] == 'v';
  }

  lemma {:induction false} ManifestIsNotRecord()
    ensures !EndsWith(MANIFEST, RECORD_END)
  {
    assert MANIFEST[|MANIFEST| - 1] == 'n' && RECORD_END[|RECORD_END| - 1] == 'D';
  }

  lemma {:induction false} DistinctLeaves(env: Env, ms: seq<Mono>)
    requires AllSane(env, ms) && HaveLeaves(ms)
    ensures LeavesDistinct(Leaves(ms))
  {
    var leaves := Leaves(ms);
    forall i, j | 0 <= i < j < |leaves| ensures leaves[i].0 != leaves[j].0 { MembersDiffer(env, ms, i, j); }
  }

  lemma {:induction false} RecordIsApart(env: Env, m: Mono, d: int)
    requires Sane(env, m, d)
    ensures m.record in m.files && EndsWith(m.record, RECORD_END) && MANIFEST != m.record && !IsNative(env, m.record)
  {
    assert m.record in RecordsIn(m.files);
    RecordIsNotNative(env, m.record);
    ManifestIsNotRecord();
  }

  ghost predicate IsLeaf(ms: seq<Mono>, n: string)
    requires |ms| == 3
  {
    exists k :: 0 <= k < 3 && n == Member(ms[k].row)
  }

  /** The leaf of dimension `k + 1` reaches the payload unchanged. */
  lemma {:induction false} LeafIsCarried(env: Env, codec: Codec, ms: seq<Mono>, k: nat)
    requires AllSane(env, ms) && HaveLeaves(ms) && k < 3
    ensures Member(ms[k].row) in Base(env, codec, ms) && Base(env, codec, ms)[Member(ms[k].row)] == LeafBytes(ms[k])
  {
    DistinctLeaves(env, ms);
    RowIsValid(env, ms, k);
    MemberIsNotManifest(env, ms[k].row);
    CarriedAt(env, codec, ms, k);
  }

  lemma {:induction false} CarriedAt(env: Env, codec: Codec, ms: seq<Mono>, k: nat)
    requires HaveLeaves(ms) && k < 3 && LeavesDistinct(Leaves(ms)) && Member(ms[k].row) != MANIFEST
    ensures Member(ms[k].row) in Base(env, codec, ms) && Base(env, codec, ms)[Member(ms[k].row)] == LeafBytes(ms[k])
  {
    OverlayAt(Common(ms, 0), Leaves(ms));
    assert Leaves(ms)[k] == (Member(ms[k].row), LeafBytes(ms[k]));
  }

  /** Where each payload file comes from. */
  lemma {:induction false} BaseOrigin(env: Env, codec: Codec, ms: seq<Mono>, n: string)
    requires AllSane(env, ms) && HaveLeaves(ms)
    ensures n in Base(env, codec, ms) <==> n == MANIFEST || IsLeaf(ms, n) || n in Common(ms, 0)
    ensures n in Common(ms, 0) ==> n in Base(env, codec, ms) && Base(env, codec, ms)[n] == ms[0].files[n]
  {
    DistinctLeaves(env, ms);
    OverlayKeys(Common(ms, 0), Leaves(ms), n);
    LeafIsNamed(ms, n);
    LeavesAreExcluded(ms, n);
  }

  ghost predicate Named(leaves: seq<(string, Bytes)>, n: string) { exists k :: 0 <= k < |leaves| && leaves[k].0 == n }

  lemma {:induction false} LeafIsNamed(ms: seq<Mono>, n: string)
    requires HaveLeaves(ms)
    ensures IsLeaf(ms, n) <==> Named(Leaves(ms), n)
  {
    var leaves := Leaves(ms);
    assert forall k :: 0 <= k < 3 ==> leaves[k].0 == Member(ms[k].row);
    if IsLeaf(ms, n) {
      var k :| 0 <= k < 3 && n == Member(ms[k].row);
      assert leaves[k].0 == n;
    }
  }

  lemma {:induction false} OverlayKeys(files: map<string, Bytes>, leaves: seq<(string, Bytes)>, n: string)
    requires LeavesDistinct(leaves)
    ensures n in Overlay(files, leaves) <==> n in files || Named(leaves, n)
    ensures n in files && !Named(leaves, n) ==> n in Overlay(files, leaves) && Overlay(files, leaves)[n] == files[n]
  {
    OverlayAt(files, leaves);
    assert !Named(leaves, n) <==> forall k :: 0 <= k < |leaves| ==> leaves[k].0 != n;
  }

  lemma {:induction false} LeavesAreExcluded(ms: seq<Mono>, n: string)
    requires |ms| == 3
    ensures IsLeaf(ms, n) || n == MANIFEST || n == ms[0].record <==> n in Excluded(ms)
  {
    assert IsLeaf(ms, n) <==> n == Member(ms[0].row) || n == Member(ms[1].row) || n == Member(ms[2].row);
  }

  /** A wheel's own native member is its only one, so the other dimensions' leaves are not in it. */
  lemma {:induction false} CommonIsPlain(env: Env, ms: seq<Mono>, k: nat, n: string)
    requires AllSane(env, ms) && k < 3 && ms[k].record == ms[0].record && n in Common(ms, k)
    ensures !IsNative(env, n) && !EndsWith(n, RECORD_END)
  {
    NotExcluded(ms, k, n);
    assert Sanity(env)(k, ms[k]);
    OrdinaryMember(env, ms[k], k + 1, n);
  }

  lemma {:induction false} NotExcluded(ms: seq<Mono>, k: nat, n: string)
    requires |ms| == 3 && k < 3 && n in Common(ms, k)
    ensures n in ms[k].files && n != Member(ms[k].row) && n != ms[0].record && n != MANIFEST
  {
    assert Member(ms[k].row) in Excluded(ms) && ms[0].record in Excluded(ms) && MANIFEST in Excluded(ms);
  }

  lemma {:induction false} OrdinaryMember(env: Env, m: Mono, d: int, n: string)
    requires Sane(env, m, d) && n in m.files && n != Member(m.row) && n != m.record
    ensures !IsNative(env, n) && !EndsWith(n, RECORD_END)
  {
    assert n in NativesIn(env, m.files) <==> IsNative(env, n);
    assert n in RecordsIn(m.files) <==> EndsWith(n, RECORD_END);
  }

  /** Every payload file, and the RECORD, bears the name of some input file. */
  lemma {:induction false} NamesAreInherited(env: Env, codec: Codec, ms: seq<Mono>, n: string)
    requires AllSane(env, ms) && HaveLeaves(ms) && (n in Base(env, codec, ms) || n == ms[0].record)
    ensures n in ms[0].files || n in ms[1].files || n in ms[2].files
  {
    if n in Base(env, codec, ms) { BaseOrigin(env, codec, ms, n); }
    InputNames(env, ms, n);
  }

  lemma {:induction false} InputNames(env: Env, ms: seq<Mono>, n: string)
    requires AllSane(env, ms) && HaveLeaves(ms)
    requires n == ms[0].record || n == MANIFEST || IsLeaf(ms, n) || n in Common(ms, 0)
    ensures n in ms[0].files || n in ms[1].files || n in ms[2].files
  {
    if IsLeaf(ms, n) {
      LeafIsInput(ms, n);
    } else {
      assert Sanity(env)(0, ms[0]);
      FixedNames(env, ms[0]);
    }
  }

  lemma {:induction false} LeafIsInput(ms: seq<Mono>, n: string)
    requires HaveLeaves(ms) && IsLeaf(ms, n)
    ensures n in ms[0].files || n in ms[1].files || n in ms[2].files
  {
    var k :| 0 <= k < 3 && n == Member(ms[k].row);
    assert HasLeaf(ms[k]);
  }

  lemma {:induction false} FixedNames(env: Env, m: Mono)
    requires Sane(env, m, 1)
    ensures MANIFEST in m.files && m.record in m.files
  {
    assert m.record in RecordsIn(m.files);
  }

  /** No payload file is a RECORD, and the native ones are the three leaves. */
  lemma {:induction false} BaseNames(env: Env, codec: Codec, ms: seq<Mono>, n: string)
    requires AllSane(env, ms) && HaveLeaves(ms) && n in Base(env, codec, ms)
    ensures !EndsWith(n, RECORD_END)
    ensures IsNative(env, n) <==> IsLeaf(ms, n)
  {
    BaseOrigin(env, codec, ms, n);
    if n == MANIFEST {
      ManifestIsPlain(env, ms);
    } else if IsLeaf(ms, n) {
      var k :| 0 <= k < 3 && n == Member(ms[k].row);
      LeafIsPlain(env, ms, k);
    } else {
      CommonIsPlain(env, ms, 0, n);
    }
  }

  lemma {:induction false} ManifestIsPlain(env: Env, ms: seq<Mono>)
    requires AllSane(env, ms)
    ensures !EndsWith(MANIFEST, RECORD_END)
    ensures !IsNative(env, MANIFEST) && !IsLeaf(ms, MANIFEST)
  {
    ManifestIsNotRecord();
    forall k | 0 <= k < 3 ensures Member(ms[k].row) != MANIFEST {
      RowIsValid(env, ms, k);
      MemberIsNotManifest(env, ms[k].row);
    }
    assert Sanity(env)(0, ms[0]);
    SaneManifest(env, ms[0], 1);
  }

  lemma {:induction false} SaneManifest(env: Env, m: Mono, d: int)
    requires Sane(env, m, d)
    ensures !IsNative(env, MANIFEST)
  {
    MemberIsNotManifest(env, m.row);
    assert MANIFEST in m.files;
    assert MANIFEST in NativesIn(env, m.files) <==> IsNative(env, MANIFEST);
  }

  lemma {:induction false} LeafIsPlain(env: Env, ms: seq<Mono>, k: nat)
    requires AllSane(env, ms) && k < 3
    ensures var n := Member(ms[k].row); !EndsWith(n, RECORD_END) && IsNative(env, n)
  {
    var n := Member(ms[k].row);
    assert n in NativesIn(env, ms[k].files);
    if EndsWith(n, RECORD_END) { RecordIsNotNative(env, n); }
  }

  /** The assembled tree authenticates its own manifest. */
  lemma {:induction false} AssembledIsAuthentic(env: Env, codec: Codec, ms: seq<Mono>)
    requires Hashes(env) && RoundTrips(codec) && AllSane(env, ms) && HaveLeaves(ms)
    ensures MANIFEST in Base(env, codec, ms)
    ensures var t := Extracted(codec, Base(env, codec, ms));
      && t.manifest == Some(Manifest(SCHEMA_VERSION, FinalRows(env, ms))) && Authenticated(env, t)
      && forall k :: 0 <= k < 3 ==> ms[k].row.path in t.files && t.files[ms[k].row.path] == LeafBytes(ms[k])
  {
    var files := Base(env, codec, ms);
    FinalRowsAreValid(env, ms);
    var t := Extracted(codec, files);
    forall k | 0 <= k < 3 ensures ms[k].row.path in t.files && t.files[ms[k].row.path] == LeafBytes(ms[k]) {
      LeafIsCarried(env, codec, ms, k);
      ExtractedAt(codec, files, ms[k].row.path);
    }
    var rows := FinalRows(env, ms);
    forall k | 0 <= k < |rows| ensures Matches(env, t.files, rows[k]) { assert rows[k] == FinalRow(env, ms[k]); }
  }

  lemma {:induction false} ExtractedAt(codec: Codec, files: map<string, Bytes>, path: string)
    requires MANIFEST in files && NATIVE_ROOT + path in files
    ensures path in Extracted(codec, files).files && Extracted(codec, files).files[path] == files[NATIVE_ROOT + path]
  {
    var n := NATIVE_ROOT + path;
    assert StartsWith(n, NATIVE_ROOT) && Under(n) == path;
  }

  // ----- The whole assembly -----

  datatype Assembly = Assembly(inputs: seq<Mono>, wheel: seq<Entry>)

  /** The wheel holds the given files as plain members in sorted order. */
  ghost predicate IsWheelOf(files: map<string, Bytes>, wheel: seq<Entry>) {
    && Orders(MemberNames(wheel), files.Keys)
    && forall i :: 0 <= i < |wheel| ==>
         wheel[i].name in files && wheel[i] == Entry(wheel[i].name, false, files[wheel[i].name])
  }

  method WriteWheel(files: map<string, Bytes>) returns (wheel: seq<Entry>)
    ensures IsWheelOf(files, wheel)
  {
    var names := SortedNames(files.Keys);
    OrderedIn(names, files);
    wheel := [];
    for i := 0 to |names|
      invariant |wheel| == i && forall j :: 0 <= j < i ==> wheel[j] == Entry(names[j], false, files[names[j]])
    {
      wheel := wheel + [Entry(names[i], false, files[names[i]])];
    }
    assert MemberNames(wheel) == names;
  }

  ghost predicate Publishes(env: Env, codec: Codec, ms: seq<Mono>, wheel: seq<Entry>)
    requires HaveLeaves(ms)
  {
    exists bytes ::
      && IsRecordOf(codec, Base(env, codec, ms), ms[0].record, bytes)
      && IsWheelOf(Base(env, codec, ms)[ms[0].record := bytes], wheel)
  }

  /** The three inputs open, agree, the wheel extracts, and every final leaf proves its row. */
  ghost predicate Assembles(
      env: Env, codec: Codec, loader: Loader, wheels: map<int, seq<Entry>>, mpi: bool, kokkos: bool, adhoc: bool,
      ms: seq<Mono>)
  {
    && AllOpen(env, codec, wheels, ms) && Homogeneous(ms, mpi, kokkos) && HaveLeaves(ms)
    && Extractable(Base(env, codec, ms).Keys + {ms[0].record})
    && forall k :: 0 <= k < 3 ==> Proven(loader, adhoc, LeafBytes(ms[k]), FinalRow(env, ms[k]))
  }

  method BuildBase(env: Env, codec: Codec, ms: seq<Mono>) returns (files: map<string, Bytes>)
    requires HaveLeaves(ms) && Payload(env, FinalRows(env, ms)) == Ok(Manifest(SCHEMA_VERSION, FinalRows(env, ms)))
    ensures files == Base(env, codec, ms)
  {
    var rows;
    files, rows := OverlayLeaves(env, ms);
    var manifest := Payload(env, rows);
    files := files[MANIFEST := codec.encodeManifest(manifest.value)];
  }

  method OverlayLeaves(env: Env, ms: seq<Mono>) returns (files: map<string, Bytes>, rows: seq<Row>)
    requires HaveLeaves(ms)
    ensures files == Overlay(Common(ms, 0), Leaves(ms)) && rows == FinalRows(env, ms)
  {
    ghost var leaves := Leaves(ms);
    files := Common(ms, 0);
    rows := [];
    for k := 0 to 3
      invariant rows == FinalRows(env, ms)[..k]
      invariant files == Overlay(Common(ms, 0), leaves[..k])
    {
      assert leaves[..k + 1][..k] == leaves[..k];
      files := files[Member(ms[k].row) := LeafBytes(ms[k])];
      rows := rows + [FinalRow(env, ms[k])];
    }
    assert leaves[..3] == leaves;
  }

  /** Assembles and proves one exact three-dimension wheel, or publishes nothing. */
  method Assemble(
      env: Env, codec: Codec, loader: Loader, wheels: map<int, seq<Entry>>, mpi: bool, kokkos: bool, adhoc: bool)
    returns (r: Option<Assembly>)
    requires Hashes(env) && RoundTrips(codec)
    ensures r.Some? ==> Assembles(env, codec, loader, wheels, mpi, kokkos, adhoc, r.value.inputs)
    ensures r.Some? ==> Publishes(env, codec, r.value.inputs, r.value.wheel)
    ensures r.None? ==> forall ms :: !Assembles(env, codec, loader, wheels, mpi, kokkos, adhoc, ms)
  {
    var all := OpenAll(env, codec, wheels);
    if all.None? { return None; }
    var ms := all.value;
    OpenedAreSane(env, codec, wheels, ms);
    SaneHasLeaves(env, ms);
    var same := CheckHomogeneous(ms, mpi, kokkos);
    var proven := false;
    var wheel: seq<Entry> := [];
    if same {
      FinalRowsAreValid(env, ms);
      var base := BuildBase(env, codec, ms);
      var bytes := RecordBytes(codec, base, ms[0].record);
      wheel := WriteWheel(base[ms[0].record := bytes]);
      assert Publishes(env, codec, ms, wheel);
      proven := ProveFiles(env, codec, loader, ms, base, adhoc);
    }
    if !proven {
      forall other ensures !Assembles(env, codec, loader, wheels, mpi, kokkos, adhoc, other) {
        if AllOpen(env, codec, wheels, other) { AllOpenOneWay(env, codec, wheels, ms, other); }
      }
      return None;
    }
    return Some(Assembly(ms, wheel));
  }

  /** Extracts the files of the final wheel and proves its leaves. */
  method ProveFiles(env: Env, codec: Codec, loader: Loader, ms: seq<Mono>, base: map<string, Bytes>, adhoc: bool)
    returns (ok: bool)
    requires Hashes(env) && RoundTrips(codec) && AllSane(env, ms) && HaveLeaves(ms) && base == Base(env, codec, ms)
    ensures ok <==>
      && Extractable(base.Keys + {ms[0].record})
      && forall k :: 0 <= k < 3 ==> Proven(loader, adhoc, LeafBytes(ms[k]), FinalRow(env, ms[k]))
  {
    ok := ExtractAll(base.Keys + {ms[0].record});
    if ok {
      AssembledIsAuthentic(env, codec, ms);
      ok := ProveFinalWheel(env, loader, Extracted(codec, base), adhoc);
      ProvenLeaves(env, codec, loader, adhoc, ms);
    }
  }

  lemma {:induction false} ProvenLeaves(env: Env, codec: Codec, loader: Loader, adhoc: bool, ms: seq<Mono>)
    requires Hashes(env) && RoundTrips(codec) && AllSane(env, ms) && HaveLeaves(ms)
    ensures MANIFEST in Base(env, codec, ms)
    ensures var t := Extracted(codec, Base(env, codec, ms));
      && t.manifest == Some(Manifest(SCHEMA_VERSION, FinalRows(env, ms)))
      && (forall k :: 0 <= k < 3 ==> FinalRows(env, ms)[k].path in t.files)
      && ((forall k :: 0 <= k < |FinalRows(env, ms)| ==>
            Proven(loader, adhoc, t.files[FinalRows(env, ms)[k].path], FinalRows(env, ms)[k]))
          <==> forall k :: 0 <= k < 3 ==> Proven(loader, adhoc, LeafBytes(ms[k]), FinalRow(env, ms[k])))
  {
    AssembledIsAuthentic(env, codec, ms);
    ProvenAll(env, loader, adhoc, ms, Extracted(codec, Base(env, codec, ms)).files);
  }

  lemma {:induction false} ProvenAll(env: Env, loader: Loader, adhoc: bool, ms: seq<Mono>, files: map<string, Bytes>)
    requires HaveLeaves(ms)
    requires forall k :: 0 <= k < 3 ==> ms[k].row.path in files && files[ms[k].row.path] == LeafBytes(ms[k])
    ensures forall k :: 0 <= k < 3 ==> FinalRows(env, ms)[k].path in files
    ensures (forall k :: 0 <= k < |FinalRows(env, ms)| ==>
              Proven(loader, adhoc, files[FinalRows(env, ms)[k].path], FinalRows(env, ms)[k]))
       <==> forall k :: 0 <= k < 3 ==> Proven(loader, adhoc, LeafBytes(ms[k]), FinalRow(env, ms[k]))
  {
    var rows := FinalRows(env, ms);
    assert forall k :: 0 <= k < 3 ==> rows[k] == FinalRow(env, ms[k]) && rows[k].path == ms[k].row.path;
  }
}
