/**
 The native part of the release preflight (`scripts/release_preflight.py`), and its agreement with
 the assembler: what one publishes the other accepts, and what it accepts is what RECORD says.
 */
module ReleasePreflight {
  import opened Wrappers
  import opened Strings
  import opened Sorting
  import opened VariantManifest
  import opened NativeTree
  import opened ManifestRuns
  import opened WheelNames
  import opened WheelRecord
  import opened FatWheel

  // ----- The verifier -----

  /** One row's leaf, version, backend and ABI are what the release lane promises. */
  predicate LaneRow(env: Env, files: map<string, Bytes>, version: string, row: Row) {
    && Member(row) in files && env.sha(files[Member(row)]) == row.sha
    && row.version == version && !row.hasMpi && row.hasKokkos && CommonAbi(row).Some?
  }

  /** Every row fits the lane and all share one ABI prefix. */
  ghost predicate LaneRows(env: Env, files: map<string, Bytes>, version: string, rows: seq<Row>) {
    && (forall i :: 0 <= i < |rows| ==> LaneRow(env, files, version, rows[i]))
    && (forall i, j :: 0 <= i < |rows| && 0 <= j < |rows| ==> CommonAbi(rows[i]) == CommonAbi(rows[j]))
  }

  ghost function MembersOf(rows: seq<Row>): set<string> { set i | 0 <= i < |rows| :: Member(rows[i]) }

  /** The manifest lists dimensions 1, 2 and 3, and its leaves are exactly the native members. */
  ghost predicate FatManifest(env: Env, codec: Codec, files: map<string, Bytes>, rows: seq<Row>) {
    && MANIFEST in files && codec.decodeManifest(files[MANIFEST]).Some?
    && Validate(env, codec.decodeManifest(files[MANIFEST]).value) == Ok(rows)
    && Dimensions(rows) == [1, 2, 3] && NativesIn(env, files) == MembersOf(rows)
  }

  ghost predicate Conforms(env: Env, codec: Codec, wheel: seq<Entry>, version: string, record: string, rows: seq<Row>) {
    && Archive(codec, wheel, FilesOf(wheel), record)
    && FatManifest(env, codec, FilesOf(wheel), rows) && LaneRows(env, FilesOf(wheel), version, rows)
  }

  method CheckManifest(env: Env, codec: Codec, files: map<string, Bytes>) returns (r: Option<seq<Row>>)
    requires MANIFEST in files
    ensures r.Some? ==> FatManifest(env, codec, files, r.value)
    ensures r.None? ==> forall rows :: !FatManifest(env, codec, files, rows)
  {
    var manifest := codec.decodeManifest(files[MANIFEST]);
    if manifest.None? { return None; }
    var valid := Validate(env, manifest.value);
    if valid.Err? { return None; }
    var rows := valid.value;
    if Dimensions(rows) != [1, 2, 3] { return None; }
    var expected := set i | 0 <= i < |rows| :: Member(rows[i]);
    if NativesIn(env, files) != expected { return None; }
    return Some(rows);
  }

  /** The loop that checks each leaf and collects the ABI prefixes. */
  method CheckLane(env: Env, files: map<string, Bytes>, version: string, rows: seq<Row>) returns (ok: bool)
    requires rows != []
    ensures ok <==> LaneRows(env, files, version, rows)
  {
    var common: set<Option<string>> := {};
    for i := 0 to |rows|
      invariant forall j :: 0 <= j < i ==> LaneRow(env, files, version, rows[j])
      invariant common == set j | 0 <= j < i :: CommonAbi(rows[j])
    {
      if !LaneRow(env, files, version, rows[i]) { return false; }
      common := common + {CommonAbi(rows[i])};
    }
    Singleton(common, CommonAbi(rows[0]));
    ok := |common| == 1;
    if ok {
      forall i | 0 <= i < |rows| ensures CommonAbi(rows[i]) == CommonAbi(rows[0]) {
        assert CommonAbi(rows[i]) in common;
      }
    } else if LaneRows(env, files, version, rows) {
      assert forall x :: x in common <==> x == CommonAbi(rows[0]);
    }
  }

  /** Accepts exactly the conforming wheels, and returns their manifest bytes and rows. */
  method NativeContract(env: Env, codec: Codec, wheel: seq<Entry>, version: string)
    returns (r: Option<(Bytes, seq<Row>)>)
    ensures r.Some? <==> exists record, rows :: Conforms(env, codec, wheel, version, record, rows)
    ensures r.Some? ==> exists record ::
      Conforms(env, codec, wheel, version, record, r.value.1) && r.value.0 == FilesOf(wheel)[MANIFEST]
  {
    var archive := OpenArchive(codec, wheel);
    if archive.None? { return None; }
    var (files, record) := archive.value;
    var manifest := CheckManifest(env, codec, files);
    if manifest.None? { return None; }
    var rows := manifest.value;
    assert |Dimensions(rows)| == 3;
    var lane := CheckLane(env, files, version, rows);
    if !lane { return None; }
    assert Conforms(env, codec, wheel, version, record, rows);
    return Some((files[MANIFEST], rows));
  }

  /** An accepted wheel installs an authenticated native tree. */
  lemma {:induction false} AcceptedIsAuthentic(
      env: Env, codec: Codec, wheel: seq<Entry>, version: string, record: string, rows: seq<Row>)
    requires Conforms(env, codec, wheel, version, record, rows)
    ensures Authenticated(env, Extracted(codec, FilesOf(wheel)))
  {
    var files := FilesOf(wheel);
    var t := Extracted(codec, files);
    ValidateIsExact(env, t.manifest.value);
    forall i | 0 <= i < |rows| ensures Matches(env, t.files, rows[i]) {
      assert LaneRow(env, files, version, rows[i]);
      ExtractedAt(codec, files, rows[i].path);
    }
  }

  /** Two accepted wheels with the same RECORD have the same files: changing any member is refused. */
  lemma {:induction false} TamperingIsRefused(
      env: Env, codec: Codec, version: string, a: seq<Entry>, b: seq<Entry>, record: string,
      rows: seq<Row>, other: seq<Row>)
    requires Separates(codec, FilesOf(a), FilesOf(b))
    requires Conforms(env, codec, a, version, record, rows) && Conforms(env, codec, b, version, record, other)
    requires FilesOf(a)[record] == FilesOf(b)[record]
    ensures FilesOf(a) == FilesOf(b) && rows == other
  {
    RecordPinsFiles(codec, FilesOf(a), FilesOf(b), record);
  }

  // ----- Agreement -----

  /** The files of a published wheel are the assembled payload with its RECORD. */
  lemma {:induction false} PublishedFiles(files: map<string, Bytes>, wheel: seq<Entry>)
    requires IsWheelOf(files, wheel) && Every(IsFile, files.Keys)
    ensures Distinct(MemberNames(wheel)) && FilesOf(wheel) == files
  {
    var names := MemberNames(wheel);
    StringLessIsStrictTotal();
    assert Distinct(names);
    FilesAreEntries(wheel);
    forall n ensures n in FilesOf(wheel) <==> n in files {
      if n in FilesOf(wheel) { assert n in Elements(names); }
      if n in files {
        assert n in Elements(names);
        var i :| 0 <= i < |names| && names[i] == n;
        assert wheel[i].name == n;
      }
    }
    forall n | n in files ensures FilesOf(wheel)[n] == files[n] {
      assert n in Elements(names);
      var i :| 0 <= i < |names| && names[i] == n;
      assert wheel[i].name == n;
    }
  }

  /** The inputs opened, agree, and the wheel was published from them. */
  ghost predicate Released(env: Env, codec: Codec, ms: seq<Mono>, mpi: bool, kokkos: bool, wheel: seq<Entry>) {
    AllSane(env, ms) && HaveLeaves(ms) && Homogeneous(ms, mpi, kokkos) && Publishes(env, codec, ms, wheel)
  }

  /** A payload that lacks only its RECORD. */
  ghost predicate Packable(files: map<string, Bytes>, record: string) {
    && MANIFEST in files && MANIFEST != record && EndsWith(record, RECORD_END) && Every(NoRecord, files.Keys)
    && Every(IsFile, files.Keys + {record}) && Every(SafeMember, files.Keys + {record})
  }

  predicate NoRecord(n: string) { !EndsWith(n, RECORD_END) }

  lemma {:induction false} EveryPart(good: string -> bool, some: set<string>, all: set<string>)
    requires Every(good, all) && some <= all
    ensures Every(good, some)
  {
  }

  lemma {:induction false} EveryOne(good: string -> bool, all: set<string>, n: string)
    requires Every(good, all) && good(n)
    ensures Every(good, all + {n})
  {
  }

  lemma {:induction false} OrdinaryNames(files: map<string, Bytes>, record: string, bytes: Bytes)
    requires Packable(files, record)
    ensures record !in files && Every(SafeMember, files.Keys)
    ensures Every(IsFile, files[record := bytes].Keys) && Every(SafeMember, files[record := bytes].Keys)
  {
    assert NoRecord(record) <==> !EndsWith(record, RECORD_END);
    EveryPart(SafeMember, files.Keys, files.Keys + {record});
    assert files[record := bytes].Keys == files.Keys + {record};
  }

  lemma {:induction false} BaseIsPackable(env: Env, codec: Codec, ms: seq<Mono>)
    requires AllSane(env, ms) && HaveLeaves(ms)
    ensures Packable(Base(env, codec, ms), ms[0].record)
  {
    BaseOrigin(env, codec, ms, MANIFEST);
    assert Sanity(env)(0, ms[0]);
    RecordIsApart(env, ms[0], 1);
    var names := Base(env, codec, ms).Keys;
    forall n | n in names ensures NoRecord(n) { BaseNames(env, codec, ms, n); }
    var all := ms[0].files.Keys + ms[1].files.Keys + ms[2].files.Keys;
    forall n | n in names + {ms[0].record} ensures n in all { NamesAreInherited(env, codec, ms, n); }
    InputsAreSafe(env, ms);
    EveryPart(IsFile, names + {ms[0].record}, all);
    EveryPart(SafeMember, names + {ms[0].record}, all);
  }

  lemma {:induction false} InputsAreSafe(env: Env, ms: seq<Mono>)
    requires AllSane(env, ms)
    ensures var all := ms[0].files.Keys + ms[1].files.Keys + ms[2].files.Keys;
      Every(IsFile, all) && Every(SafeMember, all)
  {
    var a, b, c := ms[0].files.Keys, ms[1].files.Keys, ms[2].files.Keys;
    assert Sanity(env)(0, ms[0]) && Sanity(env)(1, ms[1]) && Sanity(env)(2, ms[2]);
    EveryUnion(IsFile, a, b, c);
    EveryUnion(SafeMember, a, b, c);
  }

  lemma {:induction false} EveryUnion(good: string -> bool, a: set<string>, b: set<string>, c: set<string>)
    requires Every(good, a) && Every(good, b) && Every(good, c)
    ensures Every(good, a + b + c)
  {
  }

  /** Writing a packable payload with its RECORD gives a well-formed archive of those very files. */
  lemma {:induction false} PackedArchive(
      codec: Codec, files: map<string, Bytes>, record: string, bytes: Bytes, wheel: seq<Entry>)
    requires RoundTrips(codec) && Packable(files, record)
    requires IsRecordOf(codec, files, record, bytes) && IsWheelOf(files[record := bytes], wheel)
    ensures FilesOf(wheel) == files[record := bytes] && Archive(codec, wheel, FilesOf(wheel), record)
  {
    var all := files[record := bytes];
    OrdinaryNames(files, record, bytes);
    PublishedFiles(all, wheel);
    PublishedIsClean(all, wheel);
    WrittenRecordCovers(codec, files, record, bytes);
    OnlyRecord(files, record, bytes);
  }

  lemma {:induction false} OnlyRecord(files: map<string, Bytes>, record: string, bytes: Bytes)
    requires EndsWith(record, RECORD_END) && Every(NoRecord, files.Keys)
    ensures RecordsIn(files[record := bytes]) == {record} && Holds(files[record := bytes], files, record)
  {
    var all := files[record := bytes];
    assert record !in files;
    assert all.Keys == files.Keys + {record};
    assert forall n :: n in RecordsIn(all) <==> n == record;
  }

  /** The wheel holds the payload, unchanged, and the RECORD. */
  ghost predicate Holds(files: map<string, Bytes>, base: map<string, Bytes>, record: string) {
    files.Keys == base.Keys + {record} && forall n :: n in base ==> n in files && files[n] == base[n]
  }

  lemma {:induction false} ReleasedArchive(
      env: Env, codec: Codec, ms: seq<Mono>, mpi: bool, kokkos: bool, wheel: seq<Entry>)
    requires RoundTrips(codec) && Released(env, codec, ms, mpi, kokkos, wheel)
    ensures Archive(codec, wheel, FilesOf(wheel), ms[0].record)
    ensures Holds(FilesOf(wheel), Base(env, codec, ms), ms[0].record)
  {
    var base, record := Base(env, codec, ms), ms[0].record;
    BaseIsPackable(env, codec, ms);
    var bytes :| IsRecordOf(codec, base, record, bytes) && IsWheelOf(base[record := bytes], wheel);
    OnlyRecord(base, record, bytes);
    PackedArchive(codec, base, record, bytes, wheel);
  }

  lemma {:induction false} PublishedIsClean(files: map<string, Bytes>, wheel: seq<Entry>)
    requires IsWheelOf(files, wheel) && Every(IsFile, files.Keys) && Every(SafeMember, files.Keys)
    ensures Clean(wheel)
  {
    PublishedFiles(files, wheel);
    forall i | 0 <= i < |wheel| ensures CleanEntry(wheel[i]) { assert StripSlashes(wheel[i].name) == wheel[i].name; }
  }

  lemma {:induction false} NativeAt(env: Env, codec: Codec, ms: seq<Mono>, files: map<string, Bytes>, n: string)
    requires AllSane(env, ms) && HaveLeaves(ms) && Holds(files, Base(env, codec, ms), ms[0].record)
    ensures n in NativesIn(env, files) <==> IsLeaf(ms, n)
  {
    BaseOrigin(env, codec, ms, n);
    RecordIsApart(env, ms[0], 1);
    if n in Base(env, codec, ms) { BaseNames(env, codec, ms, n); }
    NativeInWheel(env, files, Base(env, codec, ms), ms[0].record, n, IsLeaf(ms, n));
  }

  lemma {:induction false} NativeInWheel(
      env: Env, files: map<string, Bytes>, base: map<string, Bytes>, record: string, n: string, leaf: bool)
    requires Holds(files, base, record) && EndsWith(record, RECORD_END) && !IsNative(env, record)
    requires n in base ==> !EndsWith(n, RECORD_END) && (IsNative(env, n) <==> leaf)
    requires leaf ==> n in base
    ensures n in NativesIn(env, files) <==> leaf
  {
    assert n in files <==> n in base || n == record;
  }

  lemma {:induction false} ReleasedManifest(env: Env, codec: Codec, ms: seq<Mono>, files: map<string, Bytes>)
    requires Hashes(env) && RoundTrips(codec) && AllSane(env, ms) && HaveLeaves(ms)
    requires Holds(files, Base(env, codec, ms), ms[0].record)
    ensures FatManifest(env, codec, files, FinalRows(env, ms))
  {
    ManifestAt(env, codec, ms, files);
    FinalRowsAreValid(env, ms);
    FinalDimensions(env, ms);
    NativesAreLeaves(env, codec, ms, files);
    ReadBack(env, codec, files, FinalRows(env, ms));
  }

  lemma {:induction false} NativesAreLeaves(env: Env, codec: Codec, ms: seq<Mono>, files: map<string, Bytes>)
    requires AllSane(env, ms) && HaveLeaves(ms) && Holds(files, Base(env, codec, ms), ms[0].record)
    ensures NativesIn(env, files) == MembersOf(FinalRows(env, ms))
  {
    var natives, members := NativesIn(env, files), MembersOf(FinalRows(env, ms));
    forall n ensures n in natives <==> n in members {
      NativeAt(env, codec, ms, files, n);
      FinalMembers(env, ms, n);
    }
  }

  lemma {:induction false} ReadBack(env: Env, codec: Codec, files: map<string, Bytes>, rows: seq<Row>)
    requires RoundTrips(codec) && MANIFEST in files &&
      files[MANIFEST] == codec.encodeManifest(Manifest(SCHEMA_VERSION, rows))
    requires ValidRows(env, rows) && Dimensions(rows) == [1, 2, 3] && NativesIn(env, files) == MembersOf(rows)
    ensures FatManifest(env, codec, files, rows)
  {
    ValidateIsExact(env, Manifest(SCHEMA_VERSION, rows));
  }

  lemma {:induction false} ManifestAt(env: Env, codec: Codec, ms: seq<Mono>, files: map<string, Bytes>)
    requires HaveLeaves(ms) && Holds(files, Base(env, codec, ms), ms[0].record)
    ensures MANIFEST in files && files[MANIFEST] == codec.encodeManifest(Manifest(SCHEMA_VERSION, FinalRows(env, ms)))
  {
    assert MANIFEST in Base(env, codec, ms);
  }

  lemma {:induction false} FinalDimensions(env: Env, ms: seq<Mono>)
    requires AllSane(env, ms) && HaveLeaves(ms)
    ensures Dimensions(FinalRows(env, ms)) == [1, 2, 3]
  {
    var rows := FinalRows(env, ms);
    forall k | 0 <= k < 3 ensures rows[k].dimension == k + 1 {
      assert rows[k] == FinalRow(env, ms[k]) && Sane(env, ms[k], k + 1);
    }
  }

  lemma {:induction false} FinalMembers(env: Env, ms: seq<Mono>, n: string)
    requires HaveLeaves(ms)
    ensures IsLeaf(ms, n) <==> n in MembersOf(FinalRows(env, ms))
  {
    var rows := FinalRows(env, ms);
    assert forall k :: 0 <= k < 3 ==> Member(rows[k]) == Member(ms[k].row);
    if IsLeaf(ms, n) {
      var k :| 0 <= k < 3 && n == Member(ms[k].row);
      assert Member(rows[k]) == n;
    }
  }

  lemma {:induction false} ReleasedLane(
      env: Env, codec: Codec, ms: seq<Mono>, mpi: bool, kokkos: bool, files: map<string, Bytes>, version: string)
    requires AllSane(env, ms) && HaveLeaves(ms) && Homogeneous(ms, mpi, kokkos)
    requires Holds(files, Base(env, codec, ms), ms[0].record)
    ensures LaneRows(env, files, version, FinalRows(env, ms)) <==> version == ms[0].row.version && !mpi && kokkos
  {
    var rows := FinalRows(env, ms);
    forall k | 0 <= k < 3
      ensures LaneRow(env, files, version, rows[k]) <==> version == ms[0].row.version && !mpi && kokkos
      ensures CommonAbi(rows[k]) == CommonAbi(ms[0].row)
    {
      ReleasedRow(env, codec, ms, mpi, kokkos, files, version, k);
    }
    LaneTogether(env, files, version, rows, CommonAbi(ms[0].row), version == ms[0].row.version && !mpi && kokkos);
  }

  lemma {:induction false} LaneTogether(
      env: Env, files: map<string, Bytes>, version: string, rows: seq<Row>, abi: Option<string>, fits: bool)
    requires |rows| == 3
    requires forall k :: 0 <= k < 3 ==> CommonAbi(rows[k]) == abi && (LaneRow(env, files, version, rows[k]) <==> fits)
    ensures LaneRows(env, files, version, rows) <==> fits
  {
    assert LaneRow(env, files, version, rows[0]) <==> fits;
  }

  lemma {:induction false} ReleasedRow(
      env: Env, codec: Codec, ms: seq<Mono>, mpi: bool, kokkos: bool, files: map<string, Bytes>, version: string,
      k: nat)
    requires AllSane(env, ms) && HaveLeaves(ms) && Homogeneous(ms, mpi, kokkos) && k < 3
    requires Holds(files, Base(env, codec, ms), ms[0].record)
    ensures CommonAbi(FinalRow(env, ms[k])) == CommonAbi(ms[0].row)
    ensures LaneRow(env, files, version, FinalRow(env, ms[k])) <==> version == ms[0].row.version && !mpi && kokkos
  {
    LeafIsCarried(env, codec, ms, k);
    assert Agrees(ms, k, mpi, kokkos);
    FinalLane(env, files, version, ms[k].row, ms[0].row, LeafBytes(ms[k]));
  }

  lemma {:induction false} FinalLane(
      env: Env, files: map<string, Bytes>, version: string, row: Row, first: Row, bytes: Bytes)
    requires row.version == first.version && CommonAbi(row).Some? && CommonAbi(row) == CommonAbi(first)
    requires Member(row) in files && files[Member(row)] == bytes
    ensures var final := row.(sha := env.sha(bytes));
      && CommonAbi(final) == CommonAbi(first)
      && (LaneRow(env, files, version, final) <==> version == first.version && !row.hasMpi && row.hasKokkos)
  {
  }

  /**
   Producer and verifier agree: a published wheel passes the preflight exactly when it was assembled
   for the release lane, with the package version, without MPI and with Kokkos.
   */
  lemma {:induction false} PublishedIsAccepted(
      env: Env, codec: Codec, ms: seq<Mono>, mpi: bool, kokkos: bool, wheel: seq<Entry>, version: string)
    requires Hashes(env) && RoundTrips(codec) && Released(env, codec, ms, mpi, kokkos, wheel)
    ensures Conforms(env, codec, wheel, version, ms[0].record, FinalRows(env, ms))
       <==> version == ms[0].row.version && !mpi && kokkos
  {
    ReleasedArchive(env, codec, ms, mpi, kokkos, wheel);
    ReleasedManifest(env, codec, ms, FilesOf(wheel));
    ReleasedLane(env, codec, ms, mpi, kokkos, FilesOf(wheel), version);
  }

  /** Only the true record and rows can witness acceptance. */
  lemma {:induction false} AcceptanceIsUnique(env: Env, codec: Codec, wheel: seq<Entry>, v: string, w: string,
                                              record: string, rows: seq<Row>, other: string, others: seq<Row>)
    requires Archive(codec, wheel, FilesOf(wheel), record) && FatManifest(env, codec, FilesOf(wheel), rows)
    requires Conforms(env, codec, wheel, w, other, others)
    ensures record == other && rows == others
  {
    assert other in RecordsIn(FilesOf(wheel));
  }

  /**
   Nothing is lost and nothing is added: every member of every input but its manifest and RECORD is
   in the published wheel with the same bytes, and every other published member is the new manifest
   or the new RECORD.
   */
  lemma {:induction false} MembersAreConserved(
      env: Env, codec: Codec, ms: seq<Mono>, mpi: bool, kokkos: bool, wheel: seq<Entry>, n: string)
    requires RoundTrips(codec) && Released(env, codec, ms, mpi, kokkos, wheel)
    ensures forall k :: 0 <= k < 3 && n in ms[k].files && n != MANIFEST && n != ms[k].record ==>
      n in FilesOf(wheel) && FilesOf(wheel)[n] == ms[k].files[n]
    ensures n in FilesOf(wheel) && n != MANIFEST && n != ms[0].record ==> exists k :: 0 <= k < 3 && n in ms[k].files
  {
    ReleasedArchive(env, codec, ms, mpi, kokkos, wheel);
    forall k | 0 <= k < 3 && n in ms[k].files && n != MANIFEST && n != ms[k].record
      ensures n in FilesOf(wheel) && FilesOf(wheel)[n] == ms[k].files[n]
    {
      InputIsCarried(env, codec, ms, mpi, kokkos, k, n);
    }
    if n in FilesOf(wheel) && n != MANIFEST && n != ms[0].record {
      BaseOrigin(env, codec, ms, n);
      if IsLeaf(ms, n) {
        var k :| 0 <= k < 3 && n == Member(ms[k].row);
        assert HasLeaf(ms[k]);
      } else {
        assert n in ms[0].files;
      }
    }
  }

  lemma {:induction false} InputIsCarried(
      env: Env, codec: Codec, ms: seq<Mono>, mpi: bool, kokkos: bool, k: nat, n: string)
    requires AllSane(env, ms) && HaveLeaves(ms) && Homogeneous(ms, mpi, kokkos) && k < 3
    requires n in ms[k].files && n != MANIFEST && n != ms[k].record
    ensures n in Base(env, codec, ms) && Base(env, codec, ms)[n] == ms[k].files[n]
  {
    assert Agrees(ms, k, mpi, kokkos);
    if n == Member(ms[k].row) {
      LeafIsCarried(env, codec, ms, k);
    } else {
      ForeignLeaf(env, ms, k, n);
      LeavesAreExcluded(ms, n);
      assert n in Common(ms, k) && Common(ms, k)[n] == ms[k].files[n];
      assert n in Common(ms, 0) && Common(ms, 0)[n] == ms[0].files[n];
      BaseOrigin(env, codec, ms, n);
    }
  }

  /** No input holds another dimension's leaf. */
  lemma {:induction false} ForeignLeaf(env: Env, ms: seq<Mono>, k: nat, n: string)
    requires AllSane(env, ms) && k < 3 && n in ms[k].files && n != Member(ms[k].row)
    ensures !IsLeaf(ms, n)
  {
    var files := ms[k].files;
    assert Sane(env, ms[k], k + 1);
    assert n in NativesIn(env, files) <==> IsNative(env, n);
    forall j | 0 <= j < 3 ensures IsNative(env, Member(ms[j].row)) { LeafIsPlain(env, ms, j); }
  }

  /**
   The member check lets a file named by a lone dot through, but such a file cannot be extracted: no
   input of a published wheel holds one.
   */
  lemma {:induction false} LoneDotIsNeverPublished(
      env: Env, codec: Codec, loader: Loader, wheels: map<int, seq<Entry>>, mpi: bool, kokkos: bool, adhoc: bool,
      ms: seq<Mono>, k: nat)
    requires Assembles(env, codec, loader, wheels, mpi, kokkos, adhoc, ms) && k < 3
    ensures SafeMember(".") && "." !in ms[k].files
  {
    OpenedAreSane(env, codec, wheels, ms);
    assert Sanity(env)(k, ms[k]);
    RecordIsApart(env, ms[k], k + 1);
    assert |"."| < |MANIFEST| && |"."| < |ms[k].record|;
    if "." in ms[k].files { InputIsCarried(env, codec, ms, mpi, kokkos, k, "."); }
  }

  /** End to end: assemble, then run the preflight on the result. */
  method Release(
      env: Env, codec: Codec, loader: Loader, wheels: map<int, seq<Entry>>, adhoc: bool, mpi: bool, kokkos: bool,
      version: string)
    returns (published: Option<Assembly>, accepted: bool)
    requires Hashes(env) && RoundTrips(codec)
    ensures published.Some? ==> Released(env, codec, published.value.inputs, mpi, kokkos, published.value.wheel)
    ensures published.Some? ==>
      (accepted <==> version == published.value.inputs[0].row.version && !mpi && kokkos)
  {
    published := Assemble(env, codec, loader, wheels, mpi, kokkos, adhoc);
    accepted := false;
    if published.Some? {
      var ms, wheel := published.value.inputs, published.value.wheel;
      OpenedAreSane(env, codec, wheels, ms);
      var r := NativeContract(env, codec, wheel, version);
      accepted := r.Some?;
      AcceptanceIsExact(env, codec, ms, mpi, kokkos, wheel, version);
    }
  }

  lemma {:induction false} AcceptanceIsExact(
      env: Env, codec: Codec, ms: seq<Mono>, mpi: bool, kokkos: bool, wheel: seq<Entry>, version: string)
    requires Hashes(env) && RoundTrips(codec) && Released(env, codec, ms, mpi, kokkos, wheel)
    ensures (exists record, rows :: Conforms(env, codec, wheel, version, record, rows))
       <==> version == ms[0].row.version && !mpi && kokkos
  {
    PublishedIsAccepted(env, codec, ms, mpi, kokkos, wheel, version);
    if record, rows :| Conforms(env, codec, wheel, version, record, rows) {
      ReleasedArchive(env, codec, ms, mpi, kokkos, wheel);
      ReleasedManifest(env, codec, ms, FilesOf(wheel));
      AcceptanceIsUnique(env, codec, wheel, version, version, ms[0].record, FinalRows(env, ms), record, rows);
    }
  }
}
