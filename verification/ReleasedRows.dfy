/**
 What publishing and accepting a wheel say about its three native rows: one toolchain, one suffix,
 one version and the release backend.
 */
module ReleasedRows {
  import opened Wrappers
  import opened Strings
  import opened VariantManifest
  import opened WheelNames
  import opened WheelRecord
  import opened FatWheel
  import opened ReleasePreflight
  import opened WheelLaws

  /** The three keys are one toolchain prefix with the three dimension tokens. */
  ghost predicate OneToolchain(rows: seq<Row>, p: string) {
    && |rows| == 3 && p != "" && '\n' !in p
    && rows[0].abi == p + ";dim=1" && rows[1].abi == p + ";dim=2" && rows[2].abi == p + ";dim=3"
  }

  ghost predicate ReleaseRow(env: Env, files: map<string, Bytes>, version: string, row: Row) {
    && "pops/_native/" + row.path in files && env.sha(files["pops/_native/" + row.path]) == row.sha
    && row.version == version && row.hasMpi == false && row.hasKokkos == true
  }

  lemma {:induction false} InOrder(rows: seq<Row>)
    requires Dimensions(rows) == [1, 2, 3]
    ensures |rows| == 3 && rows[0].dimension == 1 && rows[1].dimension == 2 && rows[2].dimension == 3
  {
    var d := Dimensions(rows);
    assert |d| == 3 && d[0] == 1 && d[1] == 2 && d[2] == 3;
  }

  /** The lane check on rows of the three dimensions, spelled out. */
  lemma {:induction false} LaneIsExact(env: Env, files: map<string, Bytes>, version: string, rows: seq<Row>)
    requires Dimensions(rows) == [1, 2, 3]
    ensures LaneRows(env, files, version, rows) <==>
      (forall i :: 0 <= i < |rows| ==> ReleaseRow(env, files, version, rows[i])) && exists p :: OneToolchain(rows, p)
  {
    InOrder(rows);
    ToolchainIsExact(rows);
    assert forall i :: 0 <= i < |rows| ==>
      (LaneRow(env, files, version, rows[i]) <==>
       ReleaseRow(env, files, version, rows[i]) && CommonAbi(rows[i]).Some?);
  }

  lemma {:induction false} ToolchainIsExact(rows: seq<Row>)
    requires |rows| == 3 && rows[0].dimension == 1 && rows[1].dimension == 2 && rows[2].dimension == 3
    ensures (exists p :: OneToolchain(rows, p)) <==>
      && (forall i :: 0 <= i < 3 ==> CommonAbi(rows[i]).Some?)
      && (forall i, j :: 0 <= i < 3 && 0 <= j < 3 ==> CommonAbi(rows[i]) == CommonAbi(rows[j]))
  {
    forall p ensures OneToolchain(rows, p) <==> forall i :: 0 <= i < 3 ==> CommonAbi(rows[i]) == Some(p) {
      CommonAbiIsExact(rows[0], p);
      CommonAbiIsExact(rows[1], p);
      CommonAbiIsExact(rows[2], p);
    }
    var first := CommonAbi(rows[0]);
    if first.Some? && CommonAbi(rows[1]) == first && CommonAbi(rows[2]) == first {
      assert OneToolchain(rows, CommonAbi(rows[0]).value);
    }
  }

  /** An accepted wheel has one toolchain, the release version and the release backend. */
  lemma {:induction false} AcceptedRows(
      env: Env, codec: Codec, wheel: seq<Entry>, version: string, record: string, rows: seq<Row>)
    requires Conforms(env, codec, wheel, version, record, rows)
    ensures exists p :: OneToolchain(rows, p)
    ensures forall i :: 0 <= i < |rows| ==> ReleaseRow(env, FilesOf(wheel), version, rows[i]) && ValidRow(env, rows[i])
  {
    LaneIsExact(env, FilesOf(wheel), version, rows);
    ValidateIsExact(env, codec.decodeManifest(FilesOf(wheel)[MANIFEST]).value);
  }

  /** The rows of the three inputs. */
  ghost function RowsOf(ms: seq<Mono>): seq<Row>
    requires |ms| == 3
  {
    [ms[0].row, ms[1].row, ms[2].row]
  }

  ghost predicate OneSuffix(rows: seq<Row>, suffix: string) {
    && |rows| == 3
    && rows[0].path == "dim1/_pops" + suffix && rows[1].path == "dim2/_pops" + suffix
    && rows[2].path == "dim3/_pops" + suffix
  }

  /** A published wheel has one toolchain, one extension suffix, one version and the asked backend. */
  lemma {:induction false} PublishedRows(
      env: Env, codec: Codec, loader: Loader, wheels: map<int, seq<Entry>>, mpi: bool, kokkos: bool, adhoc: bool,
      ms: seq<Mono>)
    requires SuffixesArePlain(env) && Assembles(env, codec, loader, wheels, mpi, kokkos, adhoc, ms)
    ensures exists p :: OneToolchain(RowsOf(ms), p)
    ensures exists suffix :: suffix in env.suffixes && OneSuffix(RowsOf(ms), suffix)
    ensures forall k :: 0 <= k < 3 ==> Backed(RowsOf(ms), k, mpi, kokkos)
  {
    OpenedAreSane(env, codec, wheels, ms);
    HomogeneousRows(env, ms, mpi, kokkos);
  }

  /** A row with the version of the first and the asked backend. */
  ghost predicate Backed(rows: seq<Row>, k: nat, mpi: bool, kokkos: bool)
    requires k < |rows|
  {
    rows[k].version == rows[0].version && rows[k].hasMpi == mpi && rows[k].hasKokkos == kokkos
  }

  lemma {:induction false} HomogeneousRows(env: Env, ms: seq<Mono>, mpi: bool, kokkos: bool)
    requires SuffixesArePlain(env) && AllSane(env, ms) && Homogeneous(ms, mpi, kokkos)
    ensures exists p :: OneToolchain(RowsOf(ms), p)
    ensures exists suffix :: suffix in env.suffixes && OneSuffix(RowsOf(ms), suffix)
    ensures forall k :: 0 <= k < 3 ==> Backed(RowsOf(ms), k, mpi, kokkos)
  {
    var rows := RowsOf(ms);
    InputFits(env, ms, mpi, kokkos, 0);
    InputFits(env, ms, mpi, kokkos, 1);
    InputFits(env, ms, mpi, kokkos, 2);
    AgreeingToolchain(rows);
    AgreeingSuffix(env, rows);
  }

  /** Outside manifest, RECORD and leaves, input `k` has the files of the first. */
  ghost predicate SameRest(ms: seq<Mono>, k: nat)
    requires |ms| == 3 && k < 3
  {
    forall n :: n != "pops/_native/variants.json" && n != ms[0].record && !IsLeafMember(ms, n) ==>
      && (n in ms[k].files <==> n in ms[0].files)
      && (n in ms[k].files && n in ms[0].files ==> ms[k].files[n] == ms[0].files[n])
  }

  ghost predicate IsLeafMember(ms: seq<Mono>, n: string)
    requires |ms| == 3
  {
    || n == "pops/_native/" + ms[0].row.path || n == "pops/_native/" + ms[1].row.path
    || n == "pops/_native/" + ms[2].row.path
  }

  /** The first two conditions below, on the rows alone. */
  ghost predicate OneBuild(env: Env, rows: seq<Row>) {
    && (exists p :: OneToolchain(rows, p))
    && (exists suffix :: suffix in env.suffixes && OneSuffix(rows, suffix))
  }

  /** Input `k` has the first one's version, RECORD name and remaining files, and the asked backend. */
  ghost predicate Alike(ms: seq<Mono>, k: nat, mpi: bool, kokkos: bool)
    requires |ms| == 3 && k < 3
  {
    Backed(RowsOf(ms), k, mpi, kokkos) && ms[k].record == ms[0].record && SameRest(ms, k)
  }

  /** When opened inputs are taken together. */
  lemma {:induction false} HomogeneousIsExact(env: Env, ms: seq<Mono>, mpi: bool, kokkos: bool)
    requires SuffixesArePlain(env) && AllSane(env, ms)
    ensures Homogeneous(ms, mpi, kokkos) <==>
      OneBuild(env, RowsOf(ms)) && forall k :: 0 <= k < 3 ==> Alike(ms, k, mpi, kokkos)
  {
    if Homogeneous(ms, mpi, kokkos) {
      HomogeneousRows(env, ms, mpi, kokkos);
      assert OneBuild(env, RowsOf(ms));
      forall k | 0 <= k < 3 ensures Alike(ms, k, mpi, kokkos) {
        assert Agrees(ms, k, mpi, kokkos);
        AlikeIsAgreeing(ms, k, mpi, kokkos);
      }
    } else if OneBuild(env, RowsOf(ms)) {
      AllDimensions(env, ms);
      RowsAgree(env, RowsOf(ms), ms);
      forall k | 0 <= k < 3 && Alike(ms, k, mpi, kokkos) ensures Agrees(ms, k, mpi, kokkos) {
        AlikeIsAgreeing(ms, k, mpi, kokkos);
      }
    }
  }

  lemma {:induction false} AllDimensions(env: Env, ms: seq<Mono>)
    requires AllSane(env, ms)
    ensures |ms| == 3 && ms[0].row.dimension == 1 && ms[1].row.dimension == 2 && ms[2].row.dimension == 3
  {
    RowIsValid(env, ms, 0);
    RowIsValid(env, ms, 1);
    RowIsValid(env, ms, 2);
  }

  lemma {:induction false} AlikeIsAgreeing(ms: seq<Mono>, k: nat, mpi: bool, kokkos: bool)
    requires |ms| == 3 && k < 3
    ensures Agrees(ms, k, mpi, kokkos) ==> Alike(ms, k, mpi, kokkos)
    ensures Alike(ms, k, mpi, kokkos) && (ms[k].row.version == ms[0].row.version ==> SameFacts(ms[k].row, ms[0].row))
      ==> Agrees(ms, k, mpi, kokkos)
  {
    RestIsCommon(ms, k);
    assert RowsOf(ms)[k] == ms[k].row;
  }

  lemma {:induction false} RestIsCommon(ms: seq<Mono>, k: nat)
    requires |ms| == 3 && k < 3
    ensures Common(ms, k) == Common(ms, 0) <==> SameRest(ms, k)
  {
    var a, b := Common(ms, k), Common(ms, 0);
    forall n ensures n in Excluded(ms) <==>
      n == "pops/_native/variants.json" || n == ms[0].record || IsLeafMember(ms, n) { }
    if a == b {
      forall n | n !in Excluded(ms)
        ensures (n in ms[k].files <==> n in ms[0].files)
        ensures n in ms[k].files && n in ms[0].files ==> ms[k].files[n] == ms[0].files[n]
      {
        assert n in a <==> n in ms[k].files;
        assert n in b <==> n in ms[0].files;
      }
    }
    if SameRest(ms, k) {
      assert a.Keys == b.Keys;
      assert forall n :: n in a ==> a[n] == b[n];
    }
  }

  lemma {:induction false} RowsAgree(env: Env, rows: seq<Row>, ms: seq<Mono>)
    requires |ms| == 3 && rows == [ms[0].row, ms[1].row, ms[2].row]
    requires SuffixesArePlain(env) && OneBuild(env, rows)
    requires rows[0].dimension == 1 && rows[1].dimension == 2 && rows[2].dimension == 3
    ensures forall k :: 0 <= k < 3 && ms[k].row.version == ms[0].row.version ==> SameFacts(ms[k].row, ms[0].row)
  {
    ToolchainIsExact(rows);
    var suffix :| suffix in env.suffixes && OneSuffix(rows, suffix);
    SameNames(rows, suffix);
    assert forall k :: 0 <= k < 3 ==> rows[k] == ms[k].row;
  }

  lemma {:induction false} SameNames(rows: seq<Row>, suffix: string)
    requires OneSuffix(rows, suffix) && '/' !in suffix
    ensures forall k :: 0 <= k < 3 ==> Basename(rows[k].path) == "_pops" + suffix
  {
    assert "dim1" + "/_pops" == "dim1/_pops" && "dim2" + "/_pops" == "dim2/_pops" && "dim3" + "/_pops" == "dim3/_pops";
    LeafName("dim1", suffix);
    LeafName("dim2", suffix);
    LeafName("dim3", suffix);
  }

  lemma {:induction false} LeafName(dir: string, suffix: string)
    requires '/' !in suffix
    ensures Basename(dir + "/_pops" + suffix) == "_pops" + suffix
  {
    var leaf := "_pops" + suffix;
    assert '/' !in leaf && leaf[0] == '_';
    assert dir + "/_pops" + suffix == dir + "/" + leaf;
    BasenameOf(dir, leaf);
  }

  lemma {:induction false} InputFits(env: Env, ms: seq<Mono>, mpi: bool, kokkos: bool, k: nat)
    requires AllSane(env, ms) && Homogeneous(ms, mpi, kokkos) && k < 3
    ensures ValidRow(env, ms[k].row) && ms[k].row.dimension == k + 1
    ensures CommonAbi(ms[k].row).Some? && CommonAbi(ms[k].row) == CommonAbi(ms[0].row)
    ensures Basename(ms[k].row.path) == Basename(ms[0].row.path)
    ensures Backed(RowsOf(ms), k, mpi, kokkos)
  {
    RowIsValid(env, ms, k);
    assert Agrees(ms, k, mpi, kokkos);
  }

  lemma {:induction false} AgreeingToolchain(rows: seq<Row>)
    requires |rows| == 3 && rows[0].dimension == 1 && rows[1].dimension == 2 && rows[2].dimension == 3
    requires CommonAbi(rows[0]).Some?
    requires CommonAbi(rows[1]) == CommonAbi(rows[0]) && CommonAbi(rows[2]) == CommonAbi(rows[0])
    ensures exists p :: OneToolchain(rows, p)
  {
    ToolchainIsExact(rows);
  }

  lemma {:induction false} AgreeingSuffix(env: Env, rows: seq<Row>)
    requires SuffixesArePlain(env) && |rows| == 3
    requires ValidRow(env, rows[0]) && ValidRow(env, rows[1]) && ValidRow(env, rows[2])
    requires rows[0].dimension == 1 && rows[1].dimension == 2 && rows[2].dimension == 3
    requires Basename(rows[1].path) == Basename(rows[0].path) && Basename(rows[2].path) == Basename(rows[0].path)
    ensures exists suffix :: suffix in env.suffixes && OneSuffix(rows, suffix)
  {
    var a := SuffixOf(env, rows[0]);
    var b := SuffixOf(env, rows[1]);
    var c := SuffixOf(env, rows[2]);
    SameSuffix(a, b);
    SameSuffix(a, c);
    assert OneSuffix(rows, a);
  }

  lemma {:induction false} SuffixOf(env: Env, row: Row) returns (suffix: string)
    requires SuffixesArePlain(env) && ValidRow(env, row)
    ensures suffix in env.suffixes && LeafOf(row.dimension, row.path, suffix) && Basename(row.path) == "_pops" + suffix
  {
    ValidRowIsExact(env, row);
    suffix :| suffix in env.suffixes && LeafOf(row.dimension, row.path, suffix);
    var leaf, dir := "_pops" + suffix, row.path[..4];
    assert row.path == dir + "/" + leaf;
    assert '/' !in leaf && leaf[0] == '_';
    BasenameOf(dir, leaf);
  }

  lemma {:induction false} SameSuffix(a: string, b: string)
    ensures "_pops" + a == "_pops" + b ==> a == b
  {
    assert ("_pops" + a)[5..] == a && ("_pops" + b)[5..] == b;
  }
}
