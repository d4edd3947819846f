/**
 Members under a `.data` directory: the assembler and the preflight mean to refuse them, and do so
 only when a component is `.data` and nothing more. Members they let through reach a release.
 */
module DataSchemes {
  import opened Strings
  import opened Sorting
  import opened VariantManifest
  import opened WheelNames
  import opened WheelRecord
  import opened FatWheel
  import opened ReleasePreflight

  /** A safely named file that is neither the RECORD nor the manifest. */
  predicate Addable(n: string) { IsFile(n) && SafeMember(n) && NoRecord(n) && n != MANIFEST }

  lemma {:induction false} DataMemberIsAddable(distribution: string, name: string)
    requires OrdinaryPart(distribution) && OrdinaryPart(name) && name != "RECORD"
    ensures Addable(DataMember(distribution, name))
  {
    var dir, n := distribution + ".data", DataMember(distribution, name);
    DataMemberIsSafe(distribution, name);
    BasenameDecides(n, dir, name);
    EndsAsFile(dir, name);
    OneSlash(dir, name);
  }

  lemma {:induction false} BasenameDecides(n: string, dir: string, name: string)
    requires n == dir + "/" + name && '/' !in name && Kept(name) && name != "RECORD"
    ensures NoRecord(n)
  {
    BasenameOf(dir, name);
    if EndsWith(n, RECORD_END) { RecordBasename(n); }
  }

  lemma {:induction false} EndsAsFile(dir: string, name: string)
    requires name != "" && '/' !in name
    ensures IsFile(dir + "/" + name)
  {
    var n := dir + "/" + name;
    assert n[|n| - 1] == name[|name| - 1];
  }

  /** A member two directories deep is not one directory deep. */
  lemma {:induction false} OneSlash(dir: string, name: string)
    requires '/' !in dir && '/' !in name
    ensures dir + "/" + name != MANIFEST
  {
    var n := dir + "/" + name;
    assert MANIFEST[4] == '/' && MANIFEST[12] == '/';
    assert forall k :: 0 <= k < |n| && n[k] == '/' ==> k == |dir|;
  }

  /** The members of a wheel other than its RECORD, with one more. */
  ghost function Grown(wheel: seq<Entry>, record: string, name: string, content: Bytes): map<string, Bytes> {
    (FilesOf(wheel) - {record})[name := content]
  }

  /**
   Any such member can be added to an accepted wheel: with a RECORD written for the larger
   payload it is accepted again.
   */
  lemma {:induction false} AddedMembersAreAccepted(
      env: Env, codec: Codec, wheel: seq<Entry>, version: string, record: string, rows: seq<Row>,
      name: string, content: Bytes, bytes: Bytes, larger: seq<Entry>)
    requires RoundTrips(codec) && Conforms(env, codec, wheel, version, record, rows)
    requires Addable(name) && !IsNative(env, name)
    requires IsRecordOf(codec, Grown(wheel, record, name, content), record, bytes)
    requires IsWheelOf(Grown(wheel, record, name, content)[record := bytes], larger)
    ensures Conforms(env, codec, larger, version, record, rows)
  {
    GrownArchive(codec, wheel, record, name, content, bytes, larger);
    StillFat(env, codec, FilesOf(wheel), FilesOf(larger), record, name, rows);
    SameLane(env, codec, FilesOf(wheel), FilesOf(larger), record, name, version, rows);
  }

  /** So a wheel with a data scheme of any distribution passes both checks. */
  lemma {:induction false} DataSchemeIsAccepted(
      env: Env, codec: Codec, wheel: seq<Entry>, version: string, record: string, rows: seq<Row>,
      distribution: string, name: string, content: Bytes, bytes: Bytes, larger: seq<Entry>)
    requires RoundTrips(codec) && Conforms(env, codec, wheel, version, record, rows)
    requires OrdinaryPart(distribution) && OrdinaryPart(name) && name != "RECORD"
    requires !IsNative(env, DataMember(distribution, name))
    requires IsRecordOf(codec, Grown(wheel, record, DataMember(distribution, name), content), record, bytes)
    requires IsWheelOf(Grown(wheel, record, DataMember(distribution, name), content)[record := bytes], larger)
    ensures Conforms(env, codec, larger, version, record, rows) && DataMember(distribution, name) in FilesOf(larger)
  {
    var n := DataMember(distribution, name);
    DataMemberIsAddable(distribution, name);
    GrownArchive(codec, wheel, record, n, content, bytes, larger);
    AddedMembersAreAccepted(env, codec, wheel, version, record, rows, n, content, bytes, larger);
  }

  /** One such member, spelled out. */
  lemma {:induction false} DataMemberExists()
    ensures SafeMember(DataMember("pops-1.0", "x"))
  {
    DataMemberIsSafe("pops-1.0", "x");
  }

  /** The larger payload is a well-formed archive that keeps the other members. */
  lemma {:induction false} GrownArchive(
      codec: Codec, wheel: seq<Entry>, record: string, name: string, content: Bytes, bytes: Bytes, larger: seq<Entry>)
    requires RoundTrips(codec) && Archive(codec, wheel, FilesOf(wheel), record) && Addable(name)
    requires IsRecordOf(codec, Grown(wheel, record, name, content), record, bytes)
    requires IsWheelOf(Grown(wheel, record, name, content)[record := bytes], larger)
    ensures Archive(codec, larger, FilesOf(larger), record) && Grows(FilesOf(wheel), FilesOf(larger), record, name)
    ensures EndsWith(record, RECORD_END) && name in FilesOf(larger)
  {
    var base := Grown(wheel, record, name, content);
    assert record in RecordsIn(FilesOf(wheel));
    StillPackable(codec, wheel, record, name, content);
    PackedArchive(codec, base, record, bytes, larger);
    GrownFiles(FilesOf(wheel), record, name, content, bytes);
  }

  lemma {:induction false} GrownFiles(
      files: map<string, Bytes>, record: string, name: string, content: Bytes, bytes: Bytes)
    ensures var grown := (files - {record})[name := content][record := bytes];
      Grows(files, grown, record, name) && name in grown
  {
  }

  lemma {:induction false} StillPackable(codec: Codec, wheel: seq<Entry>, record: string, name: string, content: Bytes)
    requires Archive(codec, wheel, FilesOf(wheel), record) && Addable(name)
    ensures Packable(Grown(wheel, record, name, content), record)
  {
    var files := FilesOf(wheel);
    ManifestIsNotRecord();
    assert record in RecordsIn(files);
    FilesAreSafe(wheel);
    OthersAreNoRecord(files, record);
    EveryOne(NoRecord, files.Keys - {record}, name);
    assert Grown(wheel, record, name, content).Keys == files.Keys - {record} + {name};
    EveryGrown(IsFile, files.Keys, record, name);
    EveryGrown(SafeMember, files.Keys, record, name);
  }

  lemma {:induction false} OthersAreNoRecord(files: map<string, Bytes>, record: string)
    requires RecordsIn(files) == {record}
    ensures Every(NoRecord, files.Keys - {record})
  {
    forall n | n in files.Keys - {record} ensures NoRecord(n) { assert n !in RecordsIn(files); }
  }

  lemma {:induction false} EveryGrown(good: string -> bool, names: set<string>, record: string, name: string)
    requires Every(good, names) && good(name) && record in names
    ensures Every(good, names - {record} + {name} + {record})
  {
  }

  /** `grown` keeps every member of `files` but the RECORD, and adds `name`. */
  ghost predicate Grows(files: map<string, Bytes>, grown: map<string, Bytes>, record: string, name: string) {
    && grown.Keys == files.Keys + {record, name}
    && forall n :: n in files && n != record && n != name ==> grown[n] == files[n]
  }

  lemma {:induction false} StillFat(
      env: Env, codec: Codec, files: map<string, Bytes>, grown: map<string, Bytes>, record: string, name: string,
      rows: seq<Row>)
    requires FatManifest(env, codec, files, rows) && Grows(files, grown, record, name)
    requires EndsWith(record, RECORD_END) && name != MANIFEST && !IsNative(env, name)
    ensures FatManifest(env, codec, grown, rows)
  {
    ManifestIsNotRecord();
    RecordIsNotNative(env, record);
    SameNatives(env, files, grown, record, name);
  }

  lemma {:induction false} SameNatives(
      env: Env, files: map<string, Bytes>, grown: map<string, Bytes>, record: string, name: string)
    requires grown.Keys == files.Keys + {record, name} && !IsNative(env, record) && !IsNative(env, name)
    ensures NativesIn(env, grown) == NativesIn(env, files)
  {
    forall n ensures n in NativesIn(env, grown) <==> n in NativesIn(env, files) { }
  }

  lemma {:induction false} SameLane(
      env: Env, codec: Codec, files: map<string, Bytes>, grown: map<string, Bytes>, record: string, name: string,
      version: string, rows: seq<Row>)
    requires FatManifest(env, codec, files, rows) && Grows(files, grown, record, name)
    requires EndsWith(record, RECORD_END) && !IsNative(env, name) && LaneRows(env, files, version, rows)
    ensures LaneRows(env, grown, version, rows)
  {
    RecordIsNotNative(env, record);
    forall i | 0 <= i < |rows| ensures LaneRow(env, grown, version, rows[i]) {
      assert LaneRow(env, files, version, rows[i]);
      assert Member(rows[i]) in MembersOf(rows);
      assert Member(rows[i]) in NativesIn(env, files);
    }
  }
}
