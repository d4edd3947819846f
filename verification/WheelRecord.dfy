/**
 Wheel archives and the RECORD rules of PEP 427, as both the assembler and the release preflight
 check them and as the assembler writes them. Text codecs and the RECORD digest are parameters.
 */
module WheelRecord {
  import opened Wrappers
  import opened Sorting
  import opened VariantManifest
  import opened WheelNames
  import opened Reachability

  /** A member of a zip archive; a name ending in a slash is a directory marker. */
  datatype Entry = Entry(name: string, symlink: bool, bytes: Bytes)

  datatype RecordRow = RecordRow(name: string, digest: string, size: string)

  /** `decodeRecord` refuses text that is not UTF-8 or has a row without three fields. */
  datatype Codec = Codec(
    digest: Bytes -> string,
    encodeManifest: Manifest -> Bytes, decodeManifest: Bytes -> Option<Manifest>,
    encodeRecord: seq<RecordRow> -> Bytes, decodeRecord: Bytes -> Option<seq<RecordRow>>)

  /** Reading back what was written gives the same manifest and the same rows. */
  ghost predicate RoundTrips(codec: Codec) {
    && (forall m :: codec.decodeManifest(codec.encodeManifest(m)) == Some(m))
    && (forall rows :: codec.decodeRecord(codec.encodeRecord(rows)) == Some(rows))
  }

  function Decimal(n: nat): string {
    if n < 10 then [('0' as int + n) as char] else Decimal(n / 10) + [('0' as int + n % 10) as char]
  }

  // ----- Archives -----

  function MemberNames(entries: seq<Entry>): seq<string> {
    seq(|entries|, i requires 0 <= i < |entries| => entries[i].name)
  }

  /** The regular files of an archive. */
  function FilesOf(entries: seq<Entry>): map<string, Bytes> {
    if entries == [] then map[]
    else
      var n := |entries| - 1;
      var earlier := FilesOf(entries[..n]);
      if IsFile(entries[n].name) then earlier[entries[n].name := entries[n].bytes] else earlier
  }

  predicate CleanEntry(e: Entry) { SafeMember(StripSlashes(e.name)) && !e.symlink }

  ghost predicate Clean(entries: seq<Entry>) {
    Distinct(MemberNames(entries)) && forall i :: 0 <= i < |entries| ==> CleanEntry(entries[i])
  }

  method CheckEntries(entries: seq<Entry>) returns (ok: bool)
    ensures ok <==> Clean(entries)
  {
    var names := MemberNames(entries);
    DistinctIffSameSize(names);
    if |names| != |set n | n in names| { return false; }
    for i := 0 to |entries|
      invariant forall j :: 0 <= j < i ==> CleanEntry(entries[j])
    {
      PathCheckIsExact(StripSlashes(entries[i].name));
      if !PathCheck(StripSlashes(entries[i].name)) || entries[i].symlink { return false; }
    }
    return true;
  }

  /** The files of an archive with distinct names are its non-directory entries. */
  lemma {:induction false} FilesAreEntries(entries: seq<Entry>)
    requires Distinct(MemberNames(entries))
    ensures forall i :: 0 <= i < |entries| && IsFile(entries[i].name) ==>
      entries[i].name in FilesOf(entries) && FilesOf(entries)[entries[i].name] == entries[i].bytes
    ensures forall n :: n in FilesOf(entries) ==> IsFile(n) && n in MemberNames(entries)
  {
    if entries != [] {
      var n := |entries| - 1;
      var head := entries[..n];
      assert MemberNames(head) == MemberNames(entries)[..n];
      FilesAreEntries(head);
      forall i | 0 <= i < |entries| && IsFile(entries[i].name)
        ensures entries[i].name in FilesOf(entries) && FilesOf(entries)[entries[i].name] == entries[i].bytes
      {
        if i < n {
          assert head[i] == entries[i] && MemberNames(entries)[i] != MemberNames(entries)[n];
        }
      }
      forall x | x in FilesOf(entries) ensures IsFile(x) && x in MemberNames(entries) {
        if x in FilesOf(head) { assert x in MemberNames(head); } else { assert MemberNames(entries)[n] == x; }
      }
    }
  }

  lemma {:induction false} FilesAreSafe(entries: seq<Entry>)
    requires Clean(entries)
    ensures Every(IsFile, FilesOf(entries).Keys) && Every(SafeMember, FilesOf(entries).Keys)
  {
    FilesAreEntries(entries);
    forall n | n in FilesOf(entries) ensures SafeMember(n) {
      var i :| 0 <= i < |entries| && MemberNames(entries)[i] == n;
      assert CleanEntry(entries[i]) && StripSlashes(n) == n;
    }
  }

  ghost predicate Every(good: string -> bool, names: set<string>) { forall n :: n in names ==> good(n) }

  // ----- RECORD -----

  /** One row is right: the RECORD leaves its own row blank, every other file has its digest and size. */
  predicate RowHolds(codec: Codec, files: map<string, Bytes>, record: string, row: RecordRow) {
    if row.name == record then row.digest == "" && row.size == ""
    else
      && row.name in files
      && row.digest == codec.digest(files[row.name]) && row.size == Decimal(|files[row.name]|)
  }

  function RowNames(rows: seq<RecordRow>): seq<string> { seq(|rows|, i requires 0 <= i < |rows| => rows[i].name) }

  /** The rows list exactly the files, each once, each with its digest and size. */
  ghost predicate Lists(codec: Codec, files: map<string, Bytes>, record: string, rows: seq<RecordRow>) {
    && Distinct(RowNames(rows)) && Elements(RowNames(rows)) == files.Keys
    && forall i :: 0 <= i < |rows| ==> SafeMember(rows[i].name) && RowHolds(codec, files, record, rows[i])
  }

  ghost predicate RecordCovers(codec: Codec, files: map<string, Bytes>, record: string)
    requires record in files
  {
    codec.decodeRecord(files[record]).Some? && Lists(codec, files, record, codec.decodeRecord(files[record]).value)
  }

  method ReadRecord(codec: Codec, files: map<string, Bytes>, record: string) returns (ok: bool)
    requires record in files
    ensures ok <==> RecordCovers(codec, files, record)
  {
    var decoded := codec.decodeRecord(files[record]);
    if decoded.None? { return false; }
    var rows := decoded.value;
    if rows == [] { assert Elements(RowNames(rows)) == {}; return false; }
    var indexed := IndexRecord(rows);
    if indexed.None? { return false; }
    var byName := indexed.value;
    if byName.Keys != files.Keys { return false; }
    ok := CheckRows(codec, files, record, byName);
    IndexedRows(codec, files, record, rows, byName);
  }

  /** The dictionary holds each row under its own name. */
  ghost predicate Indexes(byName: map<string, RecordRow>, rows: seq<RecordRow>) {
    && byName.Keys == Elements(RowNames(rows))
    && forall j :: 0 <= j < |rows| ==> rows[j].name in byName && byName[rows[j].name] == rows[j]
  }

  ghost predicate AllSafe(rows: seq<RecordRow>) { forall j :: 0 <= j < |rows| ==> SafeMember(rows[j].name) }

  method IndexRecord(rows: seq<RecordRow>) returns (r: Option<map<string, RecordRow>>)
    ensures r.Some? <==> AllSafe(rows) && Distinct(RowNames(rows))
    ensures r.Some? ==> Indexes(r.value, rows)
  {
    var byName: map<string, RecordRow> := map[];
    for i := 0 to |rows|
      invariant Indexes(byName, rows[..i]) && Distinct(RowNames(rows[..i])) && AllSafe(rows[..i])
    {
      var row := rows[i];
      RowNamesStep(rows, i);
      PathCheckIsExact(row.name);
      if !PathCheck(row.name) { return None; }
      if row.name in byName { return None; }
      ghost var before := byName;
      byName := byName[row.name := row];
      IndexStep(before, rows, i);
    }
    assert rows[..|rows|] == rows;
    return Some(byName);
  }

  lemma {:induction false} IndexStep(byName: map<string, RecordRow>, rows: seq<RecordRow>, i: nat)
    requires i < |rows| && Indexes(byName, rows[..i]) && rows[i].name !in byName
    ensures Indexes(byName[rows[i].name := rows[i]], rows[..i + 1])
  {
    RowNamesStep(rows, i);
    var after := byName[rows[i].name := rows[i]];
    forall j | 0 <= j < i + 1 ensures rows[j].name in after && after[rows[j].name] == rows[j] {
      if j < i { assert rows[..i][j] == rows[j]; }
    }
  }

  method CheckRows(codec: Codec, files: map<string, Bytes>, record: string, byName: map<string, RecordRow>)
    returns (ok: bool)
    requires byName.Keys == files.Keys
    ensures ok <==> forall n :: n in byName ==> RowHolds(codec, files, record, byName[n])
  {
    var names := SortedNames(files.Keys);
    OrderedIn(names, files);
    for k := 0 to |names|
      invariant forall l :: 0 <= l < k ==> RowHolds(codec, files, record, byName[names[l]])
    {
      if !RowHolds(codec, files, record, byName[names[k]]) { return false; }
    }
    forall n | n in byName ensures RowHolds(codec, files, record, byName[n]) {
      assert n in Elements(names);
      var l :| 0 <= l < |names| && names[l] == n;
    }
    return true;
  }

  lemma {:induction false} IndexedRows(
      codec: Codec, files: map<string, Bytes>, record: string, rows: seq<RecordRow>, byName: map<string, RecordRow>)
    requires Indexes(byName, rows)
    ensures (forall n :: n in byName ==> RowHolds(codec, files, record, byName[n]))
       <==> (forall i :: 0 <= i < |rows| ==> RowHolds(codec, files, record, rows[i]))
  {
    if forall i :: 0 <= i < |rows| ==> RowHolds(codec, files, record, rows[i]) {
      forall n | n in byName ensures RowHolds(codec, files, record, byName[n]) {
        RowAt(rows, n);
        var i :| 0 <= i < |rows| && rows[i].name == n;
        assert byName[rows[i].name] == rows[i];
      }
    }
    if forall n :: n in byName ==> RowHolds(codec, files, record, byName[n]) {
      forall i | 0 <= i < |rows| ensures RowHolds(codec, files, record, rows[i]) {
        assert byName[rows[i].name] == rows[i];
      }
    }
  }

  lemma {:induction false} RowNamesStep(rows: seq<RecordRow>, i: nat)
    requires i < |rows|
    ensures RowNames(rows[..i + 1]) == RowNames(rows[..i]) + [rows[i].name]
    ensures Elements(RowNames(rows[..i + 1])) == Elements(RowNames(rows[..i])) + {rows[i].name}
    ensures Distinct(RowNames(rows[..i + 1])) <==> Distinct(RowNames(rows[..i])) && rows[i].name !in RowNames(rows[..i])
    ensures Distinct(RowNames(rows)) ==> Distinct(RowNames(rows[..i + 1]))
  {
    var head, longer := RowNames(rows[..i]), RowNames(rows[..i + 1]);
    assert longer == head + [rows[i].name];
    if Distinct(head) && rows[i].name !in head { DistinctAppend(head, [rows[i].name]); }
    if Distinct(longer) { DistinctSplit(head, [rows[i].name], rows[i].name); }
    if Distinct(RowNames(rows)) {
      forall a, b | 0 <= a < b < |longer| ensures longer[a] != longer[b] {
        assert RowNames(rows)[a] == longer[a] && RowNames(rows)[b] == longer[b];
      }
    }
  }

  lemma {:induction false} RowAt(rows: seq<RecordRow>, name: string)
    requires name in Elements(RowNames(rows))
    ensures exists i :: 0 <= i < |rows| && rows[i].name == name
  {
    var i :| 0 <= i < |rows| && RowNames(rows)[i] == name;
  }

  // ----- Writing -----

  /** The members in the order Python's `sorted` gives them. */
  ghost predicate Orders(names: seq<string>, all: set<string>) {
    Increasing(StringLess, names) && Elements(names) == all
  }

  method SortedNames(all: set<string>) returns (names: seq<string>)
    ensures Orders(names, all)
  {
    var some := SomeOrder(all);
    StringLessIsStrictTotal();
    SortUniqueSorts(StringLess, some);
    names := SortUnique(StringLess, some);
  }

  function RowFor(codec: Codec, files: map<string, Bytes>, name: string): RecordRow
    requires name in files
  {
    RecordRow(name, codec.digest(files[name]), Decimal(|files[name]|))
  }

  ghost predicate AllIn(names: seq<string>, files: map<string, Bytes>) {
    forall i :: 0 <= i < |names| ==> names[i] in files
  }

  ghost function RecordRows(codec: Codec, files: map<string, Bytes>, names: seq<string>, record: string): seq<RecordRow>
    requires AllIn(names, files)
  {
    seq(|names|, i requires 0 <= i < |names| => RowFor(codec, files, names[i])) + [RecordRow(record, "", "")]
  }

  lemma {:induction false} OrderedIn(names: seq<string>, files: map<string, Bytes>)
    requires Orders(names, files.Keys)
    ensures AllIn(names, files) && Distinct(names)
  {
    StringLessIsStrictTotal();
    forall i | 0 <= i < |names| ensures names[i] in files { assert names[i] in Elements(names); }
  }

  /** `bytes` is the RECORD of `files`: sorted rows, then the RECORD's own blank row. */
  ghost predicate IsRecordOf(codec: Codec, files: map<string, Bytes>, record: string, bytes: Bytes) {
    exists names :: Orders(names, files.Keys) && AllIn(names, files)
      && bytes == codec.encodeRecord(RecordRows(codec, files, names, record))
  }

  method RecordBytes(codec: Codec, files: map<string, Bytes>, record: string) returns (bytes: Bytes)
    ensures IsRecordOf(codec, files, record, bytes)
  {
    var names := SortedNames(files.Keys);
    OrderedIn(names, files);
    var rows: seq<RecordRow> := [];
    for i := 0 to |names|
      invariant rows == RecordRows(codec, files, names, record)[..i]
    {
      rows := rows + [RowFor(codec, files, names[i])];
    }
    rows := rows + [RecordRow(record, "", "")];
    assert rows == RecordRows(codec, files, names, record);
    bytes := codec.encodeRecord(rows);
  }

  /** The RECORD is a function of the files: nothing else can come out. */
  lemma {:induction false} RecordIsDeterministic(
      codec: Codec, files: map<string, Bytes>, record: string, a: Bytes, b: Bytes)
    requires IsRecordOf(codec, files, record, a) && IsRecordOf(codec, files, record, b)
    ensures a == b
  {
    var m :| Orders(m, files.Keys) && AllIn(m, files) && a == codec.encodeRecord(RecordRows(codec, files, m, record));
    var n :| Orders(n, files.Keys) && AllIn(n, files) && b == codec.encodeRecord(RecordRows(codec, files, n, record));
    StringLessIsStrictTotal();
    IncreasingIsUnique(StringLess, m, n);
  }

  /** Whatever the assembler writes as RECORD, the checks accept. */
  lemma {:induction false} WrittenRecordCovers(codec: Codec, files: map<string, Bytes>, record: string, bytes: Bytes)
    requires RoundTrips(codec) && IsRecordOf(codec, files, record, bytes) && record !in files
    requires SafeMember(record) && Every(SafeMember, files.Keys)
    ensures RecordCovers(codec, files[record := bytes], record)
  {
    var names :| Orders(names, files.Keys) && AllIn(names, files)
      && bytes == codec.encodeRecord(RecordRows(codec, files, names, record));
    OrderedIn(names, files);
    WrittenNames(codec, files, record, bytes, names);
    WrittenRowsHold(codec, files, record, bytes, names);
  }

  lemma {:induction false} WrittenNames(
      codec: Codec, files: map<string, Bytes>, record: string, bytes: Bytes, names: seq<string>)
    requires AllIn(names, files) && Distinct(names) && Elements(names) == files.Keys && record !in files
    ensures var rows := RecordRows(codec, files, names, record);
      Distinct(RowNames(rows)) && Elements(RowNames(rows)) == files[record := bytes].Keys
  {
    assert RowNames(RecordRows(codec, files, names, record)) == names + [record];
    NamesWithRecord(names, files.Keys, record);
    assert files[record := bytes].Keys == files.Keys + {record};
  }

  lemma {:induction false} WrittenRowsHold(
      codec: Codec, files: map<string, Bytes>, record: string, bytes: Bytes, names: seq<string>)
    requires AllIn(names, files) && record !in files
    requires SafeMember(record) && Every(SafeMember, files.Keys)
    ensures var rows := RecordRows(codec, files, names, record);
      forall i :: 0 <= i < |rows| ==>
        SafeMember(rows[i].name) && RowHolds(codec, files[record := bytes], record, rows[i])
  {
    var rows := RecordRows(codec, files, names, record);
    forall i | 0 <= i < |rows|
      ensures SafeMember(rows[i].name) && RowHolds(codec, files[record := bytes], record, rows[i])
    {
      if i < |names| { WrittenRow(codec, files, record, bytes, names[i]); }
    }
  }

  lemma {:induction false} NamesWithRecord(names: seq<string>, all: set<string>, record: string)
    requires Distinct(names) && Elements(names) == all && record !in all
    ensures Distinct(names + [record]) && Elements(names + [record]) == all + {record}
  {
    assert record in names <==> record in Elements(names);
    DistinctAppend(names, [record]);
  }

  lemma {:induction false} WrittenRow(
      codec: Codec, files: map<string, Bytes>, record: string, bytes: Bytes, name: string)
    requires name in files && record !in files
    ensures RowHolds(codec, files[record := bytes], record, RowFor(codec, files, name))
  {
    assert name != record;
  }

  // ----- Tampering -----

  /** No member has different bytes in the two file sets and yet the same digest. */
  ghost predicate Separates(codec: Codec, f: map<string, Bytes>, g: map<string, Bytes>) {
    forall n :: n in f && n in g && codec.digest(f[n]) == codec.digest(g[n]) ==> f[n] == g[n]
  }

  /**
   Where no two different members share a digest, the RECORD pins the whole archive: two file sets
   that pass with the same RECORD bytes are the same file set. Any change of a member is refused.
   */
  lemma {:induction false} RecordPinsFiles(codec: Codec, f: map<string, Bytes>, g: map<string, Bytes>, record: string)
    requires Separates(codec, f, g)
    requires record in f && record in g && f[record] == g[record]
    requires RecordCovers(codec, f, record) && RecordCovers(codec, g, record)
    ensures f == g
  {
    var rows := codec.decodeRecord(f[record]).value;
    assert f.Keys == g.Keys;
    forall n | n in f ensures f[n] == g[n] {
      if n != record {
        RowAt(rows, n);
        var i :| 0 <= i < |rows| && rows[i].name == n;
        assert RowHolds(codec, f, record, rows[i]) && RowHolds(codec, g, record, rows[i]);
      }
    }
  }
}
