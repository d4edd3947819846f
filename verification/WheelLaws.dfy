/**
 The small tests the wheel scripts are built from, each with its exact meaning: manifest rows, ABI
 keys, native names, directory markers, decimal sizes, RECORD rows and extraction.
 */
module WheelLaws {
  import opened Wrappers
  import opened Strings
  import opened Sorting
  import opened VariantManifest
  import opened WheelNames
  import opened WheelRecord
  import opened FatWheel

  // ----- Manifest rows -----

  /** `dimN/_pops<suffix>` for one of the three dimensions. */
  ghost predicate LeafOf(dimension: int, path: string, suffix: string) {
    || (dimension == 1 && path == "dim1/_pops" + suffix)
    || (dimension == 2 && path == "dim2/_pops" + suffix)
    || (dimension == 3 && path == "dim3/_pops" + suffix)
  }

  /** What a valid row is, field by field. */
  lemma {:induction false} ValidRowIsExact(env: Env, row: Row)
    ensures ValidRow(env, row) <==>
      && (exists suffix :: suffix in env.suffixes && LeafOf(row.dimension, row.path, suffix))
      && |row.sha| == 64 && (forall c :: c in row.sha ==> '0' <= c <= '9' || 'a' <= c <= 'f')
      && row.version != "" && row.abi != ""
  {
    forall suffix ensures row.dimension in DIMENSIONS && row.path == LeafPath(row.dimension, suffix)
                     <==> LeafOf(row.dimension, row.path, suffix)
    {
      LeafPathSpelled(row.dimension, suffix);
    }
    assert IsDigest(row.sha) <==> |row.sha| == 64 && forall c :: c in row.sha ==> IsHex(c);
  }

  lemma {:induction false} LeafPathSpelled(d: int, suffix: string)
    ensures d == 1 ==> LeafPath(d, suffix) == "dim1/_pops" + suffix
    ensures d == 2 ==> LeafPath(d, suffix) == "dim2/_pops" + suffix
    ensures d == 3 ==> LeafPath(d, suffix) == "dim3/_pops" + suffix
  {
    assert "dim" + "1" + "/_pops" == "dim1/_pops";
    assert "dim" + "2" + "/_pops" == "dim2/_pops";
    assert "dim" + "3" + "/_pops" == "dim3/_pops";
  }

  /** What a readable manifest is: schema 1, rows in climbing order, every leaf there with its digest. */
  lemma {:induction false} ManifestIsExact(env: Env, t: Tree)
    ensures Load(env, t).Ok? <==>
      && t.manifest.Some? && t.manifest.value.schema == 1
      && var rows := t.manifest.value.rows;
      && rows != [] && (forall i, j :: 0 <= i < j < |rows| ==> rows[i].dimension < rows[j].dimension)
      && forall i :: 0 <= i < |rows| ==>
           ValidRow(env, rows[i]) && rows[i].path in t.files && env.sha(t.files[rows[i].path]) == rows[i].sha
    ensures Load(env, t).Ok? ==> Load(env, t).value == t.manifest.value.rows
  {
    if t.manifest.Some? { ValidateIsExact(env, t.manifest.value); }
  }

  // ----- ABI keys -----

  /** A key of the given dimension with the prefix `p`. */
  ghost predicate KeyOf(dimension: int, abi: string, p: string) {
    && p != "" && '\n' !in p
    && (|| (dimension == 1 && abi == p + ";dim=1")
        || (dimension == 2 && abi == p + ";dim=2")
        || (dimension == 3 && abi == p + ";dim=3"))
  }

  /** The common prefix is found exactly in keys that end in their own dimension token. */
  lemma {:induction false} CommonAbiIsExact(row: Row, p: string)
    ensures CommonAbi(row) == Some(p) <==> KeyOf(row.dimension, row.abi, p)
  {
    var abi, n := row.abi, |row.abi|;
    assert ";dim=" + "1" == ";dim=1" && ";dim=" + "2" == ";dim=2" && ";dim=" + "3" == ";dim=3";
    if n >= 6 { assert abi == abi[..n - 6] + abi[n - 6..]; }
    if KeyOf(row.dimension, abi, p) { assert abi[..n - 6] == p; }
  }

  // ----- Native names -----

  ghost predicate SuffixesArePlain(env: Env) { forall suffix :: suffix in env.suffixes ==> '/' !in suffix }

  /** A plain name is native exactly when its last component is `_pops` and an extension suffix. */
  lemma {:induction false} NativeIsExact(env: Env, name: string)
    requires SuffixesArePlain(env) && Plain(name)
    ensures IsNative(env, name) <==> exists suffix :: suffix in env.suffixes && NamesLeaf(name, suffix)
  {
    PlainBasename(name);
    forall suffix | suffix in env.suffixes ensures Basename(name) == "_pops" + suffix <==> NamesLeaf(name, suffix) {
      NamesLeafIsBasename(name, Basename(name), suffix);
    }
  }

  /** The whole name, or what stands behind its last slash. */
  ghost predicate NamesLeaf(name: string, suffix: string) {
    name == "_pops" + suffix || EndsWith(name, "/_pops" + suffix)
  }

  lemma {:induction false} PlainBasename(name: string)
    requires Plain(name)
    ensures var last := Basename(name); name == last || EndsWith(name, "/" + last)
  {
    AllKept(Components(name));
    assert Parts(name) == Components(name);
    LastComponent(name);
  }

  lemma {:induction false} LastComponent(name: string)
    ensures var all := Components(name); var last := all[|all| - 1];
      '/' !in last && (name == last || EndsWith(name, "/" + last))
  {
    var all := Components(name);
    var last := all[|all| - 1];
    if name != "" {
      var rest := Components(name[1..]);
      LastComponent(name[1..]);
      var inner := rest[|rest| - 1];
      assert name == [name[0]] + name[1..];
      if name[0] == '/' {
        assert last == inner;
        if name[1..] != last { SuffixGrows(name, "/" + last); }
      } else if |rest| == 1 {
        assert last == [name[0]] + inner;
        if name[1..] != inner { NoSlashInside(name[1..], inner); }
      } else {
        assert last == inner;
        OneComponent(name[1..]);
        SuffixGrows(name, "/" + last);
      }
    }
  }

  lemma {:induction false} SuffixGrows(name: string, end: string)
    requires name != "" && EndsWith(name[1..], end)
    ensures EndsWith(name, end)
  {
    assert name[|name| - |end|..] == name[1..][|name| - 1 - |end|..];
  }

  /** Several components mean a slash, and one means none. */
  lemma {:induction false} OneComponent(name: string)
    ensures |Components(name)| == 1 <==> '/' !in name
    ensures |Components(name)| == 1 ==> Components(name)[0] == name
  {
    if name != "" {
      OneComponent(name[1..]);
      assert name == [name[0]] + name[1..];
    }
  }

  lemma {:induction false} NoSlashInside(name: string, last: string)
    requires |Components(name)| == 1
    ensures '/' !in name && Components(name)[0] == name
  {
    OneComponent(name);
  }

  lemma {:induction false} NamesLeafIsBasename(name: string, last: string, suffix: string)
    requires '/' !in suffix && last == Basename(name) && (name == last || EndsWith(name, "/" + last))
    ensures last == "_pops" + suffix <==> NamesLeaf(name, suffix)
  {
    var leaf := "_pops" + suffix;
    assert "/" + leaf == "/_pops" + suffix;
    if NamesLeaf(name, suffix) {
      assert '/' !in leaf && leaf[0] == '_';
      LeafIsBasename(name, leaf);
    }
  }

  lemma {:induction false} LeafIsBasename(name: string, leaf: string)
    requires '/' !in leaf && Kept(leaf)
    ensures name == leaf || EndsWith(name, "/" + leaf) ==> Basename(name) == leaf
  {
    if name == leaf {
      SingleComponent(name);
      SelectSingle(Kept, name);
    } else if EndsWith(name, "/" + leaf) {
      var n := |name| - |leaf| - 1;
      assert name[n..] == "/" + leaf && name == name[..n] + "/" + leaf;
      BasenameOf(name[..n], leaf);
    }
  }

  // ----- Directory markers -----

  function Slashes(k: nat): string { seq(k, _ => '/') }

  /** The regular files of an archive with distinct names: every member without a trailing slash. */
  lemma {:induction false} FilesAreExact(entries: seq<Entry>, n: string, bytes: Bytes)
    requires Distinct(MemberNames(entries))
    ensures n in FilesOf(entries) && FilesOf(entries)[n] == bytes <==>
      !EndsWith(n, "/") && exists i :: 0 <= i < |entries| && entries[i].name == n && entries[i].bytes == bytes
  {
    FilesAreEntries(entries);
    SlashIsMarker(n);
    if n in FilesOf(entries) {
      var i :| 0 <= i < |entries| && MemberNames(entries)[i] == n;
      assert entries[i].name == n;
    }
  }

  lemma {:induction false} SlashIsMarker(name: string)
    ensures IsFile(name) <==> !EndsWith(name, "/")
  {
    if name != "" { assert name[|name| - 1..] == [name[|name| - 1]]; }
  }

  /** Stripping removes exactly the trailing slashes. */
  lemma {:induction false} StripIsExact(name: string)
    ensures IsFile(StripSlashes(name)) && exists k: nat :: name == StripSlashes(name) + Slashes(k)
  {
    if name != "" && name[|name| - 1] == '/' {
      var n := |name| - 1;
      StripIsExact(name[..n]);
      var k: nat :| name[..n] == StripSlashes(name[..n]) + Slashes(k);
      assert Slashes(k + 1) == Slashes(k) + "/";
      assert name == name[..n] + "/" == StripSlashes(name) + Slashes(k + 1);
    } else {
      assert name == StripSlashes(name) + Slashes(0);
    }
  }

  // ----- Sizes -----

  /** The number a digit string stands for. */
  ghost function NumberOf(s: string): int {
    if s == "" then 0 else 10 * NumberOf(s[..|s| - 1]) + (s[|s| - 1] as int - '0' as int)
  }

  /** A size is written in decimal digits, without a leading zero. */
  lemma {:induction false} DecimalReadsBack(n: nat)
    ensures NumberOf(Decimal(n)) == n && Decimal(n) != "" && (forall c :: c in Decimal(n) ==> '0' <= c <= '9')
    ensures Decimal(n)[0] == '0' ==> n == 0
  {
    var s := Decimal(n);
    if n >= 10 {
      DecimalReadsBack(n / 10);
      assert s[..|s| - 1] == Decimal(n / 10);
    } else {
      assert s[..0] == "";
    }
  }

  // ----- RECORD -----

  /** A row that names the file with the digest and decimal size of its bytes. */
  ghost predicate Vouches(codec: Codec, row: RecordRow, name: string, bytes: Bytes) {
    row.name == name && row.digest == codec.digest(bytes) && row.size == Decimal(|bytes|)
  }

  /**
   A RECORD covers its files exactly when it decodes to rows with safe and distinct names, one for
   every file: a vouching one, or a blank one for the RECORD itself.
   */
  lemma {:induction false} CoveringIsExact(codec: Codec, files: map<string, Bytes>, record: string)
    requires record in files
    ensures RecordCovers(codec, files, record) <==>
      && codec.decodeRecord(files[record]).Some?
      && var rows := codec.decodeRecord(files[record]).value;
      && (forall i, j :: 0 <= i < j < |rows| ==> rows[i].name != rows[j].name)
      && (forall i :: 0 <= i < |rows| ==> SafeMember(rows[i].name) && rows[i].name in files)
      && (forall n :: n in files ==> exists i :: 0 <= i < |rows| && rows[i].name == n)
      && (forall i :: 0 <= i < |rows| && rows[i].name in files ==>
            if rows[i].name == record then rows[i].digest == "" && rows[i].size == ""
            else Vouches(codec, rows[i], rows[i].name, files[rows[i].name]))
  {
    if codec.decodeRecord(files[record]).Some? {
      ListingIsExact(codec, files, record, codec.decodeRecord(files[record]).value);
    }
  }

  lemma {:induction false} ListingIsExact(codec: Codec, files: map<string, Bytes>, record: string, rows: seq<RecordRow>)
    ensures Lists(codec, files, record, rows) <==>
      && (forall i, j :: 0 <= i < j < |rows| ==> rows[i].name != rows[j].name)
      && (forall i :: 0 <= i < |rows| ==> SafeMember(rows[i].name) && rows[i].name in files)
      && (forall n :: n in files ==> exists i :: 0 <= i < |rows| && rows[i].name == n)
      && (forall i :: 0 <= i < |rows| && rows[i].name in files ==>
            if rows[i].name == record then rows[i].digest == "" && rows[i].size == ""
            else Vouches(codec, rows[i], rows[i].name, files[rows[i].name]))
  {
    var names := RowNames(rows);
    assert Distinct(names) <==> forall i, j :: 0 <= i < j < |rows| ==> rows[i].name != rows[j].name by {
      assert forall i :: 0 <= i < |rows| ==> names[i] == rows[i].name;
    }
    NamedAre(rows, files.Keys);
    forall i | 0 <= i < |rows| && rows[i].name in files { RowIsExact(codec, files, record, rows[i]); }
  }

  lemma {:induction false} NamedAre(rows: seq<RecordRow>, all: set<string>)
    ensures Elements(RowNames(rows)) == all <==>
      && (forall i :: 0 <= i < |rows| ==> rows[i].name in all)
      && (forall n :: n in all ==> exists i :: 0 <= i < |rows| && rows[i].name == n)
  {
    var names := RowNames(rows);
    assert forall i :: 0 <= i < |rows| ==> names[i] == rows[i].name;
    forall n ensures n in Elements(names) <==> exists i :: 0 <= i < |rows| && rows[i].name == n {
      if n in Elements(names) { RowAt(rows, n); }
      if i :| 0 <= i < |rows| && rows[i].name == n { assert names[i] == n; }
    }
    forall i | 0 <= i < |rows| ensures rows[i].name in Elements(names) { assert names[i] == rows[i].name; }
  }

  lemma {:induction false} RowIsExact(codec: Codec, files: map<string, Bytes>, record: string, row: RecordRow)
    requires row.name in files
    ensures RowHolds(codec, files, record, row) <==>
      if row.name == record then row.digest == "" && row.size == ""
      else Vouches(codec, row, row.name, files[row.name])
  {
  }

  // ----- Members -----

  /** The members the scripts look for, by their full names. */
  lemma {:induction false} FixedNamesAreSpelled(files: map<string, Bytes>, row: Row, n: string)
    ensures MANIFEST == "pops/_native/variants.json" && Member(row) == "pops/_native/" + row.path
    ensures n in RecordsIn(files) <==> n in files && EndsWith(n, ".dist-info/RECORD")
  {
  }

  // ----- Extraction -----

  /** `b` is `a`, a slash, and more. */
  ghost predicate LiesBelow(a: string, b: string) { exists rest :: b == a + "/" + rest }

  /** Members extract exactly when none is the directory itself and none lies below another. */
  lemma {:induction false} ExtractableIsExact(members: set<string>)
    ensures Extractable(members) <==>
      "." !in members && forall a, b :: a in members && b in members ==> !LiesBelow(a, b)
  {
    forall a: string, b: string ensures a in Ancestors(b) <==> LiesBelow(a, b) { Below(a, b); }
  }

  lemma {:induction false} Below(a: string, b: string)
    ensures a in Ancestors(b) <==> LiesBelow(a, b)
  {
    if a in Ancestors(b) {
      var i :| 0 <= i < |b| && b[i] == '/' && a == b[..i];
      assert b == a + "/" + b[i + 1..];
    }
    if rest :| b == a + "/" + rest { assert b[|a|] == '/' && b[..|a|] == a; }
  }
}
