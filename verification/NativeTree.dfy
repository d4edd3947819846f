/**
 The operations on a native tree: one dimension's update, and snapshot and restore around a package
 replacement.
 */
module NativeTree {
  import opened Wrappers
  import opened Sorting
  import opened VariantManifest

  /** What a loaded extension says about itself. */
  datatype Facts = Facts(dimension: int, version: string, abi: string, hasMpi: bool, hasKokkos: bool)

  /** The arguments of one `update_manifest` call, with the facts of the extension it loads. */
  datatype Request = Request(path: string, dimension: int, version: string, facts: Facts)

  // ----- One row -----

  function NativeRow(env: Env, files: map<string, Bytes>, q: Request): Result<Row, Error> {
    if q.dimension !in DIMENSIONS then Err(BadDimensions)
    else if q.version == "" then Err(BadVersion)
    else if q.path !in files then Err(MissingLeaf)
    else if !IsLeafPath(env, q.dimension, q.path) then Err(BadRow)
    else if q.facts.dimension != q.dimension || q.facts.version != q.version || q.facts.abi == "" then Err(WrongModule)
    else Ok(Row(q.dimension, q.path, env.sha(files[q.path]), q.version, q.facts.abi, q.facts.hasMpi, q.facts.hasKokkos))
  }

  /** The request is consistent with itself, whatever the tree. */
  predicate Sound(env: Env, q: Request) {
    && q.dimension in DIMENSIONS && q.version != "" && IsLeafPath(env, q.dimension, q.path)
    && q.facts.dimension == q.dimension && q.facts.version == q.version && q.facts.abi != ""
  }

  // ----- Update -----

  function Others(d: int): Row -> bool { (r: Row) => r.dimension != d }

  /** `manifest_payload`: every row validated, the rows sorted, the whole validated again. */
  function Payload(env: Env, rows: seq<Row>): Result<Manifest, Error> {
    var m := Manifest(SCHEMA_VERSION, SortRows(rows));
    if exists i :: 0 <= i < |rows| && !ValidRow(env, rows[i]) then Err(BadRow)
    else
      var v := Validate(env, m);
      if v.Err? then Err(v.error) else Ok(m)
  }

  /** `write_manifest_atomic`: replace the manifest, or leave the tree alone. */
  function Write(env: Env, t: Tree, rows: seq<Row>): Result<Tree, Error> {
    var m := Payload(env, rows);
    if m.Err? then Err(m.error) else Ok(t.(manifest := Some(m.value)))
  }

  function CurrentRows(env: Env, t: Tree): Result<seq<Row>, Error> {
    if t.manifest.None? then Ok([]) else Validate(env, t.manifest.value)
  }

  /** The tree after `update_manifest`, and what the call returns. */
  function Updated(env: Env, t: Tree, q: Request): (Tree, Result<seq<Row>, Error>) {
    var current := CurrentRows(env, t);
    if current.Err? then (t, current)
    else
      var row := NativeRow(env, t.files, q);
      if row.Err? then (t, Err(row.error))
      else
        var retained := Select(Others(q.dimension), current.value);
        if exists i :: 0 <= i < |retained| && !Matches(env, t.files, retained[i]) then (t, Err(Unauthenticated))
        else
          var w := Write(env, t, retained + [row.value]);
          if w.Err? then (t, Err(w.error)) else (w.value, Load(env, w.value))
  }

  class NativeRoot {
    var manifest: Option<Manifest>
    var files: map<string, Bytes>

    function Tree(): Tree
      reads this
    {
      VariantManifest.Tree(manifest, files)
    }

    constructor (t: Tree)
      ensures Tree() == t
    {
      manifest, files := t.manifest, t.files;
    }

    /** Merges one freshly authenticated dimension and publishes the result. */
    method Update(env: Env, q: Request) returns (r: Result<seq<Row>, Error>)
      modifies this`manifest
      ensures (Tree(), r) == Updated(env, old(Tree()), q)
    {
      var current := CurrentRows(env, Tree());
      if current.Err? { return current; }
      var row := NativeRow(env, files, q);
      if row.Err? { return Err(row.error); }
      var retained := Select(Others(q.dimension), current.value);
      for i := 0 to |retained|
        invariant Tree() == old(Tree())
        invariant forall j :: 0 <= j < i ==> Matches(env, files, retained[j])
      {
        if !Matches(env, files, retained[i]) { return Err(Unauthenticated); }
      }
      var w := Write(env, Tree(), retained + [row.value]);
      if w.Err? { return Err(w.error); }
      manifest := w.value.manifest;
      r := Load(env, Tree());
    }

    /** Copies the manifest and every leaf it names into `dest`. */
    method Snapshot(env: Env, dest: NativeRoot) returns (r: Result<(), Error>)
      requires dest != this
      modifies dest
      ensures (dest.Tree(), r) == Snapshotted(env, Tree(), old(dest.Tree()))
    {
      if manifest.None? { return Ok(()); }
      var rows := Load(env, Tree());
      if rows.Err? { return Err(rows.error); }
      LoadIsExact(env, Tree());
      dest.manifest := manifest;
      for i := 0 to |rows.value|
        invariant dest.manifest == manifest && Tree() == old(Tree())
        invariant dest.files == Copied(files, old(dest.files), rows.value[..i])
      {
        assert rows.value[..i + 1][..i] == rows.value[..i];
        var path := rows.value[i].path;
        dest.files := dest.files[path := files[path]];
      }
      assert rows.value[..|rows.value|] == rows.value;
      return Ok(());
    }

    /** The loop that copies the missing leaves back and appends their rows. */
    method CopyMissing(env: Env, src: NativeRoot, installed: seq<Row>, missing: seq<Row>) returns (merged: seq<Row>)
      requires src != this && forall i :: 0 <= i < |missing| ==> Matches(env, src.files, missing[i])
      modifies this`files
      ensures merged == installed + missing
      ensures files == Copied(src.files, old(files), missing)
    {
      merged := installed;
      for i := 0 to |missing|
        invariant merged == installed + missing[..i]
        invariant files == Copied(src.files, old(files), missing[..i])
      {
        assert missing[..i + 1][..i] == missing[..i];
        var row := missing[i];
        files := files[row.path := src.files[row.path]];
        merged := merged + [row];
      }
      assert missing[..|missing|] == missing;
    }

    /** Brings back the snapshot's dimensions that the replaced package does not have. */
    method Restore(env: Env, src: NativeRoot, expectDim: int) returns (r: Result<(), Error>)
      requires src != this
      modifies this
      ensures (Tree(), r) == Restored(env, old(Tree()), src.Tree(), expectDim)
    {
      if src.manifest.None? { return Ok(()); }
      if manifest.None? { return Err(MissingManifest); }
      var installed := Load(env, Tree());
      if installed.Err? { return Err(installed.error); }
      if !HasDimension(installed.value, expectDim) { return Err(NotInstalled); }
      var snapshotted := Load(env, src.Tree());
      if snapshotted.Err? { return Err(snapshotted.error); }
      LoadIsExact(env, src.Tree());
      var missing := Select(Absent(installed.value), snapshotted.value);
      // Every leaf is present and matches: loading the snapshot has just established both.
      forall i | 0 <= i < |missing| ensures Matches(env, src.files, missing[i]) {
        SelectMember(Absent(installed.value), snapshotted.value, missing[i]);
      }
      var merged := CopyMissing(env, src, installed.value, missing);
      var w := Write(env, Tree(), merged);
      if w.Err? { return Err(w.error); }
      manifest := w.value.manifest;
      var final := Load(env, Tree());
      r := if final.Err? then Err(final.error) else Ok(());
    }
  }

  // ----- Snapshot and restore as functions -----

  /** `files` with every row's leaf overwritten by the one in `from`. */
  function Copied(from: map<string, Bytes>, files: map<string, Bytes>, rows: seq<Row>): map<string, Bytes> {
    if rows == [] then files
    else
      var last := rows[|rows| - 1];
      var earlier := Copied(from, files, rows[..|rows| - 1]);
      if last.path in from then earlier[last.path := from[last.path]] else earlier
  }

  function Snapshotted(env: Env, root: Tree, dest: Tree): (Tree, Result<(), Error>) {
    if root.manifest.None? then (dest, Ok(()))
    else
      var rows := Load(env, root);
      if rows.Err? then (dest, Err(rows.error))
      else (Tree(root.manifest, Copied(root.files, dest.files, rows.value)), Ok(()))
  }

  predicate HasDimension(rows: seq<Row>, d: int) { exists i :: 0 <= i < |rows| && rows[i].dimension == d }

  function Absent(rows: seq<Row>): Row -> bool { (r: Row) => !HasDimension(rows, r.dimension) }

  function Restored(env: Env, root: Tree, src: Tree, expectDim: int): (Tree, Result<(), Error>) {
    if src.manifest.None? then (root, Ok(()))
    else if root.manifest.None? then (root, Err(MissingManifest))
    else
      var installed := Load(env, root);
      if installed.Err? then (root, Err(installed.error))
      else if !HasDimension(installed.value, expectDim) then (root, Err(NotInstalled))
      else
        var snapshotted := Load(env, src);
        if snapshotted.Err? then (root, Err(snapshotted.error))
        else
          var missing := Select(Absent(installed.value), snapshotted.value);
          var t := Tree(root.manifest, Copied(src.files, root.files, missing));
          var w := Write(env, t, installed.value + missing);
          if w.Err? then (t, Err(w.error))
          else
            var final := Load(env, w.value);
            (w.value, if final.Err? then Err(final.error) else Ok(()))
  }
}
