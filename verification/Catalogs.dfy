/**
 The C++ duration catalogues: how they are read (`load_durations` in `scripts/ci_shard_binpack.py`)
 and how the planner authenticates them (`validate_cpp_duration_catalogs` in
 `scripts/ci_select_tests.py`).
 */
module Catalogs {
  import opened Wrappers
  import opened Numbers
  import opened Strings
  import opened Sorting

  /** The metadata entry; a field of the wrong type is absent. */
  datatype Meta = Meta(targetCount: Option<int>, estimated: Option<seq<string>>)

  /** A catalogue file; one that cannot be read as an object is absent. */
  datatype Catalog = Absent | Present(entries: map<string, Number>, meta: Option<Meta>)

  predicate IsTimed(name: string) { !StartsWith(name, "_") }

  predicate IsDuration(n: Number) { n.Finite? && n.value > 0.0 }

  /** Every entry that is not metadata is a finite positive number. */
  predicate Readable(entries: map<string, Number>) { forall n :: n in entries && IsTimed(n) ==> IsDuration(entries[n]) }

  function TimesOf(entries: map<string, Number>): map<string, real>
    requires Readable(entries)
  {
    map n | n in entries && IsTimed(n) :: entries[n].value
  }

  /** `load_durations`: an absent file has no durations, an invalid one is refused. */
  function Load(c: Catalog): Option<map<string, real>> {
    if c.Absent? then Some(map[])
    else if Readable(c.entries) then Some(TimesOf(c.entries))
    else None
  }

  predicate MetaFits(meta: Meta, durations: map<string, real>) {
    && meta.targetCount == Some(|durations|)
    && meta.estimated.Some? && "" !in meta.estimated.value
    && SortUnique(StringLess, meta.estimated.value) == meta.estimated.value
    && forall n :: n in meta.estimated.value ==> n in durations
  }

  /** The catalogue covers exactly the given targets and its metadata agrees. */
  predicate Covers(c: Catalog, targets: set<string>) {
    && c.Present? && Load(c).Some? && Load(c).value.Keys == targets
    && c.meta.Some? && MetaFits(c.meta.value, Load(c).value)
  }

  /** The loop over both catalogues: every mismatch is collected, any of them is fatal. */
  method ValidateCatalogs(catalogs: seq<Catalog>, targets: set<string>) returns (failures: nat)
    ensures failures == 0 <==> forall i :: 0 <= i < |catalogs| ==> Covers(catalogs[i], targets)
  {
    for i := 0 to |catalogs| {
      if Load(catalogs[i]).None? { return 1; }
    }
    failures := 0;
    for i := 0 to |catalogs|
      invariant failures == 0 <==> forall j :: 0 <= j < i ==> Covers(catalogs[j], targets)
    {
      var more := CountFailures(catalogs[i], targets);
      failures := failures + more;
    }
  }

  method CountFailures(c: Catalog, targets: set<string>) returns (failures: nat)
    ensures failures == 0 <==> Covers(c, targets)
  {
    var loaded := Load(c);
    if loaded.None? { return 1; }
    var durations := loaded.value;
    failures := 0;
    if targets - durations.Keys != {} { failures := failures + 1; }
    if durations.Keys - targets != {} { failures := failures + 1; }
    // The count of non-positive durations is always zero: loading refuses them.
    LoadedIsPositive(c);
    if c.Absent? || c.meta.None? { return failures + 1; }
    var meta := c.meta.value;
    if meta.targetCount != Some(|durations|) { failures := failures + 1; }
    if meta.estimated.None? || "" in meta.estimated.value
       || SortUnique(StringLess, meta.estimated.value) != meta.estimated.value
    {
      failures := failures + 1;
    } else if exists n :: n in meta.estimated.value && n !in durations {
      failures := failures + 1;
    }
    assert durations.Keys == targets <==> targets - durations.Keys == {} && durations.Keys - targets == {};
  }

  /** What loading a file gives: the entries that do not start with an underscore, if all are positive. */
  lemma {:induction false} LoadIsExact(entries: map<string, Number>, meta: Option<Meta>)
    ensures Load(Absent) == Some(map[])
    ensures Load(Present(entries, meta)).Some? <==>
      forall n :: n in entries && (n == "" || n[0] != '_') ==> entries[n].Finite? && entries[n].value > 0.0
    ensures Load(Present(entries, meta)).Some? ==> var m := Load(Present(entries, meta)).value;
      && (forall n :: n in m <==> n in entries && (n == "" || n[0] != '_'))
      && (forall n :: n in m ==> entries[n] == Finite(m[n]))
  {
    forall n: string ensures IsTimed(n) <==> n == "" || n[0] != '_' {
      PrefixCharacter(n, "_", 0);
      if n != "" && n[0] == '_' { assert n[..1] == "_"; }
    }
  }

  /** When a catalogue is accepted, field by field. */
  lemma {:induction false} CoversIsExact(c: Catalog, targets: set<string>)
    ensures Covers(c, targets) <==>
      && c.Present? && c.meta.Some? && Load(c).Some? && Load(c).value.Keys == targets
      && c.meta.value.targetCount == Some(|targets|) && c.meta.value.estimated.Some?
      && var names := c.meta.value.estimated.value;
      && (forall i :: 0 <= i < |names| ==> names[i] != "" && names[i] in targets)
      && (forall i, j :: 0 <= i < j < |names| ==> StringLess(names[i], names[j]))
  {
    if c.Present? && c.meta.Some? && Load(c).Some? && Load(c).value.Keys == targets && c.meta.value.estimated.Some? {
      var names, durations := c.meta.value.estimated.value, Load(c).value;
      SortedExactly(names);
      assert |durations| == |durations.Keys|;
    }
  }

  lemma {:induction false} SortedExactly(names: seq<string>)
    ensures SortUnique(StringLess, names) == names <==> Increasing(StringLess, names)
  {
    StringLessIsStrictTotal();
    SortUniqueSorts(StringLess, names);
    if Increasing(StringLess, names) { IncreasingIsUnique(StringLess, SortUnique(StringLess, names), names); }
  }

  /** No loaded duration is zero or negative, so the planner's own test for that never fires. */
  lemma {:induction false} LoadedIsPositive(c: Catalog)
    ensures Load(c).Some? ==> forall n :: n in Load(c).value ==> Load(c).value[n] > 0.0
  {
  }

  /** The estimated targets of an accepted catalogue are sorted and unique. */
  lemma {:induction false} EstimatedAreSorted(c: Catalog, targets: set<string>)
    requires Covers(c, targets)
    ensures Increasing(StringLess, c.meta.value.estimated.value)
  {
    StringLessIsStrictTotal();
    SortUniqueSorts(StringLess, c.meta.value.estimated.value);
  }
}
