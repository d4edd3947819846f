/**
 Wheel member names as `PurePosixPath` reads them: which are safe and canonical, and which name a
 native leaf. The assembler and the release preflight carry the same checks.
 */
module WheelNames {
  import opened Wrappers
  import opened Strings
  import opened Sorting
  import opened VariantManifest

  // ----- Splitting at slashes -----

  function Components(name: string): (parts: seq<string>)
    ensures |parts| > 0
  {
    if name == "" then [""]
    else
      var rest := Components(name[1..]);
      if name[0] == '/' then [""] + rest else Prepend(name[0], rest)
  }

  function Prepend(c: char, parts: seq<string>): (longer: seq<string>)
    requires parts != []
    ensures longer != []
  {
    [[c] + parts[0]] + parts[1..]
  }

  function Join(parts: seq<string>): string {
    if parts == [] then "" else if |parts| == 1 then parts[0] else parts[0] + "/" + Join(parts[1..])
  }

  lemma {:induction false} JoinComponents(name: string)
    ensures Join(Components(name)) == name
  {
    if name != "" {
      var rest := Components(name[1..]);
      JoinComponents(name[1..]);
      assert name == [name[0]] + name[1..];
      if name[0] == '/' {
        assert ([""] + rest)[1..] == rest;
      } else {
        JoinFirst(name[0], rest);
      }
    }
  }

  lemma {:induction false} JoinFirst(c: char, parts: seq<string>)
    requires parts != []
    ensures Join(Prepend(c, parts)) == [c] + Join(parts)
  {
    var longer := Prepend(c, parts);
    if |parts| > 1 {
      assert longer[1..] == parts[1..];
      assert [c] + (parts[0] + "/" + Join(parts[1..])) == ([c] + parts[0]) + "/" + Join(parts[1..]);
    }
  }

  lemma {:induction false} ComponentsAppend(a: string, b: string)
    ensures Components(a + "/" + b) == Components(a) + Components(b)
  {
    var name := a + "/" + b;
    if a == "" {
      assert name[1..] == b;
    } else {
      ComponentsAppend(a[1..], b);
      assert name[1..] == a[1..] + "/" + b && name[0] == a[0];
      var first, second := Components(a[1..]), Components(b);
      if a[0] == '/' {
        assert [""] + (first + second) == ([""] + first) + second;
      } else {
        PrependAppend(a[0], first, second);
      }
    }
  }

  lemma {:induction false} PrependAppend(c: char, p: seq<string>, q: seq<string>)
    requires p != []
    ensures Prepend(c, p + q) == Prepend(c, p) + q
  {
  }

  lemma {:induction false} SingleComponent(name: string)
    requires '/' !in name
    ensures Components(name) == [name]
  {
    if name != "" {
      SingleComponent(name[1..]);
      assert name[0] != '/';
      assert name == [name[0]] + name[1..];
    }
  }

  // ----- Canonical paths -----

  /** The path library drops empty and `.` components. */
  predicate Kept(part: string) { part != "" && part != "." }

  function Parts(name: string): seq<string> { Select(Kept, Components(name)) }

  predicate IsAbsolute(name: string) { name != "" && name[0] == '/' }

  /** The text of a relative path. */
  function Text(name: string): string { if Parts(name) == [] then "." else Join(Parts(name)) }

  function Basename(name: string): string {
    var parts := Parts(name);
    if parts == [] then "" else parts[|parts| - 1]
  }

  /** The member check as written, over the parsed path. */
  predicate PathCheck(name: string) {
    && name != "" && '\\' !in name && !IsAbsolute(name) && Text(name) == name
    && (forall part :: part in Parts(name) ==> part !in {"", ".", ".."})
    && ".data" !in Parts(name)
  }

  /** Characters a joined list takes, counting one separator for each part. */
  ghost function Width(parts: seq<string>): nat {
    if parts == [] then 0 else |parts[0]| + 1 + Width(parts[1..])
  }

  lemma {:induction false} JoinWidth(parts: seq<string>)
    requires parts != []
    ensures |Join(parts)| + 1 == Width(parts)
  {
    if |parts| > 1 { JoinWidth(parts[1..]); } else { assert parts[1..] == []; }
  }

  /** Dropping a component always shortens the path. */
  lemma {:induction false} KeptWidth(parts: seq<string>)
    ensures Width(Select(Kept, parts)) <= Width(parts)
    ensures Width(Select(Kept, parts)) == Width(parts) ==> Select(Kept, parts) == parts
  {
    if parts != [] {
      KeptWidth(parts[1..]);
      var rest := Select(Kept, parts[1..]);
      if Kept(parts[0]) {
        assert Select(Kept, parts) == [parts[0]] + rest;
        assert ([parts[0]] + rest)[1..] == rest;
        assert parts == [parts[0]] + parts[1..];
      } else {
        assert Select(Kept, parts) == [] + rest == rest;
      }
    }
  }

  lemma {:induction false} AllKept(parts: seq<string>)
    requires forall part :: part in parts ==> Kept(part)
    ensures Select(Kept, parts) == parts
  {
    if parts != [] { AllKept(parts[1..]); }
  }

  /** No component of the name is empty, a dot directory or `.data`. */
  predicate Plain(name: string) {
    '\\' !in name && forall part :: part in Components(name) ==> part !in {"", ".", "..", ".data"}
  }

  /** What the check lets through. */
  predicate SafeMember(name: string) { Plain(name) || name == "." }

  /**
   The check accepts exactly the names whose components are all ordinary, and one name beyond them:
   a lone dot, which the path library reads as no components at all.
   */
  lemma {:induction false} PathCheckIsExact(name: string)
    ensures PathCheck(name) <==> SafeMember(name)
  {
    var all := Components(name);
    JoinComponents(name);
    JoinWidth(all);
    KeptWidth(all);
    if Parts(name) != [] { JoinWidth(Parts(name)); }
    if Plain(name) { AllKept(all); FirstComponent(name); }
    if name == "." { SingleComponent("."); assert Parts(name) == []; }
  }

  /** A name with a component that merely ends in `.data` is accepted exactly when it is plain. */
  lemma {:induction false} DataSuffixIsNoObstacle(name: string, part: string)
    requires part in Components(name) && EndsWith(part, ".data") && part != ".data"
    ensures SafeMember(name) <==> Plain(name)
  {
    SingleComponent(".");
  }

  /** A part of a member name that needs no further look. */
  predicate OrdinaryPart(part: string) {
    '/' !in part && '\\' !in part && part !in {"", ".", "..", ".data"}
  }

  /** A member of a data scheme as wheels spell it, with the distribution before the suffix. */
  function DataMember(distribution: string, name: string): string { distribution + ".data" + "/" + name }

  lemma {:induction false} TwoComponents(dir: string, name: string)
    requires '/' !in dir && '/' !in name
    ensures Components(dir + "/" + name) == [dir, name]
  {
    ComponentsAppend(dir, name);
    SingleComponent(dir);
    SingleComponent(name);
  }

  /** The data scheme of every named distribution passes the member check. */
  lemma {:induction false} DataMemberIsSafe(distribution: string, name: string)
    requires OrdinaryPart(distribution) && OrdinaryPart(name)
    ensures SafeMember(DataMember(distribution, name))
  {
    var dir, member := distribution + ".data", DataMember(distribution, name);
    assert dir[0] == distribution[0] && |dir| > 5;
    TwoComponents(dir, name);
    DataIsPlain(member, dir, name);
  }

  lemma {:induction false} DataIsPlain(member: string, dir: string, name: string)
    requires member == dir + "/" + name && Components(member) == [dir, name]
    requires |dir| > 5 && '\\' !in dir && OrdinaryPart(name)
    ensures Plain(member)
  {
  }

  lemma {:induction false} FirstComponent(name: string)
    ensures name == "" || IsAbsolute(name) ==> "" in Components(name)
  {
    if name == "" || IsAbsolute(name) { assert Components(name)[0] == ""; }
  }

  // ----- Directory markers and native leaves -----

  /** `str.rstrip("/")`. */
  function StripSlashes(name: string): string {
    if name != "" && name[|name| - 1] == '/' then StripSlashes(name[..|name| - 1]) else name
  }

  predicate IsFile(name: string) { name == "" || name[|name| - 1] != '/' }

  const RECORD_END := ".dist-info/RECORD"

  predicate IsNative(env: Env, name: string) {
    exists suffix :: suffix in env.suffixes && Basename(name) == "_pops" + suffix
  }

  lemma {:induction false} RecordIsNotNative(env: Env, name: string)
    requires EndsWith(name, RECORD_END)
    ensures !IsNative(env, name)
  {
    RecordBasename(name);
    assert forall suffix :: suffix in env.suffixes ==> ("_pops" + suffix)[0] == '_';
  }

  lemma {:induction false} RecordBasename(name: string)
    requires EndsWith(name, RECORD_END)
    ensures Basename(name) == "RECORD"
  {
    var n := |name| - 7;
    EndsInRecord(name, n);
    BasenameOf(name[..n], name[n + 1..]);
  }

  lemma {:induction false} EndsInRecord(name: string, n: nat)
    requires EndsWith(name, RECORD_END) && n == |name| - 7
    ensures name[n + 1..] == "RECORD" && name == name[..n] + "/" + name[n + 1..]
    ensures '/' !in name[n + 1..] && Kept(name[n + 1..])
  {
    var k := |name| - |RECORD_END|;
    assert name[k..] == RECORD_END;
    assert name[n..] == RECORD_END[10..] == "/RECORD";
    assert name[n + 1..] == "/RECORD"[1..] == "RECORD";
  }

  lemma {:induction false} BasenameOf(dir: string, name: string)
    requires '/' !in name && Kept(name)
    ensures Basename(dir + "/" + name) == name
  {
    ComponentsAppend(dir, name);
    SingleComponent(name);
    SelectAppend(Kept, Components(dir), [name]);
    SelectSingle(Kept, name);
  }

  // ----- ABI keys -----

  /** The part of an ABI key before `;dim=N`, for the given dimension; the match does not cross a line. */
  function AbiPrefix(abi: string, dimension: int): Option<string> {
    var n := |abi|;
    if && n >= 7 && abi[n - 6..] == ";dim=" + Digit(dimension) && dimension in DIMENSIONS
       && '\n' !in abi[..n - 6]
    then Some(abi[..n - 6])
    else None
  }

  function CommonAbi(row: Row): Option<string> { AbiPrefix(row.abi, row.dimension) }
}
