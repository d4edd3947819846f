/**
 Per-file impact classification and target selection for the C++ suites
 (`scripts/ci_select_tests.py`: `classify_cpp_impact` and the selection part of `plan_cpp`).
 */
module CppSelection {
  import opened Strings
  import opened Reachability
  import opened Catalogs

  datatype Suite = Suite(name: string, labels: set<string>, sources: seq<string>)

  /** A runtime object library: its sources, the private headers they include, and its consumers. */
  datatype RuntimeLib = RuntimeLib(
    name: string, sources: set<string>, privateHeaders: set<string>, consumers: set<string>)

  /** What the selector reads from the tree: the include graph, the manifest and the CMake lists. */
  datatype Repo = Repo(
    graphReadable: bool,
    includes: Graph,
    headers: set<string>,
    globalRoots: set<string>,
    sourceIncludes: map<string, set<string>>,
    suites: seq<Suite>,
    libs: seq<RuntimeLib>)
  {
    function Names(): set<string> { set s | s in suites :: s.name }
  }

  datatype Why =
    | GraphUnreadable | GlobalIncluder | HeaderNotInTree | SuiteSourceMissing
    | RuntimeSourceNotListed | RuntimeBuildInput | BindingBuildInput | UnmappedPath

  datatype FileImpact =
    | AllTests(why: Why)
    | IncludeImpact(targets: set<string>)
    | RuntimeTargets(libs: set<string>, targets: set<string>)
    | BindingLabels(areas: set<string>, targets: set<string>)
    | TestTarget(target: string)
    | CodegenLabels(areas: set<string>, targets: set<string>)
    | NoImpact
  {
    function Targets(): set<string> {
      match this
      case AllTests(_) => {}
      case IncludeImpact(ts) => ts
      case RuntimeTargets(_, ts) => ts
      case BindingLabels(_, ts) => ts
      case TestTarget(t) => {t}
      case CodegenLabels(_, ts) => ts
      case NoImpact => {}
    }

    function Areas(): set<string> {
      match this
      case BindingLabels(areas, _) => areas
      case CodegenLabels(areas, _) => areas
      case _ => {}
    }
  }

  // ----- Path tests and tables -----

  predicate StartsWithAny(path: string, prefixes: seq<string>) {
    exists p :: p in prefixes && StartsWith(path, p)
  }

  predicate EndsWithAny(path: string, suffixes: seq<string>) {
    exists p :: p in suffixes && EndsWith(path, p)
  }

  const BROAD_FILES: set<string> := {
    ".github/workflows/ci.yml", "CMakeLists.txt", "CMakePresets.json", "scripts/ci_include_graph.py",
    "scripts/ci_python_module_objects.py", "scripts/ci_route_mode.py", "scripts/ci_select_tests.py",
    "scripts/ci_shard_binpack.py", "tests/CMakeLists.txt", "tests/cpp/build_durations.json",
    "tests/cpp/test_durations.json", "src/CMakeLists.txt", "tests/cpp/test_sources.cmake", "tests/test_manifest.toml"}
  const BROAD_PREFIXES: seq<string> := [
    ".github/actions/setup-kokkos/", "cmake/", "include/pops/core/", "include/pops/parallel/", "tests/cpp/support/"]
  const META_PREFIXES: seq<string> := [".github/", "docs/", "tutorials/", "tests/python/architecture/"]
  const ZERO_PREFIXES: seq<string> := ["docs/", "tutorials/", "tests/python/", "python/pops/"]
  const ZERO_FILES: set<string> := {"README.md", "CONTRIBUTING.md", "CHANGELOG.md", "SECURITY.md", ".gitignore"}
  const HEADER_SUFFIXES: seq<string> := [".hpp", ".h", ".hh", ".hxx", ".inc", ".ipp", ".tpp"]
  const TU_SUFFIXES: seq<string> := [".cpp", ".hpp", ".h", ".hh", ".hxx"]
  const PRIVATE_HEADER_SUFFIXES: seq<string> := [".hpp", ".h", ".hh", ".hxx"]
  const SMOKE_TARGETS: set<string> := {"test_box", "test_reduce", "test_system_abstraction"}
  const CODEGEN_AREAS: set<string> := {"codegen"}

  const ALIASES: map<string, set<string>> := map[
    "amr" := {"amr", "mesh", "compliance"},
    "bindings" := {"bindings", "runtime", "native_loader"},
    "boundary" := {"boundary", "mesh", "numerics"},
    "codegen" := {"codegen", "native_loader", "compiler", "bindings"},
    "coupling" := {"coupling", "runtime", "elliptic", "amr", "physics"},
    "domain" := {"domain", "mesh", "problem"},
    "elliptic" := {"elliptic", "solvers", "compliance"},
    "examples" := {"examples", "runtime", "io", "time", "amr", "physics"},
    "fields" := {"fields", "physics", "elliptic", "runtime"},
    "io" := {"io", "runtime"},
    "identity" := {"identity", "codegen", "runtime"},
    "initial" := {"initial", "problem", "runtime"},
    "mesh" := {"mesh", "amr"},
    "moments" := {"moments", "physics", "numerics"},
    "native_loader" := {"native_loader", "codegen", "compiler"},
    "numerics" := {"numerics", "elliptic", "solvers", "time"},
    "output" := {"output", "io", "runtime"},
    "physics" := {"physics", "numerics", "compliance"},
    "problem" := {"problem", "runtime"},
    "reporting" := {"reporting", "descriptors", "problem", "runtime"},
    "runtime" := {"runtime", "bindings", "native_loader", "compliance"},
    "solvers" := {"solvers", "elliptic"},
    "time" := {"time", "numerics", "solvers"},
    "validation" := {"validation", "physics", "runtime"}]

  /** The label areas of a binding adapter. */
  function BindingAreas(path: string): set<string> {
    if StartsWith(path, "python/bindings/core/") then {"runtime", "physics", "amr", "codegen"} else {}
  }

  /** The areas and their aliases. */
  function ExpandAreas(areas: set<string>): set<string> {
    areas + set a, l | a in areas && a in ALIASES && l in ALIASES[a] :: l
  }

  function SelectByLabels(suites: seq<Suite>, areas: set<string>): set<string> {
    set s | s in suites && s.labels * ExpandAreas(areas) != {} :: s.name
  }

  predicate IsHeader(path: string) {
    StartsWith(path, "include/pops/") && EndsWithAny(path, HEADER_SUFFIXES)
  }

  /** The graph node of a project header: its path below `include/`. */
  function NodeOf(path: string): string
    requires IsHeader(path)
  {
    path[8..]
  }

  predicate BelongsTo(path: string, lib: RuntimeLib) {
    path in lib.sources || (EndsWithAny(path, PRIVATE_HEADER_SUFFIXES) && path in lib.privateHeaders)
  }

  /** `Path(path).stem` of a path that ends in `.cpp`. */
  function Stem(path: string): string
    requires EndsWith(path, ".cpp")
  {
    var name := BaseName(path);
    if |name| <= 4 then name else name[..|name| - 4]
  }

  function BaseName(path: string): string {
    if path == "" then "" else if path[|path| - 1] == '/' then ""
    else BaseName(path[..|path| - 1]) + [path[|path| - 1]]
  }

  lemma {:induction false} LastName(dir: string, name: string)
    requires '/' !in name
    ensures BaseName(dir + "/" + name) == name
  {
    var path := dir + "/" + name;
    if name == "" {
      assert path[|path| - 1] == '/';
    } else {
      var n := |name| - 1;
      assert path[..|path| - 1] == dir + "/" + name[..n] && path[|path| - 1] == name[n];
      LastName(dir, name[..n]);
      assert name == name[..n] + [name[n]];
    }
  }

  // ----- Classification of one file -----

  /** A source of `suite` transitively includes `node`. */
  ghost predicate Includes(repo: Repo, suite: Suite, node: string) {
    exists source :: source in suite.sources && source in repo.sourceIncludes
      && ReachedFrom(Edge(repo.includes), repo.sourceIncludes[source], node)
  }

  predicate SourcesPresent(repo: Repo) {
    forall s :: s in repo.suites ==> forall f :: f in s.sources ==> f in repo.sourceIncludes
  }

  ghost function ClassifyHeader(repo: Repo, node: string): FileImpact {
    if !repo.graphReadable then AllTests(GraphUnreadable)
    else if ReachedFrom(Edge(repo.includes), repo.globalRoots, node) then AllTests(GlobalIncluder)
    else if node !in repo.headers then AllTests(HeaderNotInTree)
    else if !SourcesPresent(repo) then AllTests(SuiteSourceMissing)
    else IncludeImpact(set s | s in repo.suites && Includes(repo, s, node) :: s.name)
  }

  function ClassifyRuntime(repo: Repo, path: string): FileImpact {
    if !EndsWithAny(path, TU_SUFFIXES) then AllTests(RuntimeBuildInput)
    else
      var matched := set l | l in repo.libs && BelongsTo(path, l);
      if matched == {} then AllTests(RuntimeSourceNotListed)
      else RuntimeTargets((set l | l in matched :: l.name),
                          set l, t | l in matched && t in l.consumers && t in repo.Names() :: t)
  }

  function ClassifyOther(repo: Repo, path: string): FileImpact {
    if StartsWith(path, "src/runtime/") then ClassifyRuntime(repo, path)
    else if StartsWith(path, "python/bindings/") then
      if !EndsWithAny(path, TU_SUFFIXES) then AllTests(BindingBuildInput)
      else BindingLabels(BindingAreas(path), SelectByLabels(repo.suites, BindingAreas(path)))
    else if StartsWith(path, "tests/cpp/") && EndsWith(path, ".cpp") then
      if Stem(path) in repo.Names() then TestTarget(Stem(path)) else NoImpact
    else if StartsWith(path, "python/pops/codegen/") then
      CodegenLabels(CODEGEN_AREAS, SelectByLabels(repo.suites, CODEGEN_AREAS))
    else if path in ZERO_FILES || StartsWithAny(path, ZERO_PREFIXES) then NoImpact
    else AllTests(UnmappedPath)
  }

  ghost function Classify(repo: Repo, path: string): FileImpact {
    if IsHeader(path) then ClassifyHeader(repo, NodeOf(path)) else ClassifyOther(repo, path)
  }

  // ----- The union over all changed files -----

  ghost function SelectedBy(repo: Repo, changed: seq<string>): set<string> {
    set p, t | p in changed && t in Classify(repo, p).Targets() :: t
  }

  ghost function AreasOf(repo: Repo, changed: seq<string>): set<string> {
    set p, a | p in changed && a in Classify(repo, p).Areas() :: a
  }

  ghost predicate Escalates(repo: Repo, changed: seq<string>) {
    exists p :: p in changed && Classify(repo, p).AllTests?
  }

  /** Classification is compositional: a concatenation contributes the union of its parts. */
  lemma {:induction false} ClassificationComposes(repo: Repo, a: seq<string>, b: seq<string>)
    ensures SelectedBy(repo, a + b) == SelectedBy(repo, a) + SelectedBy(repo, b)
    ensures AreasOf(repo, a + b) == AreasOf(repo, a) + AreasOf(repo, b)
    ensures Escalates(repo, a + b) <==> Escalates(repo, a) || Escalates(repo, b)
  {
    assert forall p :: p in a + b <==> p in a || p in b;
  }

  /** Order and repetition of the changed files do not matter. */
  lemma {:induction false} ClassificationIgnoresOrder(repo: Repo, a: seq<string>, b: seq<string>)
    requires forall p :: p in a <==> p in b
    ensures SelectedBy(repo, a) == SelectedBy(repo, b) && AreasOf(repo, a) == AreasOf(repo, b)
    ensures Escalates(repo, a) <==> Escalates(repo, b)
  {
  }

  // ----- Computing it -----

  method SourceClosure(repo: Repo, source: string) returns (closure: set<string>)
    requires source in repo.sourceIncludes
    ensures IsClosure(Edge(repo.includes), repo.sourceIncludes[source], closure)
  {
    var roots := SomeOrder(repo.sourceIncludes[source]);
    assert (set x | x in roots) == repo.sourceIncludes[source];
    closure := TransitiveClosure(repo.includes, roots);
  }

  /** The union of the closures of one suite's sources, or nothing if a source is missing. */
  method SuiteHit(repo: Repo, suite: Suite, node: string) returns (missing: bool, hit: bool)
    ensures missing <==> exists f :: f in suite.sources && f !in repo.sourceIncludes
    ensures !missing ==> (hit <==> Includes(repo, suite, node))
  {
    var closure: set<string> := {};
    for i := 0 to |suite.sources|
      invariant forall j :: 0 <= j < i ==> suite.sources[j] in repo.sourceIncludes
      invariant forall x :: x in closure <==> Includes(repo, suite.(sources := suite.sources[..i]), x)
    {
      var source := suite.sources[i];
      if source !in repo.sourceIncludes {
        assert source in suite.sources;
        return true, false;
      }
      var one := SourceClosure(repo, source);
      closure := closure + one;
      assert suite.sources[..i + 1] == suite.sources[..i] + [source];
      forall x ensures Includes(repo, suite.(sources := suite.sources[..i + 1]), x) <==>
        Includes(repo, suite.(sources := suite.sources[..i]), x) || x in one
      {
        OneMoreSource(repo, suite, i, x);
      }
    }
    assert suite.sources[..|suite.sources|] == suite.sources;
    missing, hit := false, node in closure;
  }

  lemma {:induction false} OneMoreSource(repo: Repo, suite: Suite, i: nat, x: string)
    requires i < |suite.sources| && suite.sources[i] in repo.sourceIncludes
    ensures Includes(repo, suite.(sources := suite.sources[..i + 1]), x) <==>
      || Includes(repo, suite.(sources := suite.sources[..i]), x)
      || ReachedFrom(Edge(repo.includes), repo.sourceIncludes[suite.sources[i]], x)
  {
    var source := suite.sources[i];
    assert forall f :: f in suite.sources[..i + 1] <==> f in suite.sources[..i] || f == source;
  }

  method ComputeHeader(repo: Repo, node: string, globalClosure: set<string>) returns (impact: FileImpact)
    requires IsClosure(Edge(repo.includes), repo.globalRoots, globalClosure)
    ensures impact == ClassifyHeader(repo, node)
  {
    if !repo.graphReadable { return AllTests(GraphUnreadable); }
    if node in globalClosure { return AllTests(GlobalIncluder); }
    if node !in repo.headers { return AllTests(HeaderNotInTree); }
    var hits: set<string> := {};
    for i := 0 to |repo.suites|
      invariant forall j :: 0 <= j < i ==> forall f :: f in repo.suites[j].sources ==> f in repo.sourceIncludes
      invariant hits == set s | s in repo.suites[..i] && Includes(repo, s, node) :: s.name
    {
      var suite := repo.suites[i];
      var missing, hit := SuiteHit(repo, suite, node);
      if missing {
        assert suite in repo.suites;
        return AllTests(SuiteSourceMissing);
      }
      assert repo.suites[..i + 1] == repo.suites[..i] + [suite];
      if hit { hits := hits + {suite.name}; }
    }
    assert repo.suites[..|repo.suites|] == repo.suites;
    impact := IncludeImpact(hits);
  }

  /** The classifier: the union of every file's impact, the files that force a full run, and each file's entry. */
  method ClassifyCppImpact(repo: Repo, changed: seq<string>)
    returns (selected: set<string>, full: seq<string>, areas: set<string>, impact: map<string, FileImpact>)
    ensures selected == SelectedBy(repo, changed) && areas == AreasOf(repo, changed)
    ensures full != [] <==> Escalates(repo, changed)
    ensures forall p :: p in full <==> p in changed && Classify(repo, p).AllTests?
    ensures impact.Keys == (set p | p in changed) && forall p :: p in impact ==> impact[p] == Classify(repo, p)
  {
    var roots := SomeOrder(repo.globalRoots);
    assert (set x | x in roots) == repo.globalRoots;
    var globalClosure := TransitiveClosure(repo.includes, roots);
    selected, full, areas, impact := {}, [], {}, map[];
    for i := 0 to |changed|
      invariant selected == SelectedBy(repo, changed[..i]) && areas == AreasOf(repo, changed[..i])
      invariant forall p :: p in full <==> p in changed[..i] && Classify(repo, p).AllTests?
      invariant impact.Keys == (set p | p in changed[..i])
      invariant forall p :: p in impact ==> impact[p] == Classify(repo, p)
    {
      var path := changed[i];
      var entry: FileImpact;
      if IsHeader(path) {
        entry := ComputeHeader(repo, NodeOf(path), globalClosure);
      } else {
        entry := ClassifyOther(repo, path);
      }
      assert changed[..i + 1] == changed[..i] + [path];
      ClassificationComposes(repo, changed[..i], [path]);
      OneFile(repo, path);
      selected, areas := selected + entry.Targets(), areas + entry.Areas();
      if entry.AllTests? { full := full + [path]; }
      impact := impact[path := entry];
    }
    assert changed[..|changed|] == changed;
    if full != [] { assert full[0] in full; }
  }

  lemma {:induction false} OneFile(repo: Repo, path: string)
    ensures Escalates(repo, [path]) <==> Classify(repo, path).AllTests?
    ensures SelectedBy(repo, [path]) == Classify(repo, path).Targets()
    ensures AreasOf(repo, [path]) == Classify(repo, path).Areas()
  {
    assert path in [path] && forall p :: p in [path] ==> p == path;
  }

  // ----- The plan -----

  datatype Mode = RunAll | RunSubset | RunNone

  datatype Plan = Plan(mode: Mode, targets: set<string>) | NoSuites | BadCatalogs

  predicate IsBroad(path: string) { path in BROAD_FILES || StartsWithAny(path, BROAD_PREFIXES) }

  predicate IsMeta(path: string) { StartsWithAny(path, META_PREFIXES) || path in ZERO_FILES }

  /** Some recognised area contributed no suite, so the change must not pass as harmless. */
  ghost predicate MatchedNothing(repo: Repo, changed: seq<string>) {
    && SelectedBy(repo, changed) == {}
    && (exists p :: p in changed && !IsMeta(p))
    && exists p :: p in changed && Classify(repo, p) != NoImpact
  }

  ghost predicate MustRunAll(repo: Repo, changed: seq<string>, forceAll: bool) {
    || forceAll
    || (exists p :: p in changed && IsBroad(p))
    || Escalates(repo, changed)
    || MatchedNothing(repo, changed)
  }

  /** The selection with its smoke backstop. */
  ghost function Narrowed(repo: Repo, changed: seq<string>): set<string> {
    var selected := SelectedBy(repo, changed);
    if selected == {} then {} else selected + SMOKE_TARGETS * repo.Names()
  }

  predicate TooMany(count: nat, total: nat) { 4 * count > 3 * total }

  ghost function PlanFor(repo: Repo, changed: seq<string>, forceAll: bool): Plan {
    var narrowed := Narrowed(repo, changed);
    if repo.suites == [] then NoSuites
    else if MustRunAll(repo, changed, forceAll) || TooMany(|narrowed|, |repo.suites|) then Plan(RunAll, repo.Names())
    else Plan(if narrowed == {} then RunNone else RunSubset, narrowed)
  }

  /** The planner: no suites and unauthenticated catalogues are fatal before anything is selected. */
  method PlanCpp(repo: Repo, build: Catalog, test: Catalog, changed: seq<string>, forceAll: bool) returns (plan: Plan)
    ensures plan == if repo.suites == [] then NoSuites
                    else if !Covers(build, repo.Names()) || !Covers(test, repo.Names()) then BadCatalogs
                    else PlanFor(repo, changed, forceAll)
  {
    if repo.suites == [] { return NoSuites; }
    var catalogs := [build, test];
    var failures := ValidateCatalogs(catalogs, repo.Names());
    assert catalogs[0] == build && catalogs[1] == test;
    if failures != 0 { return BadCatalogs; }
    plan := Narrow(repo, changed, forceAll);
  }

  /** The selection part of the planner. */
  method Narrow(repo: Repo, changed: seq<string>, forceAll: bool) returns (plan: Plan)
    requires repo.suites != []
    ensures plan == PlanFor(repo, changed, forceAll)
  {
    var full := forceAll || exists p :: p in changed && IsBroad(p);
    var selected: set<string> := {};
    if !full { full, selected := SelectAll(repo, changed); }
    if full || TooMany(|selected|, |repo.suites|) {
      plan := Plan(RunAll, repo.Names());
    } else {
      plan := Plan(if selected == {} then RunNone else RunSubset, selected);
    }
  }

  /** The compositional pass, with its smoke backstop and its fail-safe. */
  method SelectAll(repo: Repo, changed: seq<string>) returns (full: bool, selected: set<string>)
    ensures full <==> Escalates(repo, changed) || MatchedNothing(repo, changed)
    ensures !full ==> selected == Narrowed(repo, changed)
  {
    var byFile, forced, areas, impact := ClassifyCppImpact(repo, changed);
    if forced != [] { return true, byFile; }
    if byFile != {} { return false, byFile + SMOKE_TARGETS * repo.Names(); }
    assert forall q :: q in changed <==> q in impact.Keys;
    full := !(forall p :: p in changed ==> IsMeta(p)) && !(forall p :: p in impact ==> impact[p] == NoImpact);
    selected := {};
  }

  // ----- What the plan guarantees -----

  /** A plan never loses what a changed file selects, and never names a suite the manifest lacks. */
  lemma {:induction false} PlanKeepsSelections(repo: Repo, changed: seq<string>, forceAll: bool, path: string)
    requires repo.suites != [] && path in changed
    ensures Classify(repo, path).Targets() <= PlanFor(repo, changed, forceAll).targets <= repo.Names()
  {
    forall p | p in changed ensures Classify(repo, p).Targets() <= repo.Names() { TargetsAreNames(repo, p); }
    assert Narrowed(repo, changed) <= repo.Names();
  }

  lemma {:induction false} TargetsAreNames(repo: Repo, path: string)
    ensures Classify(repo, path).Targets() <= repo.Names()
  {
  }

  /**
   Soundness: every suite with a source that transitively includes a changed project header is in
   the final targets, whichever rule puts it there.
   */
  lemma {:induction false} HeaderSelectionIsSound(
      repo: Repo, changed: seq<string>, forceAll: bool, path: string, suite: Suite)
    requires path in changed && IsHeader(path) && suite in repo.suites && Includes(repo, suite, NodeOf(path))
    ensures PlanFor(repo, changed, forceAll).Plan? && suite.name in PlanFor(repo, changed, forceAll).targets
  {
    var c := Classify(repo, path);
    assert suite.name in repo.Names();
    if c.AllTests? {
      assert Escalates(repo, changed);
    } else {
      assert suite.name in c.Targets();
      PlanKeepsSelections(repo, changed, forceAll, path);
    }
  }

  /** The same for a runtime source: every serial consumer of an object library it belongs to runs. */
  lemma {:induction false} RuntimeSelectionIsSound(repo: Repo, changed: seq<string>, forceAll: bool, path: string,
                                                   lib: RuntimeLib, target: string)
    requires repo.suites != [] && path in changed && StartsWith(path, "src/runtime/")
    requires lib in repo.libs && BelongsTo(path, lib) && target in lib.consumers && target in repo.Names()
    ensures target in PlanFor(repo, changed, forceAll).targets
  {
    RootsDiffer(path, "src/runtime/", "include/pops/", 0);
    var c := Classify(repo, path);
    assert c == ClassifyRuntime(repo, path);
    if c.AllTests? {
      assert Escalates(repo, changed);
    } else {
      assert lib in (set l | l in repo.libs && BelongsTo(path, l));
      assert target in c.Targets();
      PlanKeepsSelections(repo, changed, forceAll, path);
    }
  }

  lemma {:induction false} RootsDiffer(path: string, p: string, q: string, k: nat)
    requires k < |p| && k < |q| && p[k] != q[k] && StartsWith(path, p)
    ensures !StartsWith(path, q)
  {
    PrefixCharacter(path, p, k);
    PrefixCharacter(path, q, k);
  }

  /** A meta path either has no C++ impact or is an unmapped build input. */
  lemma {:induction false} MetaHasNoTargets(repo: Repo, path: string)
    requires IsMeta(path)
    ensures Classify(repo, path).NoImpact? || Classify(repo, path).AllTests?
  {
    if path in ZERO_FILES {
      assert path[0] in {'R', 'C', 'S', '.'};
      FirstLetterDecides(path);
    } else {
      var p :| p in META_PREFIXES && StartsWith(path, p);
      PrefixCharacter(path, p, 0);
      if p == "tests/python/architecture/" { RootsDiffer(path, p, "tests/cpp/", 6); }
      FirstLetterDecides(path);
    }
  }

  /** Only paths under include, src, python and tests can select anything. */
  lemma {:induction false} FirstLetterDecides(path: string)
    requires path != "" && path[0] !in {'i', 's', 'p'}
    ensures !IsHeader(path) && !StartsWith(path, "src/runtime/")
    ensures !StartsWith(path, "python/bindings/") && !StartsWith(path, "python/pops/codegen/")
    ensures path[0] != 't' ==> !StartsWith(path, "tests/cpp/")
  {
    PrefixCharacter(path, "include/pops/", 0);
    PrefixCharacter(path, "src/runtime/", 0);
    PrefixCharacter(path, "python/bindings/", 0);
    PrefixCharacter(path, "python/pops/codegen/", 0);
    PrefixCharacter(path, "tests/cpp/", 0);
  }

  /** The plan is empty exactly when nothing is forced or broad and every changed file is harmless. */
  lemma {:induction false} EmptyPlanMeansHarmless(repo: Repo, changed: seq<string>, forceAll: bool)
    requires repo.suites != []
    ensures PlanFor(repo, changed, forceAll).mode == RunNone <==>
      !forceAll && forall p :: p in changed ==> !IsBroad(p) && Classify(repo, p) == NoImpact
  {
    NoneMeansNothingSelected(repo, changed, forceAll);
    if PlanFor(repo, changed, forceAll).mode == RunNone {
      forall p | p in changed ensures Classify(repo, p) == NoImpact { SelectsNothing(repo, changed, p); }
    }
    if forall p :: p in changed ==> Classify(repo, p) == NoImpact { assert SelectedBy(repo, changed) == {}; }
  }

  lemma {:induction false} NoneMeansNothingSelected(repo: Repo, changed: seq<string>, forceAll: bool)
    requires repo.suites != []
    ensures PlanFor(repo, changed, forceAll).mode == RunNone <==>
      !MustRunAll(repo, changed, forceAll) && SelectedBy(repo, changed) == {}
  {
    assert Narrowed(repo, changed) == {} <==> SelectedBy(repo, changed) == {};
    assert Narrowed(repo, changed) == {} ==> |Narrowed(repo, changed)| == 0;
  }

  lemma {:induction false} SelectsNothing(repo: Repo, changed: seq<string>, p: string)
    requires p in changed && SelectedBy(repo, changed) == {}
    requires !Escalates(repo, changed) && !MatchedNothing(repo, changed)
    ensures Classify(repo, p) == NoImpact
  {
    if IsMeta(p) { MetaHasNoTargets(repo, p); }
  }

  /** A header that no suite includes runs everything on its own. */
  lemma {:induction false} LonelyHeaderRunsAll(repo: Repo, header: string)
    requires repo.suites != [] && IsHeader(header) && Classify(repo, header) == IncludeImpact({})
    ensures PlanFor(repo, [header], false) == Plan(RunAll, repo.Names())
  {
    OneFile(repo, header);
    assert header in [header];
    assert !IsMeta(header) by { if IsMeta(header) { MetaHasNoTargets(repo, header); } }
    assert MatchedNothing(repo, [header]);
  }

  /**
   Beside a file that selects something, the same header adds nothing: plans are not monotone in
   the change list.
   */
  lemma {:induction false} HeaderAddsNothingBeside(repo: Repo, header: string, other: string)
    requires repo.suites != [] && IsHeader(header) && Classify(repo, header) == IncludeImpact({})
    requires !IsBroad(header) && !IsBroad(other)
    requires !Classify(repo, other).AllTests? && Classify(repo, other).Targets() != {}
    ensures PlanFor(repo, [header, other], false) == PlanFor(repo, [other], false)
  {
    var both := [header, other];
    assert [header] + [other] == both;
    ClassificationComposes(repo, [header], [other]);
    OneFile(repo, header);
    OneFile(repo, other);
    SameSelectionSamePlan(repo, both, [other]);
  }

  lemma {:induction false} SameSelectionSamePlan(repo: Repo, a: seq<string>, b: seq<string>)
    requires SelectedBy(repo, a) == SelectedBy(repo, b) != {} && !Escalates(repo, a) && !Escalates(repo, b)
    requires forall p :: p in a || p in b ==> !IsBroad(p)
    ensures PlanFor(repo, a, false) == PlanFor(repo, b, false)
  {
  }
}
