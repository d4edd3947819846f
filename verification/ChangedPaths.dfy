/**
 What each kind of changed path does to a C++ plan, with the paths, suffixes and labels spelled out.
 Between them the cases cover every path.
 */
module ChangedPaths {
  import opened Strings
  import opened Reachability
  import opened CppSelection

  ghost predicate IsTranslationUnit(path: string) {
    || EndsWith(path, ".cpp") || EndsWith(path, ".hpp") || EndsWith(path, ".h") || EndsWith(path, ".hh")
    || EndsWith(path, ".hxx")
  }

  ghost predicate IsHeaderFile(path: string) {
    || EndsWith(path, ".hpp") || EndsWith(path, ".h") || EndsWith(path, ".hh") || EndsWith(path, ".hxx")
  }

  lemma {:induction false} SuffixesAreSpelled(path: string)
    ensures EndsWithAny(path, TU_SUFFIXES) <==> IsTranslationUnit(path)
    ensures EndsWithAny(path, PRIVATE_HEADER_SUFFIXES) <==> IsHeaderFile(path)
  {
    AnySuffix(path, ".hpp", ".h", ".hh", ".hxx", []);
    AnySuffix(path, ".cpp", ".hpp", ".h", ".hh", [".hxx"]);
    OneSuffix(path, ".hxx");
    assert TU_SUFFIXES == [".cpp", ".hpp", ".h", ".hh"] + [".hxx"];
    assert PRIVATE_HEADER_SUFFIXES == [".hpp", ".h", ".hh", ".hxx"] + [];
  }

  lemma {:induction false} HeaderSuffixesAreSpelled(path: string)
    ensures EndsWithAny(path, HEADER_SUFFIXES) <==>
      IsHeaderFile(path) || EndsWith(path, ".inc") || EndsWith(path, ".ipp") || EndsWith(path, ".tpp")
  {
    AnySuffix(path, ".hpp", ".h", ".hh", ".hxx", [".inc", ".ipp", ".tpp"]);
    ThreeSuffixes(path, ".inc", ".ipp", ".tpp");
    assert HEADER_SUFFIXES == [".hpp", ".h", ".hh", ".hxx"] + [".inc", ".ipp", ".tpp"];
  }

  lemma {:induction false} AnySuffix(path: string, a: string, b: string, c: string, d: string, more: seq<string>)
    ensures EndsWithAny(path, [a, b, c, d] + more) <==>
      || EndsWith(path, a) || EndsWith(path, b) || EndsWith(path, c) || EndsWith(path, d)
      || EndsWithAny(path, more)
  {
    assert forall p :: p in [a, b, c, d] + more <==> p == a || p == b || p == c || p == d || p in more;
  }

  lemma {:induction false} ThreeSuffixes(path: string, a: string, b: string, c: string)
    ensures EndsWithAny(path, [a, b, c]) <==> EndsWith(path, a) || EndsWith(path, b) || EndsWith(path, c)
  {
    assert forall p :: p in [a, b, c] <==> p == a || p == b || p == c;
  }

  lemma {:induction false} OneSuffix(path: string, a: string)
    ensures EndsWithAny(path, [a]) <==> EndsWith(path, a)
    ensures !EndsWithAny(path, [])
  {
    assert a in [a];
  }

  // ----- Headers -----

  /** A project header and its node in the include graph. */
  lemma {:induction false} HeadersAreSpelled(path: string)
    ensures IsHeader(path) <==>
      && StartsWith(path, "include/pops/")
      && (IsHeaderFile(path) || EndsWith(path, ".inc") || EndsWith(path, ".ipp") || EndsWith(path, ".tpp"))
    ensures IsHeader(path) ==> path == "include/" + NodeOf(path)
  {
    HeaderSuffixesAreSpelled(path);
    if IsHeader(path) { assert path[..8] == path[..13][..8] == "include/"; }
  }

  /** When a header escalates, and which suites it selects otherwise. */
  lemma {:induction false} HeaderFile(repo: Repo, path: string, target: string)
    requires IsHeader(path)
    ensures Classify(repo, path).AllTests? <==>
      || !repo.graphReadable || ReachedFrom(Edge(repo.includes), repo.globalRoots, NodeOf(path))
      || NodeOf(path) !in repo.headers
      || exists s, f :: s in repo.suites && f in s.sources && f !in repo.sourceIncludes
    ensures !Classify(repo, path).AllTests? ==>
      (target in Classify(repo, path).Targets() <==>
       exists s :: s in repo.suites && s.name == target && Includes(repo, s, NodeOf(path)))
  {
  }

  // ----- Runtime sources -----

  /** The library lists the file, or one of its sources includes it as a private header. */
  ghost predicate Holds(lib: RuntimeLib, path: string) {
    path in lib.sources || (IsHeaderFile(path) && path in lib.privateHeaders)
  }

  /** A runtime source selects the consumers of its libraries; without one, or if it is no source, everything. */
  lemma {:induction false} RuntimeFile(repo: Repo, path: string, target: string)
    requires StartsWith(path, "src/runtime/")
    ensures Classify(repo, path).AllTests? <==>
      !IsTranslationUnit(path) || forall lib :: lib in repo.libs ==> !Holds(lib, path)
    ensures Classify(repo, path).AllTests? ==>
      Classify(repo, path).why == if IsTranslationUnit(path) then RuntimeSourceNotListed else RuntimeBuildInput
    ensures !Classify(repo, path).AllTests? ==>
      (target in Classify(repo, path).Targets() <==>
       exists lib :: lib in repo.libs && Holds(lib, path) && target in lib.consumers && target in repo.Names())
    ensures !Classify(repo, path).AllTests? ==>
      && Classify(repo, path).RuntimeTargets?
      && (target in Classify(repo, path).libs <==>
          exists lib :: lib in repo.libs && Holds(lib, path) && lib.name == target)
  {
    RootsDiffer(path, "src/runtime/", "include/pops/", 0);
    SuffixesAreSpelled(path);
    assert forall lib :: BelongsTo(path, lib) <==> Holds(lib, path);
    assert Classify(repo, path) == ClassifyRuntime(repo, path);
    var matched := set l | l in repo.libs && BelongsTo(path, l);
    assert matched == {} <==> forall lib :: lib in repo.libs ==> lib !in matched;
  }

  // ----- Bindings and code generators -----

  /** The labels a change of the core bindings touches. */
  const CORE_LABELS: set<string> := {
    "runtime", "bindings", "native_loader", "compliance", "physics", "numerics", "amr", "mesh", "codegen", "compiler"}

  /** The labels a change of a code generator touches. */
  const CODEGEN_LABELS: set<string> := {"codegen", "native_loader", "compiler", "bindings"}

  lemma {:induction false} LabelsAreSpelled()
    ensures ExpandAreas({"runtime", "physics", "amr", "codegen"}) == CORE_LABELS
    ensures ExpandAreas({"codegen"}) == CODEGEN_LABELS
    ensures ExpandAreas({}) == {}
  {
    AliasesAreSpelled();
  }

  /** The rows of the alias table that a changed file can reach. */
  lemma {:induction false} AliasesAreSpelled()
    ensures "runtime" in ALIASES && ALIASES["runtime"] == {"runtime", "bindings", "native_loader", "compliance"}
    ensures "physics" in ALIASES && ALIASES["physics"] == {"physics", "numerics", "compliance"}
    ensures "amr" in ALIASES && ALIASES["amr"] == {"amr", "mesh", "compliance"}
    ensures "codegen" in ALIASES && ALIASES["codegen"] == {"codegen", "native_loader", "compiler", "bindings"}
  {
  }

  /** The suite carries one of the labels. */
  ghost predicate Carries(suite: Suite, labels: set<string>) { exists l :: l in suite.labels && l in labels }

  lemma {:induction false} ByLabels(repo: Repo, areas: set<string>, labels: set<string>, target: string)
    requires ExpandAreas(areas) == labels
    ensures target in SelectByLabels(repo.suites, areas) <==>
      exists s :: s in repo.suites && s.name == target && Carries(s, labels)
  {
    forall s: Suite ensures s.labels * labels != {} <==> Carries(s, labels) {
      if Carries(s, labels) {
        var l :| l in s.labels && l in labels;
        assert l in s.labels * labels;
      }
    }
  }

  /** The three label selections of the classifier. */
  lemma {:induction false} ByAreas(repo: Repo, target: string)
    ensures target in SelectByLabels(repo.suites, {"runtime", "physics", "amr", "codegen"}) <==>
      exists s :: s in repo.suites && s.name == target && Carries(s, CORE_LABELS)
    ensures target in SelectByLabels(repo.suites, {"codegen"}) <==>
      exists s :: s in repo.suites && s.name == target && Carries(s, CODEGEN_LABELS)
    ensures target !in SelectByLabels(repo.suites, {})
  {
    LabelsAreSpelled();
    ByLabels(repo, {"runtime", "physics", "amr", "codegen"}, CORE_LABELS, target);
    ByLabels(repo, {"codegen"}, CODEGEN_LABELS, target);
    ByLabels(repo, {}, {}, target);
  }

  /** A core binding selects exactly the suites with a core label; a binding build input, everything. */
  lemma {:induction false} BindingFile(repo: Repo, path: string, target: string)
    requires StartsWith(path, "python/bindings/")
    ensures Classify(repo, path).AllTests? <==> !IsTranslationUnit(path)
    ensures !IsTranslationUnit(path) ==> Classify(repo, path) == AllTests(BindingBuildInput)
    ensures IsTranslationUnit(path) ==>
      Classify(repo, path).Areas() ==
        if StartsWith(path, "python/bindings/core/") then {"runtime", "physics", "amr", "codegen"} else {}
    ensures IsTranslationUnit(path) ==>
      (target in Classify(repo, path).Targets() <==>
       && StartsWith(path, "python/bindings/core/")
       && exists s :: s in repo.suites && s.name == target && Carries(s, CORE_LABELS))
  {
    RootsDiffer(path, "python/bindings/", "include/pops/", 0);
    RootsDiffer(path, "python/bindings/", "src/runtime/", 0);
    SuffixesAreSpelled(path);
    ByAreas(repo, target);
  }

  /** A code generator selects exactly the suites with a code-generation label. */
  lemma {:induction false} CodegenFile(repo: Repo, path: string, target: string)
    requires StartsWith(path, "python/pops/codegen/")
    ensures !Classify(repo, path).AllTests? && Classify(repo, path).Areas() == {"codegen"}
    ensures target in Classify(repo, path).Targets() <==>
      exists s :: s in repo.suites && s.name == target && Carries(s, CODEGEN_LABELS)
  {
    CodegenBranch(repo, path);
    ByAreas(repo, target);
  }

  lemma {:induction false} CodegenBranch(repo: Repo, path: string)
    requires StartsWith(path, "python/pops/codegen/")
    ensures Classify(repo, path) == CodegenLabels({"codegen"}, SelectByLabels(repo.suites, {"codegen"}))
  {
    RootsDiffer(path, "python/pops/codegen/", "include/pops/", 0);
    RootsDiffer(path, "python/pops/codegen/", "src/runtime/", 0);
    RootsDiffer(path, "python/pops/codegen/", "python/bindings/", 7);
    RootsDiffer(path, "python/pops/codegen/", "tests/cpp/", 0);
  }

  /** Nothing that shares a label with a changed binding or code generator is dropped from the plan. */
  lemma {:induction false} LabelSelectionIsSound(
      repo: Repo, changed: seq<string>, forceAll: bool, path: string, suite: Suite)
    requires path in changed && suite in repo.suites
    requires || (StartsWith(path, "python/bindings/core/") && Carries(suite, CORE_LABELS))
             || (StartsWith(path, "python/pops/codegen/") && Carries(suite, CODEGEN_LABELS))
    ensures suite.name in PlanFor(repo, changed, forceAll).targets
  {
    if StartsWith(path, "python/pops/codegen/") && Carries(suite, CODEGEN_LABELS) {
      CodegenFile(repo, path, suite.name);
    } else {
      assert path[..16] == path[..21][..16] == "python/bindings/";
      BindingFile(repo, path, suite.name);
    }
    assert suite.name in repo.Names();
    if Classify(repo, path).AllTests? {
      assert Escalates(repo, changed);
    } else {
      PlanKeepsSelections(repo, changed, forceAll, path);
    }
  }

  // ----- Tests, harmless files and the rest -----

  /** An edited test source selects the suite of its own name, if there is one; a bare suffix is its own name. */
  lemma {:induction false} TestFile(repo: Repo, dir: string, name: string)
    requires '/' !in name && StartsWith(dir + "/" + name + ".cpp", "tests/cpp/")
    ensures var stem := if name == "" then ".cpp" else name;
      Classify(repo, dir + "/" + name + ".cpp") == if stem in repo.Names() then TestTarget(stem) else NoImpact
  {
    var path := dir + "/" + name + ".cpp";
    RootsDiffer(path, "tests/cpp/", "include/pops/", 0);
    RootsDiffer(path, "tests/cpp/", "src/runtime/", 0);
    RootsDiffer(path, "tests/cpp/", "python/bindings/", 0);
    var file := name + ".cpp";
    assert path == dir + "/" + file && EndsWith(path, ".cpp");
    LastName(dir, file);
    assert file[..|file| - 4] == name;
  }

  /** None of the cases above. */
  ghost predicate IsRemaining(path: string) {
    && !IsHeader(path) && !StartsWith(path, "src/runtime/") && !StartsWith(path, "python/bindings/")
    && !(StartsWith(path, "tests/cpp/") && EndsWith(path, ".cpp")) && !StartsWith(path, "python/pops/codegen/")
  }

  /** Of the remaining paths, documentation and Python are harmless and all others run everything. */
  lemma {:induction false} RemainingFile(repo: Repo, path: string)
    requires IsRemaining(path)
    ensures Classify(repo, path) == NoImpact || Classify(repo, path) == AllTests(UnmappedPath)
    ensures Classify(repo, path) == NoImpact <==>
      || path in {"README.md", "CONTRIBUTING.md", "CHANGELOG.md", "SECURITY.md", ".gitignore"}
      || StartsWith(path, "docs/") || StartsWith(path, "tutorials/") || StartsWith(path, "tests/python/")
      || StartsWith(path, "python/pops/")
  {
    assert ZERO_PREFIXES[0] == "docs/" && ZERO_PREFIXES[1] == "tutorials/" && ZERO_PREFIXES[2] == "tests/python/";
    assert ZERO_PREFIXES[3] == "python/pops/";
  }

  // ----- The plan -----

  ghost predicate IsSharedInput(path: string) {
    || path in {".github/workflows/ci.yml", "CMakeLists.txt", "CMakePresets.json", "scripts/ci_include_graph.py",
                "scripts/ci_python_module_objects.py", "scripts/ci_route_mode.py", "scripts/ci_select_tests.py",
                "scripts/ci_shard_binpack.py", "tests/CMakeLists.txt", "tests/cpp/build_durations.json",
                "tests/cpp/test_durations.json", "src/CMakeLists.txt", "tests/cpp/test_sources.cmake",
                "tests/test_manifest.toml"}
    || StartsWith(path, ".github/actions/setup-kokkos/") || StartsWith(path, "cmake/")
    || StartsWith(path, "include/pops/core/") || StartsWith(path, "include/pops/parallel/")
    || StartsWith(path, "tests/cpp/support/")
  }

  /** The broad paths, spelled out. */
  lemma {:induction false} BroadIsSpelled(path: string)
    ensures IsBroad(path) <==> IsSharedInput(path)
  {
    assert BROAD_PREFIXES[0] == ".github/actions/setup-kokkos/" && BROAD_PREFIXES[1] == "cmake/";
    assert BROAD_PREFIXES[2] == "include/pops/core/" && BROAD_PREFIXES[3] == "include/pops/parallel/";
    assert BROAD_PREFIXES[4] == "tests/cpp/support/";
  }

  /** The paths that never trigger the fail-safe, spelled out. */
  lemma {:induction false} MetaIsSpelled(path: string)
    ensures IsMeta(path) <==>
      || path in {"README.md", "CONTRIBUTING.md", "CHANGELOG.md", "SECURITY.md", ".gitignore"}
      || StartsWith(path, ".github/") || StartsWith(path, "docs/") || StartsWith(path, "tutorials/")
      || StartsWith(path, "tests/python/architecture/")
  {
    assert META_PREFIXES[0] == ".github/" && META_PREFIXES[1] == "docs/" && META_PREFIXES[2] == "tutorials/";
    assert META_PREFIXES[3] == "tests/python/architecture/";
  }

  /** A shared build or support input runs every suite. */
  lemma {:induction false} SharedInputRunsAll(repo: Repo, changed: seq<string>, forceAll: bool, path: string)
    requires repo.suites != [] && path in changed && IsSharedInput(path)
    ensures PlanFor(repo, changed, forceAll) == Plan(RunAll, repo.Names())
  {
    BroadIsSpelled(path);
  }

  /** A narrowed plan always carries the smoke suites of the manifest. */
  lemma {:induction false} SmokeSuitesRun(repo: Repo, changed: seq<string>, forceAll: bool, smoke: string)
    requires repo.suites != [] && PlanFor(repo, changed, forceAll).mode != RunNone
    requires smoke in {"test_box", "test_reduce", "test_system_abstraction"} && smoke in repo.Names()
    ensures smoke in PlanFor(repo, changed, forceAll).targets
  {
    assert smoke in SMOKE_TARGETS;
  }

  /** The threshold is three quarters of the suites. */
  lemma {:induction false} ThresholdIsThreeQuarters(count: nat, total: nat)
    ensures TooMany(count, total) <==> count as real > total as real * 0.75
  {
  }
}
