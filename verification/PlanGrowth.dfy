/**
 When a longer change list keeps every target of a shorter one (`plan_cpp` in
 `scripts/ci_select_tests.py`). Classification is monotone; the fail-safe of the plan is not.
 */
module PlanGrowth {
  import opened Strings
  import opened CppSelection

  /**
   The fail-safe that ran everything for `a` no longer fires beside `b`: nothing else forces or
   escalates, `a` matched no suite, `b` selects some, and what it selects is neither too much nor
   all there is.
   */
  ghost predicate LosesFailSafe(repo: Repo, a: seq<string>, b: seq<string>, forceAll: bool) {
    && !forceAll && (forall p :: p in a + b ==> !IsBroad(p)) && !Escalates(repo, a + b)
    && MatchedNothing(repo, a) && SelectedBy(repo, b) != {}
    && !TooMany(|Narrowed(repo, b)|, |repo.suites|) && Narrowed(repo, b) != repo.Names()
  }

  /** Adding changed files keeps every planned target exactly when the fail-safe is not lost. */
  lemma {:induction false} PlanGrowsExactly(repo: Repo, a: seq<string>, b: seq<string>, forceAll: bool)
    requires repo.suites != []
    ensures PlanFor(repo, a, forceAll).targets <= PlanFor(repo, a + b, forceAll).targets
       <==> !LosesFailSafe(repo, a, b, forceAll)
  {
    ClassificationComposes(repo, a, b);
    NarrowedIsKnown(repo, a);
    NarrowedIsKnown(repo, b);
    NarrowedIsKnown(repo, a + b);
    assert forall p :: p in a + b <==> p in a || p in b;
    if MatchedNothing(repo, a) {
      FailSafe(repo, a, b, forceAll);
    } else {
      Grows(repo, a, b, forceAll);
    }
  }

  lemma {:induction false} NarrowedIsKnown(repo: Repo, changed: seq<string>)
    ensures Narrowed(repo, changed) <= repo.Names()
  {
    forall p | p in changed ensures Classify(repo, p).Targets() <= repo.Names() { TargetsAreNames(repo, p); }
  }

  lemma {:induction false} MoreIsTooMany(a: set<string>, b: set<string>, total: nat)
    requires a <= b && TooMany(|a|, total)
    ensures TooMany(|b|, total)
  {
    assert b == a + (b - a);
  }

  /** Without the fail-safe, plans grow with the change list. */
  lemma {:induction false} Grows(repo: Repo, a: seq<string>, b: seq<string>, forceAll: bool)
    requires repo.suites != [] && !MatchedNothing(repo, a)
    requires SelectedBy(repo, a + b) == SelectedBy(repo, a) + SelectedBy(repo, b)
    requires Escalates(repo, a + b) <==> Escalates(repo, a) || Escalates(repo, b)
    requires forall p :: p in a + b <==> p in a || p in b
    requires Narrowed(repo, a) <= repo.Names() && Narrowed(repo, a + b) <= repo.Names()
    ensures PlanFor(repo, a, forceAll).targets <= PlanFor(repo, a + b, forceAll).targets
  {
    var total := |repo.suites|;
    assert Narrowed(repo, a) <= Narrowed(repo, a + b);
    if TooMany(|Narrowed(repo, a)|, total) { MoreIsTooMany(Narrowed(repo, a), Narrowed(repo, a + b), total); }
  }

  /** Where the fail-safe ran everything, the longer list must run everything too. */
  lemma {:induction false} FailSafe(repo: Repo, a: seq<string>, b: seq<string>, forceAll: bool)
    requires repo.suites != [] && MatchedNothing(repo, a)
    requires SelectedBy(repo, a + b) == SelectedBy(repo, a) + SelectedBy(repo, b)
    requires forall p :: p in a + b <==> p in a || p in b
    requires Narrowed(repo, b) <= repo.Names()
    ensures PlanFor(repo, a, forceAll).targets <= PlanFor(repo, a + b, forceAll).targets
       <==> !LosesFailSafe(repo, a, b, forceAll)
  {
    assert SelectedBy(repo, a + b) == SelectedBy(repo, b);
    StillMatchesNothing(repo, a, b);
    assert PlanFor(repo, a, forceAll).targets == repo.Names();
    FailSafePlan(repo, a, b, forceAll);
    Whole(repo.Names(), PlanFor(repo, a + b, forceAll).targets);
  }

  lemma {:induction false} Whole(all: set<string>, some: set<string>)
    requires some <= all
    ensures all <= some <==> some == all
  {
  }

  lemma {:induction false} StillMatchesNothing(repo: Repo, a: seq<string>, b: seq<string>)
    requires MatchedNothing(repo, a) && SelectedBy(repo, a + b) == SelectedBy(repo, b)
    requires forall p :: p in a + b <==> p in a || p in b
    ensures MatchedNothing(repo, a + b) <==> SelectedBy(repo, b) == {}
  {
  }

  lemma {:induction false} FailSafePlan(repo: Repo, a: seq<string>, b: seq<string>, forceAll: bool)
    requires repo.suites != [] && MatchedNothing(repo, a) && SelectedBy(repo, a + b) == SelectedBy(repo, b)
    requires MatchedNothing(repo, a + b) <==> SelectedBy(repo, b) == {}
    requires Narrowed(repo, b) <= repo.Names()
    ensures var targets := PlanFor(repo, a + b, forceAll).targets;
      targets <= repo.Names() && (targets == repo.Names() <==> !LosesFailSafe(repo, a, b, forceAll))
  {
    assert Narrowed(repo, a + b) == Narrowed(repo, b);
  }

  // ----- A target that is lost -----

  const HEADER := "include/pops/a.hpp"
  const TEST := "tests/cpp/t.cpp"

  /** Two suites whose sources include nothing, and one header. */
  function SmallRepo(): Repo {
    Repo(true, map[], {"pops/a.hpp"}, {}, map[TEST := {}, "tests/cpp/u.cpp" := {}],
         [Suite("t", {}, [TEST]), Suite("u", {}, ["tests/cpp/u.cpp"])], [])
  }

  lemma {:induction false} SmallNames()
    ensures SmallRepo().Names() == {"t", "u"} && |SmallRepo().suites| == 2
  {
    var repo := SmallRepo();
    assert repo.suites[0].name == "t" && repo.suites[1].name == "u";
  }

  lemma {:induction false} SmallSources()
    ensures forall s, f :: s in SmallRepo().suites && f in s.sources ==> f in SmallRepo().sourceIncludes
    ensures forall f :: f in SmallRepo().sourceIncludes ==> SmallRepo().sourceIncludes[f] == {}
  {
  }

  lemma {:induction false} HeaderIsNarrow()
    ensures IsHeader(HEADER) && NodeOf(HEADER) == "pops/a.hpp" && !IsBroad(HEADER)
  {
    assert EndsWith(HEADER, ".hpp") && ".hpp" in HEADER_SUFFIXES;
    assert StartsWith(HEADER, "include/pops/");
    assert HEADER[0] == 'i' && HEADER[13] == 'a';
    PrefixCharacter(HEADER, ".github/actions/setup-kokkos/", 0);
    PrefixCharacter(HEADER, "cmake/", 0);
    PrefixCharacter(HEADER, "include/pops/core/", 13);
    PrefixCharacter(HEADER, "include/pops/parallel/", 13);
    PrefixCharacter(HEADER, "tests/cpp/support/", 0);
    assert HEADER !in BROAD_FILES by { assert forall f :: f in BROAD_FILES ==> f[0] != 'i'; }
  }

  lemma {:induction false} HeaderHitsNothing(repo: Repo, node: string)
    requires repo.graphReadable && repo.globalRoots == {} && node in repo.headers
    requires forall s, f :: s in repo.suites && f in s.sources ==> f in repo.sourceIncludes
    requires forall f :: f in repo.sourceIncludes ==> repo.sourceIncludes[f] == {}
    ensures ClassifyHeader(repo, node) == IncludeImpact({})
  {
  }

  lemma {:induction false} TestIsNarrow()
    ensures EndsWith(TEST, ".cpp") && Stem(TEST) == "t" && !IsBroad(TEST)
    ensures !IsHeader(TEST) && !StartsWith(TEST, "src/runtime/") && !StartsWith(TEST, "python/bindings/")
    ensures StartsWith(TEST, "tests/cpp/")
  {
    assert TEST == "tests/cpp" + "/" + "t.cpp";
    LastName("tests/cpp", "t.cpp");
    assert "t.cpp"[..1] == "t";
    PrefixCharacter(TEST, "include/pops/", 0);
    PrefixCharacter(TEST, "src/runtime/", 0);
    PrefixCharacter(TEST, "python/bindings/", 0);
    PrefixCharacter(TEST, ".github/actions/setup-kokkos/", 0);
    PrefixCharacter(TEST, "cmake/", 0);
    PrefixCharacter(TEST, "include/pops/core/", 0);
    PrefixCharacter(TEST, "include/pops/parallel/", 0);
    PrefixCharacter(TEST, "tests/cpp/support/", 10);
    assert TEST !in BROAD_FILES by { assert forall f :: f in BROAD_FILES && |f| == 15 ==> f[10] != 't'; }
  }

  /** An edited test whose repository has at least two suites and no smoke target runs alone. */
  lemma {:induction false} EditedTestRunsAlone(repo: Repo, path: string, target: string)
    requires Classify(repo, path) == TestTarget(target) && !IsBroad(path)
    requires |repo.suites| >= 2 && SMOKE_TARGETS * repo.Names() == {}
    ensures PlanFor(repo, [path], false) == Plan(RunSubset, {target})
  {
    OneFile(repo, path);
    assert forall p :: p in [path] ==> p == path;
    assert SelectedBy(repo, [path]) == {target} && !Escalates(repo, [path]);
    SmallSelection(repo, [path], {target});
  }

  /** A small selection with nothing to force or widen it is the plan. */
  lemma {:induction false} SmallSelection(repo: Repo, changed: seq<string>, selected: set<string>)
    requires repo.suites != [] && (forall p :: p in changed ==> !IsBroad(p)) && !Escalates(repo, changed)
    requires SelectedBy(repo, changed) == selected != {} && SMOKE_TARGETS * repo.Names() == {}
    requires !TooMany(|selected|, |repo.suites|)
    ensures PlanFor(repo, changed, false) == Plan(RunSubset, selected)
  {
    assert selected + {} == selected;
  }

  /** The header alone runs both suites; beside the edited test it runs only that test. */
  lemma {:induction false} TargetIsLost()
    ensures PlanFor(SmallRepo(), [HEADER], false).targets == {"t", "u"}
    ensures PlanFor(SmallRepo(), [HEADER, TEST], false).targets == {"t"}
  {
    SmallNames();
    HeaderIsNarrow();
    SmallSources();
    HeaderHitsNothing(SmallRepo(), "pops/a.hpp");
    EditedTest(SmallRepo());
    LostBeside(SmallRepo(), HEADER, TEST, "t");
  }

  /** A header that hits nothing, beside an edited test, loses every suite but that test. */
  lemma {:induction false} LostBeside(repo: Repo, header: string, test: string, target: string)
    requires IsHeader(header) && Classify(repo, header) == IncludeImpact({}) && !IsBroad(header)
    requires Classify(repo, test) == TestTarget(target) && !IsBroad(test)
    requires |repo.suites| >= 2 && SMOKE_TARGETS * repo.Names() == {}
    ensures PlanFor(repo, [header], false) == Plan(RunAll, repo.Names())
    ensures PlanFor(repo, [header, test], false) == Plan(RunSubset, {target})
  {
    LonelyHeaderRunsAll(repo, header);
    HeaderAddsNothingBeside(repo, header, test);
    EditedTestRunsAlone(repo, test, target);
  }

  lemma {:induction false} EditedTest(repo: Repo)
    requires "t" in repo.Names()
    ensures Classify(repo, TEST) == TestTarget("t") && !IsBroad(TEST)
  {
    TestIsNarrow();
  }
}
