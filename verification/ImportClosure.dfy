/**
 Import-closure test selection (`scripts/ci_import_closure.py`). The module graph, the imports of
 every test and the path-to-module table are inputs; they come from parsing the source tree.
 */
module ImportClosure {
  import opened Reachability

  datatype Impact = Selected(tests: set<string>) | OffGraph(path: string)

  // ----- Ancestor packages -----

  function Dotted(parts: seq<string>): string
    requires parts != []
  {
    if |parts| == 1 then parts[0] else Dotted(parts[..|parts| - 1]) + "." + parts[|parts| - 1]
  }

  lemma {:induction false} DottedHasDot(parts: seq<string>)
    requires |parts| > 1
    ensures '.' in Dotted(parts)
  {
    var head := Dotted(parts[..|parts| - 1]);
    assert Dotted(parts)[|head|] == '.';
  }

  /** A dotted name is its first parts, a dot and the others, wherever it is cut. */
  lemma {:induction false} DottedJoins(parts: seq<string>, i: nat)
    requires 0 < i < |parts|
    ensures Dotted(parts) == Dotted(parts[..i]) + "." + Dotted(parts[i..])
    ensures Dotted([parts[0]]) == parts[0]
  {
    var n := |parts| - 1;
    var head, last := parts[..n], parts[n];
    if i == n {
      assert parts[i..] == [last];
    } else {
      DottedJoins(head, i);
      assert parts[..i] == head[..i];
      assert parts[i..][..|parts| - i - 1] == head[i..];
    }
  }

  /** The ancestors of a dotted name are the names that a dot and more turn into it. */
  lemma {:induction false} AncestorsAreSpelled(parts: seq<string>, c: string)
    requires parts != [] && forall part :: part in parts ==> '.' !in part
    ensures (exists i :: 1 <= i <= |parts| && c == Dotted(parts[..i])) <==>
      c == Dotted(parts) || exists rest :: Dotted(parts) == c + "." + rest
  {
    var n, whole := |parts| - 1, Dotted(parts);
    var head, last := parts[..n], parts[n];
    assert parts[..n + 1] == parts;
    if n == 0 {
      assert parts[0] in parts && '.' !in whole;
      forall rest ensures whole != c + "." + rest { assert (c + "." + rest)[|c|] == '.'; }
    } else {
      AncestorsAreSpelled(head, c);
      assert forall i :: 1 <= i <= n ==> head[..i] == parts[..i];
      if i :| 1 <= i <= n && c == Dotted(parts[..i]) {
        assert c == Dotted(head[..i]);
        if rest :| Dotted(head) == c + "." + rest { assert whole == c + "." + (rest + "." + last); }
      }
      if rest :| whole == c + "." + rest { CutBefore(Dotted(head), last, c, rest); }
    }
  }

  /** A dot inside `head . last` lies in `head` or right behind it when `last` has none. */
  lemma {:induction false} CutBefore(head: string, last: string, c: string, rest: string)
    requires '.' !in last && head + "." + last == c + "." + rest
    ensures c == head || exists inner :: head == c + "." + inner
  {
    var whole := head + "." + last;
    assert whole[|c|] == (c + "." + rest)[|c|] == '.';
    assert forall k :: |head| < k < |whole| ==> whole[k] == last[k - |head| - 1] && whole[k] in last;
    assert |c| <= |head|;
    if |c| < |head| {
      assert c == whole[..|c|] == head[..|c|];
      assert head == c + "." + head[|c| + 1..];
    } else {
      assert c == whole[..|c|] == head;
    }
  }

  /** A dotted target stands for itself and every ancestor package that is a real module. */
  method TargetWithAncestors(parts: seq<string>, valid: set<string>) returns (out: set<string>)
    requires parts != []
    ensures forall c :: c in out <==> c in valid && exists i :: 1 <= i <= |parts| && c == Dotted(parts[..i])
  {
    out := {};
    var i := |parts|;
    while i > 0
      invariant 0 <= i <= |parts|
      invariant forall c :: c in out <==> c in valid && exists j :: i < j <= |parts| && c == Dotted(parts[..j])
    {
      var candidate := Dotted(parts[..i]);
      ghost var before := out;
      if candidate in valid { out := out + {candidate}; }
      forall c ensures c in out <==> c in valid && exists j :: i - 1 < j <= |parts| && c == Dotted(parts[..j]) {
        if c == candidate { assert i - 1 < i <= |parts| && c == Dotted(parts[..i]); }
        assert c in before <==> c in valid && exists j :: i < j <= |parts| && c == Dotted(parts[..j]);
      }
      if candidate == "pops" {
        if i > 1 { DottedHasDot(parts[..i]); }
        break;
      }
      i := i - 1;
    }
  }

  // ----- Reverse closure -----

  /** `m` is `s` or transitively imports it, for some seed `s` on the graph. */
  ghost predicate ImportsSeed(g: Graph, seeds: set<string>, m: string) {
    exists s :: s in seeds && s in g && Reaches(Edge(g), m, s)
  }

  method ReverseModuleClosure(seeds: set<string>, g: Graph) returns (closed: set<string>)
    ensures forall m :: m in closed <==> ImportsSeed(g, seeds, m)
  {
    var rev := BuildReverse(g);
    var frontier := set s | s in seeds && s in g;
    closed := MarkOnPush(rev, map[], frontier);
    forall m ensures m in closed <==> ImportsSeed(g, seeds, m) {
      ReverseReach(g, rev, frontier, m);
    }
  }

  lemma {:induction false} ReverseReach(g: Graph, rev: Graph, frontier: set<string>, m: string)
    requires Reverses(rev, g)
    ensures ReachedFrom(Either(rev, map[]), frontier, m) <==> exists s :: s in frontier && Reaches(Edge(g), m, s)
  {
    var back := Either(rev, map[]);
    forall x, y ensures back(x, y) <==> Edge(g)(y, x) { assert back(x, y) <==> Edge(rev)(x, y); }
    if ReachedFrom(back, frontier, m) {
      var s :| s in frontier && Reaches(back, s, m);
      ReversedPath(back, Edge(g), s, m);
    }
    if s :| s in frontier && Reaches(Edge(g), m, s) {
      ReversedPath(Edge(g), back, m, s);
    }
  }

  // ----- Cross-test closure -----

  /** One test imports the other, in either direction. */
  function Related(testToTest: Graph): (string, string) -> bool {
    (t: string, u: string) => u in Succ(testToTest, t) || t in Succ(testToTest, u)
  }

  method CloseCrossTest(selected: set<string>, testToTest: Graph) returns (closed: set<string>)
    ensures IsClosure(Related(testToTest), selected, closed)
  {
    var reverse := BuildReverse(testToTest);
    closed := MarkOnPush(testToTest, reverse, selected);
    SameReach(Either(testToTest, reverse), Related(testToTest), selected, closed) by {
      forall t, u ensures Either(testToTest, reverse)(t, u) <==> Related(testToTest)(t, u) {
        assert Edge(reverse)(t, u) <==> Edge(testToTest)(u, t);
      }
    }
  }

  lemma {:induction false} SameReach(
      e: (string, string) -> bool, f: (string, string) -> bool, roots: set<string>, s: set<string>)
    requires forall x, y :: e(x, y) <==> f(x, y)
    requires IsClosure(e, roots, s)
    ensures IsClosure(f, roots, s)
  {
    forall y ensures ReachedFrom(e, roots, y) <==> ReachedFrom(f, roots, y) {
      if ReachedFrom(e, roots, y) {
        var x :| x in roots && Reaches(e, x, y);
        var p :| PathFrom(e, p, x, y);
        assert PathFrom(f, p, x, y);
      }
      if ReachedFrom(f, roots, y) {
        var x :| x in roots && Reaches(f, x, y);
        var p :| PathFrom(f, p, x, y);
        assert PathFrom(e, p, x, y);
      }
    }
  }

  // ----- Impacted tests -----

  predicate IsPopsSource(path: string) {
    "python/pops/" <= path && |path| >= 3 && path[|path| - 3..] == ".py"
  }

  /** The sources are the `.py` files anywhere below `python/pops`. */
  lemma {:induction false} PopsSourcesAreSpelled(path: string)
    ensures IsPopsSource(path) <==> exists rest :: path == "python/pops/" + rest + ".py"
  {
    if IsPopsSource(path) {
      var n := |path| - 3;
      assert path[..12] == "python/pops/" && path[n..] == ".py";
      assert path[11] == '/' && path[n] == '.' && path[n + 1] == 'p' && path[n + 2] == 'y';
      assert n >= 12;
      assert path == path[..12] + path[12..n] + path[n..];
      assert path == "python/pops/" + path[12..n] + ".py";
    }
    if rest :| path == "python/pops/" + rest + ".py" { assert path[|path| - 3..] == ".py"; }
  }

  /** A changed source whose module the graph has never seen. */
  predicate IsOffGraph(path: string, moduleOf: map<string, string>, g: Graph) {
    IsPopsSource(path) && (path !in moduleOf || moduleOf[path] !in g)
  }

  ghost predicate IsFirstOffGraph(changed: seq<string>, i: nat, moduleOf: map<string, string>, g: Graph)
    requires i < |changed|
  {
    IsOffGraph(changed[i], moduleOf, g) && forall j :: 0 <= j < i ==> !IsOffGraph(changed[j], moduleOf, g)
  }

  function SeedModules(changed: seq<string>, moduleOf: map<string, string>): set<string> {
    set p | p in changed && IsPopsSource(p) && p in moduleOf :: moduleOf[p]
  }

  /** `t` imports, directly, a module from which some changed module is reachable. */
  ghost predicate Touches(testToPops: Graph, g: Graph, seeds: set<string>, t: string) {
    exists m :: m in Succ(testToPops, t) && ImportsSeed(g, seeds, m)
  }

  /** `t` is connected, by cross-test imports in either direction, to a test that touches a seed. */
  ghost predicate IsImpacted(testToPops: Graph, testToTest: Graph, g: Graph, seeds: set<string>, t: string) {
    exists t0 :: Touches(testToPops, g, seeds, t0) && Reaches(Related(testToTest), t0, t)
  }

  /**
   Refuses exactly when a changed source is off the graph, naming the first; otherwise selects
   exactly the impacted tests.
   */
  method ImpactedTests(
      changed: seq<string>, moduleOf: map<string, string>, g: Graph, testToPops: Graph, testToTest: Graph)
    returns (r: Impact)
    ensures r.OffGraph? <==> exists p :: p in changed && IsOffGraph(p, moduleOf, g)
    ensures r.OffGraph? ==>
      exists i :: 0 <= i < |changed| && changed[i] == r.path && IsFirstOffGraph(changed, i, moduleOf, g)
    ensures r.Selected? ==> forall t ::
      t in r.tests <==> IsImpacted(testToPops, testToTest, g, SeedModules(changed, moduleOf), t)
  {
    var seeds: set<string> := {};
    for i := 0 to |changed|
      invariant forall j :: 0 <= j < i ==> !IsOffGraph(changed[j], moduleOf, g)
      invariant seeds == SeedModules(changed[..i], moduleOf)
    {
      var path := changed[i];
      assert path in changed;
      assert changed[..i + 1] == changed[..i] + [path];
      if IsPopsSource(path) {
        if path !in moduleOf || moduleOf[path] !in g { return OffGraph(path); }
        seeds := seeds + {moduleOf[path]};
      }
    }
    assert changed[..|changed|] == changed;
    if seeds == {} { return Selected({}); }
    var affected := ReverseModuleClosure(seeds, g);
    var direct := set t | t in testToPops && testToPops[t] * affected != {};
    forall t ensures t in direct <==> Touches(testToPops, g, seeds, t) {
      if t in direct { var m :| m in testToPops[t] * affected; }
      if Touches(testToPops, g, seeds, t) {
        var m :| m in Succ(testToPops, t) && ImportsSeed(g, seeds, m);
        assert m in testToPops[t] * affected;
      }
    }
    var tests := CloseCrossTest(direct, testToTest);
    r := Selected(tests);
  }

  /** Selecting for two change lists together selects for each of them, and nothing more. */
  lemma {:induction false} ImpactDistributes(
      testToPops: Graph, testToTest: Graph, g: Graph, moduleOf: map<string, string>,
      a: seq<string>, b: seq<string>, t: string)
    ensures IsImpacted(testToPops, testToTest, g, SeedModules(a + b, moduleOf), t) <==>
      || IsImpacted(testToPops, testToTest, g, SeedModules(a, moduleOf), t)
      || IsImpacted(testToPops, testToTest, g, SeedModules(b, moduleOf), t)
  {
    var s, u, v := SeedModules(a, moduleOf), SeedModules(b, moduleOf), SeedModules(a + b, moduleOf);
    assert v == s + u;
    forall t0
      ensures Touches(testToPops, g, v, t0) <==> Touches(testToPops, g, s, t0) || Touches(testToPops, g, u, t0)
    {
      forall m ensures ImportsSeed(g, v, m) <==> ImportsSeed(g, s, m) || ImportsSeed(g, u, m) { }
    }
  }
}
