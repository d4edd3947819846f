/**
 Reachability in directed graphs, and the two work-list loops the CI scripts use to close a set
 of nodes: marking on pop (`ci_include_graph.py`) and marking on push (`ci_import_closure.py`).
 */
module Reachability {

  /** Successors by name; a name without an entry has none. */
  type Graph = map<string, set<string>>

  function Succ(g: Graph, x: string): set<string> { if x in g then g[x] else {} }

  function Edge(g: Graph): (string, string) -> bool { (x: string, y: string) => y in Succ(g, x) }

  ghost predicate IsPath(edge: (string, string) -> bool, p: seq<string>) {
    |p| > 0 && forall i :: 0 <= i < |p| - 1 ==> edge(p[i], p[i + 1])
  }

  ghost predicate PathFrom(edge: (string, string) -> bool, p: seq<string>, x: string, y: string) {
    IsPath(edge, p) && p[0] == x && p[|p| - 1] == y
  }

  ghost predicate Reaches(edge: (string, string) -> bool, x: string, y: string) {
    exists p :: PathFrom(edge, p, x, y)
  }

  /** Some root reaches `y`. */
  ghost predicate ReachedFrom(edge: (string, string) -> bool, roots: set<string>, y: string) {
    exists x :: x in roots && Reaches(edge, x, y)
  }

  lemma {:induction false} ReachesSelf(edge: (string, string) -> bool, x: string)
    ensures Reaches(edge, x, x)
  {
    assert PathFrom(edge, [x], x, x);
  }

  lemma {:induction false} ReachesStep(edge: (string, string) -> bool, x: string, y: string, z: string)
    requires Reaches(edge, x, y) && edge(y, z)
    ensures Reaches(edge, x, z)
  {
    var p :| PathFrom(edge, p, x, y);
    assert PathFrom(edge, p + [z], x, z);
  }

  lemma {:induction false} ReachesTransitive(edge: (string, string) -> bool, x: string, y: string, z: string)
    requires Reaches(edge, x, y) && Reaches(edge, y, z)
    ensures Reaches(edge, x, z)
  {
    var p :| PathFrom(edge, p, x, y);
    var q :| PathFrom(edge, q, y, z);
    var r := p + q[1..];
    forall i | 0 <= i < |r| - 1 ensures edge(r[i], r[i + 1]) {
      if i >= |p| - 1 { assert r[i] == q[i - |p| + 1] && r[i + 1] == q[i - |p| + 2]; }
    }
    assert PathFrom(edge, r, x, z);
  }

  /** A closed set that holds the start of a path holds its end. */
  lemma {:induction false} ClosedHoldsPath(edge: (string, string) -> bool, s: set<string>, p: seq<string>)
    requires IsPath(edge, p) && p[0] in s
    requires forall x, y :: x in s && edge(x, y) ==> y in s
    ensures p[|p| - 1] in s
  {
    if |p| > 1 {
      assert edge(p[0], p[1]);
      var q := p[1..];
      forall i | 0 <= i < |q| - 1 ensures edge(q[i], q[i + 1]) { assert edge(p[i + 1], p[i + 1 + 1]); }
      ClosedHoldsPath(edge, s, q);
    }
  }

  lemma {:induction false} ClosedHoldsReached(edge: (string, string) -> bool, s: set<string>, x: string, y: string)
    requires x in s && Reaches(edge, x, y)
    requires forall a, b :: a in s && edge(a, b) ==> b in s
    ensures y in s
  {
    var p :| PathFrom(edge, p, x, y);
    ClosedHoldsPath(edge, s, p);
  }

  /** `s` is exactly what the roots reach. */
  ghost predicate IsClosure(edge: (string, string) -> bool, roots: set<string>, s: set<string>) {
    forall y :: y in s <==> ReachedFrom(edge, roots, y)
  }

  lemma {:induction false} ClosureFromClosed(edge: (string, string) -> bool, roots: set<string>, s: set<string>)
    requires roots <= s && forall x, y :: x in s && edge(x, y) ==> y in s
    requires forall y :: y in s ==> ReachedFrom(edge, roots, y)
    ensures IsClosure(edge, roots, s)
  {
    forall y | ReachedFrom(edge, roots, y) ensures y in s {
      var x :| x in roots && Reaches(edge, x, y);
      ClosedHoldsReached(edge, s, x, y);
    }
  }

  /** What the roots reach is closed and holds the roots. */
  lemma {:induction false} ReachedIsClosed(edge: (string, string) -> bool, roots: set<string>, reached: iset<string>)
    requires reached == iset y | ReachedFrom(edge, roots, y)
    ensures forall x :: x in roots ==> x in reached
    ensures forall x, y :: x in reached && edge(x, y) ==> y in reached
  {
    forall x | x in roots ensures x in reached { ReachesSelf(edge, x); }
    forall x, y | x in reached && edge(x, y) ensures y in reached {
      var r :| r in roots && Reaches(edge, r, x);
      ReachesStep(edge, r, x, y);
    }
  }

  // ----- Laws of closures -----

  /** A closure is determined by its roots, contains them, and closing again adds nothing. */
  lemma {:induction false} ClosureLaws(edge: (string, string) -> bool, roots: set<string>, s: set<string>)
    requires IsClosure(edge, roots, s)
    ensures roots <= s
    ensures IsClosure(edge, s, s)
    ensures forall t :: IsClosure(edge, roots, t) ==> t == s
  {
    forall x | x in roots ensures x in s { ReachesSelf(edge, x); assert ReachedFrom(edge, roots, x); }
    forall y ensures y in s <==> ReachedFrom(edge, s, y) {
      if y in s { ReachesSelf(edge, y); }
      if ReachedFrom(edge, s, y) {
        var x :| x in s && Reaches(edge, x, y);
        var r :| r in roots && Reaches(edge, r, x);
        ReachesTransitive(edge, r, x, y);
        assert ReachedFrom(edge, roots, y);
      }
    }
  }

  /** Closing distributes over unions of roots, hence is monotone. */
  lemma {:induction false} ClosureDistributes(
      edge: (string, string) -> bool, a: set<string>, b: set<string>, s: set<string>, t: set<string>)
    requires IsClosure(edge, a, s) && IsClosure(edge, b, t)
    ensures IsClosure(edge, a + b, s + t)
    ensures a <= b ==> s <= t
  {
    forall y ensures y in s + t <==> ReachedFrom(edge, a + b, y) {
      if ReachedFrom(edge, a, y) { var x :| x in a && Reaches(edge, x, y); assert x in a + b; }
      if ReachedFrom(edge, b, y) { var x :| x in b && Reaches(edge, x, y); assert x in a + b; }
      if ReachedFrom(edge, a + b, y) {
        var x :| x in a + b && Reaches(edge, x, y);
        assert ReachedFrom(edge, a, y) || ReachedFrom(edge, b, y);
      }
    }
    if a <= b {
      forall y | y in s ensures y in t { var x :| x in a && Reaches(edge, x, y); assert x in b; }
    }
  }

  // ----- Reversal -----

  ghost predicate Reverses(rev: Graph, g: Graph) {
    forall x, y :: Edge(rev)(x, y) <==> Edge(g)(y, x)
  }

  lemma {:induction false} ReversedPath(
      edge: (string, string) -> bool, back: (string, string) -> bool, x: string, y: string)
    requires forall a, b :: edge(a, b) ==> back(b, a)
    requires Reaches(edge, x, y)
    ensures Reaches(back, y, x)
  {
    var p :| PathFrom(edge, p, x, y);
    var n := |p|;
    var q := seq(n, i requires 0 <= i < n => p[n - 1 - i]);
    forall i | 0 <= i < n - 1 ensures back(q[i], q[i + 1]) { assert edge(p[n - 2 - i], p[n - 2 - i + 1]); }
    assert PathFrom(back, q, y, x);
  }

  // ----- Marking on pop -----

  /** Every name a walk from `roots` can meet. */
  ghost function Universe(g: Graph, roots: set<string>): set<string> {
    roots + g.Keys + set x, y | x in g && y in g[x] :: y
  }

  method TransitiveClosure(g: Graph, roots: seq<string>) returns (seen: set<string>)
    ensures IsClosure(Edge(g), (set x | x in roots), seen)
  {
    ghost var start := set x | x in roots;
    ghost var reached := iset y | ReachedFrom(Edge(g), start, y);
    ReachedIsClosed(Edge(g), start, reached);
    seen := WalkOnPop(g, roots, reached);
    ClosureFromClosed(Edge(g), start, seen);
  }

  /**
   The include work-list: a name is marked when it is popped, so the stack may hold it more than
   once. Terminates because each pop either marks a new name or shortens the stack.
   */
  method WalkOnPop(g: Graph, roots: seq<string>, ghost reached: iset<string>) returns (seen: set<string>)
    requires forall x :: x in roots ==> x in reached
    requires forall x, y :: x in reached && Edge(g)(x, y) ==> y in reached
    ensures forall x :: x in roots ==> x in seen
    ensures forall x, y :: x in seen && Edge(g)(x, y) ==> y in seen
    ensures forall x :: x in seen ==> x in reached
  {
    ghost var all := Universe(g, set x | x in roots);
    seen := {};
    var stack := roots;
    while stack != []
      invariant seen <= all && forall x :: x in stack ==> x in all && x in reached
      invariant forall x :: x in seen ==> x in reached
      invariant forall x :: x in roots ==> x in seen || x in stack
      invariant forall x, y :: x in seen && Edge(g)(x, y) ==> y in seen || y in stack
      decreases all - seen, |stack|
    {
      var cur := stack[|stack| - 1];
      var rest := stack[..|stack| - 1];
      assert stack == rest + [cur];
      if cur in seen {
        stack := rest;
      } else {
        seen := seen + {cur};
        var more := SomeOrder(Succ(g, cur) - seen);
        forall y | y in more ensures y in all && y in reached { assert Edge(g)(cur, y); }
        stack := rest + more;
      }
    }
  }

  /** The elements of a set in the unspecified order in which Python iterates over it. */
  method SomeOrder(s: set<string>) returns (list: seq<string>)
    ensures forall x :: x in list <==> x in s
  {
    list := [];
    var left := s;
    while left != {}
      invariant left <= s
      invariant forall x :: x in list <==> x in s - left
    {
      var x :| x in left;
      left := left - {x};
      list := list + [x];
    }
  }

  // ----- Marking on push -----

  /** The loop that inverts an adjacency map. */
  method BuildReverse(g: Graph) returns (rev: Graph)
    ensures Reverses(rev, g)
  {
    rev := map[];
    var left := g.Keys;
    while left != {}
      invariant left <= g.Keys
      invariant forall x, y :: Edge(rev)(x, y) <==> y !in left && Edge(g)(y, x)
    {
      var src :| src in left;
      ghost var before := rev;
      rev := AddImporter(rev, src, g[src]);
      left := left - {src};
      forall x, y ensures Edge(rev)(x, y) <==> y !in left && Edge(g)(y, x) {
        assert Edge(before)(x, y) <==> y !in left + {src} && Edge(g)(y, x);
        assert Succ(rev, x) == Succ(before, x) + if x in g[src] then {src} else {};
      }
    }
  }

  method AddImporter(rev: Graph, src: string, dsts: set<string>) returns (r: Graph)
    ensures forall x :: Succ(r, x) == Succ(rev, x) + if x in dsts then {src} else {}
  {
    r := rev;
    var left := dsts;
    while left != {}
      invariant left <= dsts
      invariant forall x :: Succ(r, x) == Succ(rev, x) + if x in dsts - left then {src} else {}
    {
      var dst :| dst in left;
      r := r[dst := Succ(r, dst) + {src}];
      left := left - {dst};
    }
  }

  /** Marks the unmarked neighbours of one node and pushes each of them once. */
  method PushUnmarked(neighbours: set<string>, closed0: set<string>, stack0: seq<string>)
    returns (closed: set<string>, stack: seq<string>)
    ensures closed == closed0 + neighbours
    ensures forall x :: x in stack <==> x in stack0 || x in neighbours - closed0
    ensures neighbours <= closed0 ==> stack == stack0
  {
    closed, stack := closed0, stack0;
    var order := SomeOrder(neighbours);
    for i := 0 to |order|
      invariant closed == closed0 + set x | x in order[..i]
      invariant forall x :: x in stack <==> x in stack0 || (x in order[..i] && x !in closed0)
      invariant neighbours <= closed0 ==> stack == stack0
    {
      var x := order[i];
      assert order[..i + 1] == order[..i] + [x];
      if x !in closed {
        closed := closed + {x};
        stack := stack + [x];
      }
    }
    assert order[..|order|] == order;
  }

  function Either(f: Graph, b: Graph): (string, string) -> bool {
    (x: string, y: string) => y in Succ(f, x) || y in Succ(b, x)
  }

  method MarkOnPush(f: Graph, b: Graph, start: set<string>) returns (closed: set<string>)
    ensures IsClosure(Either(f, b), start, closed)
  {
    ghost var reached := iset y | ReachedFrom(Either(f, b), start, y);
    ReachedIsClosed(Either(f, b), start, reached);
    closed := WalkOnPush(f, b, start, reached);
    ClosureFromClosed(Either(f, b), start, closed);
  }

  /**
   The import work-list: a node is marked when it is pushed, so it enters the stack once. The
   neighbours come from two adjacency maps.
   */
  method WalkOnPush(f: Graph, b: Graph, start: set<string>, ghost reached: iset<string>) returns (closed: set<string>)
    requires forall x :: x in start ==> x in reached
    requires forall x, y :: x in reached && Either(f, b)(x, y) ==> y in reached
    ensures start <= closed
    ensures forall x, y :: x in closed && Either(f, b)(x, y) ==> y in closed
    ensures forall x :: x in closed ==> x in reached
  {
    ghost var all := Universe(f, start) + Universe(b, start);
    closed := start;
    var stack := SomeOrder(start);
    while stack != []
      invariant start <= closed <= all
      invariant forall x :: x in stack ==> x in closed
      invariant forall x :: x in closed ==> x in reached
      invariant forall x, y :: x in closed && Either(f, b)(x, y) ==> y in closed || x in stack
      decreases all - closed, |stack|
    {
      var current := stack[|stack| - 1];
      ghost var before, whole := closed, stack;
      stack := stack[..|stack| - 1];
      assert whole == stack + [current];
      closed, stack := PushUnmarked(Succ(f, current), closed, stack);
      closed, stack := PushUnmarked(Succ(b, current), closed, stack);
      forall y | y in closed ensures y in reached && y in all {
        if y !in before { assert Either(f, b)(current, y); }
      }
    }
  }
}
