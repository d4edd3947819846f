/**
 Sorting as the sources use it: `sorted(set(...))` under a total key, `std::stable_sort` by index,
 and ascending sorts of samples. The library sorts are stood for by insertion; the uniqueness
 lemmas say that nothing else could have come out.
 */
module Sorting {

  // ----- Sequences without repetition under a strict total order -----

  ghost predicate StrictTotal<T(!new)>(less: (T, T) -> bool) {
    && (forall x :: !less(x, x))
    && (forall x, y, z :: less(x, y) && less(y, z) ==> less(x, z))
    && (forall x, y :: less(x, y) || x == y || less(y, x))
  }

  ghost predicate Increasing<T>(less: (T, T) -> bool, s: seq<T>) {
    forall i, j :: 0 <= i < j < |s| ==> less(s[i], s[j])
  }

  ghost predicate Distinct<T>(s: seq<T>) {
    forall i, j :: 0 <= i < j < |s| ==> s[i] != s[j]
  }

  lemma {:induction false} DistinctAppend<T>(s: seq<T>, t: seq<T>)
    requires Distinct(s) && Distinct(t) && forall x :: x in s ==> x !in t
    ensures Distinct(s + t)
  {
    forall i, j | 0 <= i < j < |s + t| ensures (s + t)[i] != (s + t)[j] {
      if i < |s| <= j { assert s[i] in s && t[j - |s|] in t; }
    }
  }

  lemma {:induction false} DistinctSplit<T>(s: seq<T>, t: seq<T>, x: T)
    requires Distinct(s + t)
    ensures Distinct(s) && Distinct(t) && (x in s ==> x !in t)
  {
    var c := s + t;
    forall i, j | 0 <= i < j < |s| ensures s[i] != s[j] { assert c[i] == s[i] && c[j] == s[j]; }
    forall i, j | 0 <= i < j < |t| ensures t[i] != t[j] {
      assert c[|s| + i] == t[i] && c[|s| + j] == t[j];
    }
    forall i, j | 0 <= i < |s| && 0 <= j < |t| ensures s[i] != t[j] {
      assert c[i] == s[i] && c[|s| + j] == t[j];
    }
  }

  ghost function Elements<T>(s: seq<T>): set<T> { set x | x in s }

  lemma {:induction false} DistinctIffSameSize<T(!new)>(s: seq<T>)
    ensures |Elements(s)| <= |s|
    ensures |Elements(s)| == |s| <==> Distinct(s)
  {
    if s == [] {
      assert Elements(s) == {};
    } else {
      var n := |s| - 1;
      DistinctIffSameSize(s[..n]);
      assert s == s[..n] + [s[n]];
      assert Elements(s) == Elements(s[..n]) + {s[n]};
      if s[n] in s[..n] {
        assert Elements(s) == Elements(s[..n]);
        var i :| 0 <= i < n && s[i] == s[n];
      } else if Distinct(s[..n]) {
        DistinctAppend(s[..n], [s[n]]);
      } else if Distinct(s) {
        DistinctSplit(s[..n], [s[n]], s[n]);
      }
    }
  }

  function Insert<T(==)>(less: (T, T) -> bool, x: T, s: seq<T>): seq<T> {
    if s == [] then [x]
    else if x == s[0] then s
    else if less(x, s[0]) then [x] + s
    else [s[0]] + Insert(less, x, s[1..])
  }

  /** `sorted(set(s))` under the order `less`. */
  function SortUnique<T(==)>(less: (T, T) -> bool, s: seq<T>): seq<T> {
    if s == [] then [] else Insert(less, s[0], SortUnique(less, s[1..]))
  }

  lemma {:induction false} InsertElements<T(!new)>(less: (T, T) -> bool, x: T, s: seq<T>)
    ensures Elements(Insert(less, x, s)) == Elements(s) + {x}
  {
    if s != [] && x != s[0] {
      if less(x, s[0]) {
        assert forall y :: y in [x] + s <==> y == x || y in s;
      } else {
        InsertElements(less, x, s[1..]);
        var r := Insert(less, x, s[1..]);
        assert forall y :: y in r <==> y in Elements(r);
        assert forall y :: y in s <==> y == s[0] || y in s[1..];
        assert forall y :: y in [s[0]] + r <==> y == s[0] || y in r;
      }
    }
  }

  lemma {:induction false} InsertIncreasing<T(!new)>(less: (T, T) -> bool, x: T, s: seq<T>)
    requires StrictTotal(less) && Increasing(less, s)
    ensures Increasing(less, Insert(less, x, s))
  {
    if s != [] && x != s[0] && !less(x, s[0]) {
      var r := Insert(less, x, s[1..]);
      InsertIncreasing(less, x, s[1..]);
      InsertElements(less, x, s[1..]);
      forall j | 0 <= j < |r| ensures less(s[0], r[j]) {
        assert r[j] in Elements(r);
        assert r[j] == x || r[j] in s[1..];
      }
    }
  }

  lemma {:induction false} SortUniqueSorts<T(!new)>(less: (T, T) -> bool, s: seq<T>)
    requires StrictTotal(less)
    ensures Increasing(less, SortUnique(less, s))
    ensures Elements(SortUnique(less, s)) == Elements(s)
    ensures Distinct(SortUnique(less, s))
  {
    if s != [] {
      SortUniqueSorts(less, s[1..]);
      InsertIncreasing(less, s[0], SortUnique(less, s[1..]));
      InsertElements(less, s[0], SortUnique(less, s[1..]));
      assert forall y :: y in s <==> y == s[0] || y in s[1..];
    }
  }

  /** Only one increasing sequence has a given set of elements. */
  lemma {:induction false} IncreasingIsUnique<T(!new)>(less: (T, T) -> bool, s: seq<T>, t: seq<T>)
    requires StrictTotal(less) && Increasing(less, s) && Increasing(less, t)
    requires Elements(s) == Elements(t)
    ensures s == t
  {
    assert t == [] || t[0] in Elements(t);
    assert s == [] || s[0] in Elements(s);
    if s != [] {
      assert s[0] in Elements(t);
      assert t[0] in Elements(s);
      assert s[0] == t[0];
      forall x ensures x in s[1..] <==> x in t[1..] {
        assert x in s <==> x == s[0] || x in s[1..];
        assert x in t <==> x == t[0] || x in t[1..];
        assert x in s <==> x in Elements(s);
        assert x in t <==> x in Elements(t);
      }
      IncreasingIsUnique(less, s[1..], t[1..]);
      assert s == [s[0]] + s[1..] && t == [t[0]] + t[1..];
    }
  }

  lemma {:induction false} DistinctMultiset<T(!new)>(s: seq<T>, t: seq<T>)
    requires Distinct(s) && Distinct(t) && Elements(s) == Elements(t)
    ensures multiset(s) == multiset(t)
  {
    forall x ensures multiset(s)[x] == multiset(t)[x] {
      DistinctCount(s, x);
      DistinctCount(t, x);
      assert x in s <==> x in Elements(s);
      assert x in t <==> x in Elements(t);
    }
  }

  lemma {:induction false} DistinctCount<T>(s: seq<T>, x: T)
    requires Distinct(s)
    ensures multiset(s)[x] == if x in s then 1 else 0
  {
    if s != [] {
      DistinctCount(s[1..], x);
      assert s == [s[0]] + s[1..];
    }
  }

  lemma {:induction false} CountAtMostOneIsDistinct<T(!new)>(s: seq<T>)
    requires forall x :: multiset(s)[x] <= 1
    ensures Distinct(s)
  {
    forall i, j | 0 <= i < j < |s| ensures s[i] != s[j] {
      assert s == s[..j] + s[j..];
      assert s[i] in s[..j] && s[j] in s[j..];
      assert multiset(s)[s[j]] == multiset(s[..j])[s[j]] + multiset(s[j..])[s[j]];
      if s[i] == s[j] { assert false; }
    }
  }

  // ----- Strings -----

  /** Python's order on `str`: lexicographic by code point. */
  predicate StringLess(a: string, b: string) {
    if b == "" then false
    else if a == "" then true
    else if a[0] != b[0] then a[0] < b[0]
    else StringLess(a[1..], b[1..])
  }

  /** `a` comes first exactly when it is a proper prefix of `b` or smaller where they first differ. */
  lemma {:induction false} StringLessIsLexicographic(a: string, b: string)
    ensures StringLess(a, b) <==> exists k :: 0 <= k <= |a| && FirstDifference(a, b, k)
  {
    if a != "" && b != "" && a[0] == b[0] {
      var x, y := a[1..], b[1..];
      StringLessIsLexicographic(x, y);
      if k :| 0 <= k <= |x| && FirstDifference(x, y, k) {
        assert a[..k + 1] == [a[0]] + x[..k] && b[..k + 1] == [b[0]] + y[..k];
        assert FirstDifference(a, b, k + 1);
      }
      if k :| 0 <= k <= |a| && FirstDifference(a, b, k) {
        assert k > 0;
        assert x[..k - 1] == a[..k][1..] && y[..k - 1] == b[..k][1..];
        assert FirstDifference(x, y, k - 1);
      }
    } else {
      assert FirstDifference(a, b, 0) <==> StringLess(a, b);
    }
  }

  /** The strings agree before `k`, and there `a` ends or has the smaller character. */
  ghost predicate FirstDifference(a: string, b: string, k: nat) {
    k <= |a| && k < |b| && a[..k] == b[..k] && (k == |a| || a[k] < b[k])
  }

  lemma {:induction false} StringLessTransitive(a: string, b: string, c: string)
    requires StringLess(a, b) && StringLess(b, c)
    ensures StringLess(a, c)
  {
    if a != "" && a[0] == b[0] == c[0] { StringLessTransitive(a[1..], b[1..], c[1..]); }
  }

  lemma {:induction false} StringLessTotal(a: string, b: string)
    ensures StringLess(a, b) || a == b || StringLess(b, a)
    ensures !StringLess(a, a)
    decreases |a| + |b|
  {
    if a != "" { StringLessTotal(a[1..], if b == "" then "" else b[1..]); }
    if a != "" && b != "" && a[0] == b[0] {
      assert a == [a[0]] + a[1..] && b == [b[0]] + b[1..];
    }
  }

  lemma {:induction false} StringLessIsStrictTotal()
    ensures StrictTotal(StringLess)
  {
    forall a: string ensures !StringLess(a, a) { StringLessTotal(a, a); }
    forall a: string, b: string ensures StringLess(a, b) || a == b || StringLess(b, a) { StringLessTotal(a, b); }
    forall a: string, b: string, c: string | StringLess(a, b) && StringLess(b, c) ensures StringLess(a, c) {
      StringLessTransitive(a, b, c);
    }
  }

  // ----- Ascending samples -----

  ghost predicate Ascending(s: seq<real>) {
    forall i, j :: 0 <= i < j < |s| ==> s[i] <= s[j]
  }

  function InsertReal(x: real, s: seq<real>): (r: seq<real>)
    ensures |r| == |s| + 1
    ensures multiset(r) == multiset(s) + multiset{x}
  {
    if s == [] || x <= s[0] then [x] + s
    else
      assert s == [s[0]] + s[1..];
      [s[0]] + InsertReal(x, s[1..])
  }

  lemma {:induction false} InsertRealAscending(x: real, s: seq<real>)
    requires Ascending(s)
    ensures Ascending(InsertReal(x, s))
  {
    if s != [] && x > s[0] {
      var r := InsertReal(x, s[1..]);
      InsertRealAscending(x, s[1..]);
      forall j | 0 <= j < |r| ensures s[0] <= r[j] {
        assert r[j] in multiset(r);
        assert r[j] == x || r[j] in s[1..];
      }
    }
  }

  function SortReals(s: seq<real>): (r: seq<real>)
    ensures |r| == |s| && multiset(r) == multiset(s)
    ensures Ascending(r)
  {
    if s == [] then [] else
      assert s == [s[0]] + s[1..];
      InsertRealAscending(s[0], SortReals(s[1..]));
      InsertReal(s[0], SortReals(s[1..]))
  }

  /** Only one ascending sequence has a given multiset of samples. */
  lemma {:induction false} AscendingIsUnique(s: seq<real>, t: seq<real>)
    requires Ascending(s) && Ascending(t) && multiset(s) == multiset(t)
    ensures s == t
  {
    assert |s| == |multiset(s)| && |t| == |multiset(t)|;
    if s != [] {
      FirstIsLeast(s, t);
      FirstIsLeast(t, s);
      AscendingTail(s);
      AscendingTail(t);
      AscendingIsUnique(s[1..], t[1..]);
    }
  }

  lemma {:induction false} AscendingTail(s: seq<real>)
    requires Ascending(s) && s != []
    ensures Ascending(s[1..]) && s == [s[0]] + s[1..]
    ensures multiset(s[1..]) == multiset(s) - multiset{s[0]}
  {
    assert s == [s[0]] + s[1..];
  }

  lemma {:induction false} FirstIsLeast(s: seq<real>, t: seq<real>)
    requires Ascending(s) && multiset(s) == multiset(t) && s != [] && t != []
    ensures s[0] <= t[0]
  {
    assert t[0] in multiset(s);
    var i :| 0 <= i < |s| && s[i] == t[0];
  }

  /** The middle sample, or the mean of the two middle ones; 0 when there is none. */
  function Middle(ordered: seq<real>): real {
    var n := |ordered|;
    if n == 0 then 0.0
    else if n % 2 == 1 then ordered[n / 2]
    else (ordered[n / 2 - 1] + ordered[n / 2]) / 2.0
  }

  function Median(values: seq<real>): real { Middle(SortReals(values)) }

  /** The median is the middle of the ascending samples, or the mean of the two middle ones. */
  lemma {:induction false} MedianIsMiddle(values: seq<real>, o: seq<real>)
    requires values != [] && Ascending(o) && multiset(o) == multiset(values)
    ensures |o| % 2 == 1 ==> Median(values) == o[|o| / 2]
    ensures |o| > 0 && (|o| % 2 == 0 ==> 2.0 * Median(values) == o[|o| / 2 - 1] + o[|o| / 2])
  {
    AscendingIsUnique(SortReals(values), o);
  }

  /** A median lies between any bounds that enclose all the samples. */
  lemma {:induction false} MedianWithin(values: seq<real>, lo: real, hi: real)
    requires values != [] && forall v :: v in values ==> lo <= v <= hi
    ensures lo <= Median(values) <= hi
  {
    var ordered := SortReals(values);
    forall i | 0 <= i < |ordered| ensures lo <= ordered[i] <= hi {
      assert ordered[i] in multiset(ordered);
      assert ordered[i] in values;
    }
  }

  lemma {:induction false} MedianOfNonNegative(values: seq<real>)
    requires forall v :: v in values ==> v >= 0.0
    ensures Median(values) >= 0.0
  {
    var ordered := SortReals(values);
    forall i | 0 <= i < |ordered| ensures ordered[i] >= 0.0 {
      assert ordered[i] in multiset(ordered);
      assert ordered[i] in values;
    }
  }

  lemma {:induction false} MedianOfPositive(values: seq<real>)
    requires values != [] && forall v :: v in values ==> v > 0.0
    ensures Median(values) > 0.0
  {
    var ordered := SortReals(values);
    forall i | 0 <= i < |ordered| ensures ordered[i] > 0.0 {
      assert ordered[i] in multiset(ordered);
      assert ordered[i] in values;
    }
  }

  // ----- Sums -----

  function SumOf<T>(val: T -> real, s: seq<T>): real {
    if s == [] then 0.0 else val(s[0]) + SumOf(val, s[1..])
  }

  lemma {:induction false} SumOfSingle<T>(val: T -> real, x: T)
    ensures SumOf(val, [x]) == val(x)
  {
    assert [x][1..] == [];
  }

  lemma {:induction false} SumOfSame<T>(f: T -> real, g: T -> real, s: seq<T>)
    requires forall x :: x in s ==> f(x) == g(x)
    ensures SumOf(f, s) == SumOf(g, s)
  {
    if s != [] { SumOfSame(f, g, s[1..]); }
  }

  lemma {:induction false} SumOfAppend<T>(val: T -> real, s: seq<T>, t: seq<T>)
    ensures SumOf(val, s + t) == SumOf(val, s) + SumOf(val, t)
  {
    if s == [] { assert s + t == t; } else {
      SumOfAppend(val, s[1..], t);
      assert (s + t)[1..] == s[1..] + t;
    }
  }

  ghost function Without<T>(s: seq<T>, j: nat): seq<T>
    requires j < |s|
  {
    s[..j] + s[j + 1..]
  }

  lemma {:induction false} WithoutMultiset<T>(s: seq<T>, j: nat)
    requires j < |s|
    ensures multiset(Without(s, j)) == multiset(s) - multiset{s[j]}
  {
    assert s == s[..j] + [s[j]] + s[j + 1..];
  }

  lemma {:induction false} SumWithout<T>(val: T -> real, s: seq<T>, j: nat)
    requires j < |s|
    ensures SumOf(val, s) == val(s[j]) + SumOf(val, Without(s, j))
  {
    var tail := s[j..];
    assert s == s[..j] + tail && tail[1..] == s[j + 1..];
    SumOfAppend(val, s[..j], tail);
    SumOfAppend(val, s[..j], s[j + 1..]);
  }

  /** A sum does not depend on the order of its terms. */
  lemma {:induction false} SumOfPermutation<T>(val: T -> real, s: seq<T>, t: seq<T>)
    requires multiset(s) == multiset(t)
    ensures SumOf(val, s) == SumOf(val, t)
  {
    assert |s| == |multiset(s)| && |t| == |multiset(t)|;
    if s != [] {
      assert s[0] in multiset(t);
      var j :| 0 <= j < |t| && t[j] == s[0];
      assert Without(s, 0) == s[1..];
      WithoutMultiset(s, 0);
      WithoutMultiset(t, j);
      SumOfPermutation(val, s[1..], Without(t, j));
      SumWithout(val, t, j);
    }
  }

  // ----- Selections -----

  function Select<T>(keep: T -> bool, s: seq<T>): seq<T> {
    if s == [] then [] else (if keep(s[0]) then [s[0]] else []) + Select(keep, s[1..])
  }

  lemma {:induction false} SelectMember<T>(keep: T -> bool, s: seq<T>, x: T)
    ensures x in Select(keep, s) <==> x in s && keep(x)
  {
    SelectCount(keep, s, x);
    assert x in Select(keep, s) <==> multiset(Select(keep, s))[x] > 0;
    assert x in s <==> multiset(s)[x] > 0;
  }

  lemma {:induction false} SelectSingle<T>(keep: T -> bool, x: T)
    ensures Select(keep, [x]) == if keep(x) then [x] else []
  {
    assert [x][1..] == [];
  }

  lemma {:induction false} SelectAppend<T>(keep: T -> bool, s: seq<T>, t: seq<T>)
    ensures Select(keep, s + t) == Select(keep, s) + Select(keep, t)
  {
    if s == [] { assert s + t == t; } else {
      var u, h := s + t, if keep(s[0]) then [s[0]] else [];
      assert u[0] == s[0] && u[1..] == s[1..] + t;
      SelectAppend(keep, s[1..], t);
      assert h + (Select(keep, s[1..]) + Select(keep, t)) == (h + Select(keep, s[1..])) + Select(keep, t);
    }
  }

  lemma {:induction false} SelectCount<T>(keep: T -> bool, s: seq<T>, x: T)
    ensures multiset(Select(keep, s))[x] == if keep(x) then multiset(s)[x] else 0
  {
    if s != [] {
      SelectCount(keep, s[1..], x);
      assert s == [s[0]] + s[1..];
    }
  }

  lemma {:induction false} SelectPermutation<T(!new)>(keep: T -> bool, s: seq<T>, t: seq<T>)
    requires multiset(s) == multiset(t)
    ensures multiset(Select(keep, s)) == multiset(Select(keep, t))
  {
    forall x ensures multiset(Select(keep, s))[x] == multiset(Select(keep, t))[x] {
      SelectCount(keep, s, x);
      SelectCount(keep, t, x);
    }
  }
}
