/** Orderings and the two sort-like operations pandas performs:
    `sort_values` (a stable sort on a key) and the sorted distinct group keys
    of `groupby`.  Python compares `str` values code point by code point. */
module Order {

  /** Python `a < b` on `str`: lexicographic by code point, a proper prefix
      being smaller. */
  predicate StrLess(a: string, b: string)
    decreases |a|
  {
    if |a| == 0 then |b| > 0
    else if |b| == 0 then false
    else if a[0] != b[0] then a[0] < b[0]
    else StrLess(a[1..], b[1..])
  }

  lemma {:induction false} StrLessIrreflexive(a: string)
    ensures !StrLess(a, a)
    decreases |a|
  {
    if |a| > 0 {
      StrLessIrreflexive(a[1..]);
    }
  }

  lemma {:induction false} StrLessTransitive(a: string, b: string, c: string)
    requires StrLess(a, b) && StrLess(b, c)
    ensures StrLess(a, c)
    decreases |a|
  {
    if |a| > 0 && |b| > 0 && |c| > 0 && a[0] == b[0] && b[0] == c[0] {
      StrLessTransitive(a[1..], b[1..], c[1..]);
    }
  }

  lemma {:induction false} StrLessTrichotomy(a: string, b: string)
    ensures StrLess(a, b) || a == b || StrLess(b, a)
    decreases |a|
  {
    if |a| > 0 && |b| > 0 && a[0] == b[0] {
      StrLessTrichotomy(a[1..], b[1..]);
      if a[1..] == b[1..] {
        assert a == [a[0]] + a[1..] && b == [b[0]] + b[1..];
      }
    }
  }

  /** `le` orders every pair and is transitive; ties are allowed. */
  ghost predicate TotalPreorder<T(!new)>(le: (T, T) -> bool)
  {
    && (forall a, b :: le(a, b) || le(b, a))
    && (forall a, b, c :: le(a, b) && le(b, c) ==> le(a, c))
  }

  /** `lt` is a strict total order. */
  ghost predicate StrictTotalOrder<T(!new)>(lt: (T, T) -> bool)
  {
    && (forall a :: !lt(a, a))
    && (forall a, b, c :: lt(a, b) && lt(b, c) ==> lt(a, c))
    && (forall a, b :: lt(a, b) || a == b || lt(b, a))
  }

  predicate SortedBy<T>(s: seq<T>, le: (T, T) -> bool)
  {
    forall i, j :: 0 <= i < j < |s| ==> le(s[i], s[j])
  }

  predicate StrictlySorted<T>(s: seq<T>, lt: (T, T) -> bool)
  {
    forall i, j :: 0 <= i < j < |s| ==> lt(s[i], s[j])
  }

  /** Inserts `x` after every element that is not greater than it, so that
      equal keys keep their order of arrival. */
  function InsertBy<T>(x: T, s: seq<T>, le: (T, T) -> bool): seq<T>
  {
    if s == [] then [x]
    else if le(s[0], x) then [s[0]] + InsertBy(x, s[1..], le)
    else [x] + s
  }

  /** A stable sort: `sort_values` on the key that `le` compares. */
  function SortBy<T>(s: seq<T>, le: (T, T) -> bool): seq<T>
  {
    if s == [] then [] else InsertBy(s[|s| - 1], SortBy(s[..|s| - 1], le), le)
  }

  lemma {:induction false} InsertByKeeps<T>(x: T, s: seq<T>, le: (T, T) -> bool)
    ensures multiset(InsertBy(x, s, le)) == multiset(s) + multiset{x}
  {
    if s != [] && le(s[0], x) {
      InsertByKeeps(x, s[1..], le);
      assert s == [s[0]] + s[1..];
    }
  }

  lemma {:induction false} InsertBySorted<T(!new)>(x: T, s: seq<T>, le: (T, T) -> bool)
    requires TotalPreorder(le) && SortedBy(s, le)
    ensures SortedBy(InsertBy(x, s, le), le)
  {
    if s != [] {
      if le(s[0], x) {
        var t := s[1..];
        InsertBySorted(x, t, le);
        InsertByKeeps(x, t, le);
        var r := InsertBy(x, t, le);
        forall y | y in multiset(t) ensures le(s[0], y) {
          var k :| 0 <= k < |t| && t[k] == y;
          assert s[k + 1] == y;
        }
        forall j | 0 <= j < |r| ensures le(s[0], r[j]) {
          assert r[j] in multiset(r);
        }
        SortedCons(s[0], r, le);
      } else {
        SortedCons(x, s, le);
      }
    }
  }

  lemma {:induction false} SortedCons<T>(h: T, r: seq<T>, le: (T, T) -> bool)
    requires SortedBy(r, le) && forall j :: 0 <= j < |r| ==> le(h, r[j])
    ensures SortedBy([h] + r, le)
  {
    var hr := [h] + r;
    forall i, j | 0 <= i < j < |hr| ensures le(hr[i], hr[j]) {
      if i == 0 {
        assert hr[j] == r[j - 1];
      } else {
        assert hr[i] == r[i - 1] && hr[j] == r[j - 1];
      }
    }
  }

  /** Sorting yields an ordered permutation of its input. */
  lemma {:induction false} SortByCorrect<T(!new)>(s: seq<T>, le: (T, T) -> bool)
    requires TotalPreorder(le)
    ensures SortedBy(SortBy(s, le), le)
    ensures multiset(SortBy(s, le)) == multiset(s)
    ensures |SortBy(s, le)| == |s|
  {
    if s != [] {
      var init := s[..|s| - 1];
      SortByCorrect(init, le);
      InsertBySorted(s[|s| - 1], SortBy(init, le), le);
      InsertByKeeps(s[|s| - 1], SortBy(init, le), le);
      assert s == init + [s[|s| - 1]];
    }
    assert |multiset(SortBy(s, le))| == |multiset(s)|;
  }

  /** Sorting a sequence that is already in order changes nothing. */
  lemma {:induction false} SortBySortedIsIdentity<T>(s: seq<T>, le: (T, T) -> bool)
    requires SortedBy(s, le)
    ensures SortBy(s, le) == s
  {
    if s != [] {
      var init := s[..|s| - 1];
      assert SortedBy(init, le);
      SortBySortedIsIdentity(init, le);
      InsertAtEnd(s[|s| - 1], init, le);
      assert s == init + [s[|s| - 1]];
    }
  }

  lemma {:induction false} InsertAtEnd<T>(x: T, s: seq<T>, le: (T, T) -> bool)
    requires forall i :: 0 <= i < |s| ==> le(s[i], x)
    ensures InsertBy(x, s, le) == s + [x]
  {
    if s != [] {
      InsertAtEnd(x, s[1..], le);
      assert s == [s[0]] + s[1..];
    }
  }

  /** Inserts `x` into a strictly sorted sequence unless it is present. */
  function InsertUnique<T(==)>(x: T, s: seq<T>, lt: (T, T) -> bool): seq<T>
  {
    if s == [] then [x]
    else if s[0] == x then s
    else if lt(s[0], x) then [s[0]] + InsertUnique(x, s[1..], lt)
    else [x] + s
  }

  /** The sorted distinct values of `xs`: the group keys of `groupby`. */
  function DistinctSorted<T(==)>(xs: seq<T>, lt: (T, T) -> bool): seq<T>
  {
    if xs == [] then [] else InsertUnique(xs[|xs| - 1], DistinctSorted(xs[..|xs| - 1], lt), lt)
  }

  lemma {:induction false} InsertUniqueCorrect<T(!new)>(x: T, s: seq<T>, lt: (T, T) -> bool)
    requires StrictTotalOrder(lt) && StrictlySorted(s, lt)
    ensures StrictlySorted(InsertUnique(x, s, lt), lt)
    ensures forall y :: y in InsertUnique(x, s, lt) <==> y in s || y == x
  {
    InsertUniqueMembers(x, s, lt);
    InsertUniqueSorted(x, s, lt);
  }

  lemma {:induction false} InsertUniqueMembers<T(!new)>(x: T, s: seq<T>, lt: (T, T) -> bool)
    ensures forall y :: y in InsertUnique(x, s, lt) <==> y in s || y == x
  {
    if s != [] && s[0] != x && lt(s[0], x) {
      var t := s[1..];
      InsertUniqueMembers(x, t, lt);
      assert InsertUnique(x, s, lt) == [s[0]] + InsertUnique(x, t, lt);
      assert s == [s[0]] + t;
    }
  }

  lemma {:induction false} InsertUniqueSorted<T(!new)>(x: T, s: seq<T>, lt: (T, T) -> bool)
    requires StrictTotalOrder(lt) && StrictlySorted(s, lt)
    ensures StrictlySorted(InsertUnique(x, s, lt), lt)
  {
    if s != [] && s[0] != x && lt(s[0], x) {
      var t := s[1..];
      assert StrictlySorted(t, lt);
      InsertUniqueSorted(x, t, lt);
      InsertUniqueMembers(x, t, lt);
      var r := InsertUnique(x, t, lt);
      forall j | 0 <= j < |r| ensures lt(s[0], r[j]) {
        assert r[j] in r;
        if r[j] != x {
          var k :| 0 <= k < |t| && t[k] == r[j];
          assert s[k + 1] == t[k];
        }
      }
      StrictCons(s[0], r, lt);
    } else if s != [] && s[0] != x {
      assert lt(x, s[0]);
      StrictCons(x, s, lt);
    }
  }

  lemma {:induction false} StrictCons<T(!new)>(h: T, r: seq<T>, lt: (T, T) -> bool)
    requires StrictTotalOrder(lt) && StrictlySorted(r, lt)
    requires r != [] ==> lt(h, r[0])
    ensures StrictlySorted([h] + r, lt)
  {
    var hr := [h] + r;
    forall i, j | 0 <= i < j < |hr| ensures lt(hr[i], hr[j]) {
      if i == 0 {
        assert hr[j] == r[j - 1];
        if j > 1 {
          assert lt(r[0], r[j - 1]);
        }
      } else {
        assert hr[i] == r[i - 1] && hr[j] == r[j - 1];
      }
    }
  }

  /** The group keys are strictly increasing and are exactly the values that
      occur. */
  lemma {:induction false} DistinctSortedCorrect<T(!new)>(xs: seq<T>, lt: (T, T) -> bool)
    requires StrictTotalOrder(lt)
    ensures StrictlySorted(DistinctSorted(xs, lt), lt)
    ensures forall y :: y in DistinctSorted(xs, lt) <==> y in xs
  {
    if xs != [] {
      var init := xs[..|xs| - 1];
      DistinctSortedCorrect(init, lt);
      InsertUniqueCorrect(xs[|xs| - 1], DistinctSorted(init, lt), lt);
      assert xs == init + [xs[|xs| - 1]];
    }
  }

  /** A strictly sorted sequence holds no value twice. */
  lemma {:induction false} StrictlySortedDistinct<T(!new)>(s: seq<T>, lt: (T, T) -> bool)
    requires StrictTotalOrder(lt) && StrictlySorted(s, lt)
    ensures forall i, j :: 0 <= i < j < |s| ==> s[i] != s[j]
  {
  }

  function IntLess(a: int, b: int): bool
  {
    a < b
  }

  lemma {:induction false} IntLessStrict()
    ensures StrictTotalOrder(IntLess)
  {
  }

  lemma {:induction false} StrLessStrict()
    ensures StrictTotalOrder(StrLess)
  {
    forall a: string ensures !StrLess(a, a) {
      StrLessIrreflexive(a);
    }
    forall a: string, b: string, c: string | StrLess(a, b) && StrLess(b, c)
      ensures StrLess(a, c)
    {
      StrLessTransitive(a, b, c);
    }
    forall a: string, b: string ensures StrLess(a, b) || a == b || StrLess(b, a) {
      StrLessTrichotomy(a, b);
    }
  }
}
