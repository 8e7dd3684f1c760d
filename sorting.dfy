/** Ordering and pagination of query results: `ORDER BY` as a stable
    insertion sort over a total preorder, `OFFSET skip LIMIT limit` as a
    window on the ordered rows. */
module Sorting {
  import opened Common

  /** `le` is total and transitive: a valid `ORDER BY` comparison. */
  ghost predicate TotalPreorder<T(!new)>(le: (T, T) -> bool)
  {
    && (forall a, b :: le(a, b) || le(b, a))
    && (forall a, b, c :: le(a, b) && le(b, c) ==> le(a, c))
  }

  ghost predicate SortedBy<T>(s: seq<T>, le: (T, T) -> bool)
  {
    forall i, j | 0 <= i < j < |s| :: le(s[i], s[j])
  }

  /** A lower bound of `x` and of every element of `s` bounds every element
      of a sequence holding exactly those elements. */
  lemma LowerBound<T>(b: T, x: T, s: seq<T>, t: seq<T>, le: (T, T) -> bool)
    requires multiset(t) == multiset(s) + multiset{x}
    requires le(b, x) && forall j | 0 <= j < |s| :: le(b, s[j])
    ensures forall j | 0 <= j < |t| :: le(b, t[j])
  {
    forall j | 0 <= j < |t| ensures le(b, t[j]) {
      assert t[j] in multiset(t);
      if t[j] != x {
        assert t[j] in multiset(s);
        var i :| 0 <= i < |s| && s[i] == t[j];
      }
    }
  }

  /** Inserts `x` before the first element it does not come after. */
  function Insert<T(!new)>(x: T, s: seq<T>, le: (T, T) -> bool): (r: seq<T>)
    requires TotalPreorder(le) && SortedBy(s, le)
    ensures multiset(r) == multiset(s) + multiset{x}
    ensures SortedBy(r, le)
  {
    if s == [] then [x]
    else if le(x, s[0]) then
      assert forall j | 0 <= j < |s| :: le(x, s[j]) by {
        forall j | 0 < j < |s| ensures le(x, s[j]) { assert le(s[0], s[j]); }
      }
      ConsSorted(x, s, le);
      [x] + s
    else
      var rest := s[1..];
      assert s == [s[0]] + rest;
      var t := Insert(x, rest, le);
      LowerBound(s[0], x, rest, t, le);
      ConsSorted(s[0], t, le);
      [s[0]] + t
  }

  /** A lower bound of an ordered sequence can be put in front of it. */
  lemma ConsSorted<T>(a: T, t: seq<T>, le: (T, T) -> bool)
    requires SortedBy(t, le) && forall j | 0 <= j < |t| :: le(a, t[j])
    ensures SortedBy([a] + t, le)
  {
    var r := [a] + t;
    forall i, j | 0 <= i < j < |r| ensures le(r[i], r[j]) {
      assert r[j] == t[j - 1];
      if i > 0 { assert r[i] == t[i - 1]; }
    }
  }

  /** The elements of `s` ordered by `le`; elements that compare equal keep
      their relative order. */
  function Sort<T(!new)>(s: seq<T>, le: (T, T) -> bool): (r: seq<T>)
    requires TotalPreorder(le)
    ensures multiset(r) == multiset(s)
    ensures |r| == |s|
    ensures SortedBy(r, le)
  {
    if s == [] then []
    else
      assert s == [s[0]] + s[1..];
      Insert(s[0], Sort(s[1..], le), le)
  }

  /** `OFFSET skip LIMIT limit`: the rows at positions `[skip, skip + limit)`. */
  function Page<T>(s: seq<T>, skip: nat, limit: nat): (r: seq<T>)
    ensures |r| == if skip >= |s| then 0 else Min(limit, |s| - skip)
    ensures |r| <= limit
    ensures forall i | 0 <= i < |r| :: r[i] == s[skip + i]
  {
    if skip >= |s| then [] else s[skip..Min(skip + limit, |s|)]
  }

  /** Two consecutive pages are the page that spans both. */
  lemma {:induction false} PageConcat<T>(s: seq<T>, skip: nat, a: nat, b: nat)
    ensures Page(s, skip, a) + Page(s, skip + a, b) == Page(s, skip, a + b)
  {
    var p, q, w := Page(s, skip, a), Page(s, skip + a, b), Page(s, skip, a + b);
    assert |p + q| == |w|;
    forall i | 0 <= i < |w| ensures (p + q)[i] == w[i] {
      if i < |p| { assert (p + q)[i] == p[i]; } else { assert (p + q)[i] == q[i - |p|]; }
    }
  }

  /** Distinct rows: consecutive pages never share a row. */
  lemma PagesDisjoint<T>(s: seq<T>, skip: nat, a: nat, b: nat)
    requires Distinct(s)
    ensures forall x :: x in Page(s, skip, a) ==> x !in Page(s, skip + a, b)
  {
    var p, q := Page(s, skip, a), Page(s, skip + a, b);
    forall x | x in p ensures x !in q {
      var i :| 0 <= i < |p| && p[i] == x;
      forall j | 0 <= j < |q| ensures q[j] != x {
        assert q[j] == s[skip + a + j] && skip + i < skip + a + j;
      }
    }
  }

  /** No element occurs twice. */
  lemma SortedTail<T>(s: seq<T>, le: (T, T) -> bool)
    requires s != [] && SortedBy(s, le)
    ensures SortedBy(s[1..], le)
  {
    forall x, y | 0 <= x < y < |s[1..]| ensures le(s[1..][x], s[1..][y]) {
      assert s[1..][x] == s[x + 1] && s[1..][y] == s[y + 1];
    }
  }

  lemma SameTail<T>(s: seq<T>, t: seq<T>)
    requires s != [] && t != [] && s[0] == t[0] && multiset(s) == multiset(t)
    ensures multiset(s[1..]) == multiset(t[1..])
  {
    assert s == [s[0]] + s[1..] && t == [t[0]] + t[1..];
    assert multiset(s) == multiset{s[0]} + multiset(s[1..]);
    assert multiset(t) == multiset{t[0]} + multiset(t[1..]);
    forall y ensures multiset(s[1..])[y] == multiset(t[1..])[y] {
      assert multiset(s)[y] == multiset{s[0]}[y] + multiset(s[1..])[y];
      assert multiset(t)[y] == multiset{t[0]}[y] + multiset(t[1..])[y];
    }
  }

  /** The first elements of two sorted sequences holding the same elements
      tie with each other. */
  lemma SameHeadsTie<T>(s: seq<T>, t: seq<T>, le: (T, T) -> bool)
    requires s != [] && SortedBy(s, le) && SortedBy(t, le) && multiset(s) == multiset(t)
    ensures t != [] && t[0] in s
    ensures s[0] == t[0] || (le(s[0], t[0]) && le(t[0], s[0]))
  {
    assert s[0] in multiset(t);
    var j :| 0 <= j < |t| && t[j] == s[0];
    assert t[0] in multiset(s);
    var i :| 0 <= i < |s| && s[i] == t[0];
    if i > 0 { assert le(s[0], s[i]); }
    if j > 0 { assert le(t[0], t[j]); }
  }

  /** Sorting is deterministic once no two distinct elements tie: two
      sorted sequences holding the same elements are equal. */
  lemma {:induction false} SortedUnique<T>(s: seq<T>, t: seq<T>, le: (T, T) -> bool)
    requires SortedBy(s, le) && SortedBy(t, le) && multiset(s) == multiset(t)
    requires forall a, b | a in s && b in s && le(a, b) && le(b, a) :: a == b
    ensures s == t
    decreases |s|
  {
    if s == [] {
      assert |t| == |multiset(t)| == 0;
    } else {
      SameHeadsTie(s, t, le);
      SameTail(s, t);
      SortedTail(s, le);
      SortedTail(t, le);
      forall a, b | a in s[1..] && b in s[1..] && le(a, b) && le(b, a) ensures a == b {
        assert a in s && b in s;
      }
      SortedUnique(s[1..], t[1..], le);
      assert s == [s[0]] + s[1..] && t == [t[0]] + t[1..];
    }
  }

  predicate Distinct<T(==)>(s: seq<T>)
  {
    forall i, j | 0 <= i < j < |s| :: s[i] != s[j]
  }

  lemma {:induction false} DistinctCountsOnce<T>(s: seq<T>, x: T)
    requires Distinct(s)
    ensures multiset(s)[x] <= 1
    decreases |s|
  {
    if s != [] {
      assert s == [s[0]] + s[1..];
      assert Distinct(s[1..]) by {
        forall i, j | 0 <= i < j < |s[1..]| ensures s[1..][i] != s[1..][j] {
          assert s[1..][i] == s[i + 1] && s[1..][j] == s[j + 1];
        }
      }
      DistinctCountsOnce(s[1..], x);
      if s[0] == x {
        forall i | 0 <= i < |s[1..]| ensures s[1..][i] != x {
          assert s[1..][i] == s[i + 1];
        }
        assert x !in s[1..];
      }
    }
  }

  lemma RepeatCountsTwice<T>(s: seq<T>, i: int, j: int)
    requires 0 <= i < j < |s|
    ensures s[i] == s[j] ==> multiset(s)[s[j]] >= 2
  {
    assert s == s[..j] + s[j..];
    assert s[i] == s[..j][i];
    assert s[j] == s[j..][0];
  }

  /** A permutation of a sequence without repeats has no repeats. */
  lemma DistinctPermutation<T>(s: seq<T>, r: seq<T>)
    requires Distinct(s) && multiset(r) == multiset(s)
    ensures Distinct(r)
  {
    forall i, j | 0 <= i < j < |r| ensures r[i] != r[j] {
      RepeatCountsTwice(r, i, j);
      DistinctCountsOnce(s, r[j]);
    }
  }

  /** `ORDER BY` on a text column, compared code point by code point; a
      proper prefix comes first. */
  predicate TextLe(a: string, b: string)
  {
    a == [] || (b != [] && (a[0] < b[0] || (a[0] == b[0] && TextLe(a[1..], b[1..]))))
  }

  lemma {:induction false} TextLeTotal(a: string, b: string)
    ensures TextLe(a, b) || TextLe(b, a)
  {
    if a != [] && b != [] && a[0] == b[0] {
      TextLeTotal(a[1..], b[1..]);
    }
  }

  lemma {:induction false} TextLeTransitive(a: string, b: string, c: string)
    requires TextLe(a, b) && TextLe(b, c)
    ensures TextLe(a, c)
  {
    if a != [] && a[0] == b[0] && b[0] == c[0] {
      TextLeTransitive(a[1..], b[1..], c[1..]);
    }
  }

  lemma {:induction false} TextLeAntisymmetric(a: string, b: string)
    requires TextLe(a, b) && TextLe(b, a)
    ensures a == b
  {
    if a != [] && b != [] {
      TextLeAntisymmetric(a[1..], b[1..]);
      assert a == [a[0]] + a[1..] && b == [b[0]] + b[1..];
    }
  }
}
