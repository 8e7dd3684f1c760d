/** A table is a map from primary key to row. This module turns a table into
    the sequence of its rows and states how single-row updates leave the
    other rows alone. */
module Tables {
  import opened Common
  import opened Sorting

  /** A non-empty set has an element. */
  lemma HasElement(s: set<int>)
    requires s != {}
    ensures exists x :: x in s
  {
    if forall x :: x !in s {
      assert false;
    }
  }

  /** `m` is the smallest key of `s`. */
  predicate IsMin(m: int, s: set<int>)
  {
    m in s && forall k | k in s :: m <= k
  }

  lemma {:induction false} MinExists(s: set<int>)
    requires s != {}
    ensures exists m :: IsMin(m, s)
    decreases |s|
  {
    HasElement(s);
    var x :| x in s;
    var rest := s - {x};
    assert forall k | k in s :: k in rest || k == x;
    if rest == {} {
      assert IsMin(x, s);
    } else {
      MinExists(rest);
      var m :| IsMin(m, rest);
      var lo := if x < m then x else m;
      assert IsMin(lo, s);
    }
  }

  /** The smallest key of a non-empty key set. */
  function MinKey(s: set<int>): (m: int)
    requires s != {}
    ensures IsMin(m, s)
  {
    MinExists(s);
    var m :| IsMin(m, s);
    m
  }

  /** The keys in ascending order, each once. */
  function KeysAscending(s: set<int>): (r: seq<int>)
    ensures |r| == |s|
    ensures forall i | 0 <= i < |r| :: r[i] in s
    ensures forall i, j | 0 <= i < j < |r| :: r[i] < r[j]
    decreases |s|
  {
    if s == {} then []
    else
      var m := MinKey(s);
      var rest := s - {m};
      assert |rest| == |s| - 1;
      [m] + KeysAscending(rest)
  }

  /** Every key is in the ordering. */
  lemma {:induction false} KeysAscendingComplete(s: set<int>, k: int)
    requires k in s
    ensures k in KeysAscending(s)
    decreases |s|
  {
    var m := MinKey(s);
    var rest := s - {m};
    assert KeysAscending(s) == [m] + KeysAscending(rest);
    if k != m {
      KeysAscendingComplete(rest, k);
    }
  }

  function RowsAt<T>(m: map<int, T>, ks: seq<int>): (r: seq<T>)
    requires forall i | 0 <= i < |ks| :: ks[i] in m
    ensures |r| == |ks|
    ensures forall i | 0 <= i < |ks| :: r[i] == m[ks[i]]
  {
    if ks == [] then [] else [m[ks[0]]] + RowsAt(m, ks[1..])
  }

  /** The rows of a table in ascending key order: the order in which the
      model's queries see rows before any `ORDER BY`. */
  function Rows<T(==)>(m: map<int, T>): (r: seq<T>)
    ensures |r| == |m|
    ensures forall i | 0 <= i < |r| :: r[i] in m.Values
  {
    RowsAt(m, KeysAscending(m.Keys))
  }

  /** Each of the rows is stored under some key. */
  lemma RowHasKey<T>(m: map<int, T>, v: T)
    requires v in Rows(m)
    ensures exists k :: k in m && m[k] == v
  {
    var ks := KeysAscending(m.Keys);
    var j :| 0 <= j < |Rows(m)| && Rows(m)[j] == v;
    assert Rows(m)[j] == m[ks[j]];
  }

  /** One window `[skip, skip + limit)` of the rows in key order. */
  function PageOfRows<T(==)>(m: map<int, T>, skip: nat, limit: nat): (r: seq<T>)
    ensures |r| == if skip >= |m| then 0 else Min(limit, |m| - skip)
    ensures |r| <= limit
  {
    Page(Rows(m), skip, limit)
  }

  /** Every row of the table is among its rows. */
  lemma RowsHasRow<T>(m: map<int, T>, k: int)
    requires k in m
    ensures m[k] in Rows(m)
  {
    var ks := KeysAscending(m.Keys);
    KeysAscendingComplete(m.Keys, k);
    var i :| 0 <= i < |ks| && ks[i] == k;
    assert Rows(m)[i] == m[k];
  }

  /** Rows at distinct keys are distinct when every row records its own key. */
  lemma RowsDistinct<T>(m: map<int, T>, key: T -> int)
    requires forall k | k in m :: key(m[k]) == k
    ensures Distinct(Rows(m))
  {
    var ks := KeysAscending(m.Keys);
    var r := Rows(m);
    assert r == RowsAt(m, ks);
    forall i, j | 0 <= i < j < |r| ensures r[i] != r[j] {
      assert key(r[i]) == ks[i] && key(r[j]) == ks[j];
    }
  }

  /** The keys whose rows satisfy `p`; the `WHERE` clause of a query. */
  function KeysWhere<T>(m: map<int, T>, p: T -> bool): (r: set<int>)
    ensures forall k :: k in r <==> k in m && p(m[k])
  {
    set k | k in m && p(m[k])
  }

  /** The sub-table of rows that satisfy `p`. */
  function Where<T>(m: map<int, T>, p: T -> bool): (r: map<int, T>)
    ensures r.Keys == KeysWhere(m, p)
    ensures forall k | k in r :: r[k] == m[k]
  {
    map k | k in m && p(m[k]) :: m[k]
  }

  /** `m'` differs from `m` at most in the row at `key`, and has the same keys. */
  ghost predicate AgreeExcept<T>(m: map<int, T>, m': map<int, T>, key: int)
  {
    && m'.Keys == m.Keys
    && forall k | k in m && k != key :: m'[k] == m[k]
  }

  /** A one-element set is the singleton of any of its elements. */
  lemma SingletonIs(s: set<int>, x: int)
    requires |s| == 1 && x in s
    ensures s == {x}
  {
    var rest := s - {x};
    assert |rest| == 0;
    assert forall k | k in s :: k == x || k in rest;
  }

  lemma SubsetCard(a: set<int>, b: set<int>)
    requires a <= b
    ensures |a| <= |b|
  {
    assert b == a + (b - a);
  }
}
