/**
 * The point-set normaliser `preprocess` of src/utils/bd.py:
 * `np.unique(x, axis=0)` removes repeated (rate, quality) rows and leaves the
 * rows in lexicographic order; `x[np.argsort(x[:, col])]` then orders them by
 * one column. The sort numpy uses by default is not stable, so nothing here
 * promises an order among points that share a key.
 */
module Preprocessing {

  /** One measurement of a rate-distortion curve. */
  datatype Point = Point(rate: real, quality: real)

  /** The column `preprocess` orders by: 0 (rate) in bdsnr, 1 (quality) in bdrate. */
  datatype Column = RateColumn | QualityColumn

  function Key(p: Point, col: Column): real {
    match col
    case RateColumn => p.rate
    case QualityColumn => p.quality
  }

  /** The column `col` of a point list, `[x[col] for x in s]`. */
  function KeysOf(s: seq<Point>, col: Column): seq<real> {
    seq(|s|, i requires 0 <= i < |s| => Key(s[i], col))
  }

  /** Row order of `np.unique(..., axis=0)`: lexicographic on (rate, quality). */
  predicate LexLess(p: Point, q: Point) {
    p.rate < q.rate || (p.rate == q.rate && p.quality < q.quality)
  }

  predicate StrictlySortedBy<T>(s: seq<T>, less: (T, T) -> bool) {
    forall i, j :: 0 <= i < j < |s| ==> less(s[i], s[j])
  }

  predicate Below(a: real, b: real) {
    a < b
  }

  predicate StrictlyIncreasing(xs: seq<real>) {
    StrictlySortedBy(xs, Below)
  }

  predicate SortedByKey(s: seq<Point>, col: Column) {
    forall i, j :: 0 <= i < j < |s| ==> Key(s[i], col) <= Key(s[j], col)
  }

  predicate Distinct<T(==)>(s: seq<T>) {
    forall i, j :: 0 <= i < j < |s| ==> s[i] != s[j]
  }

  /** No two different points of `s` agree on column `col`. */
  predicate DistinctKeys(s: seq<Point>, col: Column) {
    forall p, q :: p in s && q in s && p != q ==> Key(p, col) != Key(q, col)
  }

  // ---------------------------------------------------------------------------
  // np.unique(x, axis=0)
  // ---------------------------------------------------------------------------

  /** Adds `p` to a lexicographically sorted, repetition-free list unless it is already there. */
  function InsertLex(p: Point, s: seq<Point>): (r: seq<Point>)
    requires StrictlySortedBy(s, LexLess)
    ensures StrictlySortedBy(r, LexLess)
    ensures forall q :: q in r <==> q == p || q in s
  {
    if s == [] then [p]
    else if p == s[0] then s
    else if LexLess(p, s[0]) then [p] + s
    else
      var t := InsertLex(p, s[1..]);
      assert forall q :: q in t ==> LexLess(s[0], q);
      [s[0]] + t
  }

  /** The distinct rows of `s`, in lexicographic order. */
  function Unique(s: seq<Point>): (r: seq<Point>)
    ensures StrictlySortedBy(r, LexLess)
    ensures forall q :: q in r <==> q in s
  {
    if s == [] then [] else InsertLex(s[0], Unique(s[1..]))
  }

  // ---------------------------------------------------------------------------
  // x[np.argsort(x[:, col])]
  // ---------------------------------------------------------------------------

  function InsertByKey(p: Point, s: seq<Point>, col: Column): (r: seq<Point>)
    requires SortedByKey(s, col)
    ensures SortedByKey(r, col)
    ensures multiset(r) == multiset(s) + multiset{p}
  {
    if s == [] || Key(p, col) <= Key(s[0], col) then
      SortedCons(p, s, col);
      [p] + s
    else
      var t := InsertByKey(p, s[1..], col);
      InsertedBehindHead(p, s, t, col);
      [s[0]] + t
  }

  /** Putting the head of `s` back in front of `p` inserted into the rest of `s`. */
  lemma InsertedBehindHead(p: Point, s: seq<Point>, t: seq<Point>, col: Column)
    requires s != [] && SortedByKey(s, col) && Key(s[0], col) <= Key(p, col)
    requires SortedByKey(t, col) && multiset(t) == multiset(s[1..]) + multiset{p}
    ensures SortedByKey([s[0]] + t, col)
    ensures multiset([s[0]] + t) == multiset(s) + multiset{p}
  {
    assert s == [s[0]] + s[1..];
    forall k | 0 <= k < |t|
      ensures Key(s[0], col) <= Key(t[k], col)
    {
      assert t[k] in multiset(s[1..]) + multiset{p};
    }
    SortedCons(s[0], t, col);
  }

  lemma SortedCons(x: Point, t: seq<Point>, col: Column)
    requires SortedByKey(t, col)
    requires forall k :: 0 <= k < |t| ==> Key(x, col) <= Key(t[k], col)
    ensures SortedByKey([x] + t, col)
  {
  }

  /** Reorders `s` so that column `col` is non-decreasing. */
  function SortByKey(s: seq<Point>, col: Column): (r: seq<Point>)
    ensures SortedByKey(r, col)
    ensures multiset(r) == multiset(s)
  {
    if s == [] then []
    else
      assert s == [s[0]] + s[1..];
      InsertByKey(s[0], SortByKey(s[1..], col), col)
  }

  /** `preprocess(s, col)`: the distinct points of `s`, ordered by column `col`. */
  function Preprocess(s: seq<Point>, col: Column): (r: seq<Point>)
    ensures SortedByKey(r, col)
    ensures Distinct(r)
    ensures forall q :: q in r <==> q in s
  {
    var u := Unique(s);
    var r := SortByKey(u, col);
    PermutationKeepsDistinct(r, u);
    assert forall q :: q in r <==> q in multiset(u);
    r
  }

  // ---------------------------------------------------------------------------
  // Lemmas
  // ---------------------------------------------------------------------------

  lemma {:induction false} DistinctCountsAtMostOne<T>(s: seq<T>, x: T)
    requires Distinct(s)
    ensures multiset(s)[x] <= 1
  {
    if s != [] {
      assert s == [s[0]] + s[1..];
      DistinctCountsAtMostOne(s[1..], x);
      if x == s[0] {
        assert x !in s[1..];
      }
    }
  }

  /** A permutation of a repetition-free list is repetition-free. */
  lemma PermutationKeepsDistinct<T>(a: seq<T>, b: seq<T>)
    requires multiset(a) == multiset(b)
    requires Distinct(b)
    ensures Distinct(a)
  {
    forall i, j | 0 <= i < j < |a|
      ensures a[i] != a[j]
    {
      if a[i] == a[j] {
        assert a == a[..j] + a[j..];
        assert a[i] in a[..j] && a[j] in a[j..];
        assert multiset(a)[a[i]] == multiset(a[..j])[a[i]] + multiset(a[j..])[a[i]];
        DistinctCountsAtMostOne(b, a[i]);
        assert false;
      }
    }
  }

  lemma HeadIsMember<T>(s: seq<T>)
    ensures s != [] ==> s[0] in s
  {
  }

  /**
   * Two lists that are strictly sorted by the same asymmetric relation and
   * hold the same members are the same list.
   */
  lemma {:induction false} SortedSameMembersEqual<T>(a: seq<T>, b: seq<T>, less: (T, T) -> bool)
    requires forall x, y :: less(x, y) ==> !less(y, x)
    requires StrictlySortedBy(a, less) && StrictlySortedBy(b, less)
    requires forall x :: x in a <==> x in b
    ensures a == b
  {
    if a == [] {
      HeadIsMember(b);
    } else {
      assert b != [] by { assert a[0] in b; }
      assert b[0] in a && a[0] in b;
      var i :| 0 <= i < |a| && a[i] == b[0];
      var j :| 0 <= j < |b| && b[j] == a[0];
      assert a[0] == b[0];
      forall x
        ensures x in a[1..] <==> x in b[1..]
      {
        if x in a[1..] {
          var k :| 0 <= k < |a[1..]| && a[1..][k] == x;
          assert less(a[0], a[k + 1]);
          assert x in b;
          var m :| 0 <= m < |b| && b[m] == x;
          assert m != 0;
          assert b[1..][m - 1] == x;
        }
        if x in b[1..] {
          var k :| 0 <= k < |b[1..]| && b[1..][k] == x;
          assert less(b[0], b[k + 1]);
          assert x in a;
          var m :| 0 <= m < |a| && a[m] == x;
          assert m != 0;
          assert a[1..][m - 1] == x;
        }
      }
      SortedSameMembersEqual(a[1..], b[1..], less);
      assert a == [a[0]] + a[1..] && b == [b[0]] + b[1..];
    }
  }

  /**
   * The result of `preprocess` depends only on the set of points given: the
   * order of the input and repeated points make no difference.
   */
  lemma PreprocessDependsOnlyOnMembers(a: seq<Point>, b: seq<Point>, col: Column)
    requires forall q :: q in a <==> q in b
    ensures Preprocess(a, col) == Preprocess(b, col)
  {
    SortedSameMembersEqual(Unique(a), Unique(b), LexLess);
  }

  /** A key-sorted, repetition-free list drawn from a set with distinct keys has strictly increasing keys. */
  lemma StrictKeys(t: seq<Point>, s: seq<Point>, col: Column)
    requires DistinctKeys(s, col)
    requires SortedByKey(t, col) && Distinct(t)
    requires forall q :: q in t ==> q in s
    ensures StrictlyIncreasing(KeysOf(t, col))
  {
    forall i, j | 0 <= i < j < |t|
      ensures KeysOf(t, col)[i] < KeysOf(t, col)[j]
    {
      assert t[i] in s && t[j] in s;
    }
  }

  /** When the points of `t` have pairwise different keys, so do the points of any `s` whose points all lie in `t`. */
  lemma DistinctKeysOfSubset(t: seq<Point>, s: seq<Point>, col: Column)
    requires forall i, j :: 0 <= i < j < |t| ==> Key(t[i], col) != Key(t[j], col)
    requires forall q :: q in s ==> q in t
    ensures DistinctKeys(s, col)
  {
    forall p, q | p in s && q in s && p != q
      ensures Key(p, col) != Key(q, col)
    {
      var i :| 0 <= i < |t| && t[i] == p;
      var j :| 0 <= j < |t| && t[j] == q;
      assert i != j;
    }
  }

  /** When no two points share a key, the keys of `preprocess`'s output strictly increase. */
  lemma PreprocessKeysStrict(s: seq<Point>, col: Column)
    requires DistinctKeys(s, col)
    ensures StrictlyIncreasing(KeysOf(Preprocess(s, col), col))
  {
    StrictKeys(Preprocess(s, col), s, col);
  }

  /**
   * When no two points share a key, every ordering `argsort` may produce is
   * the one this model produces: the model's choice among ties is immaterial.
   */
  lemma PreprocessCanonical(s: seq<Point>, t: seq<Point>, col: Column)
    requires DistinctKeys(s, col)
    requires SortedByKey(t, col) && Distinct(t)
    requires forall q :: q in t <==> q in s
    ensures t == Preprocess(s, col)
  {
    var r := Preprocess(s, col);
    var less := (p: Point, q: Point) => Key(p, col) < Key(q, col);
    StrictKeys(t, s, col);
    StrictKeys(r, s, col);
    forall i, j | 0 <= i < j < |t| ensures less(t[i], t[j]) {
      assert KeysOf(t, col)[i] < KeysOf(t, col)[j];
    }
    forall i, j | 0 <= i < j < |r| ensures less(r[i], r[j]) {
      assert KeysOf(r, col)[i] < KeysOf(r, col)[j];
    }
    SortedSameMembersEqual(t, r, less);
  }

  /** Two different input points leave at least two points after `preprocess`. */
  lemma PreprocessKeepsTwoPoints(s: seq<Point>, col: Column, p: Point, q: Point)
    requires p in s && q in s && p != q
    ensures |Preprocess(s, col)| >= 2
  {
    var r := Preprocess(s, col);
    assert p in r && q in r;
  }

  // ---------------------------------------------------------------------------
  // Raising every quality by the same amount
  // ---------------------------------------------------------------------------

  function RaisePoint(p: Point, d: real): Point {
    Point(p.rate, p.quality + d)
  }

  /** Every point of `s` with its quality raised by `d`. */
  function RaiseQualities(s: seq<Point>, d: real): seq<Point> {
    seq(|s|, i requires 0 <= i < |s| => RaisePoint(s[i], d))
  }

  /** The points of the raised list are exactly the raised points of the list. */
  lemma RaisedMembers(s: seq<Point>, d: real)
    ensures forall q :: q in RaiseQualities(s, d) <==> RaisePoint(q, -d) in s
  {
    var r := RaiseQualities(s, d);
    forall q
      ensures q in r <==> RaisePoint(q, -d) in s
    {
      if q in r {
        var i :| 0 <= i < |r| && r[i] == q;
        assert RaisePoint(q, -d) == s[i];
      }
      if RaisePoint(q, -d) in s {
        var i :| 0 <= i < |s| && s[i] == RaisePoint(q, -d);
        assert r[i] == q;
      }
    }
  }

  /** `np.unique` commutes with raising the qualities: the lexicographic order does not change. */
  lemma UniqueOfRaised(s: seq<Point>, d: real)
    ensures Unique(RaiseQualities(s, d)) == RaiseQualities(Unique(s), d)
  {
    var a, b := Unique(RaiseQualities(s, d)), RaiseQualities(Unique(s), d);
    RaisedMembers(s, d);
    RaisedMembers(Unique(s), d);
    assert forall q :: q in a <==> q in b;
    SortedSameMembersEqual(a, b, LexLess);
  }

  /** Raising the qualities keeps a list sorted by rate. */
  lemma RaisedSortedByRate(t: seq<Point>, d: real)
    requires SortedByKey(t, RateColumn)
    ensures SortedByKey(RaiseQualities(t, d), RateColumn)
  {
  }

  lemma RaiseQualitiesCons(x: Point, w: seq<Point>, d: real)
    ensures RaiseQualities([x] + w, d) == [RaisePoint(x, d)] + RaiseQualities(w, d)
  {
  }

  /** Inserting by rate commutes with raising the qualities: rates decide every step. */
  lemma {:induction false} InsertByRateOfRaised(p: Point, t: seq<Point>, d: real)
    requires SortedByKey(t, RateColumn)
    ensures SortedByKey(RaiseQualities(t, d), RateColumn)
    ensures InsertByKey(RaisePoint(p, d), RaiseQualities(t, d), RateColumn)
         == RaiseQualities(InsertByKey(p, t, RateColumn), d)
  {
    var u := RaiseQualities(t, d);
    RaisedSortedByRate(t, d);
    if t == [] || p.rate <= t[0].rate {
      assert InsertByKey(p, t, RateColumn) == [p] + t;
      assert InsertByKey(RaisePoint(p, d), u, RateColumn) == [RaisePoint(p, d)] + u;
      RaiseQualitiesCons(p, t, d);
    } else {
      var w := InsertByKey(p, t[1..], RateColumn);
      assert InsertByKey(p, t, RateColumn) == [t[0]] + w;
      assert u[1..] == RaiseQualities(t[1..], d);
      InsertByRateOfRaised(p, t[1..], d);
      assert InsertByKey(RaisePoint(p, d), u, RateColumn) == [u[0]] + RaiseQualities(w, d);
      RaiseQualitiesCons(t[0], w, d);
    }
  }

  /** Sorting by rate commutes with raising the qualities. */
  lemma {:induction false} SortByRateOfRaised(s: seq<Point>, d: real)
    ensures SortByKey(RaiseQualities(s, d), RateColumn) == RaiseQualities(SortByKey(s, RateColumn), d)
  {
    if s != [] {
      var u := RaiseQualities(s, d);
      assert u[1..] == RaiseQualities(s[1..], d);
      SortByRateOfRaised(s[1..], d);
      InsertByRateOfRaised(s[0], SortByKey(s[1..], RateColumn), d);
    }
  }

  /** `preprocess(s, 0)` of the raised points is the raised `preprocess(s, 0)`. */
  lemma PreprocessByRateOfRaised(s: seq<Point>, d: real)
    ensures Preprocess(RaiseQualities(s, d), RateColumn) == RaiseQualities(Preprocess(s, RateColumn), d)
  {
    UniqueOfRaised(s, d);
    SortByRateOfRaised(Unique(s), d);
  }
}
