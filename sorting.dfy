/** The stable sort both pandas orderings in the pipeline reduce to:
    groupby(key) followed by concat, and sort_values(by=[...]). */
module Sorting {

  /** le is total and transitive: a total preorder, ties allowed. */
  ghost predicate TotalPreorder<T(!new)>(le: (T, T) -> bool) {
    && (forall a, b :: le(a, b) || le(b, a))
    && (forall a, b, c :: le(a, b) && le(b, c) ==> le(a, c))
  }

  ghost predicate Sorted<T>(s: seq<T>, le: (T, T) -> bool) {
    forall i, j :: 0 <= i < j < |s| ==> le(s[i], s[j])
  }

  /** x placed before the first element it is le to. */
  function Insert<T>(x: T, s: seq<T>, le: (T, T) -> bool): (r: seq<T>)
    ensures multiset(r) == multiset(s) + multiset{x}
    ensures |r| == |s| + 1
    decreases |s|
  {
    if s == [] || le(x, s[0]) then [x] + s
    else
      assert s == [s[0]] + s[1..];
      [s[0]] + Insert(x, s[1..], le)
  }

  function InsertionSort<T>(s: seq<T>, le: (T, T) -> bool): (r: seq<T>)
    ensures multiset(r) == multiset(s)
    ensures |r| == |s|
    decreases |s|
  {
    if s == [] then []
    else
      assert s == [s[0]] + s[1..];
      Insert(s[0], InsertionSort(s[1..], le), le)
  }

  lemma {:induction false} InsertSorted<T(!new)>(x: T, s: seq<T>, le: (T, T) -> bool)
    requires TotalPreorder(le) && Sorted(s, le)
    ensures Sorted(Insert(x, s, le), le)
    decreases |s|
  {
    if s != [] && !le(x, s[0]) {
      InsertSorted(x, s[1..], le);
      var r := Insert(x, s[1..], le);
      assert le(s[0], x);
      forall k | 0 <= k < |r| ensures le(s[0], r[k]) {
        assert r[k] in multiset(r);
        assert r[k] == x || r[k] in multiset(s[1..]);
        if r[k] != x {
          var j :| 0 <= j < |s[1..]| && s[1..][j] == r[k];
          assert s[j + 1] == r[k];
        }
      }
    }
  }

  /** The result is ordered by le (and, by InsertionSort's contract, a permutation). */
  lemma {:induction false} SortSorted<T(!new)>(s: seq<T>, le: (T, T) -> bool)
    requires TotalPreorder(le)
    ensures Sorted(InsertionSort(s, le), le)
    decreases |s|
  {
    if s != [] {
      SortSorted(s[1..], le);
      InsertSorted(s[0], InsertionSort(s[1..], le), le);
    }
  }

  function Filter<T>(s: seq<T>, p: T -> bool): (r: seq<T>)
    ensures |r| <= |s|
    ensures forall k :: 0 <= k < |r| ==> p(r[k])
    ensures forall x :: x in s && p(x) ==> x in r
    ensures forall x :: x in r ==> x in s
    decreases |s|
  {
    if s == [] then []
    else (if p(s[0]) then [s[0]] else []) + Filter(s[1..], p)
  }

  /** y's class under le: the elements that tie with y. */
  ghost predicate Tie<T>(le: (T, T) -> bool, x: T, y: T) {
    le(x, y) && le(y, x)
  }

  lemma FilterCons<T>(h: T, t: seq<T>, p: T -> bool)
    ensures Filter([h] + t, p) == (if p(h) then [h] else []) + Filter(t, p)
  {
    assert ([h] + t)[0] == h && ([h] + t)[1..] == t;
  }

  lemma {:induction false} InsertStable<T(!new)>(x: T, s: seq<T>, le: (T, T) -> bool, y: T)
    requires TotalPreorder(le)
    ensures Filter(Insert(x, s, le), e => Tie(le, e, y))
         == (if Tie(le, x, y) then [x] else []) + Filter(s, e => Tie(le, e, y))
    decreases |s|
  {
    var p := e => Tie(le, e, y);
    if s == [] || le(x, s[0]) {
      FilterCons(x, s, p);
    } else {
      InsertStable(x, s[1..], le, y);
      assert Insert(x, s, le) == [s[0]] + Insert(x, s[1..], le);
      assert [s[0]] + s[1..] == s;
      // s[0] is strictly before x, so s[0] and x cannot both tie with y
      var h := s[0];
      assert p(x) && p(h) ==> le(x, y) && le(y, h);
      assert !(p(x) && p(h));
      FilterPassOver(x, h, s[1..], Insert(x, s[1..], le), p);
    }
  }

  /** An element that precedes x and is not kept together with it can be
      passed over without changing what the filter keeps. */
  lemma FilterPassOver<T>(x: T, h: T, t: seq<T>, r: seq<T>, p: T -> bool)
    requires !(p(x) && p(h))
    requires Filter(r, p) == (if p(x) then [x] else []) + Filter(t, p)
    ensures Filter([h] + r, p) == (if p(x) then [x] else []) + Filter([h] + t, p)
  {
    FilterCons(h, r, p);
    FilterCons(h, t, p);
    var fx := if p(x) then [x] else [];
    var fh := if p(h) then [h] else [];
    assert fh + (fx + Filter(t, p)) == fx + (fh + Filter(t, p)) by {
      if p(x) { assert fh == []; } else { assert fx == []; }
    }
  }

  /** Stability: the elements that tie with any y keep their original order. */
  lemma {:induction false} SortStable<T(!new)>(s: seq<T>, le: (T, T) -> bool, y: T)
    requires TotalPreorder(le)
    ensures Filter(InsertionSort(s, le), e => Tie(le, e, y)) == Filter(s, e => Tie(le, e, y))
    decreases |s|
  {
    if s != [] {
      SortStable(s[1..], le, y);
      InsertStable(s[0], InsertionSort(s[1..], le), le, y);
    }
  }
}
