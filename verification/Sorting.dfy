// The standard library's stable sort, as an insertion sort over values.
module Sorting {

  // `less` orders by some key: the elements it leaves incomparable have equal keys.
  ghost predicate WeakOrder<T(!new)>(less: (T, T) -> bool) {
    && (forall a, b :: less(a, b) ==> !less(b, a))
    && (forall a, b, c :: !less(b, a) && !less(c, b) ==> !less(c, a))
  }

  ghost predicate Sorted<T>(s: seq<T>, less: (T, T) -> bool) {
    forall i, j :: 0 <= i < j < |s| ==> !less(s[j], s[i])
  }

  // x goes after the elements that are not greater.
  function Insert<T>(s: seq<T>, x: T, less: (T, T) -> bool): (r: seq<T>)
    ensures multiset(r) == multiset(s) + multiset{x}
  {
    if s == [] then [x]
    else
      var n := |s| - 1;
      assert s == s[..n] + [s[n]];
      if less(x, s[n]) then Insert(s[..n], x, less) + [s[n]] else s + [x]
  }

  function Sort<T>(s: seq<T>, less: (T, T) -> bool): (r: seq<T>)
    ensures multiset(r) == multiset(s)
  {
    if s == [] then []
    else
      assert s == s[..|s| - 1] + [s[|s| - 1]];
      Insert(Sort(s[..|s| - 1], less), s[|s| - 1], less)
  }

  lemma {:induction false} InsertSorts<T(!new)>(s: seq<T>, x: T, less: (T, T) -> bool)
    requires WeakOrder(less) && Sorted(s, less)
    ensures Sorted(Insert(s, x, less), less)
  {
    if s != [] {
      var n := |s| - 1;
      if less(x, s[n]) {
        InsertSorts(s[..n], x, less);
        var r := Insert(s[..n], x, less);
        forall y | y in r
          ensures !less(s[n], y)
        {
          assert y in multiset(r);
          assert y == x || y in s[..n];
        }
      } else {
        forall i | 0 <= i < |s|
          ensures !less(x, s[i])
        {
          assert i == n || !less(s[n], s[i]);
        }
      }
    }
  }

  lemma {:induction false} SortSorts<T(!new)>(s: seq<T>, less: (T, T) -> bool)
    requires WeakOrder(less)
    ensures Sorted(Sort(s, less), less)
  {
    if s != [] {
      SortSorts(s[..|s| - 1], less);
      InsertSorts(Sort(s[..|s| - 1], less), s[|s| - 1], less);
    }
  }

  lemma SortKeeps<T>(s: seq<T>, less: (T, T) -> bool)
    ensures |Sort(s, less)| == |s|
    ensures forall x :: x in Sort(s, less) <==> x in s
  {
    SameMembers(Sort(s, less), s);
  }

  lemma SameMembers<T>(s: seq<T>, t: seq<T>)
    requires multiset(s) == multiset(t)
    ensures |s| == |t| && forall x :: x in s <==> x in t
  {
    assert |multiset(s)| == |multiset(t)|;
    forall x
      ensures x in s <==> x in t
    {
      assert x in multiset(s) <==> x in multiset(t);
    }
  }

  lemma {:induction false} Twice<T>(s: seq<T>, x: T) returns (i: nat, j: nat)
    requires multiset(s)[x] > 1
    ensures i < j < |s| && s[i] == x && s[j] == x
  {
    var n := |s| - 1;
    assert s == s[..n] + [s[n]];
    if s[n] == x {
      assert x in multiset(s[..n]);
      i :| 0 <= i < n && s[..n][i] == x;
      j := n;
    } else {
      i, j := Twice(s[..n], x);
    }
  }

  lemma TwiceCounts<T>(s: seq<T>, p: nat, q: nat)
    requires p < q < |s| && s[p] == s[q]
    ensures multiset(s)[s[p]] >= 2
  {
    assert s == s[..q] + s[q..];
    assert s[p] in s[..q] && s[p] in s[q..];
  }

  lemma StillDifferent<T>(s: seq<T>, t: seq<T>)
    requires multiset(s) == multiset(t)
    requires forall i, j :: 0 <= i < j < |s| ==> s[i] != s[j]
    ensures forall i, j :: 0 <= i < j < |t| ==> t[i] != t[j]
  {
    forall x
      ensures multiset(s)[x] <= 1
    {
      Once(s, x);
    }
    forall i, j | 0 <= i < j < |t|
      ensures t[i] != t[j]
    {
      if t[i] == t[j] {
        TwiceCounts(t, i, j);
      }
    }
  }

  lemma {:induction false} Once<T>(s: seq<T>, x: T)
    requires forall i, j :: 0 <= i < j < |s| ==> s[i] != s[j]
    ensures multiset(s)[x] <= 1
    decreases |s|
  {
    if s != [] {
      assert s == [s[0]] + s[1..];
      Once(s[1..], x);
      if x == s[0] {
        assert x !in s[1..];
        assert x !in multiset(s[1..]);
      }
    }
  }

  // ---------------------------------------------------------------------------
  // Stability
  // ---------------------------------------------------------------------------

  // The elements that the order does not tell from x, as they stand.
  function Alike<T>(s: seq<T>, x: T, less: (T, T) -> bool): seq<T> {
    if s == [] then []
    else
      var n := |s| - 1;
      Alike(s[..n], x, less) + if !less(s[n], x) && !less(x, s[n]) then [s[n]] else []
  }

  lemma AlikeLast<T>(s: seq<T>, y: T, x: T, less: (T, T) -> bool)
    ensures Alike(s + [y], x, less) == Alike(s, x, less) + if !less(y, x) && !less(x, y) then [y] else []
  {
    assert (s + [y])[..|s|] == s;
  }

  lemma {:induction false} InsertIsStable<T(!new)>(s: seq<T>, y: T, x: T, less: (T, T) -> bool)
    requires WeakOrder(less)
    ensures Alike(Insert(s, y, less), x, less) == Alike(s + [y], x, less)
  {
    hide Alike;
    AlikeLast(s, y, x, less);
    if s == [] {
      assert [] + [y] == [y];
    } else if less(y, s[|s| - 1]) {
      var n := |s| - 1;
      var front, last := s[..n], s[n];
      InsertIsStable(front, y, x, less);
      assert s == front + [last];
      AlikeLast(front, y, x, less);
      AlikeLast(front, last, x, less);
      AlikeLast(Insert(front, y, less), last, x, less);
      assert Insert(s, y, less) == Insert(front, y, less) + [last];
      NotBothAlike(y, last, x, less);
    }
  }

  // Of two elements in order, at most one is like x.
  lemma NotBothAlike<T(!new)>(a: T, b: T, x: T, less: (T, T) -> bool)
    requires WeakOrder(less) && less(a, b)
    ensures less(a, x) || less(x, a) || less(b, x) || less(x, b)
  {
  }

  // Sorting keeps the order of what the order does not tell apart.
  lemma {:induction false} SortIsStable<T(!new)>(s: seq<T>, x: T, less: (T, T) -> bool)
    requires WeakOrder(less)
    ensures Alike(Sort(s, less), x, less) == Alike(s, x, less)
  {
    if s != [] {
      hide Alike;
      var n := |s| - 1;
      var front, last := s[..n], s[n];
      assert s == front + [last];
      SortIsStable(front, x, less);
      InsertIsStable(Sort(front, less), last, x, less);
      AlikeLast(front, last, x, less);
      AlikeLast(Sort(front, less), last, x, less);
    }
  }

  // ---------------------------------------------------------------------------
  // Sorting by what the elements stand for
  // ---------------------------------------------------------------------------

  function Map<T, U>(s: seq<T>, f: T -> U): seq<U> {
    seq(|s|, i requires 0 <= i < |s| => f(s[i]))
  }

  function Through<T, U>(f: T -> U, less: (U, U) -> bool): (T, T) -> bool {
    (a, b) => less(f(a), f(b))
  }

  lemma ThroughIsOrder<T(!new), U(!new)>(f: T -> U, less: (U, U) -> bool)
    requires WeakOrder(less)
    ensures WeakOrder(Through(f, less))
  {
  }

  lemma MapLast<T, U>(s: seq<T>, x: T, f: T -> U)
    ensures Map(s + [x], f) == Map(s, f) + [f(x)]
    ensures s != [] ==> Map(s, f) == Map(s[..|s| - 1], f) + [f(s[|s| - 1])]
  {
  }

  lemma InsertLast<T>(s: seq<T>, last: T, x: T, less: (T, T) -> bool)
    ensures Insert(s + [last], x, less) == if less(x, last) then Insert(s, x, less) + [last] else s + [last] + [x]
  {
    assert (s + [last])[..|s|] == s;
  }

  lemma {:induction false} InsertThrough<T, U>(s: seq<T>, x: T, f: T -> U, less: (U, U) -> bool)
    ensures Insert(Map(s, f), f(x), less) == Map(Insert(s, x, Through(f, less)), f)
  {
    hide Map, Insert;
    if s == [] {
      MapLast([], x, f);
      InsertNone(x, f, less);
    } else {
      var n := |s| - 1;
      var front, last := s[..n], s[n];
      assert s == front + [last];
      MapLast(s, x, f);
      InsertLast(front, last, x, Through(f, less));
      InsertLast(Map(front, f), f(last), f(x), less);
      if less(f(x), f(last)) {
        InsertThrough(front, x, f, less);
        MapLast(Insert(front, x, Through(f, less)), last, f);
      }
    }
  }

  lemma InsertNone<T, U>(x: T, f: T -> U, less: (U, U) -> bool)
    ensures Map([], f) == [] && Insert([], f(x), less) == [f(x)] && Insert([], x, Through(f, less)) == [x]
      && Map([x], f) == [f(x)]
  {
  }

  lemma {:induction false} SortThrough<T, U>(s: seq<T>, f: T -> U, less: (U, U) -> bool)
    ensures Sort(Map(s, f), less) == Map(Sort(s, Through(f, less)), f)
  {
    if s != [] {
      var n := |s| - 1;
      assert Map(s, f)[..n] == Map(s[..n], f);
      SortThrough(s[..n], f, less);
      InsertThrough(Sort(s[..n], Through(f, less)), s[n], f, less);
    }
  }
}
