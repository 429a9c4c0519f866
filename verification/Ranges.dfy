// Unions of inclusive line ranges: the ranges a hit shows
// (tools/cleanup/generate_cleanup_json.cpp) and the covered lines of a review
// (tools/cleanup/review_patterns.cpp).
module Ranges {
  import Sorting

  datatype Range = Range(start: nat, last: nat)

  predicate Ordered(a: Range, b: Range) {
    a.start < b.start || (a.start == b.start && a.last < b.last)
  }

  predicate WellFormed(ranges: seq<Range>) {
    forall r :: r in ranges ==> 1 <= r.start <= r.last
  }

  function Sorted(ranges: seq<Range>): (r: seq<Range>)
    ensures multiset(r) == multiset(ranges)
  {
    Sorting.Sort(ranges, Ordered)
  }

  lemma SortedIsOrdered(ranges: seq<Range>)
    ensures var s := Sorted(ranges);
      |s| == |ranges| && InOrder(s) && forall r :: r in s <==> r in ranges
  {
    Sorting.SortSorts(ranges, Ordered);
    Sorting.SortKeeps(ranges, Ordered);
    var s := Sorted(ranges);
    forall i, j | 0 <= i < j < |s|
      ensures s[i].start <= s[j].start
    {
      assert !Ordered(s[j], s[i]);
    }
  }

  // ---------------------------------------------------------------------------
  // The lines that ranges cover
  // ---------------------------------------------------------------------------

  ghost function Interval(from: nat, last: nat): (s: set<nat>)
    ensures forall n: nat :: n in s <==> from <= n <= last
    decreases last + 1 - from
  {
    if from > last then {} else {from} + Interval(from + 1, last)
  }

  ghost function Lines(ranges: seq<Range>): set<nat> {
    if ranges == [] then {}
    else Lines(ranges[..|ranges| - 1]) + Interval(ranges[|ranges| - 1].start, ranges[|ranges| - 1].last)
  }

  ghost predicate Covers(ranges: seq<Range>, line: nat) {
    exists r :: r in ranges && r.start <= line <= r.last
  }

  // One range holds both `line` and the line after it.
  ghost predicate Joins(ranges: seq<Range>, line: nat) {
    exists r :: r in ranges && r.start <= line < r.last
  }

  lemma {:induction false} LinesCovers(ranges: seq<Range>)
    ensures forall n: nat :: n in Lines(ranges) <==> Covers(ranges, n)
  {
    if ranges != [] {
      var k := |ranges| - 1;
      LinesCovers(ranges[..k]);
      assert ranges == ranges[..k] + [ranges[k]];
      forall n: nat
        ensures n in Lines(ranges) <==> Covers(ranges, n)
      {
        assert n in Lines(ranges) <==> Covers(ranges[..k], n) || ranges[k].start <= n <= ranges[k].last;
      }
    }
  }

  lemma {:induction false} IntervalSize(from: nat, last: nat)
    requires from <= last + 1
    ensures |Interval(from, last)| == last + 1 - from
    decreases last + 1 - from
  {
    if from <= last {
      IntervalSize(from + 1, last);
    }
  }

  // Lines above all the lines of L add to its size.
  lemma IntervalAdds(L: set<nat>, from: nat, last: nat)
    requires from <= last + 1 && forall n: nat :: n in L ==> n < from
    ensures |L + Interval(from, last)| == |L| + (last + 1 - from)
  {
    hide Interval;
    IntervalSize(from, last);
    assert L * Interval(from, last) == {};
  }

  // ---------------------------------------------------------------------------
  // Merging
  // ---------------------------------------------------------------------------

  function Widened(merged: seq<Range>, range: Range): seq<Range> {
    var k := |merged| - 1;
    if k >= 0 && range.start <= merged[k].last then
      merged[k := merged[k].(last := if merged[k].last < range.last then range.last else merged[k].last)]
    else merged + [range]
  }

  function MergedInOrder(ranges: seq<Range>): seq<Range> {
    if ranges == [] then [] else Widened(MergedInOrder(ranges[..|ranges| - 1]), ranges[|ranges| - 1])
  }

  function Merged(ranges: seq<Range>): seq<Range> {
    MergedInOrder(Sorted(ranges))
  }

  method MergeOverlappingRanges(ranges: seq<Range>) returns (merged: seq<Range>)
    ensures merged == Merged(ranges)
    ensures WellFormed(ranges) ==> IsMerge(ranges, merged)
  {
    hide IsMerge, Sorted, WellFormed;
    var sorted := Sorted(ranges);
    merged := [];
    for i := 0 to |sorted|
      invariant merged == MergedInOrder(sorted[..i])
    {
      var range := sorted[i];
      assert sorted[..i + 1][..i] == sorted[..i];
      var k := |merged| - 1;
      if k >= 0 && range.start <= merged[k].last {
        merged := merged[k := merged[k].(last := if merged[k].last < range.last then range.last else merged[k].last)];
      } else {
        merged := merged + [range];
      }
    }
    assert sorted[..|sorted|] == sorted;
    if WellFormed(ranges) {
      MergedIsMerge(ranges);
    }
  }

  // Strictly ordered and disjoint.
  predicate Separate(ranges: seq<Range>) {
    forall i, j :: 0 <= i < j < |ranges| ==> ranges[i].last < ranges[j].start
  }

  // The merge of ranges: it covers their lines, and keeps two neighbouring lines in one
  // range exactly when one of the ranges does.
  ghost predicate IsMerge(ranges: seq<Range>, merged: seq<Range>) {
    && WellFormed(merged) && Separate(merged)
    && (forall n: nat :: Covers(merged, n) <==> Covers(ranges, n))
    && (forall n: nat :: Joins(merged, n) <==> Joins(ranges, n))
  }

  predicate InOrder(ranges: seq<Range>) {
    forall i, j :: 0 <= i < j < |ranges| ==> ranges[i].start <= ranges[j].start
  }

  lemma {:induction false} InOrderIsMerge(ranges: seq<Range>)
    requires WellFormed(ranges) && InOrder(ranges)
    ensures IsMerge(ranges, MergedInOrder(ranges))
    ensures var m := MergedInOrder(ranges); ranges != [] ==> m != [] && m[|m| - 1].start <= ranges[|ranges| - 1].start
  {
    hide IsMerge, Widened, WellFormed, InOrder;
    if ranges == [] {
      EmptyIsMerge();
    } else {
      var k := |ranges| - 1;
      FrontIsFine(ranges);
      InOrderIsMerge(ranges[..k]);
      assert ranges == ranges[..k] + [ranges[k]];
      WidenedIsMerge(ranges[..k], MergedInOrder(ranges[..k]), ranges[k]);
    }
  }

  lemma FrontIsFine(ranges: seq<Range>)
    requires WellFormed(ranges) && InOrder(ranges) && ranges != []
    ensures var k := |ranges| - 1;
      && WellFormed(ranges[..k]) && InOrder(ranges[..k]) && 1 <= ranges[k].start <= ranges[k].last
      && (k > 0 ==> ranges[..k][k - 1].start <= ranges[k].start)
  {
    assert ranges[|ranges| - 1] in ranges;
  }

  lemma EmptyIsMerge()
    ensures IsMerge([], [])
  {
  }

  lemma WidenedIsMerge(ranges: seq<Range>, merged: seq<Range>, range: Range)
    requires IsMerge(ranges, merged) && 1 <= range.start <= range.last
    requires merged != [] ==> merged[|merged| - 1].start <= range.start
    ensures IsMerge(ranges + [range], Widened(merged, range))
    ensures var w := Widened(merged, range); w != [] && w[|w| - 1].start <= range.start
  {
    var w := Widened(merged, range);
    var k := |merged| - 1;
    if k >= 0 && range.start <= merged[k].last {
      assert w[..k] == merged[..k];
      assert WellFormed(w);
      assert Separate(w);
    } else {
      forall i, j | 0 <= i < j < |w|
        ensures w[i].last < w[j].start
      {
        assert j < k + 1 || merged[k].last < range.start;
        assert i == k || j == k || j == k + 1 || merged[i].last < merged[j].start;
      }
    }
    forall n: nat
      ensures Covers(w, n) <==> Covers(merged, n) || range.start <= n <= range.last
      ensures Joins(w, n) <==> Joins(merged, n) || range.start <= n < range.last
    {
      WidenedAt(merged, range, n);
    }
    forall n: nat
      ensures Covers(ranges + [range], n) <==> Covers(ranges, n) || range.start <= n <= range.last
      ensures Joins(ranges + [range], n) <==> Joins(ranges, n) || range.start <= n < range.last
    {
      if range.start <= n <= range.last {
        assert range in ranges + [range];
      }
    }
  }

  lemma WidenedAt(merged: seq<Range>, range: Range, n: nat)
    requires 1 <= range.start <= range.last && WellFormed(merged)
    requires merged != [] ==> merged[|merged| - 1].start <= range.start
    ensures Covers(Widened(merged, range), n) <==> Covers(merged, n) || range.start <= n <= range.last
    ensures Joins(Widened(merged, range), n) <==> Joins(merged, n) || range.start <= n < range.last
  {
    var w := Widened(merged, range);
    var k := |merged| - 1;
    if k >= 0 && range.start <= merged[k].last {
      var kept := merged[..k];
      assert merged == kept + [merged[k]];
      var wide := w[k];
      assert w == kept + [wide];
      assert Covers(w, n) <==> Covers(kept, n) || wide.start <= n <= wide.last;
      assert Joins(w, n) <==> Joins(kept, n) || wide.start <= n < wide.last;
      assert Covers(merged, n) <==> Covers(kept, n) || merged[k].start <= n <= merged[k].last;
      assert Joins(merged, n) <==> Joins(kept, n) || merged[k].start <= n < merged[k].last;
    } else {
      assert range in w;
    }
  }

  // For every list of well-formed ranges, in any order.
  lemma MergedIsMerge(ranges: seq<Range>)
    requires WellFormed(ranges)
    ensures IsMerge(ranges, Merged(ranges))
  {
    var s := Sorted(ranges);
    SortedIsOrdered(ranges);
    InOrderIsMerge(s);
    assert forall n: nat :: Covers(s, n) <==> Covers(ranges, n);
    assert forall n: nat :: Joins(s, n) <==> Joins(ranges, n);
  }

  // Nothing else is a merge: the lines and the joins determine the ranges.
  lemma {:induction false} MergeIsUnique(a: seq<Range>, b: seq<Range>)
    requires WellFormed(a) && Separate(a) && WellFormed(b) && Separate(b)
    requires forall n: nat :: Covers(a, n) <==> Covers(b, n)
    requires forall n: nat :: Joins(a, n) <==> Joins(b, n)
    ensures a == b
    decreases |a|
  {
    if a == [] {
      if b != [] {
        assert Covers(b, b[0].start);
        assert false;
      }
    } else if b == [] {
      assert Covers(a, a[0].start);
      assert false;
    } else {
      FirstStart(a, b);
      FirstStart(b, a);
      FirstLast(a, b);
      FirstLast(b, a);
      assert a[0] == b[0];
      forall n: nat
        ensures Covers(a[1..], n) <==> Covers(b[1..], n)
        ensures Joins(a[1..], n) <==> Joins(b[1..], n)
      {
        AfterFirst(a, n);
        AfterFirst(b, n);
      }
      MergeIsUnique(a[1..], b[1..]);
      assert a == [a[0]] + a[1..];
      assert b == [b[0]] + b[1..];
    }
  }

  lemma AfterFirst(a: seq<Range>, n: nat)
    requires WellFormed(a) && Separate(a) && a != []
    ensures Covers(a[1..], n) <==> Covers(a, n) && a[0].last < n
    ensures Joins(a[1..], n) <==> Joins(a, n) && a[0].last < n
  {
    assert a == [a[0]] + a[1..];
    if Covers(a[1..], n) {
      var r :| r in a[1..] && r.start <= n <= r.last;
      assert r in a;
    }
  }

  lemma FirstStart(a: seq<Range>, b: seq<Range>)
    requires WellFormed(a) && Separate(a) && WellFormed(b) && Separate(b) && a != [] && b != []
    requires forall n: nat :: Covers(a, n) ==> Covers(b, n)
    ensures b[0].start <= a[0].start
  {
    var n := a[0].start;
    assert Covers(a, n);
    var r :| r in b && r.start <= n <= r.last;
    var k :| 0 <= k < |b| && b[k] == r;
    assert k == 0 || b[0].last < b[k].start;
  }

  lemma FirstEnds(a: seq<Range>)
    requires WellFormed(a) && Separate(a) && a != []
    ensures !Joins(a, a[0].last)
  {
    forall r | r in a
      ensures !(r.start <= a[0].last < r.last)
    {
      var k :| 0 <= k < |a| && a[k] == r;
      assert k == 0 || a[0].last < a[k].start;
    }
  }

  lemma JoinsInFirst(a: seq<Range>, line: nat)
    requires a != [] && a[0].start <= line < a[0].last
    ensures Joins(a, line)
  {
    assert a[0] in a;
  }

  lemma FirstLast(a: seq<Range>, b: seq<Range>)
    requires WellFormed(a) && Separate(a) && WellFormed(b) && Separate(b) && a != [] && b != []
    requires a[0].start == b[0].start && forall n: nat :: Joins(a, n) ==> Joins(b, n)
    ensures a[0].last <= b[0].last
  {
    FirstEnds(b);
    assert b[0] in b;
    if b[0].last < a[0].last {
      JoinsInFirst(a, b[0].last);
    }
  }

  // Merging again changes nothing, and the order of the ranges does not matter.
  lemma MergingIsIdempotent(ranges: seq<Range>)
    requires WellFormed(ranges)
    ensures Merged(Merged(ranges)) == Merged(ranges)
  {
    MergedIsMerge(ranges);
    MergedIsMerge(Merged(ranges));
    MergeIsUnique(Merged(Merged(ranges)), Merged(ranges));
  }

  lemma MergingIgnoresOrder(a: seq<Range>, b: seq<Range>)
    requires WellFormed(a) && forall r :: r in a <==> r in b
    ensures Merged(a) == Merged(b)
  {
    MergedIsMerge(a);
    MergedIsMerge(b);
    MergeIsUnique(Merged(a), Merged(b));
  }

  // ---------------------------------------------------------------------------
  // Counting
  // ---------------------------------------------------------------------------

  function TotalLength(ranges: seq<Range>): int {
    if ranges == [] then 0
    else TotalLength(ranges[..|ranges| - 1]) + (ranges[|ranges| - 1].last + 1 - ranges[|ranges| - 1].start)
  }

  lemma {:induction false} SeparateLength(ranges: seq<Range>)
    requires WellFormed(ranges) && Separate(ranges)
    ensures TotalLength(ranges) == |Lines(ranges)|
  {
    if ranges != [] {
      var k := |ranges| - 1;
      var front := ranges[..k];
      SeparateLength(front);
      LinesCovers(front);
      forall n: nat | n in Lines(front)
        ensures n < ranges[k].start
      {
        assert Covers(front, n);
      }
      IntervalAdds(Lines(front), ranges[k].start, ranges[k].last);
    }
  }

  datatype Occurrence = Occurrence(path: string, range: Range)

  function RangesOf(occurrences: seq<Occurrence>, path: string): seq<Range> {
    if occurrences == [] then []
    else
      var k := |occurrences| - 1;
      RangesOf(occurrences[..k], path) + if occurrences[k].path == path then [occurrences[k].range] else []
  }

  // The lines, each with its file.
  ghost function FileLines(occurrences: seq<Occurrence>, paths: set<string>): set<(string, nat)> {
    set p, n | p in paths && n in Lines(RangesOf(occurrences, p)) :: (p, n)
  }

  function Paths(occurrences: seq<Occurrence>): set<string> {
    set o | o in occurrences :: o.path
  }

  lemma {:induction false} RangesOfHas(occurrences: seq<Occurrence>, path: string)
    ensures forall r :: r in RangesOf(occurrences, path) <==> Occurrence(path, r) in occurrences
  {
    if occurrences != [] {
      var k := |occurrences| - 1;
      assert occurrences == occurrences[..k] + [occurrences[k]];
      RangesOfHas(occurrences[..k], path);
    }
  }

  predicate OneBased(ranges: seq<Range>) {
    forall r :: r in ranges ==> 1 <= r.start
  }

  // What the counting loop over one file has counted, and the last line it has seen.
  datatype Count = Count(lines: nat, end: nat)

  function Counted(count: Count, range: Range): Count {
    var covered := if count.end + 1 < range.start then range.start - 1 else count.end;
    Count(if range.last > covered then count.lines + (range.last - covered) else count.lines,
      if count.end < range.last then range.last else count.end)
  }

  function CountInOrder(ranges: seq<Range>): Count {
    if ranges == [] then Count(0, 0) else Counted(CountInOrder(ranges[..|ranges| - 1]), ranges[|ranges| - 1])
  }

  lemma {:induction false} CountsLines(ranges: seq<Range>)
    requires OneBased(ranges) && InOrder(ranges)
    ensures CountInOrder(ranges).lines == |Lines(ranges)|
    ensures forall n: nat :: n in Lines(ranges) ==> n <= CountInOrder(ranges).end
    ensures ranges != [] ==>
      forall n: nat :: ranges[|ranges| - 1].start <= n <= CountInOrder(ranges).end ==> n in Lines(ranges)
  {
    hide Interval, Counted;
    if ranges != [] {
      var k := |ranges| - 1;
      var front, range := ranges[..k], ranges[k];
      CountsLines(front);
      assert range in ranges;
      assert front != [] ==> front[k - 1].start <= range.start;
      CountsOneMore(Lines(front), CountInOrder(front), range);
    }
  }

  lemma CountsOneMore(lines: set<nat>, count: Count, range: Range)
    requires count.lines == |lines| && 1 <= range.start
    requires forall n: nat :: n in lines ==> n <= count.end
    requires forall n: nat :: range.start <= n <= count.end ==> n in lines
    ensures var next := lines + Interval(range.start, range.last);
      && Counted(count, range).lines == |next|
      && (forall n: nat :: n in next ==> n <= Counted(count, range).end)
      && forall n: nat :: range.start <= n <= Counted(count, range).end ==> n in next
  {
    hide Interval;
    var next, covered := lines + Interval(range.start, range.last),
      if count.end + 1 < range.start then range.start - 1 else count.end;
    if range.last > covered {
      assert next == lines + Interval(covered + 1, range.last);
      IntervalAdds(lines, covered + 1, range.last);
    } else {
      assert next == lines;
    }
  }

  // The count is the number of distinct lines that the occurrences cover.
  method UnionLines(occurrences: seq<Occurrence>) returns (count: nat)
    requires forall o :: o in occurrences ==> 1 <= o.range.start
    ensures count == |FileLines(occurrences, Paths(occurrences))|
  {
    hide Lines, RangesOf, FileLines;
    var byPath := ByPath(occurrences);
    assert FileLines(occurrences, {}) == {} by {
      NoFiles(occurrences);
    }
    count := 0;
    var left := byPath.Keys;
    assert byPath.Keys - left == {};
    while left != {}
      invariant left <= byPath.Keys
      invariant count == |FileLines(occurrences, byPath.Keys - left)|
    {
      var path :| path in left;
      var lines := CountRanges(byPath[path], occurrences, path);
      OnePathMore(occurrences, byPath.Keys - left, path);
      assert byPath.Keys - (left - {path}) == byPath.Keys - left + {path};
      left := left - {path};
      count := count + lines;
    }
    assert byPath.Keys - left == byPath.Keys;
  }

  method ByPath(occurrences: seq<Occurrence>) returns (byPath: map<string, seq<Range>>)
    ensures byPath.Keys == Paths(occurrences)
    ensures forall p :: p in byPath ==> byPath[p] == RangesOf(occurrences, p)
  {
    byPath := map[];
    for i := 0 to |occurrences|
      invariant byPath.Keys == Paths(occurrences[..i])
      invariant forall p :: p in byPath ==> byPath[p] == RangesOf(occurrences[..i], p)
    {
      var o := occurrences[i];
      assert occurrences[..i + 1] == occurrences[..i] + [o];
      NoRangesElsewhere(occurrences[..i], o.path);
      byPath := byPath[o.path := (if o.path in byPath then byPath[o.path] else []) + [o.range]];
    }
    assert occurrences[..|occurrences|] == occurrences;
  }

  lemma NoFiles(occurrences: seq<Occurrence>)
    ensures FileLines(occurrences, {}) == {}
  {
  }

  method CountRanges(ranges: seq<Range>, ghost occurrences: seq<Occurrence>, ghost path: string) returns (count: nat)
    requires ranges == RangesOf(occurrences, path) && forall o :: o in occurrences ==> 1 <= o.range.start
    ensures count == |Lines(RangesOf(occurrences, path))|
  {
    hide Sorted, Lines, RangesOf;
    var sorted := Sorted(ranges);
    SortedIsOrdered(ranges);
    RangesOfHas(occurrences, path);
    assert OneBased(sorted);
    count := 0;
    var end: nat := 0;
    for i := 0 to |sorted|
      invariant CountInOrder(sorted[..i]) == Count(count, end)
    {
      assert sorted[..i + 1][..i] == sorted[..i];
      assert sorted[i] in sorted;
      var covered := if end < sorted[i].start - 1 then sorted[i].start - 1 else end;
      if sorted[i].last > covered {
        count := count + (sorted[i].last - covered);
      }
      end := if end < sorted[i].last then sorted[i].last else end;
    }
    assert sorted[..|sorted|] == sorted;
    CountsLines(sorted);
    SortedLines(ranges);
  }

  lemma SortedLines(ranges: seq<Range>)
    ensures Lines(Sorted(ranges)) == Lines(ranges)
  {
    SortedIsOrdered(ranges);
    LinesCovers(ranges);
    LinesCovers(Sorted(ranges));
    assert forall n: nat :: Covers(ranges, n) <==> Covers(Sorted(ranges), n);
  }

  lemma {:induction false} NoRangesElsewhere(occurrences: seq<Occurrence>, path: string)
    ensures path !in Paths(occurrences) ==> RangesOf(occurrences, path) == []
  {
    RangesOfHas(occurrences, path);
    if RangesOf(occurrences, path) != [] {
      assert RangesOf(occurrences, path)[0] in RangesOf(occurrences, path);
    }
  }

  lemma OnePathMore(occurrences: seq<Occurrence>, paths: set<string>, path: string)
    requires path !in paths
    ensures |FileLines(occurrences, paths + {path})| ==
      |FileLines(occurrences, paths)| + |Lines(RangesOf(occurrences, path))|
  {
    hide Lines, RangesOf;
    var before, here := FileLines(occurrences, paths), InFile(Lines(RangesOf(occurrences, path)), path);
    assert FileLines(occurrences, paths + {path}) == before + here;
    Tagged(Lines(RangesOf(occurrences, path)), path);
    Elsewhere(occurrences, paths, path);
    assert |before + here| == |before| + |here|;
  }

  lemma Elsewhere(occurrences: seq<Occurrence>, paths: set<string>, path: string)
    requires path !in paths
    ensures FileLines(occurrences, paths) * InFile(Lines(RangesOf(occurrences, path)), path) == {}
  {
    hide Lines, RangesOf;
  }

  ghost function InFile(lines: set<nat>, path: string): set<(string, nat)> {
    set n: nat | n in lines :: (path, n)
  }

  lemma {:induction false} Tagged(lines: set<nat>, path: string)
    ensures |InFile(lines, path)| == |lines|
  {
    if lines != {} {
      var n :| n in lines;
      Tagged(lines - {n}, path);
      assert InFile(lines, path) == InFile(lines - {n}, path) + {(path, n)};
    } else {
      assert InFile(lines, path) == {};
    }
  }

  // In one file, what the review counts is the total length of the merged ranges.
  lemma MergedLengthIsUnion(occurrences: seq<Occurrence>, path: string)
    requires Paths(occurrences) == {path} && forall o :: o in occurrences ==> 1 <= o.range.start <= o.range.last
    ensures TotalLength(Merged(RangesOf(occurrences, path))) == |FileLines(occurrences, Paths(occurrences))|
  {
    hide Lines, RangesOf, FileLines, Merged, MergedInOrder, TotalLength, Interval;
    var ranges := RangesOf(occurrences, path);
    RangesOfHas(occurrences, path);
    MergedIsMerge(ranges);
    var m := Merged(ranges);
    SeparateLength(m);
    LinesCovers(m);
    LinesCovers(ranges);
    assert Lines(m) == Lines(ranges);
    NoFiles(occurrences);
    OnePathMore(occurrences, {}, path);
    assert {} + {path} == {path};
  }
}
