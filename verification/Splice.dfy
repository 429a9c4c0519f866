// Two ways to carry out a set of text edits: copying front to back
// (tools/cleanup/declaration_patterns.cpp) and replacing in place from the last edit to
// the first (tools/cleanup/audit_includes.cpp).
module Splice {
  import opened Basics
  import opened Sorting
  import opened Codec

  datatype Edit<T> = Edit(start: nat, end: nat, replacement: seq<T>)

  datatype Spliced<T> = Output(text: seq<T>) | Overlap

  predicate Within<T>(text: seq<T>, e: Edit<T>) {
    e.start <= e.end <= |text|
  }

  ghost predicate Apart<T>(a: Edit<T>, b: Edit<T>) {
    a.end <= b.start || b.end <= a.start
  }

  // ---------------------------------------------------------------------------
  // Substituting every edit at once
  // ---------------------------------------------------------------------------

  ghost predicate StartsAt<T>(edits: set<Edit<T>>, p: nat) {
    exists e :: e in edits && e.start == p
  }

  ghost predicate Covered<T>(edits: set<Edit<T>>, p: nat) {
    exists e :: e in edits && e.start <= p < e.end
  }

  // What is written before position p: the replacement of the edit that starts there.
  ghost function Inserted<T>(edits: set<Edit<T>>, p: nat): seq<T> {
    if StartsAt(edits, p) then var e :| e in edits && e.start == p; e.replacement else []
  }

  // The text from p on: at every position the replacement that starts there, then the
  // unit that stands there unless an edit covers it.
  ghost function Substituted<T>(text: seq<T>, edits: set<Edit<T>>, p: nat): seq<T>
    decreases |text| - p
  {
    if p > |text| then []
    else
      Inserted(edits, p) + (if p < |text| && !Covered(edits, p) then [text[p]] else [])
        + Substituted(text, edits, p + 1)
  }

  // The edits are pairwise apart and start at different places.
  ghost predicate Distinct<T>(edits: set<Edit<T>>) {
    forall a, b :: a in edits && b in edits && a != b ==> a.start != b.start && Apart(a, b)
  }

  // Where no edit touches the text it is copied.
  lemma {:induction false} Untouched<T>(text: seq<T>, edits: set<Edit<T>>, lo: nat, hi: nat)
    requires lo <= hi <= |text|
    requires forall e :: e in edits ==> hi <= e.start || (e.end <= lo && e.start < lo)
    ensures Substituted(text, edits, lo) == text[lo..hi] + Substituted(text, edits, hi)
    decreases hi - lo
  {
    hide Substituted;
    if lo < hi {
      PlainStep(text, edits, lo);
      Untouched(text, edits, lo + 1, hi);
      Regroup(text, lo, hi, Substituted(text, edits, hi));
    } else {
      assert text[lo..hi] == [];
    }
  }

  lemma Regroup<T>(text: seq<T>, lo: nat, hi: nat, tail: seq<T>)
    requires lo < hi <= |text|
    ensures [text[lo]] + (text[lo + 1..hi] + tail) == text[lo..hi] + tail
  {
    assert text[lo..hi] == [text[lo]] + text[lo + 1..hi];
  }

  lemma PlainStep<T>(text: seq<T>, edits: set<Edit<T>>, p: nat)
    requires p < |text| && !StartsAt(edits, p) && !Covered(edits, p)
    ensures Substituted(text, edits, p) == [text[p]] + Substituted(text, edits, p + 1)
  {
  }

  lemma SubstitutedStep<T>(text: seq<T>, edits: set<Edit<T>>, p: nat)
    requires p <= |text|
    ensures Substituted(text, edits, p)
         == Inserted(edits, p) + (if p < |text| && !Covered(edits, p) then [text[p]] else [])
           + Substituted(text, edits, p + 1)
  {
  }

  // Edits that end at or before p, and start before it, do not matter from p on.
  lemma {:induction false} Forgotten<T>(text: seq<T>, edits: set<Edit<T>>, e: Edit<T>, p: nat)
    requires Distinct(edits) && e in edits && e.end <= p && e.start < p
    ensures Substituted(text, edits, p) == Substituted(text, edits - {e}, p)
    decreases |text| - p
  {
    hide Substituted, Inserted, Covered;
    if p <= |text| {
      Forgotten(text, edits, e, p + 1);
      SubstitutedStep(text, edits, p);
      SubstitutedStep(text, edits - {e}, p);
      SameInserted(edits, edits - {e}, p);
      SameCovered(edits, edits - {e}, p);
    } else {
      PastTheEnd(text, edits, p);
      PastTheEnd(text, edits - {e}, p);
    }
  }

  lemma PastTheEnd<T>(text: seq<T>, edits: set<Edit<T>>, p: nat)
    requires p > |text|
    ensures Substituted(text, edits, p) == []
  {
  }

  lemma SameCovered<T>(a: set<Edit<T>>, b: set<Edit<T>>, p: nat)
    requires b <= a && forall x :: x in a && x.start <= p < x.end ==> x in b
    ensures Covered(a, p) <==> Covered(b, p)
  {
  }

  lemma SameInserted<T>(a: set<Edit<T>>, b: set<Edit<T>>, p: nat)
    requires forall x :: (x in a && x.start == p) <==> (x in b && x.start == p)
    requires forall x, y :: x in a && y in a && x.start == p && y.start == p ==> x == y
    ensures Inserted(a, p) == Inserted(b, p)
  {
    if StartsAt(a, p) {
      var e :| e in a && e.start == p;
      assert e in b;
    }
  }

  // e is the first of the edits: the others start after it, and not inside it.
  ghost predicate FirstEdit<T>(text: seq<T>, edits: set<Edit<T>>, e: Edit<T>) {
    && Distinct(edits) && e in edits && Within(text, e)
    && forall x :: x in edits && x != e ==> e.end <= x.start && e.start < x.start
  }

  // The first edit of all takes effect on its own; the others apply after it.
  lemma TakeFirst<T>(text: seq<T>, edits: set<Edit<T>>, e: Edit<T>, p: nat)
    requires FirstEdit(text, edits, e) && p <= e.start
    ensures Substituted(text, edits, p) == text[p..e.start] + e.replacement + Substituted(text, edits - {e}, e.end)
  {
    hide Substituted, Distinct;
    Untouched(text, edits, p, e.start);
    if e.start == e.end {
      TakeInsertion(text, edits, e);
    } else {
      TakeReplacement(text, edits, e);
    }
    Associate(text[p..e.start], e.replacement, Substituted(text, edits - {e}, e.end));
  }

  lemma TakeInsertion<T>(text: seq<T>, edits: set<Edit<T>>, e: Edit<T>)
    requires FirstEdit(text, edits, e) && e.start == e.end
    ensures Substituted(text, edits, e.start) == e.replacement + Substituted(text, edits - {e}, e.end)
  {
    hide Substituted, Inserted, Distinct;
    var others := edits - {e};
    InsertedIs(edits, e);
    InsertedNot(others, e.start);
    assert !Covered(edits, e.start) && !Covered(others, e.start);
    Forgotten(text, edits, e, e.start + 1);
    SubstitutedStep(text, edits, e.start);
    SubstitutedStep(text, others, e.start);
    var unit := if e.start < |text| then [text[e.start]] else [];
    Associate(e.replacement, unit, Substituted(text, edits, e.start + 1));
    assert [] + unit == unit;
  }

  lemma TakeReplacement<T>(text: seq<T>, edits: set<Edit<T>>, e: Edit<T>)
    requires FirstEdit(text, edits, e) && e.start < e.end
    ensures Substituted(text, edits, e.start) == e.replacement + Substituted(text, edits - {e}, e.end)
  {
    hide Substituted, Inserted, Distinct;
    InsertedIs(edits, e);
    Skipped(text, edits, e, e.start + 1);
    assert Covered(edits, e.start);
    Forgotten(text, edits, e, e.end);
    SubstitutedStep(text, edits, e.start);
    assert e.replacement + [] == e.replacement;
  }

  lemma InsertedNot<T>(edits: set<Edit<T>>, p: nat)
    requires forall x :: x in edits ==> x.start != p
    ensures Inserted(edits, p) == []
  {
  }

  lemma InsertedIs<T>(edits: set<Edit<T>>, e: Edit<T>)
    requires e in edits && forall x :: x in edits && x != e ==> e.start != x.start
    ensures Inserted(edits, e.start) == e.replacement
  {
    assert StartsAt(edits, e.start);
  }

  // Inside an edit nothing is written.
  lemma {:induction false} Skipped<T>(text: seq<T>, edits: set<Edit<T>>, e: Edit<T>, p: nat)
    requires e in edits && Within(text, e) && e.start < p <= e.end
    requires forall x :: x in edits && x != e ==> e.end <= x.start
    ensures Substituted(text, edits, p) == Substituted(text, edits, e.end)
    decreases e.end - p
  {
    if p < e.end {
      assert Covered(edits, p) && !StartsAt(edits, p);
      Skipped(text, edits, e, p + 1);
    }
  }

  // ---------------------------------------------------------------------------
  // Copying front to back
  // ---------------------------------------------------------------------------

  function Set<T(==)>(edits: seq<Edit<T>>): set<Edit<T>> {
    set e | e in edits
  }

  predicate Ascending<T>(a: Edit<T>, b: Edit<T>) {
    a.start < b.start || (a.start == b.start && a.end < b.end)
  }

  // The edits by start, then by end.
  function ByStart<T(!new)>(edits: seq<Edit<T>>): (r: seq<Edit<T>>)
    ensures multiset(r) == multiset(edits)
    ensures forall i, j :: 0 <= i < j < |r| ==> !Ascending(r[j], r[i])
  {
    var less := (a, b) => Ascending(a, b);
    assert WeakOrder(less);
    SortSorts(edits, less);
    Sort(edits, less)
  }

  // The edits by start, then by end, and otherwise as they were collected.
  lemma CollectedInOrder<T(!new)>(edits: seq<Edit<T>>)
    ensures var sorted := ByStart(edits);
      && (forall i, j :: 0 <= i < j < |sorted| ==>
            sorted[i].start < sorted[j].start || (sorted[i].start == sorted[j].start && sorted[i].end <= sorted[j].end))
      && forall start, end :: Spanning(sorted, start, end) == Spanning(edits, start, end)
  {
    var sorted, less := ByStart(edits), (a, b) => Ascending(a, b);
    assert WeakOrder(less);
    forall i, j | 0 <= i < j < |sorted|
      ensures sorted[i].start < sorted[j].start
        || (sorted[i].start == sorted[j].start && sorted[i].end <= sorted[j].end)
    {
      assert !Ascending(sorted[j], sorted[i]);
    }
    forall start, end
      ensures Spanning(sorted, start, end) == Spanning(edits, start, end)
    {
      SortIsStable(edits, Edit(start, end, []), less);
      SpanningIsAlike(sorted, start, end);
      SpanningIsAlike(edits, start, end);
    }
  }

  // The edits of exactly this span.
  function Spanning<T>(edits: seq<Edit<T>>, start: nat, end: nat): seq<Edit<T>> {
    if edits == [] then []
    else
      var n := |edits| - 1;
      Spanning(edits[..n], start, end) + if edits[n].start == start && edits[n].end == end then [edits[n]] else []
  }

  lemma {:induction false} SpanningIsAlike<T(!new)>(edits: seq<Edit<T>>, start: nat, end: nat)
    ensures Spanning(edits, start, end) == Alike(edits, Edit(start, end, []), (a, b) => Ascending(a, b))
  {
    if edits != [] {
      SpanningIsAlike(edits[..|edits| - 1], start, end);
    }
  }

  // The rest of the output when `cursor` has been reached.
  function CopiedFrom<T>(text: seq<T>, edits: seq<Edit<T>>, cursor: nat): Spliced<T>
    requires cursor <= |text| && forall e :: e in edits ==> Within(text, e)
  {
    if edits == [] then Output(text[cursor..])
    else if edits[0].start < cursor then Overlap
    else
      assert Within(text, edits[0]);
      var rest := CopiedFrom(text, edits[1..], edits[0].end);
      if rest.Overlap? then Overlap else Output(text[cursor..edits[0].start] + edits[0].replacement + rest.text)
  }

  // Output follows what was written before.
  function After<T>(prior: seq<T>, s: Spliced<T>): Spliced<T> {
    if s.Output? then Output(prior + s.text) else s
  }

  method SpliceForward<T(!new)>(text: seq<T>, edits: seq<Edit<T>>) returns (r: Spliced<T>)
    requires forall e :: e in edits ==> Within(text, e)
    ensures (forall e :: e in ByStart(edits) ==> Within(text, e))
    ensures r == CopiedFrom(text, ByStart(edits), 0)
  {
    var sorted := ByStart(edits);
    Sorting.SameMembers(edits, sorted);
    var output: seq<T> := [];
    var cursor: nat := 0;
    var i := 0;
    while i < |sorted|
      invariant 0 <= i <= |sorted| && cursor <= |text|
      invariant CopiedFrom(text, sorted, 0) == After(output, CopiedFrom(text, sorted[i..], cursor))
    {
      hide CopiedFrom, Ascending;
      var e := sorted[i];
      assert e in sorted;
      CopiedStep(text, sorted, i, cursor, output);
      if e.start < cursor {
        return Overlap;
      }
      output := output + text[cursor..e.start];
      output := output + e.replacement;
      cursor := e.end;
      i := i + 1;
    }
    output := output + text[cursor..];
    r := Output(output);
  }

  lemma CopiedStep<T>(text: seq<T>, edits: seq<Edit<T>>, i: nat, cursor: nat, prior: seq<T>)
    requires i < |edits| && cursor <= |text| && forall e :: e in edits ==> Within(text, e)
    ensures Within(text, edits[i])
    ensures After(prior, CopiedFrom(text, edits[i..], cursor))
         == if edits[i].start < cursor then Overlap
            else After(prior + text[cursor..edits[i].start] + edits[i].replacement,
              CopiedFrom(text, edits[i + 1..], edits[i].end))
  {
    assert edits[i] in edits;
    assert edits[i..][1..] == edits[i + 1..];
    if edits[i].start >= cursor {
      var slice, e := text[cursor..edits[i].start], edits[i];
      var rest := CopiedFrom(text, edits[i + 1..], e.end);
      if rest.Output? {
        Associate(slice, e.replacement, rest.text);
        Associate(prior, slice + e.replacement, rest.text);
        Associate(prior, slice, e.replacement);
      }
    }
  }

  ghost predicate InTurn<T>(edits: seq<Edit<T>>, cursor: nat) {
    && (forall i :: 0 <= i < |edits| ==> cursor <= edits[i].start)
    && (forall i, j :: 0 <= i < j < |edits| ==> edits[i].end <= edits[j].start)
  }

  lemma InTurnSplits<T>(edits: seq<Edit<T>>, cursor: nat)
    requires edits != [] && edits[0].start <= edits[0].end
    ensures InTurn(edits, cursor) <==> cursor <= edits[0].start && InTurn(edits[1..], edits[0].end)
  {
    var rest := edits[1..];
    if InTurn(edits, cursor) {
      assert forall i :: 0 <= i < |rest| ==> rest[i] == edits[i + 1];
    }
    if cursor <= edits[0].start && InTurn(rest, edits[0].end) {
      forall i, j | 0 <= i < j < |edits|
        ensures edits[i].end <= edits[j].start
      {
        assert edits[j] == rest[j - 1] && (i > 0 ==> edits[i] == rest[i - 1]);
      }
      forall i | 0 < i < |edits|
        ensures cursor <= edits[i].start
      {
        assert edits[i] == rest[i - 1];
      }
    }
  }

  // Copying succeeds exactly when every edit starts after the ones before it.
  lemma {:induction false} CopiesInTurn<T>(text: seq<T>, edits: seq<Edit<T>>, cursor: nat)
    requires cursor <= |text| && (forall e :: e in edits ==> Within(text, e))
    ensures CopiedFrom(text, edits, cursor).Output? <==> InTurn(edits, cursor)
    decreases |edits|
  {
    hide InTurn;
    if edits != [] {
      assert Within(text, edits[0]);
      CopiesInTurn(text, edits[1..], edits[0].end);
      InTurnSplits(edits, cursor);
    } else {
      NothingInTurn<T>(cursor);
    }
  }

  lemma NothingInTurn<T>(cursor: nat)
    ensures InTurn<T>([], cursor)
  {
  }

  // Two of the edits overlap, wherever they stand in the list.
  ghost predicate Overlapping<T>(edits: seq<Edit<T>>) {
    exists i, j :: 0 <= i < j < |edits| && !Apart(edits[i], edits[j])
  }

  lemma OverlapPermutes<T>(s: seq<Edit<T>>, t: seq<Edit<T>>)
    requires multiset(s) == multiset(t) && Overlapping(s)
    ensures Overlapping(t)
  {
    var i, j :| 0 <= i < j < |s| && !Apart(s[i], s[j]);
    assert s[i] in multiset(t) && s[j] in multiset(t);
    if s[i] == s[j] {
      Sorting.TwiceCounts(s, i, j);
      var k, l := Sorting.Twice(t, s[i]);
      assert !Apart(t[k], t[l]);
    } else {
      var k :| 0 <= k < |t| && t[k] == s[i];
      var l :| 0 <= l < |t| && t[l] == s[j];
      assert if k < l then !Apart(t[k], t[l]) else !Apart(t[l], t[k]);
    }
  }

  // The copying splice reports an overlap exactly when two of the collected edits overlap.
  lemma OverlapReported<T(!new)>(text: seq<T>, edits: seq<Edit<T>>)
    requires forall e :: e in edits ==> Within(text, e)
    ensures forall e :: e in ByStart(edits) ==> Within(text, e)
    ensures CopiedFrom(text, ByStart(edits), 0).Overlap? <==> Overlapping(edits)
  {
    hide ByStart, CopiedFrom;
    var up := ByStart(edits);
    Sorting.SameMembers(edits, up);
    CopiesInTurn(text, up, 0);
    forall i, j | 0 <= i < j < |up|
      ensures Apart(up[i], up[j]) <==> up[i].end <= up[j].start
    {
      assert Within(text, up[i]) && Within(text, up[j]);
      assert !Ascending(up[j], up[i]);
    }
    if Overlapping(edits) {
      OverlapPermutes(edits, up);
    }
    if Overlapping(up) {
      OverlapPermutes(up, edits);
    }
  }

  // Copying front to back substitutes the edits that are left.
  lemma {:induction false} CopiedIsSubstituted<T>(text: seq<T>, edits: seq<Edit<T>>, cursor: nat)
    requires cursor <= |text| && (forall e :: e in edits ==> Within(text, e) && cursor <= e.start)
    requires StrictlyInTurn(edits)
    ensures CopiedFrom(text, edits, cursor) == Output(Substituted(text, Set(edits), cursor))
    decreases |edits|
  {
    if edits == [] {
      CopiesRest(text, cursor);
    } else {
      hide Substituted, Distinct;
      var e, rest := edits[0], edits[1..];
      RestOfList(edits);
      HeadIsFirst(text, edits);
      assert Set(edits) - {e} == Set(rest);
      assert Within(text, e);
      CopiedIsSubstituted(text, rest, e.end);
      TakeFirst(text, Set(edits), e, cursor);
    }
  }

  ghost predicate StrictlyInTurn<T>(edits: seq<Edit<T>>) {
    forall i, j :: 0 <= i < j < |edits| ==> edits[i].end <= edits[j].start && edits[i].start < edits[j].start
  }

  lemma CopiesRest<T>(text: seq<T>, cursor: nat)
    requires cursor <= |text|
    ensures Substituted(text, Set<T>([]), cursor) == text[cursor..]
  {
    Untouched(text, {}, cursor, |text|);
    assert Set<T>([]) == {};
    assert Substituted(text, {}, |text|) == [];
  }

  lemma HeadIsFirst<T>(text: seq<T>, edits: seq<Edit<T>>)
    requires edits != [] && StrictlyInTurn(edits) && forall e :: e in edits ==> Within(text, e)
    ensures FirstEdit(text, Set(edits), edits[0])
    ensures StrictlyInTurn(edits[1..]) && forall x :: x in edits[1..] ==> edits[0].end <= x.start
    ensures edits[0] !in edits[1..]
  {
    RestOfList(edits);
    ListDistinct(edits);
  }

  lemma ListDistinct<T>(edits: seq<Edit<T>>)
    requires StrictlyInTurn(edits)
    ensures Distinct(Set(edits))
  {
    forall a, b | a in Set(edits) && b in Set(edits) && a != b
      ensures a.start != b.start && Apart(a, b)
    {
      var i :| 0 <= i < |edits| && edits[i] == a;
      var j :| 0 <= j < |edits| && edits[j] == b;
      assert i < j || j < i;
    }
  }

  // ---------------------------------------------------------------------------
  // Replacing in place, last edit first
  // ---------------------------------------------------------------------------

  predicate Descending<T>(a: Edit<T>, b: Edit<T>) {
    a.start > b.start
  }

  // The edits by start, the last one first.
  function ByStartDown<T(!new)>(edits: seq<Edit<T>>): (r: seq<Edit<T>>)
    ensures multiset(r) == multiset(edits)
    ensures forall i, j :: 0 <= i < j < |r| ==> !Descending(r[j], r[i])
  {
    var less := (a, b) => Descending(a, b);
    assert WeakOrder(less);
    SortSorts(edits, less);
    Sort(edits, less)
  }

  predicate Fits<T>(text: seq<T>, edits: seq<Edit<T>>)
    decreases |edits|
  {
    edits == []
      || (Within(text, edits[0])
           && Fits(text[..edits[0].start] + edits[0].replacement + text[edits[0].end..], edits[1..]))
  }

  function Replaced<T>(text: seq<T>, edits: seq<Edit<T>>): seq<T>
    requires Fits(text, edits)
    decreases |edits|
  {
    if edits == [] then text
    else Replaced(text[..edits[0].start] + edits[0].replacement + text[edits[0].end..], edits[1..])
  }

  method SpliceBackward<T(!new)>(text: seq<T>, edits: seq<Edit<T>>) returns (after: seq<T>)
    requires Fits(text, ByStartDown(edits))
    ensures after == Replaced(text, ByStartDown(edits))
  {
    var sorted := ByStartDown(edits);
    after := text;
    var i := 0;
    while i < |sorted|
      invariant 0 <= i <= |sorted|
      invariant Fits(after, sorted[i..]) && Replaced(after, sorted[i..]) == Replaced(text, sorted)
    {
      var e := sorted[i];
      assert sorted[i..][1..] == sorted[i + 1..];
      after := after[..e.start] + e.replacement + after[e.end..];
      i := i + 1;
    }
  }

  // When the edits in `done` have been replaced and the remaining ones stand before
  // them, replacing the remaining ones substitutes all of them.
  lemma {:induction false} ReplacedIsSubstituted<T>(
      text: seq<T>, after: seq<T>, done: set<Edit<T>>, edits: seq<Edit<T>>)
    requires Distinct(done + Set(edits)) && (forall e :: e in edits ==> Within(text, e))
    requires forall i, j :: 0 <= i < j < |edits| ==> edits[j].start < edits[i].start
    requires forall d :: d in done ==> Within(text, d)
    requires forall d, e :: d in done && e in edits ==> e.start < d.start
    requires after == Substituted(text, done, 0)
    ensures Fits(after, edits) && Replaced(after, edits) == Substituted(text, done + Set(edits), 0)
    decreases |edits|
  {
    hide Substituted, Within, Distinct;
    if edits == [] {
      assert done + Set(edits) == done;
    } else {
      var e, rest := edits[0], edits[1..];
      var next := done + {e};
      RestOfList(edits);
      DistinctPart(done + Set(edits), next);
      ReplaceOne(text, done, e);
      assert next + Set(rest) == done + Set(edits);
      var result := after[..e.start] + e.replacement + after[e.end..];
      ReplacedIsSubstituted(text, result, next, rest);
    }
  }

  lemma RestOfList<T>(edits: seq<Edit<T>>)
    requires edits != []
    ensures edits[0] in edits && Set(edits) == {edits[0]} + Set(edits[1..])
    ensures forall x :: x in edits[1..] ==> x in edits && exists k :: 0 < k < |edits| && edits[k] == x
  {
    forall x | x in edits[1..]
      ensures exists k :: 0 < k < |edits| && edits[k] == x
    {
      var k :| 0 <= k < |edits[1..]| && edits[1..][k] == x;
      assert edits[k + 1] == x;
    }
  }

  lemma DistinctPart<T>(all: set<Edit<T>>, part: set<Edit<T>>)
    requires Distinct(all) && part <= all
    ensures Distinct(part)
  {
  }

  lemma ReplaceOne<T>(text: seq<T>, done: set<Edit<T>>, e: Edit<T>)
    requires Distinct(done + {e}) && Within(text, e) && forall d :: d in done ==> Within(text, d) && e.start < d.start
    ensures var after := Substituted(text, done, 0);
      && Within(after, e)
      && after[..e.start] + e.replacement + after[e.end..] == Substituted(text, done + {e}, 0)
  {
    var all := done + {e};
    assert all - {e} == done;
    forall d | d in all && d != e
      ensures e.end <= d.start && e.start < d.start
    {
      assert Apart(d, e);
    }
    TakeFirst(text, all, e, 0);
    Untouched(text, done, 0, e.end);
    var tail := Substituted(text, done, e.end);
    var after := Substituted(text, done, 0);
    assert after == text[..e.end] + tail;
    assert after[..e.start] == text[..e.start] && after[e.end..] == tail;
  }

  // ---------------------------------------------------------------------------
  // Both do the same
  // ---------------------------------------------------------------------------

  // For edits that are pairwise apart and start at different places, in whatever order
  // they were collected, both ways write the simultaneous substitution.
  lemma BothSubstitute<T(!new)>(text: seq<T>, edits: seq<Edit<T>>)
    requires (forall e :: e in edits ==> Within(text, e)) && Distinct(Set(edits))
    requires forall i, j :: 0 <= i < j < |edits| ==> edits[i] != edits[j]
    ensures forall e :: e in ByStart(edits) ==> Within(text, e)
    ensures CopiedFrom(text, ByStart(edits), 0) == Output(Substituted(text, Set(edits), 0))
    ensures Fits(text, ByStartDown(edits))
    ensures Replaced(text, ByStartDown(edits)) == Substituted(text, Set(edits), 0)
  {
    ForwardSubstitutes(text, edits);
    BackwardSubstitutes(text, edits);
  }

  lemma ForwardSubstitutes<T(!new)>(text: seq<T>, edits: seq<Edit<T>>)
    requires (forall e :: e in edits ==> Within(text, e)) && Distinct(Set(edits))
    requires forall i, j :: 0 <= i < j < |edits| ==> edits[i] != edits[j]
    ensures forall e :: e in ByStart(edits) ==> Within(text, e)
    ensures CopiedFrom(text, ByStart(edits), 0) == Output(Substituted(text, Set(edits), 0))
  {
    var up := ByStart(edits);
    Sorting.SameMembers(edits, up);
    Sorting.StillDifferent(edits, up);
    assert Set(up) == Set(edits);
    forall i, j | 0 <= i < j < |up|
      ensures up[i].end <= up[j].start && up[i].start < up[j].start
    {
      assert !Ascending(up[j], up[i]);
      assert up[i] in Set(edits) && up[j] in Set(edits) && up[i] != up[j];
      assert Apart(up[i], up[j]);
    }
    CopiedIsSubstituted(text, up, 0);
  }

  lemma BackwardSubstitutes<T(!new)>(text: seq<T>, edits: seq<Edit<T>>)
    requires (forall e :: e in edits ==> Within(text, e)) && Distinct(Set(edits))
    requires forall i, j :: 0 <= i < j < |edits| ==> edits[i] != edits[j]
    ensures Fits(text, ByStartDown(edits))
    ensures Replaced(text, ByStartDown(edits)) == Substituted(text, Set(edits), 0)
  {
    var down := ByStartDown(edits);
    Sorting.SameMembers(edits, down);
    Sorting.StillDifferent(edits, down);
    assert Set(down) == Set(edits);
    forall i, j | 0 <= i < j < |down|
      ensures down[j].start < down[i].start
    {
      assert !Descending(down[j], down[i]);
      assert down[i] in Set(edits) && down[j] in Set(edits) && down[i] != down[j];
    }
    assert {} + Set(down) == Set(down);
    NothingSubstituted(text);
    hide Substituted, Distinct, Within, Replaced, Fits;
    ReplacedIsSubstituted(text, text, {}, down);
  }

  lemma NothingSubstituted<T>(text: seq<T>)
    ensures Substituted(text, {}, 0) == text
  {
    Untouched(text, {}, 0, |text|);
    assert Substituted(text, {}, |text|) == [];
    assert text[0..|text|] + [] == text;
  }

  // ---------------------------------------------------------------------------
  // Writing the pieces as bytes
  // ---------------------------------------------------------------------------

  // The copying splice encodes every slice on its own and appends encoded replacements.
  function CopiedBytes(text: seq<CodeUnit>, edits: seq<Edit<CodeUnit>>, cursor: nat): seq<Byte>
    requires cursor <= |text| && (forall e :: e in edits ==> Within(text, e)) && InTurn(edits, cursor)
  {
    if edits == [] then Utf8(text[cursor..])
    else
      assert Within(text, edits[0]);
      InTurnSplits(edits, cursor);
      Utf8(text[cursor..edits[0].start]) + Utf8(edits[0].replacement) + CopiedBytes(text, edits[1..], edits[0].end)
  }

  lemma {:induction false} PairedCut(u: seq<CodeUnit>, k: nat)
    requires Paired(u) && k <= |u| && !SplitsPair(u[..k], u[k..])
    ensures Paired(u[..k]) && Paired(u[k..])
    decreases |u|
  {
    if k == 0 {
      assert u[k..] == u;
    } else {
      var n := if StartsWithPair(u) then 2 else 1;
      if k < n {
        assert false;
      }
      assert u[n..][..k - n] == u[..k][n..] && u[n..][k - n..] == u[k..];
      assert k > n ==> u[n..][..k - n][|u[..k]| - n - 1] == u[k - 1];
      PairedCut(u[n..], k - n);
    }
  }

  lemma {:induction false} PairedEnds(u: seq<CodeUnit>)
    requires Paired(u) && u != []
    ensures !HighSurrogate(u[|u| - 1])
    decreases |u|
  {
    var n := if StartsWithPair(u) then 2 else 1;
    if n < |u| {
      PairedEnds(u[n..]);
    }
  }

  lemma PairedJoins(a: seq<CodeUnit>, b: seq<CodeUnit>)
    requires Paired(a)
    ensures Utf8(a + b) == Utf8(a) + Utf8(b)
  {
    if a != [] {
      PairedEnds(a);
    }
    Utf8JoinsExactly(a, b);
  }

  predicate KeepsPairs(text: seq<CodeUnit>, e: Edit<CodeUnit>) {
    && Within(text, e) && Paired(e.replacement)
    && !SplitsPair(text[..e.start], text[e.start..]) && !SplitsPair(text[..e.end], text[e.end..])
  }

  // For valid text and replacements, and edits whose ends keep surrogate pairs together,
  // the bytes are those of the substituted text.
  lemma {:induction false} BytesOfCopy(text: seq<CodeUnit>, edits: seq<Edit<CodeUnit>>, cursor: nat)
    requires cursor <= |text| && (forall e :: e in edits ==> Within(text, e)) && InTurn(edits, cursor)
    requires Paired(text) && !SplitsPair(text[..cursor], text[cursor..])
    requires forall e :: e in edits ==> KeepsPairs(text, e)
    ensures CopiedFrom(text, edits, cursor).Output?
      && CopiedBytes(text, edits, cursor) == Utf8(CopiedFrom(text, edits, cursor).text)
    decreases |edits|
  {
    hide Utf8, Paired;
    CopiesInTurn(text, edits, cursor);
    if edits != [] {
      var e, rest := edits[0], edits[1..];
      assert KeepsPairs(text, e);
      InTurnSplits(edits, cursor);
      BytesOfCopy(text, rest, e.end);
      SliceIsPaired(text, cursor, e.start);
      var slice := text[cursor..e.start];
      PairedJoins(slice, e.replacement + CopiedFrom(text, rest, e.end).text);
      PairedJoins(e.replacement, CopiedFrom(text, rest, e.end).text);
      Associate(slice, e.replacement, CopiedFrom(text, rest, e.end).text);
      Associate(Utf8(slice), Utf8(e.replacement), CopiedBytes(text, rest, e.end));
    }
  }

  lemma SliceIsPaired(text: seq<CodeUnit>, a: nat, b: nat)
    requires a <= b <= |text| && Paired(text) && !SplitsPair(text[..a], text[a..]) && !SplitsPair(text[..b], text[b..])
    ensures Paired(text[a..b])
  {
    PairedCut(text, b);
    var u := text[..b];
    assert u[..a] == text[..a] && u[a..] == text[a..b];
    assert a < b ==> u[a..][0] == text[a..][0];
    PairedCut(u, a);
  }
}
