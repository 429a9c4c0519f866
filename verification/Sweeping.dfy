// Which raw matches overlap which candidates: the event sweep of a review
// (tools/cleanup/review_patterns.cpp).
module Sweeping {
  import Sorting

  datatype Occurrence = Occurrence(path: string, start: nat, end: nat)

  datatype Match = Match(id: nat, occurrences: seq<Occurrence>)

  // An occurrence of one file: of a candidate by its index, or of a match by its id.
  datatype Span = Span(start: nat, end: nat, candidate: bool, value: nat)

  datatype Event = Event(at: nat, open: bool, candidate: bool, value: nat)

  // A close goes before an open at the same place.
  predicate Before(a: Event, b: Event) {
    if a.at != b.at then a.at < b.at else !a.open && b.open
  }

  function Events(spans: seq<Span>): (r: seq<Event>)
    ensures |r| == 2 * |spans|
  {
    if spans == [] then []
    else
      var span := spans[|spans| - 1];
      Events(spans[..|spans| - 1])
        + [Event(span.start, true, span.candidate, span.value), Event(span.end, false, span.candidate, span.value)]
  }

  function Ordered(events: seq<Event>): seq<Event> {
    Sorting.Sort(events, Before)
  }

  // The open candidates, how often each match is open, and the ids each candidate has.
  datatype Sweep = Sweep(candidates: set<nat>, raw: map<nat, int>, ids: seq<set<nat>>)

  function Swept(sweep: Sweep, event: Event): (r: Sweep)
    ensures |r.ids| == |sweep.ids|
  {
    var v := event.value;
    var count := if v in sweep.raw then sweep.raw[v] else 0;
    if event.candidate then
      if event.open then
        Sweep(sweep.candidates + {v}, sweep.raw,
          if v < |sweep.ids| then sweep.ids[v := sweep.ids[v] + sweep.raw.Keys] else sweep.ids)
      else Sweep(sweep.candidates - {v}, sweep.raw, sweep.ids)
    else if event.open then
      Sweep(sweep.candidates, sweep.raw[v := count + 1], WithId(sweep.ids, sweep.candidates, v))
    else Sweep(sweep.candidates, if count - 1 == 0 then sweep.raw - {v} else sweep.raw[v := count - 1], sweep.ids)
  }

  function WithId(ids: seq<set<nat>>, candidates: set<nat>, id: nat): (r: seq<set<nat>>)
    ensures |r| == |ids|
  {
    seq(|ids|, i requires 0 <= i < |ids| => if i in candidates then ids[i] + {id} else ids[i])
  }

  function SweptAll(ids: seq<set<nat>>, events: seq<Event>): (r: Sweep)
    ensures |r.ids| == |ids|
  {
    if events == [] then Sweep({}, map[], ids) else Swept(SweptAll(ids, events[..|events| - 1]), events[|events| - 1])
  }

  // ---------------------------------------------------------------------------
  // Events know their spans: the sorted events with the span each one belongs to
  // ---------------------------------------------------------------------------

  datatype Tag = Tag(span: nat, open: bool)

  function Tags(n: nat): seq<Tag> {
    if n == 0 then [] else Tags(n - 1) + [Tag(n - 1, true), Tag(n - 1, false)]
  }

  function Reader(spans: seq<Span>): Tag -> Event {
    (t: Tag) => if t.span >= |spans| then Event(0, false, false, 0)
         else
           var span := spans[t.span];
           Event(if t.open then span.start else span.end, t.open, span.candidate, span.value)
  }

  function TagOrder(spans: seq<Span>): (Tag, Tag) -> bool {
    Sorting.Through(Reader(spans), Before)
  }

  function OrderedTags(spans: seq<Span>): seq<Tag> {
    Sorting.Sort(Tags(|spans|), TagOrder(spans))
  }

  lemma {:induction false} TagsRead(spans: seq<Span>, n: nat)
    requires n <= |spans|
    ensures Sorting.Map(Tags(n), Reader(spans)) == Events(spans[..n])
  {
    if n > 0 {
      TagsRead(spans, n - 1);
      assert spans[..n][..n - 1] == spans[..n - 1];
      var f := Reader(spans);
      assert Sorting.Map(Tags(n), f) == Sorting.Map(Tags(n - 1), f) + [f(Tag(n - 1, true)), f(Tag(n - 1, false))];
    }
  }

  lemma OrderedTagsRead(spans: seq<Span>)
    ensures Sorting.Map(OrderedTags(spans), Reader(spans)) == Ordered(Events(spans))
  {
    TagsRead(spans, |spans|);
    assert spans[..|spans|] == spans;
    Sorting.SortThrough(Tags(|spans|), Reader(spans), Before);
  }

  lemma {:induction false} TagsOnce(n: nat)
    ensures forall t :: t in Tags(n) <==> t.span < n
    ensures forall t :: multiset(Tags(n))[t] <= 1
  {
    if n > 0 {
      TagsOnce(n - 1);
    }
  }

  // Every tag stands at one place, in order.
  ghost predicate Arranged(spans: seq<Span>, tags: seq<Tag>) {
    && (forall t :: t in tags <==> t.span < |spans|)
    && (forall p, q :: 0 <= p < q < |tags| ==> tags[p] != tags[q])
    && (forall p, q :: 0 <= p < q < |tags| ==> !Before(Reader(spans)(tags[q]), Reader(spans)(tags[p])))
  }

  lemma BeforeIsOrder()
    ensures Sorting.WeakOrder(Before)
  {
  }

  lemma OrderedTagsArranged(spans: seq<Span>)
    ensures Arranged(spans, OrderedTags(spans))
  {
    var tags, less := OrderedTags(spans), TagOrder(spans);
    TagsOnce(|spans|);
    BeforeIsOrder();
    Sorting.ThroughIsOrder(Reader(spans), Before);
    Sorting.SortSorts(Tags(|spans|), less);
    Sorting.SortKeeps(Tags(|spans|), less);
    forall p, q | 0 <= p < q < |tags|
      ensures tags[p] != tags[q]
      ensures !Before(Reader(spans)(tags[q]), Reader(spans)(tags[p]))
    {
      assert !less(tags[q], tags[p]);
      if tags[p] == tags[q] {
        Sorting.TwiceCounts(tags, p, q);
        assert false;
      }
    }
  }

  // ---------------------------------------------------------------------------
  // The open spans
  // ---------------------------------------------------------------------------

  ghost function Open(tags: seq<Tag>): set<nat> {
    set t | t in tags && t.open && Tag(t.span, false) !in tags :: t.span
  }

  ghost predicate Proper(spans: seq<Span>) {
    forall i :: 0 <= i < |spans| ==> spans[i].start < spans[i].end
  }

  // Candidates are numbered, so no two spans are of one candidate.
  ghost predicate Distinct(spans: seq<Span>) {
    forall i, j :: 0 <= i < j < |spans| && spans[i].candidate && spans[j].candidate ==> spans[i].value != spans[j].value
  }

  // A span opens once, and closes while it is open.
  lemma OpenSteps(spans: seq<Span>, tags: seq<Tag>, k: nat)
    requires Arranged(spans, tags) && Proper(spans) && k < |tags|
    ensures tags[k].span < |spans|
    ensures tags[k].open ==> tags[k].span !in Open(tags[..k]) && Open(tags[..k + 1]) == Open(tags[..k]) + {tags[k].span}
    ensures !tags[k].open ==> tags[k].span in Open(tags[..k]) && Open(tags[..k + 1]) == Open(tags[..k]) - {tags[k].span}
  {
    hide Open;
    var t := tags[k];
    var p := OtherPlace(spans, tags, k);
    OpenGrows(tags[..k], t);
    assert tags[..k + 1] == tags[..k] + [t];
    OnceBefore(tags, k, k);
    OnceBefore(tags, p, k);
  }

  // The other tag of the same span stands after an open, and before a close.
  lemma OtherPlace(spans: seq<Span>, tags: seq<Tag>, k: nat) returns (p: nat)
    requires Arranged(spans, tags) && Proper(spans) && k < |tags|
    ensures tags[k].span < |spans|
    ensures p < |tags| && tags[p] == Tag(tags[k].span, !tags[k].open) && (if tags[k].open then k < p else p < k)
  {
    var t := tags[k];
    assert t in tags;
    var other := Tag(t.span, !t.open);
    assert other in tags;
    p :| 0 <= p < |tags| && tags[p] == other;
    assert if t.open then Before(Reader(spans)(t), Reader(spans)(other))
      else Before(Reader(spans)(other), Reader(spans)(t));
  }

  lemma OnceBefore(tags: seq<Tag>, p: nat, k: nat)
    requires p < |tags| && k <= |tags| && forall i, j :: 0 <= i < j < |tags| ==> tags[i] != tags[j]
    ensures tags[p] in tags[..k] <==> p < k
  {
    if p < k {
      assert tags[..k][p] == tags[p];
    }
  }

  lemma OpenGrows(now: seq<Tag>, t: Tag)
    requires t !in now
    ensures var other := Tag(t.span, !t.open);
      && (t.open && other !in now ==> t.span !in Open(now) && Open(now + [t]) == Open(now) + {t.span})
      && (!t.open && other in now ==> t.span in Open(now) && Open(now + [t]) == Open(now) - {t.span})
  {
    forall j: nat
      ensures j in Open(now) <==> Tag(j, true) in now && Tag(j, false) !in now
      ensures j in Open(now + [t]) <==> Tag(j, true) in now + [t] && Tag(j, false) !in now + [t]
    {
      IsOpen(now, j);
      IsOpen(now + [t], j);
    }
  }

  lemma IsOpen(tags: seq<Tag>, j: nat)
    ensures j in Open(tags) <==> Tag(j, true) in tags && Tag(j, false) !in tags
  {
    if Tag(j, true) in tags && Tag(j, false) !in tags {
      var t := Tag(j, true);
      assert t in tags && t.open && Tag(t.span, false) !in tags;
    }
  }

  ghost function Raws(spans: seq<Span>, open: set<nat>, id: nat): set<nat> {
    set j | j in open && j < |spans| && !spans[j].candidate && spans[j].value == id
  }

  ghost predicate CandidateIn(spans: seq<Span>, open: set<nat>, v: nat) {
    exists j: nat :: j in open && j < |spans| && spans[j].candidate && spans[j].value == v
  }

  // The sweep holds the open spans, and each open candidate has the ids of the open matches.
  ghost predicate Tracks(spans: seq<Span>, open: set<nat>, sweep: Sweep) {
    && (forall j :: j in open ==> j < |spans|)
    && (forall v: nat :: v in sweep.candidates ==> v < |sweep.ids|)
    && (forall v: nat :: v in sweep.candidates <==> CandidateIn(spans, open, v))
    && (forall id: nat :: id in sweep.raw <==> Raws(spans, open, id) != {})
    && (forall id: nat :: id in sweep.raw ==> sweep.raw[id] == |Raws(spans, open, id)|)
    && (forall v: nat, id: nat :: v in sweep.candidates && id in sweep.raw ==> id in sweep.ids[v])
  }

  ghost predicate Has(sweep: Sweep, i: nat, id: nat) {
    i < |sweep.ids| && id in sweep.ids[i]
  }

  // After the event, the ids are those before it and those of the matches then open.
  ghost predicate Adds(before: Sweep, after: Sweep) {
    forall i: nat, id: nat :: Has(after, i, id) <==> Has(before, i, id) || (i in after.candidates && id in after.raw)
  }

  lemma OpensCandidate(spans: seq<Span>, open: set<nat>, j: nat, sweep: Sweep)
    requires Tracks(spans, open, sweep) && j < |spans| && j !in open && spans[j].candidate
      && spans[j].value < |sweep.ids|
    ensures var after := Swept(sweep, Reader(spans)(Tag(j, true)));
      Tracks(spans, open + {j}, after) && Adds(sweep, after)
  {
    forall id: nat
      ensures Raws(spans, open + {j}, id) == Raws(spans, open, id)
    {
    }
    forall v: nat
      ensures CandidateIn(spans, open + {j}, v) <==> CandidateIn(spans, open, v) || v == spans[j].value
    {
      if CandidateIn(spans, open, v) {
        var c: nat :| c in open && c < |spans| && spans[c].candidate && spans[c].value == v;
        assert c in open + {j};
      }
      assert j in open + {j};
    }
  }

  lemma ClosesCandidate(spans: seq<Span>, open: set<nat>, j: nat, sweep: Sweep)
    requires Tracks(spans, open, sweep) && Distinct(spans) && j in open && spans[j].candidate
    ensures var after := Swept(sweep, Reader(spans)(Tag(j, false)));
      Tracks(spans, open - {j}, after) && Adds(sweep, after)
  {
    forall id: nat
      ensures Raws(spans, open - {j}, id) == Raws(spans, open, id)
    {
    }
    forall v: nat
      ensures CandidateIn(spans, open - {j}, v) <==> CandidateIn(spans, open, v) && v != spans[j].value
    {
      if CandidateIn(spans, open, v) && v != spans[j].value {
        var c: nat :| c in open && c < |spans| && spans[c].candidate && spans[c].value == v;
        assert c in open - {j};
      }
    }
  }

  // The counters alone: a match id opens or closes once more.
  ghost predicate Counts(spans: seq<Span>, open: set<nat>, raw: map<nat, int>) {
    && (forall id: nat :: id in raw <==> Raws(spans, open, id) != {})
    && (forall id: nat :: id in raw ==> raw[id] == |Raws(spans, open, id)|)
  }

  lemma CountsUp(spans: seq<Span>, open: set<nat>, j: nat, raw: map<nat, int>)
    requires Counts(spans, open, raw) && j < |spans| && j !in open && !spans[j].candidate
    ensures var v := spans[j].value; Counts(spans, open + {j}, raw[v := (if v in raw then raw[v] else 0) + 1])
  {
    hide Raws;
    RawChanges(spans, open, j);
  }

  lemma CountsDown(spans: seq<Span>, open: set<nat>, j: nat, raw: map<nat, int>)
    requires Counts(spans, open + {j}, raw) && j < |spans| && j !in open && !spans[j].candidate
    ensures var v := spans[j].value;
      v in raw && Counts(spans, open, if raw[v] - 1 == 0 then raw - {v} else raw[v := raw[v] - 1])
  {
    hide Raws;
    RawChanges(spans, open, j);
    var rest := Raws(spans, open, spans[j].value);
    assert |rest| == 0 <==> rest == {};
  }

  lemma OpensRaw(spans: seq<Span>, open: set<nat>, j: nat, sweep: Sweep)
    requires Tracks(spans, open, sweep) && j < |spans| && j !in open && !spans[j].candidate
    ensures var after := Swept(sweep, Reader(spans)(Tag(j, true)));
      Tracks(spans, open + {j}, after) && Adds(sweep, after)
  {
    hide Raws, CandidateIn;
    CountsUp(spans, open, j, sweep.raw);
    SameCandidates(spans, open, open + {j}, j);
  }

  lemma ClosesRaw(spans: seq<Span>, open: set<nat>, j: nat, sweep: Sweep)
    requires Tracks(spans, open, sweep) && j in open && !spans[j].candidate
    ensures var after := Swept(sweep, Reader(spans)(Tag(j, false)));
      Tracks(spans, open - {j}, after) && Adds(sweep, after)
  {
    hide Raws, CandidateIn;
    var rest := open - {j};
    assert open == rest + {j};
    CountsDown(spans, rest, j, sweep.raw);
    SameCandidates(spans, open, rest, j);
  }

  lemma RawChanges(spans: seq<Span>, open: set<nat>, j: nat)
    requires j < |spans| && j !in open && !spans[j].candidate
    ensures forall id: nat ::
      Raws(spans, open + {j}, id) == if id == spans[j].value then Raws(spans, open, id) + {j} else Raws(spans, open, id)
    ensures j !in Raws(spans, open, spans[j].value)
  {
  }

  lemma SameCandidates(spans: seq<Span>, open: set<nat>, next: set<nat>, j: nat)
    requires j < |spans| && !spans[j].candidate && open + {j} == next + {j}
    ensures forall v: nat :: CandidateIn(spans, open, v) <==> CandidateIn(spans, next, v)
  {
    forall c: nat | c != j
      ensures c in open <==> c in next
    {
      assert c in open + {j} <==> c in next + {j};
    }
  }

  lemma StepTracks(spans: seq<Span>, open: set<nat>, next: set<nat>, sweep: Sweep, t: Tag)
    requires Tracks(spans, open, sweep) && Distinct(spans) && t.span < |spans|
    requires forall j :: 0 <= j < |spans| && spans[j].candidate ==> spans[j].value < |sweep.ids|
    requires if t.open then t.span !in open && next == open + {t.span} else t.span in open && next == open - {t.span}
    ensures var after := Swept(sweep, Reader(spans)(t)); Tracks(spans, next, after) && Adds(sweep, after)
  {
    hide *;
    if spans[t.span].candidate {
      if t.open {
        OpensCandidate(spans, open, t.span, sweep);
      } else {
        ClosesCandidate(spans, open, t.span, sweep);
      }
    } else if t.open {
      OpensRaw(spans, open, t.span, sweep);
    } else {
      ClosesRaw(spans, open, t.span, sweep);
    }
  }

  // ---------------------------------------------------------------------------
  // The sweep of one file
  // ---------------------------------------------------------------------------

  ghost predicate Overlap(a: Span, b: Span) {
    a.start < b.end && b.start < a.end
  }

  // At some time both spans are open.
  ghost predicate Meet(tags: seq<Tag>, a: nat, b: nat, k: nat) {
    exists p: nat :: p <= k <= |tags| && a in Open(tags[..p]) && b in Open(tags[..p])
  }

  // Span c is candidate i's, and span r is of a match with this id.
  ghost predicate Relates(spans: seq<Span>, c: nat, r: nat, i: nat, id: nat) {
    c < |spans| && r < |spans| && spans[c].candidate && spans[c].value == i && !spans[r].candidate
      && spans[r].value == id
  }

  // A match with this id has met the candidate.
  ghost predicate Met(spans: seq<Span>, tags: seq<Tag>, i: nat, id: nat, k: nat) {
    exists c: nat, r: nat :: Relates(spans, c, r, i, id) && Meet(tags, c, r, k)
  }

  lemma MetNow(spans: seq<Span>, tags: seq<Tag>, i: nat, id: nat, k: nat, sweep: Sweep)
    requires k <= |tags| && Tracks(spans, Open(tags[..k]), sweep) && i in sweep.candidates && id in sweep.raw
    ensures Met(spans, tags, i, id, k)
  {
    hide Open;
    var open := Open(tags[..k]);
    var c: nat :| c in open && c < |spans| && spans[c].candidate && spans[c].value == i;
    assert Raws(spans, open, id) != {};
    var r :| r in Raws(spans, open, id);
    assert Relates(spans, c, r, i, id) && Meet(tags, c, r, k);
  }

  lemma MetLater(spans: seq<Span>, tags: seq<Tag>, i: nat, id: nat, k: nat)
    requires k < |tags| && Met(spans, tags, i, id, k)
    ensures Met(spans, tags, i, id, k + 1)
  {
    hide Open, Relates;
    var c: nat, r: nat :| Relates(spans, c, r, i, id) && Meet(tags, c, r, k);
    assert Meet(tags, c, r, k + 1);
  }

  lemma MetBefore(spans: seq<Span>, tags: seq<Tag>, i: nat, id: nat, k: nat, sweep: Sweep)
    requires k < |tags| && Tracks(spans, Open(tags[..k + 1]), sweep) && Met(spans, tags, i, id, k + 1)
    ensures Met(spans, tags, i, id, k) || (i in sweep.candidates && id in sweep.raw)
  {
    hide Open;
    var c: nat, r: nat :| Relates(spans, c, r, i, id) && Meet(tags, c, r, k + 1);
    var p: nat :| p <= k + 1 && c in Open(tags[..p]) && r in Open(tags[..p]);
    if p == k + 1 {
      var open := Open(tags[..k + 1]);
      assert CandidateIn(spans, open, i);
      assert r in Raws(spans, open, id);
    } else {
      assert Meet(tags, c, r, k);
    }
  }

  lemma MetStep(spans: seq<Span>, tags: seq<Tag>, i: nat, id: nat, k: nat, sweep: Sweep)
    requires k < |tags| && Tracks(spans, Open(tags[..k + 1]), sweep)
    ensures Met(spans, tags, i, id, k + 1) <==> Met(spans, tags, i, id, k) || (i in sweep.candidates && id in sweep.raw)
  {
    hide *;
    if Met(spans, tags, i, id, k + 1) {
      MetBefore(spans, tags, i, id, k, sweep);
    }
    if Met(spans, tags, i, id, k) {
      MetLater(spans, tags, i, id, k);
    }
    if i in sweep.candidates && id in sweep.raw {
      MetNow(spans, tags, i, id, k + 1, sweep);
    }
  }

  lemma {:induction false} SweptTracks(spans: seq<Span>, tags: seq<Tag>, k: nat, ids: seq<set<nat>>)
    requires Arranged(spans, tags) && Proper(spans) && Distinct(spans) && k <= |tags|
    requires forall j :: 0 <= j < |spans| && spans[j].candidate ==> spans[j].value < |ids|
    ensures var s := SweptAll(ids, Sorting.Map(tags, Reader(spans))[..k]);
      && Tracks(spans, Open(tags[..k]), s)
      && forall i: nat, id: nat :: i < |ids| ==> (id in s.ids[i] <==> id in ids[i] || Met(spans, tags, i, id, k))
  {
    hide Swept, Tracks, Met, Arranged, Proper, Distinct;
    var events := Sorting.Map(tags, Reader(spans));
    var s := SweptAll(ids, events[..k]);
    if k == 0 {
      NothingOpen(spans, tags, ids);
    } else {
      SweptTracks(spans, tags, k - 1, ids);
      assert events[..k][..k - 1] == events[..k - 1];
      var before := SweptAll(ids, events[..k - 1]);
      OpenSteps(spans, tags, k - 1);
      StepTracks(spans, Open(tags[..k - 1]), Open(tags[..k]), before, tags[k - 1]);
      assert s == Swept(before, Reader(spans)(tags[k - 1]));
      forall i: nat, id: nat | i < |ids|
        ensures id in s.ids[i] <==> id in ids[i] || Met(spans, tags, i, id, k)
      {
        MetStep(spans, tags, i, id, k - 1, s);
        assert Has(s, i, id) <==> Has(before, i, id) || (i in s.candidates && id in s.raw);
      }
    }
  }

  lemma NothingOpen(spans: seq<Span>, tags: seq<Tag>, ids: seq<set<nat>>)
    ensures Open(tags[..0]) == {}
    ensures Tracks(spans, {}, Sweep({}, map[], ids))
    ensures forall i: nat, id: nat :: !Met(spans, tags, i, id, 0)
  {
  }

  // Two spans are open together exactly when they overlap.
  lemma MeetOverlaps(spans: seq<Span>, tags: seq<Tag>, a: nat, b: nat)
    requires Arranged(spans, tags) && Proper(spans) && a < |spans| && b < |spans|
    ensures Meet(tags, a, b, |tags|) <==> Overlap(spans[a], spans[b])
  {
    var openA, closeA := Place(spans, tags, a);
    var openB, closeB := Place(spans, tags, b);
    if Meet(tags, a, b, |tags|) {
      var p: nat :| p <= |tags| && a in Open(tags[..p]) && b in Open(tags[..p]);
      assert openA < closeB && openB < closeA;
    }
    if Overlap(spans[a], spans[b]) {
      var f := Reader(spans);
      assert Before(f(tags[openA]), f(tags[closeB])) && Before(f(tags[openB]), f(tags[closeA]));
      assert openA != closeB && openB != closeA;
      assert openA < closeB && openB < closeA;
      var p: nat := if openA < openB then openB + 1 else openA + 1;
      assert a in Open(tags[..p]) && b in Open(tags[..p]);
    }
  }

  // Where a span opens and closes.
  lemma Place(spans: seq<Span>, tags: seq<Tag>, j: nat) returns (open: nat, close: nat)
    requires Arranged(spans, tags) && Proper(spans) && j < |spans|
    ensures open < close < |tags| && tags[open] == Tag(j, true) && tags[close] == Tag(j, false)
    ensures forall k: nat :: k <= |tags| ==> (j in Open(tags[..k]) <==> open < k <= close)
  {
    assert Tag(j, true) in tags && Tag(j, false) in tags;
    open :| 0 <= open < |tags| && tags[open] == Tag(j, true);
    close :| 0 <= close < |tags| && tags[close] == Tag(j, false);
    var f := Reader(spans);
    assert Before(f(tags[open]), f(tags[close]));
    forall k: nat | k <= |tags|
      ensures Tag(j, true) in tags[..k] <==> open < k
      ensures Tag(j, false) in tags[..k] <==> close < k
    {
      OnceBefore(tags, open, k);
      OnceBefore(tags, close, k);
    }
    forall k: nat | k <= |tags|
      ensures j in Open(tags[..k]) <==> open < k <= close
    {
      assert j in Open(tags[..k]) <==> Tag(j, true) in tags[..k] && Tag(j, false) !in tags[..k];
    }
  }

  // A match with this id overlaps the candidate.
  ghost predicate Overlapped(spans: seq<Span>, i: nat, id: nat) {
    exists c: nat, r: nat :: Relates(spans, c, r, i, id) && Overlap(spans[c], spans[r])
  }

  lemma FileSwept(spans: seq<Span>, ids: seq<set<nat>>)
    requires Proper(spans) && Distinct(spans)
    requires forall j :: 0 <= j < |spans| && spans[j].candidate ==> spans[j].value < |ids|
    ensures var s := SweptAll(ids, Ordered(Events(spans)));
      forall i: nat, id: nat :: i < |ids| ==> (id in s.ids[i] <==> id in ids[i] || Overlapped(spans, i, id))
  {
    hide SweptAll, Arranged, Meet, Overlap, OrderedTags, Ordered, Events, Proper, Distinct;
    var tags := OrderedTags(spans);
    OrderedTagsArranged(spans);
    OrderedTagsRead(spans);
    SweptTracks(spans, tags, |tags|, ids);
    var events := Ordered(Events(spans));
    assert events[..|tags|] == events;
    forall i: nat, id: nat
      ensures Met(spans, tags, i, id, |tags|) <==> Overlapped(spans, i, id)
    {
      forall c: nat, r: nat | c < |spans| && r < |spans|
        ensures Meet(tags, c, r, |tags|) <==> Overlap(spans[c], spans[r])
      {
        MeetOverlaps(spans, tags, c, r);
      }
    }
  }

  // ---------------------------------------------------------------------------
  // The sweep as it runs
  // ---------------------------------------------------------------------------

  method SweepFile(events: seq<Event>, before: seq<set<nat>>) returns (ids: seq<set<nat>>)
    requires forall e :: e in events && e.candidate ==> e.value < |before|
    ensures ids == SweptAll(before, events).ids
  {
    ids := before;
    var candidates: set<nat> := {};
    var raw: map<nat, int> := map[];
    for k := 0 to |events|
      invariant Sweep(candidates, raw, ids) == SweptAll(before, events[..k])
    {
      var event := events[k];
      assert events[..k + 1][..k] == events[..k];
      if event.candidate {
        if event.open {
          ids := ids[event.value := ids[event.value] + raw.Keys];
          candidates := candidates + {event.value};
        } else {
          candidates := candidates - {event.value};
        }
      } else if event.open {
        raw := raw[event.value := (if event.value in raw then raw[event.value] else 0) + 1];
        ids := InsertForAll(ids, candidates, event.value);
      } else {
        raw := raw[event.value := (if event.value in raw then raw[event.value] else 0) - 1];
        if raw[event.value] == 0 {
          raw := raw - {event.value};
        }
      }
    }
    assert events[..|events|] == events;
  }

  method InsertForAll(before: seq<set<nat>>, candidates: set<nat>, id: nat) returns (ids: seq<set<nat>>)
    ensures ids == WithId(before, candidates, id)
  {
    ids := before;
    var left := candidates;
    while left != {}
      invariant left <= candidates && ids == WithId(before, candidates - left, id)
    {
      var candidate :| candidate in left;
      if candidate < |ids| {
        ids := ids[candidate := ids[candidate] + {id}];
      }
      left := left - {candidate};
    }
    assert candidates - left == candidates;
  }

  function CandidateSpans(occurrences: seq<Occurrence>, path: string): seq<Span> {
    if occurrences == [] then []
    else
      var k := |occurrences| - 1;
      var o := occurrences[k];
      CandidateSpans(occurrences[..k], path) + if o.path == path then [Span(o.start, o.end, true, k)] else []
  }

  function OccurrenceSpans(occurrences: seq<Occurrence>, id: nat, path: string): seq<Span> {
    if occurrences == [] then []
    else
      var k := |occurrences| - 1;
      var o := occurrences[k];
      OccurrenceSpans(occurrences[..k], id, path) + if o.path == path then [Span(o.start, o.end, false, id)] else []
  }

  function RawSpans(matches: seq<Match>, path: string): seq<Span> {
    if matches == [] then []
    else
      var k := |matches| - 1;
      RawSpans(matches[..k], path) + OccurrenceSpans(matches[k].occurrences, matches[k].id, path)
  }

  function Paths(occurrences: seq<Occurrence>): set<string> {
    set o | o in occurrences :: o.path
  }

  function WithSpan(events: seq<Event>, o: Occurrence, candidate: bool, value: nat): seq<Event> {
    events + [Event(o.start, true, candidate, value), Event(o.end, false, candidate, value)]
  }

  function NoEvents(): (r: seq<Event>)
    ensures r == Events([])
  {
    []
  }

  lemma EventsGrow(spans: seq<Span>, o: Occurrence, candidate: bool, value: nat)
    ensures Events(spans + [Span(o.start, o.end, candidate, value)]) == WithSpan(Events(spans), o, candidate, value)
  {
    var span := Span(o.start, o.end, candidate, value);
    assert (spans + [span])[..|spans|] == spans;
  }

  // The spans of every file, as events in the order of the input.
  method EventsByPath(occurrences: seq<Occurrence>, matches: seq<Match>) returns (byPath: map<string, seq<Event>>)
    ensures byPath.Keys == Paths(occurrences)
    ensures Holds(byPath, occurrences, matches)
  {
    hide *;
    byPath := map[];
    NoneHeld(occurrences);
    for i := 0 to |occurrences|
      invariant HoldsCandidates(byPath, occurrences, i)
    {
      var o := occurrences[i];
      CandidateHeld(byPath, occurrences, i);
      byPath := byPath[o.path := WithSpan(if o.path in byPath then byPath[o.path] else NoEvents(), o, true, i)];
    }
    AllHeld(byPath, occurrences);
    byPath := AddRaw(occurrences, matches, byPath);
  }

  // The events of the first i candidates.
  ghost predicate HoldsCandidates(byPath: map<string, seq<Event>>, occurrences: seq<Occurrence>, i: nat)
    requires i <= |occurrences|
  {
    && byPath.Keys == Paths(occurrences[..i])
    && forall p :: p in byPath ==> byPath[p] == Events(CandidateSpans(occurrences[..i], p))
  }

  lemma NoneHeld(occurrences: seq<Occurrence>)
    ensures HoldsCandidates(map[], occurrences, 0)
  {
  }

  lemma CandidateHeld(byPath: map<string, seq<Event>>, occurrences: seq<Occurrence>, i: nat)
    requires i < |occurrences| && HoldsCandidates(byPath, occurrences, i)
    ensures var o := occurrences[i];
      HoldsCandidates(byPath[o.path := WithSpan(if o.path in byPath then byPath[o.path] else NoEvents(), o, true, i)],
        occurrences, i + 1)
  {
    hide Events, WithSpan, NoEvents, CandidateSpans, Paths;
    var o, front := occurrences[i], occurrences[..i];
    assert occurrences[..i + 1] == front + [o];
    PathsStep(front, o);
    forall p
      ensures CandidateSpans(front + [o], p) ==
        if o.path == p then CandidateSpans(front, p) + [Span(o.start, o.end, true, i)] else CandidateSpans(front, p)
    {
      CandidatesStep(front, o, p);
    }
    NoSpans(front, o.path);
    EventsGrow(CandidateSpans(front, o.path), o, true, i);
  }

  lemma PathsStep(front: seq<Occurrence>, o: Occurrence)
    ensures Paths(front + [o]) == Paths(front) + {o.path}
  {
  }

  lemma CandidatesStep(front: seq<Occurrence>, o: Occurrence, p: string)
    ensures CandidateSpans(front + [o], p) ==
      if o.path == p then CandidateSpans(front, p) + [Span(o.start, o.end, true, |front|)] else CandidateSpans(front, p)
  {
    assert (front + [o])[..|front|] == front;
  }

  lemma AllHeld(byPath: map<string, seq<Event>>, occurrences: seq<Occurrence>)
    requires HoldsCandidates(byPath, occurrences, |occurrences|)
    ensures byPath.Keys == Paths(occurrences) && Holds(byPath, occurrences, [])
  {
    hide Events, Paths;
    assert occurrences[..|occurrences|] == occurrences;
    forall p
      ensures SpansOf(occurrences, [], p) == CandidateSpans(occurrences, p)
    {
      NoRawSpans(occurrences, p);
    }
  }

  lemma NoRawSpans(occurrences: seq<Occurrence>, path: string)
    ensures SpansOf(occurrences, [], path) == CandidateSpans(occurrences, path)
  {
  }

  // The spans of a file, in the order of the input.
  function SpansOf(occurrences: seq<Occurrence>, matches: seq<Match>, path: string): seq<Span> {
    CandidateSpans(occurrences, path) + RawSpans(matches, path)
  }

  ghost predicate Holds(byPath: map<string, seq<Event>>, occurrences: seq<Occurrence>, matches: seq<Match>) {
    forall p :: p in byPath ==> byPath[p] == Events(SpansOf(occurrences, matches, p))
  }

  method AddRaw(ghost occurrences: seq<Occurrence>, matches: seq<Match>, before: map<string, seq<Event>>)
    returns (byPath: map<string, seq<Event>>)
    requires Holds(before, occurrences, [])
    ensures byPath.Keys == before.Keys && Holds(byPath, occurrences, matches)
  {
    hide Holds;
    byPath := before;
    for m := 0 to |matches|
      invariant byPath.Keys == before.Keys && Holds(byPath, occurrences, matches[..m])
    {
      byPath := AddMatch(occurrences, matches[..m], matches[m], byPath);
      assert matches[..m + 1] == matches[..m] + [matches[m]];
    }
    assert matches[..|matches|] == matches;
  }

  // The same with the first j occurrences of one match more.
  ghost predicate HoldsPart(
      byPath: map<string, seq<Event>>, occurrences: seq<Occurrence>, matches: seq<Match>, match_: Match, j: nat)
    requires j <= |match_.occurrences|
  {
    forall p :: p in byPath ==>
      byPath[p] == Events(SpansOf(occurrences, matches, p) + OccurrenceSpans(match_.occurrences[..j], match_.id, p))
  }

  lemma PartBegins(byPath: map<string, seq<Event>>, occurrences: seq<Occurrence>, matches: seq<Match>, match_: Match)
    requires Holds(byPath, occurrences, matches)
    ensures HoldsPart(byPath, occurrences, matches, match_, 0)
  {
    hide Events;
    assert match_.occurrences[..0] == [];
    forall p | p in byPath
      ensures SpansOf(occurrences, matches, p) + OccurrenceSpans([], match_.id, p) == SpansOf(occurrences, matches, p)
    {
    }
  }

  lemma PartEnds(byPath: map<string, seq<Event>>, occurrences: seq<Occurrence>, matches: seq<Match>, match_: Match)
    requires HoldsPart(byPath, occurrences, matches, match_, |match_.occurrences|)
    ensures Holds(byPath, occurrences, matches + [match_])
  {
    hide Events;
    assert match_.occurrences[..|match_.occurrences|] == match_.occurrences;
    assert (matches + [match_])[..|matches|] == matches;
    forall p | p in byPath
      ensures SpansOf(occurrences, matches + [match_], p) ==
        SpansOf(occurrences, matches, p) + OccurrenceSpans(match_.occurrences, match_.id, p)
    {
    }
  }

  lemma PartGrows(
      byPath: map<string, seq<Event>>, occurrences: seq<Occurrence>, matches: seq<Match>, match_: Match, j: nat)
    requires j < |match_.occurrences| && HoldsPart(byPath, occurrences, matches, match_, j)
    ensures var o := match_.occurrences[j];
      HoldsPart(if o.path in byPath then byPath[o.path := WithSpan(byPath[o.path], o, false, match_.id)] else byPath,
        occurrences, matches, match_, j + 1)
  {
    hide Events, WithSpan, SpansOf;
    var o, os := match_.occurrences[j], match_.occurrences;
    assert os[..j + 1][..j] == os[..j];
    forall p | p in byPath
      ensures var now := SpansOf(occurrences, matches, p) + OccurrenceSpans(os[..j], match_.id, p);
        SpansOf(occurrences, matches, p) + OccurrenceSpans(os[..j + 1], match_.id, p) ==
        if o.path == p then now + [Span(o.start, o.end, false, match_.id)] else now
    {
    }
    if o.path in byPath {
      EventsGrow(SpansOf(occurrences, matches, o.path) + OccurrenceSpans(os[..j], match_.id, o.path),
        o, false, match_.id);
    }
  }

  method AddMatch(
      ghost occurrences: seq<Occurrence>, ghost matches: seq<Match>, match_: Match, before: map<string, seq<Event>>)
    returns (byPath: map<string, seq<Event>>)
    requires Holds(before, occurrences, matches)
    ensures byPath.Keys == before.Keys && Holds(byPath, occurrences, matches + [match_])
  {
    hide *;
    byPath := before;
    PartBegins(byPath, occurrences, matches, match_);
    for j := 0 to |match_.occurrences|
      invariant byPath.Keys == before.Keys && HoldsPart(byPath, occurrences, matches, match_, j)
    {
      var o := match_.occurrences[j];
      PartGrows(byPath, occurrences, matches, match_, j);
      if o.path in byPath {
        byPath := byPath[o.path := WithSpan(byPath[o.path], o, false, match_.id)];
      }
    }
    PartEnds(byPath, occurrences, matches, match_);
  }

  // Every candidate gets exactly the ids of the matches with an overlapping occurrence in
  // its file.
  method AssociateRawMatches(occurrences: seq<Occurrence>, matches: seq<Match>) returns (ids: seq<set<nat>>)
    requires NonEmpty(occurrences) && forall m :: m in matches ==> NonEmpty(m.occurrences)
    ensures |ids| == |occurrences|
    ensures forall i: nat, id: nat :: i < |ids| ==> (id in ids[i] <==> Overlaps(occurrences[i], matches, id))
  {
    hide Events, SweptAll, Overlaps, Ordered, SpansOf, NonEmpty;
    var byPath := EventsByPath(occurrences, matches);
    ids := seq(|occurrences|, _ => {});
    var left := byPath.Keys;
    while left != {}
      invariant left <= byPath.Keys && |ids| == |occurrences|
      invariant forall i: nat, id: nat :: i < |ids| ==>
        (id in ids[i] <==> occurrences[i].path !in left && Overlaps(occurrences[i], matches, id))
    {
      var path :| path in left;
      FileAssociated(occurrences, matches, path, ids);
      ghost var before := ids;
      ids := SweepFile(Ordered(byPath[path]), ids);
      forall i: nat, id: nat | i < |ids|
        ensures id in ids[i] <==> occurrences[i].path !in left - {path} && Overlaps(occurrences[i], matches, id)
      {
        assert id in before[i] <==> occurrences[i].path !in left && Overlaps(occurrences[i], matches, id);
      }
      left := left - {path};
    }
    assert forall o :: o in occurrences ==> o.path !in left;
  }

  lemma FileAssociated(occurrences: seq<Occurrence>, matches: seq<Match>, path: string, ids: seq<set<nat>>)
    requires NonEmpty(occurrences) && (forall m :: m in matches ==> NonEmpty(m.occurrences)) && |ids| == |occurrences|
    ensures var events := Ordered(Events(SpansOf(occurrences, matches, path)));
      && (forall e :: e in events && e.candidate ==> e.value < |ids|)
      && forall i: nat, id: nat :: i < |ids| ==>
        (id in SweptAll(ids, events).ids[i] <==>
          id in ids[i] || (occurrences[i].path == path && Overlaps(occurrences[i], matches, id)))
  {
    hide Events, SweptAll, Overlaps, Overlapped, Ordered, CandidateSpans, RawSpans, NonEmpty;
    var spans := SpansOf(occurrences, matches, path);
    FileSpans(occurrences, matches, path);
    FileSwept(spans, ids);
    EventsNumbered(spans, |ids|);
    forall i: nat, id: nat | i < |ids|
      ensures Overlapped(spans, i, id) <==> occurrences[i].path == path && Overlaps(occurrences[i], matches, id)
    {
      OverlappedInFile(occurrences, matches, path, i, id);
    }
  }

  // What a source range guarantees.
  predicate NonEmpty(occurrences: seq<Occurrence>) {
    forall o :: o in occurrences ==> o.start < o.end
  }

  ghost predicate Overlaps(candidate: Occurrence, matches: seq<Match>, id: nat) {
    exists m, o ::
      m in matches && m.id == id && o in m.occurrences && o.path == candidate.path && o.start < candidate.end
        && candidate.start < o.end
  }

  lemma {:induction false} CandidateSpansHas(occurrences: seq<Occurrence>, path: string)
    ensures forall s :: s in CandidateSpans(occurrences, path) <==>
      s.candidate && s.value < |occurrences| && occurrences[s.value] == Occurrence(path, s.start, s.end)
  {
    if occurrences != [] {
      var k := |occurrences| - 1;
      var front, spans := CandidateSpans(occurrences[..k], path), CandidateSpans(occurrences, path);
      CandidateSpansHas(occurrences[..k], path);
      forall s
        ensures s in spans <==>
          s.candidate && s.value < |occurrences| && occurrences[s.value] == Occurrence(path, s.start, s.end)
      {
        assert s.value < k ==> occurrences[..k][s.value] == occurrences[s.value];
        assert s in spans <==>
          s in front || (occurrences[k].path == path && s == Span(occurrences[k].start, occurrences[k].end, true, k));
      }
    }
  }

  ghost predicate Rising(spans: seq<Span>) {
    forall i: nat, j: nat :: i < j < |spans| ==> spans[i].value < spans[j].value
  }

  lemma {:induction false} CandidatesRise(occurrences: seq<Occurrence>, path: string)
    ensures Rising(CandidateSpans(occurrences, path))
  {
    if occurrences != [] {
      var k := |occurrences| - 1;
      var front := CandidateSpans(occurrences[..k], path);
      CandidatesRise(occurrences[..k], path);
      CandidateSpansHas(occurrences[..k], path);
      RisingGrows(front, Span(occurrences[k].start, occurrences[k].end, true, k));
      assert front + [] == front;
    }
  }

  lemma RisingGrows(spans: seq<Span>, last: Span)
    requires Rising(spans) && forall s :: s in spans ==> s.value < last.value
    ensures Rising(spans + [last])
  {
  }

  lemma NoSpans(occurrences: seq<Occurrence>, path: string)
    ensures path !in Paths(occurrences) ==> CandidateSpans(occurrences, path) == []
  {
    CandidateSpansHas(occurrences, path);
    var spans := CandidateSpans(occurrences, path);
    if spans != [] {
      assert spans[0] in spans;
      assert occurrences[spans[0].value] in occurrences;
    }
  }

  lemma {:induction false} OccurrenceSpansHas(occurrences: seq<Occurrence>, id: nat, path: string)
    ensures forall s :: s in OccurrenceSpans(occurrences, id, path) <==>
      !s.candidate && s.value == id && Occurrence(path, s.start, s.end) in occurrences
  {
    if occurrences != [] {
      var k := |occurrences| - 1;
      assert occurrences == occurrences[..k] + [occurrences[k]];
      OccurrenceSpansHas(occurrences[..k], id, path);
    }
  }

  ghost predicate RawSpan(matches: seq<Match>, path: string, s: Span) {
    !s.candidate && exists m :: m in matches && m.id == s.value && Occurrence(path, s.start, s.end) in m.occurrences
  }

  lemma {:induction false} RawSpansHas(matches: seq<Match>, path: string)
    ensures forall s :: s in RawSpans(matches, path) <==> RawSpan(matches, path, s)
  {
    if matches != [] {
      var k := |matches| - 1;
      assert matches == matches[..k] + [matches[k]];
      RawSpansHas(matches[..k], path);
      OccurrenceSpansHas(matches[k].occurrences, matches[k].id, path);
    }
  }

  lemma FileSpans(occurrences: seq<Occurrence>, matches: seq<Match>, path: string)
    requires NonEmpty(occurrences) && forall m :: m in matches ==> NonEmpty(m.occurrences)
    ensures var spans := SpansOf(occurrences, matches, path);
      && Proper(spans) && Distinct(spans)
      && forall j :: 0 <= j < |spans| && spans[j].candidate ==> spans[j].value < |occurrences|
  {
    CandidateSpansHas(occurrences, path);
    RawSpansHas(matches, path);
    CandidatesRise(occurrences, path);
    var candidates, raws := CandidateSpans(occurrences, path), RawSpans(matches, path);
    var spans := candidates + raws;
    forall j | 0 <= j < |spans|
      ensures spans[j].start < spans[j].end
      ensures spans[j].candidate <==> j < |candidates|
      ensures spans[j].candidate ==> spans[j].value < |occurrences|
    {
      if j < |candidates| {
        assert spans[j] in candidates;
        assert occurrences[spans[j].value] in occurrences;
      } else {
        assert spans[j] in raws;
        assert RawSpan(matches, path, spans[j]);
      }
    }
  }

  lemma OverlappedInFile(occurrences: seq<Occurrence>, matches: seq<Match>, path: string, i: nat, id: nat)
    requires i < |occurrences|
    ensures Overlapped(SpansOf(occurrences, matches, path), i, id) <==>
      occurrences[i].path == path && Overlaps(occurrences[i], matches, id)
  {
    hide CandidateSpans, RawSpans, Overlaps, Overlapped;
    var candidates, raws := CandidateSpans(occurrences, path), RawSpans(matches, path);
    CandidateSpansHas(occurrences, path);
    RawSpansHas(matches, path);
    var spans, o := candidates + raws, occurrences[i];
    if Overlapped(spans, i, id) {
      var a, b := TheSpans(spans, i, id);
      assert a in candidates && b in raws;
      RawOverlaps(o, matches, b);
    }
    if o.path == path && Overlaps(o, matches, id) {
      var b := TheRaw(o, matches, id);
      var a := Span(o.start, o.end, true, i);
      assert a in candidates && b in raws;
      SpansOverlap(spans, a, b);
    }
  }

  lemma TheSpans(spans: seq<Span>, i: nat, id: nat) returns (a: Span, b: Span)
    requires Overlapped(spans, i, id)
    ensures a in spans && b in spans && a.candidate && a.value == i && !b.candidate && b.value == id && Overlap(a, b)
  {
    var c: nat, r: nat :| Relates(spans, c, r, i, id) && Overlap(spans[c], spans[r]);
    a, b := spans[c], spans[r];
  }

  lemma SpansOverlap(spans: seq<Span>, a: Span, b: Span)
    requires a in spans && b in spans && a.candidate && !b.candidate && Overlap(a, b)
    ensures Overlapped(spans, a.value, b.value)
  {
    var c: nat :| c < |spans| && spans[c] == a;
    var r: nat :| r < |spans| && spans[r] == b;
    assert Relates(spans, c, r, a.value, b.value) && Overlap(spans[c], spans[r]);
  }

  lemma RawOverlaps(o: Occurrence, matches: seq<Match>, b: Span)
    requires RawSpan(matches, o.path, b) && b.start < o.end && o.start < b.end
    ensures Overlaps(o, matches, b.value)
  {
    var m :| m in matches && m.id == b.value && Occurrence(o.path, b.start, b.end) in m.occurrences;
    assert m in matches && m.id == b.value && Occurrence(o.path, b.start, b.end) in m.occurrences;
  }

  lemma TheRaw(o: Occurrence, matches: seq<Match>, id: nat) returns (b: Span)
    requires Overlaps(o, matches, id)
    ensures RawSpan(matches, o.path, b) && b.value == id && b.start < o.end && o.start < b.end
  {
    var m, q :| m in matches && m.id == id && q in m.occurrences && q.path == o.path && q.start < o.end
      && o.start < q.end;
    b := Span(q.start, q.end, false, id);
    assert q == Occurrence(o.path, b.start, b.end);
  }

  lemma {:induction false} EventsNumbered(spans: seq<Span>, n: nat)
    requires forall j :: 0 <= j < |spans| && spans[j].candidate ==> spans[j].value < n
    ensures forall e :: e in Ordered(Events(spans)) && e.candidate ==> e.value < n
  {
    Sorting.SortKeeps(Events(spans), Before);
    EventsFrom(spans);
  }

  lemma {:induction false} EventsFrom(spans: seq<Span>)
    ensures forall e :: e in Events(spans) ==>
      exists j :: 0 <= j < |spans| && spans[j].candidate == e.candidate && spans[j].value == e.value
  {
    if spans != [] {
      var k := |spans| - 1;
      EventsFrom(spans[..k]);
      forall e | e in Events(spans)
        ensures exists j :: 0 <= j < |spans| && spans[j].candidate == e.candidate && spans[j].value == e.value
      {
        if e in Events(spans[..k]) {
          var j :| 0 <= j < k && spans[..k][j].candidate == e.candidate && spans[..k][j].value == e.value;
          assert spans[j].value == e.value;
        } else {
          assert spans[k].value == e.value;
        }
      }
    }
  }

  lemma SweptGrows(ids: seq<set<nat>>, events: seq<Event>, e: Event)
    ensures SweptAll(ids, events + [e]) == Swept(SweptAll(ids, events), e)
  {
    assert (events + [e])[..|events|] == events;
  }

  lemma FourSwept(ids: seq<set<nat>>, a: Event, b: Event, c: Event, d: Event)
    ensures SweptAll(ids, [a, b, c, d]) == Swept(Swept(Swept(Swept(Sweep({}, map[], ids), a), b), c), d)
  {
    hide Swept;
    SweptGrows(ids, [], a);
    SweptGrows(ids, [a], b);
    SweptGrows(ids, [a, b], c);
    SweptGrows(ids, [a, b, c], d);
    assert [] + [a] == [a] && [a] + [b] == [a, b] && [a, b] + [c] == [a, b, c] && [a, b, c] + [d] == [a, b, c, d];
  }

  // Two sorted events and two in reverse, in either order.
  lemma FourOrdered(a: Event, b: Event, c: Event, d: Event)
    requires Before(a, b) && Before(b, c) && Before(c, d)
    ensures Ordered([c, d, b, a]) == [a, b, c, d]
    ensures Ordered([b, a, c, d]) == [a, b, c, d]
  {
    hide Ordered, Sorting.Insert;
    assert [] + [c] == [c] && [c] + [d] == [c, d] && [c, d] + [b] == [c, d, b] && [c, d, b] + [a] == [c, d, b, a];
    assert [] + [b] == [b] && [b] + [a] == [b, a] && [b, a] + [c] == [b, a, c] && [b, a, c] + [d] == [b, a, c, d];
    NoneOrdered();
    GoesFirst([], c);
    GoesLast([c], d);
    GoesFirst([c, d], b);
    GoesFirst([c, d, b], a);
    GoesFirst([], b);
    GoesFirst([b], a);
    GoesLast([b, a], c);
    GoesLast([b, a, c], d);
  }

  lemma NoneOrdered()
    ensures Ordered([]) == []
  {
  }

  lemma GoesFirst(events: seq<Event>, e: Event)
    requires forall x :: x in Ordered(events) ==> Before(e, x)
    ensures Ordered(events + [e]) == [e] + Ordered(events)
  {
    assert (events + [e])[..|events|] == events;
    InsertFirst(Ordered(events), e);
  }

  lemma GoesLast(events: seq<Event>, e: Event)
    requires var s := Ordered(events); s != [] && !Before(e, s[|s| - 1])
    ensures Ordered(events + [e]) == Ordered(events) + [e]
  {
    assert (events + [e])[..|events|] == events;
  }

  lemma {:induction false} InsertFirst(s: seq<Event>, e: Event)
    requires forall x :: x in s ==> Before(e, x)
    ensures Sorting.Insert(s, e, Before) == [e] + s
  {
    if s != [] {
      hide Before;
      var front, last := s[..|s| - 1], s[|s| - 1];
      InsertFirst(front, e);
      assert last in s;
      assert [e] + s == [e] + front + [last];
    }
  }

  // An empty span is opened after its close, so it stays open: an empty match before the
  // candidate, or an empty candidate before the match, counts as an overlap.
  lemma EmptyMatchStays()
    ensures var candidate, match_ := Span(5, 9, true, 0), Span(4, 4, false, 7);
      !Overlap(candidate, match_) && SweptAll([{}], Ordered(Events([candidate, match_]))).ids == [{7}]
  {
    hide Ordered, SweptAll;
    var candidate, match_ := Span(5, 9, true, 0), Span(4, 4, false, 7);
    var a, b, c, d := Event(4, false, false, 7), Event(4, true, false, 7), Event(5, true, true, 0),
      Event(9, false, true, 0);
    TwoEvents(candidate, match_);
    FourOrdered(a, b, c, d);
    FourSwept([{}], a, b, c, d);
    var none: set<nat> := {};
    var open := Swept(Swept(Sweep({}, map[], [none]), a), b);
    assert open == Sweep({}, map[7 := 0], [none]);
    assert none + map[7 := 0].Keys == {7};
    assert Swept(open, c).ids == [{7}];
  }

  lemma TwoEvents(s: Span, t: Span)
    ensures Events([s, t]) ==
      [Event(s.start, true, s.candidate, s.value), Event(s.end, false, s.candidate, s.value),
        Event(t.start, true, t.candidate, t.value), Event(t.end, false, t.candidate, t.value)]
  {
    assert [s, t][..1] == [s];
    assert [s][..0] == [];
  }

  lemma EmptyCandidateStays()
    ensures var candidate, match_ := Span(4, 4, true, 0), Span(5, 9, false, 7);
      !Overlap(candidate, match_) && SweptAll([{}], Ordered(Events([candidate, match_]))).ids == [{7}]
  {
    hide Ordered, SweptAll;
    var candidate, match_ := Span(4, 4, true, 0), Span(5, 9, false, 7);
    var a, b, c, d := Event(4, false, true, 0), Event(4, true, true, 0), Event(5, true, false, 7),
      Event(9, false, false, 7);
    TwoEvents(candidate, match_);
    FourOrdered(a, b, c, d);
    FourSwept([{}], a, b, c, d);
    var none: set<nat> := {};
    assert none - {0} == none && none + {0} == {0} && none + {7} == {7};
    var open := Swept(Swept(Sweep({}, map[], [none]), a), b);
    var closed: map<nat, int> := map[];
    assert none + closed.Keys == none;
    assert open == Sweep({0}, map[], [none]);
    assert Swept(open, c).ids == [{7}];
  }
}
