// Duplicate hits and the suppressions applied to them
// (tools/cleanup/generate_cleanup_json.cpp makeHit and applyInlineSuppressions).
module Hits {
  import opened Wrappers
  import opened Suppressions
  import Ranges
  import Sorting

  datatype FileRanges = FileRanges(path: string, lines: seq<Ranges.Range>)

  // What a hit carries besides its ranges.
  datatype Facts = Facts(lineCount: int, tokenCount: Option<int>, patterns: Option<string>)

  datatype Hit = Hit(facts: Facts, crossFile: bool, occurrences: nat, files: seq<FileRanges>)

  datatype Place = Place(path: string, range: Ranges.Range)

  datatype Suppressed = Suppressed(place: Place, suppression: Suppression)

  type RangesByFile = map<string, seq<Ranges.Range>>

  function Placed(path: string, lines: seq<Ranges.Range>): seq<Place> {
    if lines == [] then [] else Placed(path, lines[..|lines| - 1]) + [Place(path, lines[|lines| - 1])]
  }

  function Listed(files: seq<FileRanges>): seq<Place> {
    if files == [] then [] else Listed(files[..|files| - 1]) + Placed(files[|files| - 1].path, files[|files| - 1].lines)
  }

  // ---------------------------------------------------------------------------
  // Making a hit
  // ---------------------------------------------------------------------------

  function Shown(ranges: seq<Ranges.Range>, merge: bool): seq<Ranges.Range> {
    if merge then Ranges.Merged(ranges) else Ranges.Sorted(ranges)
  }

  ghost predicate Distinct(files: seq<FileRanges>) {
    forall i, j :: 0 <= i < j < |files| ==> files[i].path != files[j].path
  }

  // One file for each path, with its ranges as they are shown.
  ghost predicate Shows(files: seq<FileRanges>, ranges: RangesByFile, merge: bool) {
    && Distinct(files)
    && (forall f :: f in files ==> f.path in ranges && f.lines == Shown(ranges[f.path], merge))
    && (forall p :: p in ranges ==> FileRanges(p, Shown(ranges[p], merge)) in files)
  }

  function PathOf(): FileRanges -> string {
    (f: FileRanges) => f.path
  }

  // The files stand in the order of the locale, which is a parameter.
  method MakeHit(facts: Facts, ranges: RangesByFile, merge: bool, collate: (string, string) -> bool) returns (hit: Hit)
    ensures hit.facts == facts && Shows(hit.files, ranges, merge)
    ensures hit.crossFile <==> |hit.files| > 1
    ensures hit.occurrences == |Listed(hit.files)|
    ensures Sorting.WeakOrder(collate) ==> Sorting.Sorted(hit.files, Sorting.Through(PathOf(), collate))
  {
    hide Shows, Shown, Listed;
    var files: seq<FileRanges> := [];
    var left, count := ranges.Keys, 0;
    NoFiles(ranges, merge);
    while left != {}
      invariant left <= ranges.Keys && count == |Listed(files)|
      invariant Shows(files, Of(ranges, ranges.Keys - left), merge)
    {
      var path :| path in left;
      var sorted := ShowRanges(ranges[path], merge);
      count := count + |sorted|;
      ShowsOneMore(files, ranges, ranges.Keys - left, path, merge);
      PlacedSize(path, sorted);
      assert ranges.Keys - (left - {path}) == ranges.Keys - left + {path};
      files := files + [FileRanges(path, sorted)];
      left := left - {path};
    }
    assert Of(ranges, ranges.Keys - left) == ranges;
    var ordered := Sorting.Sort(files, Sorting.Through(PathOf(), collate));
    ShowsSorted(files, ranges, merge, collate);
    hit := Hit(facts, |ordered| > 1, count, ordered);
  }

  method ShowRanges(ranges: seq<Ranges.Range>, merge: bool) returns (sorted: seq<Ranges.Range>)
    ensures sorted == Shown(ranges, merge)
  {
    if merge {
      sorted := Ranges.MergeOverlappingRanges(ranges);
    } else {
      sorted := Ranges.Sorted(ranges);
    }
  }

  ghost function Of(ranges: RangesByFile, paths: set<string>): RangesByFile
    requires paths <= ranges.Keys
  {
    map p | p in paths :: ranges[p]
  }

  lemma NoFiles(ranges: RangesByFile, merge: bool)
    ensures Listed([]) == [] && ranges.Keys - ranges.Keys == {} && Shows([], Of(ranges, {}), merge)
  {
  }

  lemma ShowsOneMore(files: seq<FileRanges>, ranges: RangesByFile, done: set<string>, path: string, merge: bool)
    requires path in ranges && path !in done && done <= ranges.Keys
    requires Shows(files, Of(ranges, done), merge)
    ensures Shows(files + [FileRanges(path, Shown(ranges[path], merge))], Of(ranges, done + {path}), merge)
    ensures Listed(files + [FileRanges(path, Shown(ranges[path], merge))]) ==
      Listed(files) + Placed(path, Shown(ranges[path], merge))
  {
    hide Shown, Listed, Placed;
    var file := FileRanges(path, Shown(ranges[path], merge));
    ListedMore(files, file);
    OfMore(ranges, done, path);
    ShowsMore(files, Of(ranges, done), path, ranges[path], merge);
  }

  lemma OfMore(ranges: RangesByFile, done: set<string>, path: string)
    requires path in ranges && done <= ranges.Keys
    ensures Of(ranges, done + {path}) == Of(ranges, done)[path := ranges[path]] && Of(ranges, done).Keys == done
  {
  }

  lemma ListedMore(files: seq<FileRanges>, file: FileRanges)
    ensures Listed(files + [file]) == Listed(files) + Placed(file.path, file.lines)
  {
    assert (files + [file])[..|files|] == files;
  }

  lemma ShowsMore(files: seq<FileRanges>, ranges: RangesByFile, path: string, lines: seq<Ranges.Range>, merge: bool)
    requires Shows(files, ranges, merge) && path !in ranges
    ensures Shows(files + [FileRanges(path, Shown(lines, merge))], ranges[path := lines], merge)
  {
    hide Shown;
    var more := files + [FileRanges(path, Shown(lines, merge))];
    var after := ranges[path := lines];
    forall p | p in after
      ensures FileRanges(p, Shown(after[p], merge)) in more
    {
      if p != path {
        assert FileRanges(p, Shown(ranges[p], merge)) in files;
      }
    }
  }

  lemma {:induction false} PlacedSize(path: string, lines: seq<Ranges.Range>)
    ensures |Placed(path, lines)| == |lines|
  {
    if lines != [] {
      PlacedSize(path, lines[..|lines| - 1]);
    }
  }

  lemma {:induction false} PlacedCount(path: string, lines: seq<Ranges.Range>, place: Place)
    ensures multiset(Placed(path, lines))[place] == if place.path == path then multiset(lines)[place.range] else 0
  {
    if lines != [] {
      var k := |lines| - 1;
      assert lines == lines[..k] + [lines[k]];
      PlacedCount(path, lines[..k], place);
    }
  }

  // A place is listed as often as its file shows its range.
  lemma {:induction false} ListedCount(files: seq<FileRanges>, place: Place)
    requires Distinct(files)
    ensures (forall f :: f in files ==> f.path != place.path) ==> multiset(Listed(files))[place] == 0
    ensures forall f :: f in files && f.path == place.path ==>
      multiset(Listed(files))[place] == multiset(f.lines)[place.range]
  {
    if files != [] {
      var k := |files| - 1;
      ListedCount(files[..k], place);
      PlacedCount(files[k].path, files[k].lines, place);
      assert files == files[..k] + [files[k]];
      ListedLast(files, place);
      if files[k].path == place.path {
        assert forall f :: f in files[..k] ==> f.path != place.path;
      }
    }
  }

  lemma ListedLast(files: seq<FileRanges>, place: Place)
    requires files != []
    ensures var k := |files| - 1;
      multiset(Listed(files))[place] ==
        multiset(Listed(files[..k]))[place] + multiset(Placed(files[k].path, files[k].lines))[place]
  {
  }

  lemma ShowsCount(files: seq<FileRanges>, ranges: RangesByFile, merge: bool, place: Place)
    requires Shows(files, ranges, merge)
    ensures multiset(Listed(files))[place] ==
      if place.path in ranges then multiset(Shown(ranges[place.path], merge))[place.range] else 0
  {
    hide Shown, Listed;
    ListedCount(files, place);
    if place.path in ranges {
      assert FileRanges(place.path, Shown(ranges[place.path], merge)) in files;
    }
  }

  lemma ShowsSame(a: seq<FileRanges>, b: seq<FileRanges>, ranges: RangesByFile, merge: bool)
    requires Shows(a, ranges, merge) && Shows(b, ranges, merge)
    ensures multiset(Listed(a)) == multiset(Listed(b)) && |Listed(a)| == |Listed(b)|
  {
    forall place
      ensures multiset(Listed(a))[place] == multiset(Listed(b))[place]
    {
      ShowsCount(a, ranges, merge, place);
      ShowsCount(b, ranges, merge, place);
    }
    assert |Listed(a)| == |multiset(Listed(a))|;
  }

  lemma ShowsSorted(files: seq<FileRanges>, ranges: RangesByFile, merge: bool, collate: (string, string) -> bool)
    requires Shows(files, ranges, merge)
    ensures var ordered := Sorting.Sort(files, Sorting.Through(PathOf(), collate));
      && Shows(ordered, ranges, merge) && |Listed(ordered)| == |Listed(files)|
      && (Sorting.WeakOrder(collate) ==> Sorting.Sorted(ordered, Sorting.Through(PathOf(), collate)))
  {
    hide Shown, Listed, Sorting.Sort, Distinct;
    var less := Sorting.Through(PathOf(), collate);
    var ordered := Sorting.Sort(files, less);
    Sorting.SortKeeps(files, less);
    if Sorting.WeakOrder(collate) {
      Sorting.ThroughIsOrder(PathOf(), collate);
      Sorting.SortSorts(files, less);
    }
    DistinctPermutes(files, ordered);
    ShowsSame(files, ordered, ranges, merge);
  }

  lemma DistinctOnce(files: seq<FileRanges>, file: FileRanges)
    requires Distinct(files)
    ensures multiset(files)[file] <= 1
  {
    if multiset(files)[file] > 1 {
      var i, j := Sorting.Twice(files, file);
      assert false;
    }
  }

  lemma DistinctPermutes(files: seq<FileRanges>, ordered: seq<FileRanges>)
    requires Distinct(files) && multiset(files) == multiset(ordered)
    ensures Distinct(ordered)
  {
    forall i, j | 0 <= i < j < |ordered|
      ensures ordered[i].path != ordered[j].path
    {
      var f, g := ordered[i], ordered[j];
      assert f in multiset(files) && g in multiset(files);
      assert f.path == g.path ==> f == g;
      DistinctOnce(files, f);
      if f == g {
        Sorting.TwiceCounts(ordered, i, j);
      }
    }
  }

  // ---------------------------------------------------------------------------
  // Matching
  // ---------------------------------------------------------------------------

  predicate Covers(s: Suppression, detector: Detector, range: Ranges.Range) {
    && detector in s.detectors
    && match s.kind
       case Single => s.start == range.start
       case Range => s.start <= range.start && range.last <= s.end
  }

  function FirstMatch(list: seq<Suppression>, detector: Detector, range: Ranges.Range): Option<Suppression> {
    if list == [] then None
    else if Covers(list[0], detector, range) then Some(list[0])
    else FirstMatch(list[1..], detector, range)
  }

  // In an accepted list at most one suppression covers a range, so the first match is the only
  // one.
  lemma {:induction false} FirstMatchIsOnly(
      list: seq<Suppression>, detector: Detector, range: Ranges.Range, s: Suppression)
    requires Rising(list) && Proper(list) && range.start <= range.last
    ensures FirstMatch(list, detector, range) == Some(s) <==> s in list && Covers(s, detector, range)
  {
    if list != [] {
      assert forall x :: x in list <==> x == list[0] || x in list[1..];
      assert forall x :: x in list[1..] ==> list[0].end < x.start;
      FirstMatchIsOnly(list[1..], detector, range, s);
    }
  }

  type Lists = map<string, seq<Suppression>>

  function MatchAt(lists: Lists, detector: Detector, place: Place): Option<Suppression> {
    if place.path in lists then FirstMatch(lists[place.path], detector, place.range) else None
  }

  function SuppressedIn(places: seq<Place>, lists: Lists, detector: Detector): seq<Suppressed> {
    if places == [] then []
    else
      var k := |places| - 1;
      var found := MatchAt(lists, detector, places[k]);
      SuppressedIn(places[..k], lists, detector) + if found.Some? then [Suppressed(places[k], found.value)] else []
  }

  function KeptIn(places: seq<Place>, lists: Lists, detector: Detector): seq<Place> {
    if places == [] then []
    else
      var k := |places| - 1;
      KeptIn(places[..k], lists, detector) + if MatchAt(lists, detector, places[k]).Some? then [] else [places[k]]
  }

  function PlacesOf(suppressed: seq<Suppressed>): seq<Place> {
    if suppressed == [] then [] else PlacesOf(suppressed[..|suppressed| - 1]) + [suppressed[|suppressed| - 1].place]
  }

  // ---------------------------------------------------------------------------
  // Applying the suppressions
  // ---------------------------------------------------------------------------

  function RangesAt(places: seq<Place>, path: string): seq<Ranges.Range> {
    if places == [] then []
    else
      var k := |places| - 1;
      RangesAt(places[..k], path) + if places[k].path == path then [places[k].range] else []
  }

  // The places by file.
  ghost predicate Groups(ranges: RangesByFile, places: seq<Place>) {
    && (forall p :: p in ranges <==> exists place :: place in places && place.path == p)
    && (forall p :: p in ranges ==> ranges[p] == RangesAt(places, p))
  }

  lemma {:induction false} RangesAtCount(places: seq<Place>, place: Place)
    ensures multiset(RangesAt(places, place.path))[place.range] == multiset(places)[place]
  {
    if places != [] {
      var k := |places| - 1;
      assert places == places[..k] + [places[k]];
      RangesAtCount(places[..k], place);
    }
  }

  // A hit made from grouped places lists exactly those places.
  lemma ShowsPlaces(files: seq<FileRanges>, ranges: RangesByFile, places: seq<Place>)
    requires Shows(files, ranges, false) && Groups(ranges, places)
    ensures multiset(Listed(files)) == multiset(places) && |Listed(files)| == |places|
  {
    hide Listed, RangesAt;
    forall place
      ensures multiset(Listed(files))[place] == multiset(places)[place]
    {
      ShowsCount(files, ranges, false, place);
      RangesAtCount(places, place);
      if place.path !in ranges {
        assert place !in places;
      }
    }
    assert |Listed(files)| == |multiset(Listed(files))|;
  }

  lemma GroupsGrow(ranges: RangesByFile, places: seq<Place>, place: Place)
    requires Groups(ranges, places)
    ensures Groups(ranges[place.path := (if place.path in ranges then ranges[place.path] else []) + [place.range]],
      places + [place])
  {
    hide RangesAt;
    var more := places + [place];
    if place.path !in ranges {
      NoRangesAt(places, place.path);
    }
    forall p
      ensures (exists x :: x in more && x.path == p) <==> p == place.path || p in ranges
      ensures RangesAt(more, p) == if p == place.path then RangesAt(places, p) + [place.range] else RangesAt(places, p)
    {
      RangesAtLast(places, place, p);
      assert place in more;
      if p in ranges {
        var x :| x in places && x.path == p;
        assert x in more;
      }
    }
  }

  lemma RangesAtLast(places: seq<Place>, place: Place, path: string)
    ensures RangesAt(places + [place], path) ==
      if path == place.path then RangesAt(places, path) + [place.range] else RangesAt(places, path)
  {
    assert (places + [place])[..|places|] == places;
  }

  lemma {:induction false} NoRangesAt(places: seq<Place>, path: string)
    requires forall place :: place in places ==> place.path != path
    ensures RangesAt(places, path) == []
  {
    if places != [] {
      assert places[|places| - 1] in places;
      NoRangesAt(places[..|places| - 1], path);
    }
  }

  method Match(lists: Lists, detector: Detector, place: Place) returns (found: Option<Suppression>)
    ensures found == MatchAt(lists, detector, place)
  {
    found := None;
    if place.path in lists {
      var candidates := lists[place.path];
      for i := 0 to |candidates|
        invariant FirstMatch(candidates, detector, place.range) == FirstMatch(candidates[i..], detector, place.range)
      {
        if Covers(candidates[i], detector, place.range) {
          return Some(candidates[i]);
        }
      }
    }
  }

  // The ranges of a hit, split into the suppressed ones and the others.
  method SplitHit(files: seq<FileRanges>, lists: Lists, detector: Detector)
    returns (suppressed: seq<Suppressed>, ranges: RangesByFile, occurrences: nat)
    ensures suppressed == SuppressedIn(Listed(files), lists, detector)
    ensures Groups(ranges, KeptIn(Listed(files), lists, detector))
      && occurrences == |KeptIn(Listed(files), lists, detector)|
  {
    hide Groups, MatchAt, SuppressedIn, KeptIn, Listed, Placed;
    suppressed, ranges, occurrences := [], map[], 0;
    ghost var places: seq<Place> := [];
    NothingSplit(lists, detector);
    NothingGrouped();
    for f := 0 to |files|
      invariant places == Listed(files[..f])
      invariant suppressed == SuppressedIn(places, lists, detector)
      invariant Groups(ranges, KeptIn(places, lists, detector)) && occurrences == |KeptIn(places, lists, detector)|
    {
      var path, lines := files[f].path, files[f].lines;
      ListedStep(files, f);
      for k := 0 to |lines|
        invariant places == Listed(files[..f]) + Placed(path, lines[..k])
        invariant suppressed == SuppressedIn(places, lists, detector)
        invariant Groups(ranges, KeptIn(places, lists, detector)) && occurrences == |KeptIn(places, lists, detector)|
      {
        var place := Place(path, lines[k]);
        var found := Match(lists, detector, place);
        SplitStep(places, place, lists, detector);
        if found.Some? {
          suppressed := suppressed + [Suppressed(place, found.value)];
        } else {
          GroupsGrow(ranges, KeptIn(places, lists, detector), place);
          ranges := ranges[path := (if path in ranges then ranges[path] else []) + [lines[k]]];
          occurrences := occurrences + 1;
        }
        PlacedStep(path, lines, k);
        places := places + [place];
      }
      assert lines[..|lines|] == lines;
    }
    assert files[..|files|] == files;
  }

  lemma NothingGrouped()
    ensures Groups(map[], []) && Listed([]) == []
  {
  }

  lemma ListedStep(files: seq<FileRanges>, f: nat)
    requires f < |files|
    ensures Listed(files[..f + 1]) == Listed(files[..f]) + Placed(files[f].path, files[f].lines)
    ensures Placed(files[f].path, []) == [] && files[f].lines[..0] == []
  {
    assert files[..f + 1][..f] == files[..f];
  }

  lemma PlacedStep(path: string, lines: seq<Ranges.Range>, k: nat)
    requires k < |lines|
    ensures Placed(path, lines[..k + 1]) == Placed(path, lines[..k]) + [Place(path, lines[k])]
  {
    assert lines[..k + 1][..k] == lines[..k];
  }

  lemma SplitStep(places: seq<Place>, place: Place, lists: Lists, detector: Detector)
    ensures var found := MatchAt(lists, detector, place);
      && SuppressedIn(places + [place], lists, detector) ==
         (if found.Some? then SuppressedIn(places, lists, detector) + [Suppressed(place, found.value)]
           else SuppressedIn(places, lists, detector))
      && KeptIn(places + [place], lists, detector) ==
         if found.Some? then KeptIn(places, lists, detector) else KeptIn(places, lists, detector) + [place]
  {
    assert (places + [place])[..|places|] == places;
  }

  // ---------------------------------------------------------------------------
  // All hits
  // ---------------------------------------------------------------------------

  // A hit is retained with at least two ranges that are not suppressed.
  predicate Retains(hit: Hit, lists: Lists, detector: Detector) {
    |KeptIn(Listed(hit.files), lists, detector)| >= 2
  }

  function RetainedOf(hits: seq<Hit>, lists: Lists, detector: Detector): seq<Hit> {
    if hits == [] then []
    else
      var k := |hits| - 1;
      RetainedOf(hits[..k], lists, detector) + if Retains(hits[k], lists, detector) then [hits[k]] else []
  }

  function SuppressedOf(hits: seq<Hit>, lists: Lists, detector: Detector): seq<Suppressed> {
    if hits == [] then []
    else
      var k := |hits| - 1;
      SuppressedOf(hits[..k], lists, detector) + SuppressedIn(Listed(hits[k].files), lists, detector)
  }

  // What is left of the hits that are not retained.
  function LeftoversOf(hits: seq<Hit>, lists: Lists, detector: Detector): seq<Place> {
    if hits == [] then []
    else
      var k := |hits| - 1;
      LeftoversOf(hits[..k], lists, detector)
        + if Retains(hits[k], lists, detector) then [] else KeptIn(Listed(hits[k].files), lists, detector)
  }

  // By first line, then by last line.
  predicate Ascending(lines: seq<Ranges.Range>) {
    forall i, j :: 0 <= i < j < |lines| ==>
      lines[i].start < lines[j].start || (lines[i].start == lines[j].start && lines[i].last <= lines[j].last)
  }

  // `after` is the hit with only its unsuppressed ranges, regrouped.
  ghost predicate Reduced(hit: Hit, after: Hit, lists: Lists, detector: Detector) {
    && after.facts == hit.facts && Distinct(after.files)
    && multiset(Listed(after.files)) == multiset(KeptIn(Listed(hit.files), lists, detector))
    && after.occurrences == |KeptIn(Listed(hit.files), lists, detector)|
    && (after.crossFile <==> |after.files| > 1)
    && (forall f :: f in after.files ==> f.lines != [] && Ascending(f.lines))
  }

  method ApplyInlineSuppressions(hits: seq<Hit>, lists: Lists, detector: Detector, collate: (string, string) -> bool)
    returns (remaining: seq<Hit>, suppressed: seq<Suppressed>)
    ensures suppressed == SuppressedOf(hits, lists, detector)
    ensures AllReduced(RetainedOf(hits, lists, detector), remaining, lists, detector)
  {
    hide *;
    remaining, suppressed := [], [];
    NoHits(lists, detector);
    for h := 0 to |hits|
      invariant suppressed == SuppressedOf(hits[..h], lists, detector)
      invariant AllReduced(RetainedOf(hits[..h], lists, detector), remaining, lists, detector)
    {
      var hit := hits[h];
      assert hits[..h + 1] == hits[..h] + [hit];
      HitStep(hits[..h], hit, lists, detector);
      var found, ranges, occurrences := SplitHit(hit.files, lists, detector);
      suppressed := suppressed + found;
      RetainsIs(hit, lists, detector);
      if occurrences >= 2 {
        var retained := MakeHit(hit.facts, ranges, false, collate);
        MadeIsReduced(hit, retained, ranges, lists, detector);
        ReducedGrows(RetainedOf(hits[..h], lists, detector), remaining, hit, retained, lists, detector);
        remaining := remaining + [retained];
      }
    }
    assert hits[..|hits|] == hits;
  }

  // The retained hits, each reduced.
  ghost predicate AllReduced(hits: seq<Hit>, after: seq<Hit>, lists: Lists, detector: Detector) {
    |after| == |hits| && forall i :: 0 <= i < |after| ==> Reduced(hits[i], after[i], lists, detector)
  }

  lemma ReducedGrows(hits: seq<Hit>, after: seq<Hit>, hit: Hit, next: Hit, lists: Lists, detector: Detector)
    requires AllReduced(hits, after, lists, detector) && Reduced(hit, next, lists, detector)
    ensures AllReduced(hits + [hit], after + [next], lists, detector)
  {
  }

  lemma RetainsIs(hit: Hit, lists: Lists, detector: Detector)
    ensures Retains(hit, lists, detector) <==> |KeptIn(Listed(hit.files), lists, detector)| >= 2
  {
  }

  lemma NoHits(lists: Lists, detector: Detector)
    ensures AllPlaces([]) == [] && SuppressedOf([], lists, detector) == [] && RetainedOf([], lists, detector) == []
      && LeftoversOf([], lists, detector) == []
    ensures AllReduced([], [], lists, detector)
  {
  }

  lemma HitStep(hits: seq<Hit>, hit: Hit, lists: Lists, detector: Detector)
    ensures var places, more := Listed(hit.files), hits + [hit];
      && AllPlaces(more) == AllPlaces(hits) + places
      && SuppressedOf(more, lists, detector) ==
         SuppressedOf(hits, lists, detector) + SuppressedIn(places, lists, detector)
      && var retained, left := RetainedOf(hits, lists, detector), LeftoversOf(hits, lists, detector);
         var retains := Retains(hit, lists, detector);
         && RetainedOf(more, lists, detector) == (if retains then retained + [hit] else retained)
         && LeftoversOf(more, lists, detector) == if retains then left else left + KeptIn(places, lists, detector)
  {
    hide Listed, KeptIn, SuppressedIn, Retains;
    assert (hits + [hit])[..|hits|] == hits;
  }

  lemma MadeIsReduced(hit: Hit, after: Hit, ranges: RangesByFile, lists: Lists, detector: Detector)
    requires Groups(ranges, KeptIn(Listed(hit.files), lists, detector)) && Shows(after.files, ranges, false)
    requires after.facts == hit.facts && (after.crossFile <==> |after.files| > 1)
      && after.occurrences == |Listed(after.files)|
    ensures Reduced(hit, after, lists, detector)
  {
    hide KeptIn, Listed;
    var kept := KeptIn(Listed(hit.files), lists, detector);
    ShowsPlaces(after.files, ranges, kept);
    forall f | f in after.files
      ensures f.lines != [] && Ascending(f.lines)
    {
      Ranges.SortedIsOrdered(ranges[f.path]);
      RangesAscend(ranges[f.path]);
      var place :| place in kept && place.path == f.path;
      RangesAtCount(kept, place);
      assert multiset(kept)[place] > 0;
      assert place.range in multiset(ranges[f.path]);
    }
  }

  lemma RangesAscend(ranges: seq<Ranges.Range>)
    ensures Ascending(Ranges.Sorted(ranges))
  {
    Sorting.SortSorts(ranges, Ranges.Ordered);
    var sorted := Ranges.Sorted(ranges);
    forall i, j | 0 <= i < j < |sorted|
      ensures sorted[i].start < sorted[j].start
        || (sorted[i].start == sorted[j].start && sorted[i].last <= sorted[j].last)
    {
      assert !Ranges.Ordered(sorted[j], sorted[i]);
    }
  }

  function AllPlaces(hits: seq<Hit>): seq<Place> {
    if hits == [] then [] else AllPlaces(hits[..|hits| - 1]) + Listed(hits[|hits| - 1].files)
  }

  lemma {:induction false} SplitConserves(places: seq<Place>, lists: Lists, detector: Detector)
    ensures multiset(places) ==
      multiset(PlacesOf(SuppressedIn(places, lists, detector))) + multiset(KeptIn(places, lists, detector))
  {
    hide *;
    if places != [] {
      var front, place := places[..|places| - 1], places[|places| - 1];
      assert places == front + [place];
      SplitConserves(front, lists, detector);
      SplitStep(front, place, lists, detector);
      var found := MatchAt(lists, detector, place);
      if found.Some? {
        PlacesOfLast(SuppressedIn(front, lists, detector), Suppressed(place, found.value));
      }
    } else {
      NothingSplit(lists, detector);
    }
  }

  lemma NothingSplit(lists: Lists, detector: Detector)
    ensures SuppressedIn([], lists, detector) == [] && KeptIn([], lists, detector) == [] && PlacesOf([]) == []
  {
  }

  lemma PlacesOfLast(suppressed: seq<Suppressed>, last: Suppressed)
    ensures PlacesOf(suppressed + [last]) == PlacesOf(suppressed) + [last.place]
  {
    assert (suppressed + [last])[..|suppressed|] == suppressed;
  }

  lemma {:induction false} PlacesOfJoins(a: seq<Suppressed>, b: seq<Suppressed>)
    ensures PlacesOf(a + b) == PlacesOf(a) + PlacesOf(b)
  {
    if b == [] {
      assert a + b == a;
    } else {
      var k := |b| - 1;
      assert (a + b)[..|a + b| - 1] == a + b[..k];
      PlacesOfJoins(a, b[..k]);
    }
  }

  // Every range is suppressed, kept in a retained hit, or left over from one that is not;
  // exactly one of them, and no range appears from nowhere.
  lemma {:induction false} RangesAreConserved(hits: seq<Hit>, remaining: seq<Hit>, lists: Lists, detector: Detector)
    requires AllReduced(RetainedOf(hits, lists, detector), remaining, lists, detector)
    ensures multiset(AllPlaces(hits)) ==
      multiset(PlacesOf(SuppressedOf(hits, lists, detector))) + multiset(AllPlaces(remaining))
        + multiset(LeftoversOf(hits, lists, detector))
  {
    hide *;
    if hits == [] {
      NoHits(lists, detector);
      NothingSplit(lists, detector);
      NoneReduced(remaining, lists, detector);
    } else {
      var front, hit := hits[..|hits| - 1], hits[|hits| - 1];
      var places := Listed(hit.files);
      assert hits == front + [hit];
      HitStep(front, hit, lists, detector);
      SplitConserves(places, lists, detector);
      PlacesOfJoins(SuppressedOf(front, lists, detector), SuppressedIn(places, lists, detector));
      if Retains(hit, lists, detector) {
        var rest := ReducedShrinks(RetainedOf(front, lists, detector), remaining, hit, lists, detector);
        RangesAreConserved(front, rest, lists, detector);
      } else {
        RangesAreConserved(front, remaining, lists, detector);
      }
    }
  }

  lemma NoneReduced(remaining: seq<Hit>, lists: Lists, detector: Detector)
    requires AllReduced([], remaining, lists, detector)
    ensures remaining == []
  {
  }

  lemma ReducedShrinks(hits: seq<Hit>, remaining: seq<Hit>, hit: Hit, lists: Lists, detector: Detector)
    returns (rest: seq<Hit>)
    requires AllReduced(hits + [hit], remaining, lists, detector)
    ensures AllReduced(hits, rest, lists, detector)
    ensures multiset(AllPlaces(remaining)) ==
      multiset(AllPlaces(rest)) + multiset(KeptIn(Listed(hit.files), lists, detector))
  {
    hide Reduced, Listed, KeptIn;
    var k := |remaining| - 1;
    rest := remaining[..k];
    assert Reduced((hits + [hit])[k], remaining[k], lists, detector);
    forall i | 0 <= i < k
      ensures Reduced(hits[i], rest[i], lists, detector)
    {
      assert Reduced((hits + [hit])[i], remaining[i], lists, detector);
    }
    ReducedPlaces(hit, remaining[k], lists, detector);
  }

  lemma ReducedPlaces(hit: Hit, after: Hit, lists: Lists, detector: Detector)
    requires Reduced(hit, after, lists, detector)
    ensures multiset(Listed(after.files)) == multiset(KeptIn(Listed(hit.files), lists, detector))
  {
  }

  // A single suppression hides the ranges that start on its line, a region those inside it.
  predicate Hides(s: Suppression, detector: Detector, range: Ranges.Range) {
    && detector in s.detectors
    && ((s.kind == Single && range.start == s.start)
         || (s.kind == Suppressions.Range && s.start <= range.start && range.last <= s.end))
  }

  lemma CoversIs(s: Suppression, detector: Detector, range: Ranges.Range)
    ensures Covers(s, detector, range) <==> Hides(s, detector, range)
  {
  }

  // Under accepted lists a range is suppressed exactly when a suppression hides it, and by
  // that one only.
  lemma {:induction false} SuppressedByCover(
      places: seq<Place>, lists: Lists, detector: Detector, place: Place, s: Suppression)
    requires forall p :: p in lists ==> Rising(lists[p]) && Proper(lists[p])
    requires forall x :: x in places ==> x.range.start <= x.range.last
    ensures Suppressed(place, s) in SuppressedIn(places, lists, detector) <==>
      place in places && place.path in lists && s in lists[place.path] && Hides(s, detector, place.range)
  {
    if places != [] {
      hide Covers, Hides;
      var k := |places| - 1;
      assert places == places[..k] + [places[k]];
      assert forall x :: x in places <==> x in places[..k] || x == places[k];
      SuppressedByCover(places[..k], lists, detector, place, s);
      if place == places[k] && place.path in lists {
        CoversIs(s, detector, place.range);
        FirstMatchIsOnly(lists[place.path], detector, place.range, s);
      }
    }
  }

  ghost predicate Hidden(lists: Lists, detector: Detector, place: Place) {
    place.path in lists && exists s :: s in lists[place.path] && Hides(s, detector, place.range)
  }

  lemma {:induction false} FoundIsHidden(list: seq<Suppression>, detector: Detector, range: Ranges.Range)
    ensures FirstMatch(list, detector, range).Some? <==> exists s :: s in list && Hides(s, detector, range)
  {
    if list != [] {
      hide Covers, Hides;
      CoversIs(list[0], detector, range);
      FoundIsHidden(list[1..], detector, range);
      assert forall s :: s in list <==> s == list[0] || s in list[1..];
    }
  }

  // The kept places are those that no suppression hides, each as often as it stands.
  lemma {:induction false} KeptAre(places: seq<Place>, lists: Lists, detector: Detector, place: Place)
    ensures multiset(KeptIn(places, lists, detector))[place] ==
      if Hidden(lists, detector, place) then 0 else multiset(places)[place]
  {
    if places != [] {
      hide Hides, FirstMatch;
      var k := |places| - 1;
      assert places == places[..k] + [places[k]];
      KeptAre(places[..k], lists, detector, place);
      if places[k].path in lists {
        FoundIsHidden(lists[places[k].path], detector, places[k].range);
      }
    }
  }

  // The retained hits are those with at least two kept places, each as often as it stands.
  lemma {:induction false} RetainedAre(hits: seq<Hit>, lists: Lists, detector: Detector, hit: Hit)
    ensures multiset(RetainedOf(hits, lists, detector))[hit] ==
      if |KeptIn(Listed(hit.files), lists, detector)| > 1 then multiset(hits)[hit] else 0
  {
    if hits != [] {
      hide KeptIn, Listed;
      var k := |hits| - 1;
      assert hits == hits[..k] + [hits[k]];
      RetainedAre(hits[..k], lists, detector, hit);
    }
  }
}
