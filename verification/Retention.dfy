// What the hits and records of the candidate filter say: their patterns, keys, identities,
// occurrences and reasons (tools/cleanup/cpd_patterns.cpp filterCpdCandidates).
module Retention {
  import opened Wrappers
  import opened OrderedMaps
  import opened Candidates
  import opened Acceptance

  // ---------------------------------------------------------------------------
  // The items that are grouped
  // ---------------------------------------------------------------------------

  // How many prefixes the first n occurrences have.
  function PrefixesBefore(described: seq<Described>, n: nat): nat
    requires n <= |described|
  {
    if n == 0 then 0 else PrefixesBefore(described, n - 1) + |described[n - 1].description.prefixes|
  }

  function PartsBefore(described: seq<Described>, n: nat): nat
    requires n <= |described|
  {
    if n == 0 then 0 else PartsBefore(described, n - 1) + |described[n - 1].description.parts|
  }

  // Its key; its place as identity; its occurrence, the original and the parameter types.
  predicate IsPrefixItem(lib: Library, d: Described, i: nat, p: Prefix, item: Item) {
    && item.key == p.key && item.value.key == lib.spanText(d.occurrence.path, p.start, p.end)
    && var e := item.value.value;
       e.occurrence == p.occurrence && e.original == i && e.parameterTypes == p.parameterTypes
  }

  predicate IsPartItem(i: nat, p: Part, item: Item) {
    && item.key == p.key && item.value.key == p.identity
    && var e := item.value.value;
       e.occurrence == p.occurrence && e.original == i && e.executableTokens == p.executableTokens
  }

  lemma {:induction false} PrefixesOfOne(lib: Library, d: Described, i: nat, n: nat)
    requires n <= |d.description.prefixes|
    ensures var items := PrefixItemsOf(lib, d, i, n);
      |items| == n && forall j :: 0 <= j < n ==> IsPrefixItem(lib, d, i, d.description.prefixes[j], items[j])
  {
    if n > 0 {
      PrefixesOfOne(lib, d, i, n - 1);
    }
  }

  lemma {:induction false} PartsOfOne(d: Described, i: nat, n: nat)
    requires n <= |d.description.parts|
    ensures var items := PartItemsOf(d, i, n);
      |items| == n && forall j :: 0 <= j < n ==> IsPartItem(i, d.description.parts[j], items[j])
  {
    if n > 0 {
      PartsOfOne(d, i, n - 1);
    }
  }

  lemma {:induction false} PrefixesBelow(described: seq<Described>, n: nat)
    requires n < |described|
    ensures PrefixesBefore(described[..|described| - 1], n) == PrefixesBefore(described, n)
    ensures PartsBefore(described[..|described| - 1], n) == PartsBefore(described, n)
  {
    if n > 0 {
      PrefixesBelow(described, n - 1);
    }
  }

  // The j-th prefix of the i-th occurrence stands in its place.
  predicate PrefixAt(lib: Library, described: seq<Described>, items: seq<Item>, i: nat, j: nat)
    requires i < |described| && j < |described[i].description.prefixes|
  {
    var m := PrefixesBefore(described, i) + j;
    m < |items| && IsPrefixItem(lib, described[i], i, described[i].description.prefixes[j], items[m])
  }

  predicate PartAt(described: seq<Described>, items: seq<Item>, i: nat, j: nat)
    requires i < |described| && j < |described[i].description.parts|
  {
    var m := PartsBefore(described, i) + j;
    m < |items| && IsPartItem(i, described[i].description.parts[j], items[m])
  }

  lemma PrefixStays(lib: Library, described: seq<Described>, items: seq<Item>, more: seq<Item>, i: nat, j: nat)
    requires i < |described| - 1 && j < |described[i].description.prefixes|
    requires PrefixAt(lib, described[..|described| - 1], items, i, j)
    ensures PrefixAt(lib, described, items + more, i, j)
  {
    hide IsPrefixItem;
    PrefixesBelow(described, i);
  }

  lemma PartStays(described: seq<Described>, items: seq<Item>, more: seq<Item>, i: nat, j: nat)
    requires i < |described| - 1 && j < |described[i].description.parts|
    requires PartAt(described[..|described| - 1], items, i, j)
    ensures PartAt(described, items + more, i, j)
  {
    hide IsPartItem;
    PrefixesBelow(described, i);
  }

  // The prefixes of all occurrences, one occurrence after the other.
  lemma {:induction false} PrefixItemsAre(lib: Library, described: seq<Described>)
    ensures |PrefixItems(lib, described)| == PrefixesBefore(described, |described|)
    ensures forall i: nat, j: nat :: i < |described| && j < |described[i].description.prefixes| ==>
      PrefixAt(lib, described, PrefixItems(lib, described), i, j)
  {
    hide *;
    if described == [] {
      NoItems(lib);
    } else {
      var k := |described| - 1;
      var front, d := described[..k], described[k];
      var before, more := PrefixItems(lib, front), PrefixItemsOf(lib, d, k, |d.description.prefixes|);
      PrefixItemsAre(lib, front);
      PrefixesOfOne(lib, d, k, |d.description.prefixes|);
      PrefixesCount(described);
      ItemsStep(lib, described);
      forall i: nat, j: nat | i < |described| && j < |described[i].description.prefixes|
        ensures PrefixAt(lib, described, before + more, i, j)
      {
        if i < k {
          assert PrefixAt(lib, front, before, i, j);
          PrefixStays(lib, described, before, more, i, j);
        } else {
          LastPrefixAt(lib, described, before, more, j);
        }
      }
    }
  }

  lemma PrefixesCount(described: seq<Described>)
    requires described != []
    ensures var k := |described| - 1;
      && PrefixesBefore(described, k) == PrefixesBefore(described[..k], k)
      && PrefixesBefore(described, k + 1) == PrefixesBefore(described, k) + |described[k].description.prefixes|
      && PartsBefore(described, k) == PartsBefore(described[..k], k)
      && PartsBefore(described, k + 1) == PartsBefore(described, k) + |described[k].description.parts|
  {
    PrefixesBelow(described, |described| - 1);
  }

  lemma LastPrefixAt(lib: Library, described: seq<Described>, items: seq<Item>, more: seq<Item>, j: nat)
    requires described != [] && |items| == PrefixesBefore(described, |described| - 1)
    requires var d := described[|described| - 1];
      && j < |d.description.prefixes| == |more|
      && IsPrefixItem(lib, d, |described| - 1, d.description.prefixes[j], more[j])
    ensures PrefixAt(lib, described, items + more, |described| - 1, j)
  {
    hide IsPrefixItem;
    assert (items + more)[|items| + j] == more[j];
  }

  lemma LastPartAt(described: seq<Described>, items: seq<Item>, more: seq<Item>, j: nat)
    requires described != [] && |items| == PartsBefore(described, |described| - 1)
    requires var d := described[|described| - 1];
      && j < |d.description.parts| == |more|
      && IsPartItem(|described| - 1, d.description.parts[j], more[j])
    ensures PartAt(described, items + more, |described| - 1, j)
  {
    hide IsPartItem;
    assert (items + more)[|items| + j] == more[j];
  }

  lemma ItemsStep(lib: Library, described: seq<Described>)
    requires described != []
    ensures var k := |described| - 1;
      var d := described[k];
      && PartItems(described) == PartItems(described[..k]) + PartItemsOf(d, k, |d.description.parts|)
      && PrefixItems(lib, described) ==
         PrefixItems(lib, described[..k]) + PrefixItemsOf(lib, d, k, |d.description.prefixes|)
  {
  }

  lemma NoItems(lib: Library)
    ensures PartItems([]) == [] && PrefixItems(lib, []) == [] && PartsBefore([], 0) == 0 && PrefixesBefore([], 0) == 0
  {
  }

  lemma {:induction false} PartItemsAre(lib: Library, described: seq<Described>)
    ensures |PartItems(described)| == PartsBefore(described, |described|)
    ensures forall i: nat, j: nat :: i < |described| && j < |described[i].description.parts| ==>
      PartAt(described, PartItems(described), i, j)
  {
    hide *;
    if described == [] {
      NoItems(lib);
    } else {
      var k := |described| - 1;
      var front, d := described[..k], described[k];
      var before, more := PartItems(front), PartItemsOf(d, k, |d.description.parts|);
      PartItemsAre(lib, front);
      PartsOfOne(d, k, |d.description.parts|);
      PrefixesCount(described);
      ItemsStep(lib, described);
      forall i: nat, j: nat | i < |described| && j < |described[i].description.parts|
        ensures PartAt(described, before + more, i, j)
      {
        if i < k {
          assert PartAt(front, before, i, j);
          PartStays(described, before, more, i, j);
        } else {
          LastPartAt(described, before, more, j);
        }
      }
    }
  }

  // ---------------------------------------------------------------------------
  // Hits
  // ---------------------------------------------------------------------------

  // The hit has the group's identities and, in their order, its occurrences.
  predicate Holds(h: Hit, facts: Facts, g: Group, pattern: string, key: string) {
    && h.facts == facts && h.pattern == pattern && h.patternKey == key && h.identities == g.identities
    && |h.occurrences| == |g.entries|
    && forall j :: 0 <= j < |g.entries| ==> h.occurrences[j] == g.entries[j].occurrence
  }

  // An occurrence of at least two statements or of an expression.
  predicate Executes(d: Described) {
    d.description.statements >= 2 || d.description.expression
  }

  // A group of whole occurrences; the first of them says which pattern it is.
  ghost predicate WholeHit(described: seq<Described>, facts: Facts, h: Hit) {
    exists g, i: nat ::
      && g in Matching(Filled(WholeItems(described), Inner()))
      && i < |described| && g.entries != [] && g.entries[0].original == i
      && Holds(h, facts, g,
         if Executes(described[i]) then "shared executable operations" else "same complete record declaration",
           g.key)
  }

  ghost predicate PrefixHit(lib: Library, described: seq<Described>, facts: Facts, h: Hit) {
    exists g ::
      && g in Matching(Filled(PrefixItems(lib, described), Inner()))
      && (exists d, e :: d in g.entries && e in g.entries && d.parameterTypes != e.parameterTypes)
      && Holds(h, facts, g, "same function, first parameter and opening statement", "prefix:" + g.key)
  }

  ghost predicate PartHit(lib: Library, described: seq<Described>, facts: Facts, h: Hit) {
    var groups := PartGroupsOf(described);
    exists n: nat ::
      && Uncovered(lib, groups, n)
      && Holds(h, facts, groups[n], "shared complete statements within a larger match", groups[n].key)
  }

  ghost predicate AllHit(lib: Library, described: seq<Described>, index: nat, facts: Facts, h: Hit) {
    && h.facts == facts && h.pattern == "unclassified syntax requires manual review"
    && h.patternKey == "unclassified:" + lib.numberText(index)
    && |h.occurrences| == |h.identities| == |described|
    && forall i :: 0 <= i < |described| ==>
         h.occurrences[i] == described[i].occurrence && h.identities[i] == lib.occurrenceText(described[i].occurrence)
  }

  // An entry of a whole occurrence is that occurrence.
  predicate IsWhole(described: seq<Described>, e: Entry) {
    e.original < |described| && e.occurrence == described[e.original].occurrence
    && (e.operation <==> Executes(described[e.original]))
  }

  lemma {:induction false} WholeItemsAre(described: seq<Described>)
    ensures forall item :: item in WholeItems(described) ==> IsWhole(described, item.value.value)
  {
    if described != [] {
      WholeItemsAre(described[..|described| - 1]);
    }
  }

  lemma WholeEntries(described: seq<Described>, g: Group)
    requires g in Matching(Filled(WholeItems(described), Inner()))
    ensures g.entries != [] && forall e :: e in g.entries ==> IsWhole(described, e)
  {
    hide Matching, Filled, WholeItems, Inner, FirstKeys, At;
    var items := WholeItems(described);
    GroupIs(items, g);
    WholeItemsAre(described);
    forall e | e in g.entries
      ensures IsWhole(described, e)
    {
      EntriesAre(items, g, e);
      var m: nat :| IsLast(items, m) && items[m].key == g.key && items[m].value.value == e;
      assert items[m] in items;
    }
  }

  lemma HitHolds(facts: Facts, k: Kept, h: Hit)
    ensures h == HitOf(facts, k) <==> Holds(h, facts, k.group, k.pattern, k.group.key)
  {
    if Holds(h, facts, k.group, k.pattern, k.group.key) {
      assert h.occurrences == Occurrences(k.group.entries);
    }
  }

  lemma HitsHave(facts: Facts, kept: seq<Kept>, h: Hit)
    ensures h in HitsOf(facts, kept) <==> exists k :: k in kept && Holds(h, facts, k.group, k.pattern, k.group.key)
  {
    hide Holds;
    forall k
      ensures h == HitOf(facts, k) <==> Holds(h, facts, k.group, k.pattern, k.group.key)
    {
      HitHolds(facts, k, h);
    }
    if k :| k in kept && h == HitOf(facts, k) {
      var m :| 0 <= m < |kept| && kept[m] == k;
      assert HitsOf(facts, kept)[m] == h;
    }
  }

  lemma WholeHits(described: seq<Described>, facts: Facts, h: Hit)
    ensures h in HitsOf(facts, WholesKept(Matching(Filled(WholeItems(described), Inner())))) <==>
      WholeHit(described, facts, h)
  {
    hide Matching, Filled, WholeItems, Inner, WholesKept, Holds, HitsOf, Executes;
    var groups := Matching(Filled(WholeItems(described), Inner()));
    var kept := WholesKept(groups);
    HitsHave(facts, kept, h);
    forall g | g in groups
      ensures g.entries != [] && IsWhole(described, g.entries[0])
    {
      WholeEntries(described, g);
      assert g.entries[0] in g.entries;
    }
    forall k
      ensures k in kept <==> k.group in groups && k.pattern == PatternOf(k.group)
    {
      WholeKept(groups, k);
    }
    if g, i: nat :|
      && g in groups && i < |described| && g.entries != [] && g.entries[0].original == i
      && Holds(h, facts, g,
         if Executes(described[i]) then "shared executable operations" else "same complete record declaration",
           g.key)
    {
      assert Kept(PatternOf(g), g) in kept;
    }
    if k :| k in kept && Holds(h, facts, k.group, k.pattern, k.group.key) {
      var i := k.group.entries[0].original;
      assert IsWhole(described, k.group.entries[0]);
    }
  }

  function PatternOf(g: Group): string {
    if g.entries != [] && g.entries[0].operation then "shared executable operations"
    else "same complete record declaration"
  }

  lemma {:induction false} WholeKept(groups: seq<Group>, k: Kept)
    ensures k in WholesKept(groups) <==> k.group in groups && k.pattern == PatternOf(k.group)
  {
    if groups != [] {
      var front, last := groups[..|groups| - 1], groups[|groups| - 1];
      assert groups == front + [last];
      WholeKept(front, k);
    }
  }

  lemma PrefixHits(lib: Library, described: seq<Described>, facts: Facts, h: Hit)
    ensures h in HitsOf(facts, PrefixesKept(Matching(Filled(PrefixItems(lib, described), Inner())))) <==>
      PrefixHit(lib, described, facts, h)
  {
    hide Matching, Filled, PrefixItems, Inner, PrefixesKept, HitsOf;
    var groups := Matching(Filled(PrefixItems(lib, described), Inner()));
    var kept := PrefixesKept(groups);
    HitsHave(facts, kept, h);
    forall k
      ensures k in kept <==>
        && k.pattern == PREFIXES
        && (exists d, e :: d in k.group.entries && e in k.group.entries && d.parameterTypes != e.parameterTypes)
        && exists g :: g in groups && k.group == g.(key := "prefix:" + g.key)
    {
      PrefixIsKept(groups, k);
    }
    if g :|
      && g in groups
      && (exists d, e :: d in g.entries && e in g.entries && d.parameterTypes != e.parameterTypes)
      && Holds(h, facts, g, "same function, first parameter and opening statement", "prefix:" + g.key)
    {
      var k := Kept(PREFIXES, g.(key := "prefix:" + g.key));
      assert k in kept && Holds(h, facts, k.group, k.pattern, k.group.key);
    }
  }

  lemma PartHits(lib: Library, described: seq<Described>, facts: Facts, h: Hit)
    ensures h in HitsOf(facts, PartsKept(lib, PartGroupsOf(described))) <==> PartHit(lib, described, facts, h)
  {
    hide PartGroupsOf, PartsKept, HitsOf, Holds, InsideSome, SpansOf;
    var groups := PartGroupsOf(described);
    var kept := PartsKept(lib, groups);
    HitsHave(facts, kept, h);
    forall k
      ensures k in kept <==> k.pattern == PARTS && exists n: nat :: Uncovered(lib, groups, n) && groups[n] == k.group
    {
      PartIsKept(lib, groups, k);
    }
    if n: nat :|
      && Uncovered(lib, groups, n)
      && Holds(h, facts, groups[n], "shared complete statements within a larger match", groups[n].key)
    {
      assert Kept(PARTS, groups[n]) in kept;
    }
  }

  lemma AllHits(lib: Library, described: seq<Described>, index: nat, facts: Facts, h: Hit)
    ensures h == HitOf(facts, Kept(UNCLASSIFIED, Unclassified(lib, described, index))) <==>
      AllHit(lib, described, index, facts, h)
  {
    var all := Unclassified(lib, described, index);
    HitHolds(facts, Kept(UNCLASSIFIED, all), h);
    assert AllIdentities(lib, described) == h.identities <==>
      |h.identities| == |described| && forall i :: 0 <= i < |described| ==>
        h.identities[i] == lib.occurrenceText(described[i].occurrence);
  }

  lemma HitsJoin(facts: Facts, a: seq<Kept>, b: seq<Kept>)
    ensures HitsOf(facts, a + b) == HitsOf(facts, a) + HitsOf(facts, b)
  {
  }

  lemma OneHit(facts: Facts, k: Kept)
    ensures HitsOf(facts, [k]) == [HitOf(facts, k)]
  {
  }

  // The retained hits of a candidate: its groups of whole occurrences and of prefixes with two
  // parameter lists; those of uncovered parts, unless these bring two occurrences; and all of
  // it when one occurrence is unbalanced.
  lemma HitsAre(lib: Library, facts: Facts, described: seq<Described>, index: nat, h: Hit)
    ensures h in HitsOf(facts, KeptOf(lib, described, index)) <==>
      || WholeHit(described, facts, h)
      || PrefixHit(lib, described, facts, h)
      || (!TwoFromOperations(lib, described) && PartHit(lib, described, facts, h))
      || (SomeUnbalanced(described) && AllHit(lib, described, index, facts, h))
  {
    hide HitsOf, WholesKept, PrefixesKept, PartsKept, Matching, Filled, WholeItems, PrefixItems, PartGroupsOf, Accepted;
    hide WholeHit, PrefixHit, PartHit, AllHit, TwoFromOperations, HitOf, Unclassified, Inner;
    var wholes := WholesKept(Matching(Filled(WholeItems(described), Inner())));
    var prefixes := PrefixesKept(Matching(Filled(PrefixItems(lib, described), Inner())));
    var parts, all := PartsKept(lib, PartGroupsOf(described)), Kept(UNCLASSIFIED, Unclassified(lib, described, index));
    HitsJoin(facts, wholes, prefixes);
    HitsJoin(facts, wholes + prefixes, parts);
    HitsJoin(facts, ClassifiedKept(lib, described), [all]);
    OneHit(facts, all);
    WholeHits(described, facts, h);
    PrefixHits(lib, described, facts, h);
    PartHits(lib, described, facts, h);
    AllHits(lib, described, index, facts, h);
    OperationsAreFrom(lib, described);
  }

  // ---------------------------------------------------------------------------
  // Records
  // ---------------------------------------------------------------------------

  predicate OneIdentity(described: seq<Described>) {
    forall d, e :: d in described && e in described ==> d.description.identity == e.description.identity
  }

  predicate NoTokens(described: seq<Described>) {
    forall d :: d in described ==> d.description.executableTokens == 0
  }

  predicate FewStatements(described: seq<Described>) {
    forall d :: d in described ==> d.description.statements <= 1
  }

  // Why a candidate is filtered.
  predicate IsReason(described: seq<Described>, reason: string) {
    if OneIdentity(described) then reason == "one containing statement or declaration reported more than once"
    else if NoTokens(described) then reason == "declaration or signature surface"
    else if FewStatements(described) then reason == "single operation or partial statement"
    else reason == "different complete operations, types, constants or assertion facts"
  }

  lemma OneIdentityIs(described: seq<Described>)
    ensures |set d | d in described :: d.description.identity| < 2 <==> OneIdentity(described)
  {
    var identities := set d | d in described :: d.description.identity;
    if d, e :| d in described && e in described && d.description.identity != e.description.identity {
      var two := {d.description.identity, e.description.identity};
      assert two <= identities;
      assert identities == two + (identities - two);
    }
    if |identities| >= 2 {
      var a :| a in identities;
      assert |identities - {a}| >= 1;
      var b :| b in identities - {a};
      var d :| d in described && d.description.identity == a;
      var e :| e in described && e.description.identity == b;
    }
  }

  lemma ReasonIs(described: seq<Described>)
    ensures IsReason(described, ReasonOf(described))
  {
    hide OneIdentity;
    OneIdentityIs(described);
  }

  // The occurrences at these places, in order.
  predicate Picks(described: seq<Described>, places: seq<nat>, occurrences: seq<Occurrence>) {
    && |places| == |occurrences|
    && (forall j, k :: 0 <= j < k < |places| ==> places[j] < places[k])
    && (forall k :: 0 <= k < |places| ==> places[k] < |described| && occurrences[k] == described[places[k]].occurrence)
  }

  lemma PicksGrow(described: seq<Described>, places: seq<nat>, occurrences: seq<Occurrence>)
    requires described != [] && Picks(described[..|described| - 1], places, occurrences)
    ensures Picks(described, places, occurrences)
    ensures Picks(described, places + [|described| - 1], occurrences + [described[|described| - 1].occurrence])
  {
  }

  lemma {:induction false} UnmatchedPlaces(described: seq<Described>, accepted: set<nat>) returns (places: seq<nat>)
    ensures Picks(described, places, Unmatched(described, accepted))
    ensures forall i: nat :: i in places <==> i < |described| && i !in accepted
  {
    places := [];
    if described != [] {
      hide Picks;
      var k := |described| - 1;
      places := UnmatchedPlaces(described[..k], accepted);
      PicksGrow(described, places, Unmatched(described[..k], accepted));
      if k !in accepted {
        places := places + [k];
      }
    }
  }

  // The candidate's record, if any: all occurrences with their reason when fewer than two are
  // chosen, otherwise those that are not chosen, in order.
  lemma RecordIs(lib: Library, facts: Facts, described: seq<Described>, index: nat) returns (places: seq<nat>)
    ensures var filtered := FilteredOf(facts, described, Accepted(KeptOf(lib, described, index)));
      && (filtered == [] <==>
           !AtMostOne(lib, described) && forall i: nat :: i < |described| ==> Chosen(lib, described, i))
      && (filtered != [] ==>
        && |filtered| == 1 && filtered[0].facts == facts && Picks(described, places, filtered[0].occurrences)
        && (forall i: nat :: i in places <==>
             i < |described| && (AtMostOne(lib, described) || !Chosen(lib, described, i)))
        && if AtMostOne(lib, described) then IsReason(described, filtered[0].reason)
           else filtered[0].reason == "occurrences without the retained group's operation or declaration identity")
  {
    hide Chosen, KeptOf, Accepted, FilteredOf, AtMostOne, IsReason, Picks;
    var accepted := Accepted(KeptOf(lib, described, index));
    forall i: nat
      ensures i in accepted <==> Chosen(lib, described, i)
    {
      AcceptedIsChosen(lib, described, index, i);
    }
    FewAccepted(lib, described, accepted);
    if |accepted| < 2 {
      places := AllRecorded(facts, described, accepted);
    } else {
      places := SomeRecorded(facts, described, accepted);
    }
  }

  lemma FewAccepted(lib: Library, described: seq<Described>, accepted: set<nat>)
    requires forall i: nat :: i in accepted <==> Chosen(lib, described, i)
    ensures |accepted| < 2 <==> AtMostOne(lib, described)
  {
    hide Chosen;
    TwoMembers(accepted);
  }

  lemma AllRecorded(facts: Facts, described: seq<Described>, accepted: set<nat>) returns (places: seq<nat>)
    requires |accepted| < 2
    ensures var filtered := FilteredOf(facts, described, accepted);
      && |filtered| == 1 && filtered[0].facts == facts && Picks(described, places, filtered[0].occurrences)
      && IsReason(described, filtered[0].reason)
    ensures forall i: nat :: i in places <==> i < |described|
  {
    hide ReasonOf, IsReason;
    ReasonIs(described);
    places := seq(|described|, i requires 0 <= i < |described| => i);
    forall i: nat
      ensures i in places <==> i < |described|
    {
      if i < |described| {
        assert places[i] == i;
      }
    }
  }

  lemma SomeRecorded(facts: Facts, described: seq<Described>, accepted: set<nat>) returns (places: seq<nat>)
    requires |accepted| >= 2
    ensures var filtered := FilteredOf(facts, described, accepted);
      && (filtered == [] <==> forall i: nat :: i < |described| ==> i in accepted)
      && (filtered != [] ==>
        && |filtered| == 1 && filtered[0].facts == facts && Picks(described, places, filtered[0].occurrences)
        && filtered[0].reason == "occurrences without the retained group's operation or declaration identity")
    ensures forall i: nat :: i in places <==> i < |described| && i !in accepted
  {
    hide Picks, Unmatched;
    places := UnmatchedPlaces(described, accepted);
    NothingUnmatched(described, accepted, places);
  }

  lemma NothingUnmatched(described: seq<Described>, accepted: set<nat>, places: seq<nat>)
    requires Picks(described, places, Unmatched(described, accepted))
    requires forall i: nat :: i in places <==> i < |described| && i !in accepted
    ensures Unmatched(described, accepted) == [] <==> forall i: nat :: i < |described| ==> i in accepted
  {
    if places != [] {
      assert places[0] in places;
    }
  }
}
