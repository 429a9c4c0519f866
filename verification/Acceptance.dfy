// Which occurrences of a duplicate candidate the filter accepts, and which of those it lists as
// filtered all the same (tools/cleanup/cpd_patterns.cpp filterCpdCandidates).
module Acceptance {
  import opened Wrappers
  import opened OrderedMaps
  import opened Candidates
  import Sorting

  // ---------------------------------------------------------------------------
  // The entries of a group
  // ---------------------------------------------------------------------------

  predicate At(items: seq<Item>, m: nat, key: string, identity: string) {
    m < |items| && items[m].key == key && items[m].value.key == identity
  }

  // No later item has the key and the identity of this one.
  ghost predicate IsLast(items: seq<Item>, m: nat) {
    m < |items| && forall n: nat :: m < n ==> !At(items, n, items[m].key, items[m].value.key)
  }

  // Some item has the key of this one, but another identity.
  ghost predicate Shared(items: seq<Item>, m: nat) {
    && m < |items|
    && exists n: nat :: n < |items| && items[n].key == items[m].key && items[n].value.key != items[m].value.key
  }

  // The last place of an identity under a key; -1 when there is none.
  ghost function LastPlace(items: seq<Item>, key: string, identity: string): (m: int)
    ensures -1 <= m < |items|
    ensures m >= 0 ==> At(items, m, key, identity)
    ensures forall n: nat :: m < n ==> !At(items, n, key, identity)
  {
    if items == [] then -1
    else
      var k := |items| - 1;
      assert forall n: nat :: n < k ==> At(items[..k], n, key, identity) == At(items, n, key, identity);
      if At(items, k, key, identity) then k else LastPlace(items[..k], key, identity)
  }

  lemma {:induction false} LastEntry(items: seq<Item>, key: string, identity: string)
    ensures var m, entries := LastPlace(items, key, identity), EntriesOf(items, key, identity);
      && (entries == [] <==> m == -1)
      && (entries != [] ==> entries[|entries| - 1] == items[m].value.value)
  {
    if items != [] {
      var front, item := items[..|items| - 1], items[|items| - 1];
      LastEntry(front, key, identity);
      var under := Under(front, key);
      assert (under + [item.value])[..|under|] == under;
    }
  }

  lemma {:induction false} UnderSome<X>(pairs: seq<Pair<X>>, key: string)
    ensures key in FirstKeys(pairs) <==> Under(pairs, key) != []
  {
    if pairs != [] {
      UnderSome(pairs[..|pairs| - 1], key);
    }
  }

  // A group holds the last entries of its identities.
  lemma EntriesAre(items: seq<Item>, g: Group, e: Entry)
    requires g in Matching(Filled(items, Inner()))
    ensures e in g.entries <==> exists m: nat :: IsLast(items, m) && items[m].key == g.key && items[m].value.value == e
  {
    hide Matching, Filled, Inner, Under, FirstKeys, LastPlace;
    GroupIs(items, g);
    if e in g.entries {
      var j :| 0 <= j < |g.entries| && g.entries[j] == e;
      LastEntry(items, g.key, g.identities[j]);
      assert IsLast(items, LastPlace(items, g.key, g.identities[j]));
    }
    if m: nat :| IsLast(items, m) && items[m].key == g.key && items[m].value.value == e {
      var identity := items[m].value.key;
      assert At(items, m, g.key, identity);
      LastEntry(items, g.key, identity);
      UnderSome(Under(items, g.key), identity);
      var j :| 0 <= j < |g.identities| && g.identities[j] == identity;
      assert g.entries[j] in g.entries;
    }
  }

  // The key of an item has a group exactly when it stands with another identity too.
  lemma GroupAt(items: seq<Item>, m: nat)
    requires m < |items|
    ensures Shared(items, m) <==> exists g :: g in Matching(Filled(items, Inner())) && g.key == items[m].key
  {
    hide Matching, Filled, Inner, Under, FirstKeys, LastPlace;
    var key := items[m].key;
    var under := Under(items, key);
    var identities := FirstKeys(under);
    FirstKeysAre(under);
    forall identity: string
      ensures identity in identities <==> LastPlace(items, key, identity) >= 0
    {
      LastEntry(items, key, identity);
      UnderSome(under, identity);
    }
    assert At(items, m, key, items[m].value.key);
    if Shared(items, m) {
      var n: nat :| n < |items| && items[n].key == key && items[n].value.key != items[m].value.key;
      assert At(items, n, key, items[n].value.key);
      assert items[m].value.key in identities && items[n].value.key in identities;
      var g := GroupFor(items, key);
    }
    if g :| g in Matching(Filled(items, Inner())) && g.key == key {
      GroupIs(items, g);
      var other := if identities[0] == items[m].value.key then identities[1] else identities[0];
      assert other in identities;
      assert At(items, LastPlace(items, key, other), key, other);
    }
  }

  lemma GroupFor(items: seq<Item>, key: string) returns (g: Group)
    requires |FirstKeys(Under(items, key))| >= 2
    ensures g in Matching(Filled(items, Inner())) && g.key == key
  {
    hide Matching, Filled, Inner, Under, FirstKeys;
    var identities := FirstKeys(Under(items, key));
    forall j | 0 <= j < |identities|
      ensures EntriesOf(items, key, identities[j]) != []
    {
      UnderSome(Under(items, key), identities[j]);
    }
    var entries := seq(|identities|, j requires 0 <= j < |identities| =>
      var entries := EntriesOf(items, key, identities[j]); entries[|entries| - 1]);
    g := Group(key, identities, entries);
    GroupIs(items, g);
  }

  // ---------------------------------------------------------------------------
  // Which originals the kept groups accept
  // ---------------------------------------------------------------------------

  predicate SameKey(d: Described, e: Described) {
    d.description.key.Some? && d.description.key == e.description.key
  }

  // No later occurrence has its key and identity, and some occurrence has its key, but
  // another identity.
  ghost predicate FromWhole(described: seq<Described>, i: nat) {
    && i < |described|
    && (forall j: nat :: i < j < |described| && SameKey(described[i], described[j]) ==>
          described[j].description.identity != described[i].description.identity)
    && exists j: nat ::
         && j < |described| && SameKey(described[i], described[j])
         && described[j].description.identity != described[i].description.identity
  }

  // Two last entries of this key differ in their parameter types.
  ghost predicate TypesDiffer(items: seq<Item>, key: string) {
    exists a: nat, b: nat ::
      && IsLast(items, a) && items[a].key == key
      && IsLast(items, b) && items[b].key == key
      && items[a].value.value.parameterTypes != items[b].value.value.parameterTypes
  }

  // It has the last entry of some function under a key whose functions differ in their
  // parameter types.
  ghost predicate FromPrefix(lib: Library, described: seq<Described>, i: nat) {
    var items := PrefixItems(lib, described);
    exists m: nat :: IsLast(items, m) && TypesDiffer(items, items[m].key) && items[m].value.value.original == i
  }

  ghost predicate InsideSome(lib: Library, groups: seq<Group>, s: Span) {
    exists g, p ::
      && g in groups && p in SpansOf(lib, g.identities)
      && p.path == s.path && p.start <= s.start && s.end <= p.end
  }

  // Some part of the group lies inside no part of an earlier group, be that one kept or not.
  ghost predicate Uncovered(lib: Library, groups: seq<Group>, n: nat) {
    n < |groups| && exists s :: s in SpansOf(lib, groups[n].identities) && !InsideSome(lib, groups[..n], s)
  }

  // It has the last entry of some part, and the groups before the one of that part do not
  // cover it.
  ghost predicate FromPart(lib: Library, described: seq<Described>, i: nat) {
    var items, groups := PartItems(described), PartGroupsOf(described);
    exists m: nat, n: nat ::
      && IsLast(items, m) && items[m].value.value.original == i
      && Uncovered(lib, groups, n) && groups[n].key == items[m].key
  }

  ghost predicate ItemIs(described: seq<Described>, item: Item) {
    var i := item.value.value.original;
    && i < |described| && described[i].description.key == Some(item.key)
    && described[i].description.identity == item.value.key
  }

  // The items of whole occurrences are those with a key, in order.
  ghost predicate Places(described: seq<Described>, items: seq<Item>) {
    && (forall m: nat :: m < |items| ==> ItemIs(described, items[m]))
    && (forall m: nat, n: nat :: m < n < |items| ==> Original(items, m) < Original(items, n))
    && (forall i: nat :: i < |described| && described[i].description.key.Some? ==> HasOriginal(items, i))
  }

  function Original(items: seq<Item>, m: nat): nat
    requires m < |items|
  {
    items[m].value.value.original
  }

  ghost predicate HasOriginal(items: seq<Item>, i: nat) {
    exists m: nat :: m < |items| && Original(items, m) == i
  }

  lemma {:induction false} WholePlaces(described: seq<Described>)
    ensures Places(described, WholeItems(described))
  {
    if described != [] {
      hide Places;
      var k := |described| - 1;
      WholePlaces(described[..k]);
      PlacesGrow(described, WholeItems(described[..k]));
    } else {
      assert WholeItems(described) == [];
    }
  }

  lemma PlacesGrow(described: seq<Described>, front: seq<Item>)
    requires described != [] && Places(described[..|described| - 1], front)
    ensures var k := |described| - 1;
      var d := described[k].description;
      Places(described,
        if d.key.None? then front else front + [Pair(d.key.value, Pair(d.identity, EntryOf(described[k], k)))])
  {
    var k := |described| - 1;
    var before, d := described[..k], described[k].description;
    var items := if d.key.None? then front else front + [Pair(d.key.value, Pair(d.identity, EntryOf(described[k], k)))];
    hide ItemIs, HasOriginal;
    forall m: nat | m < |items|
      ensures ItemIs(described, items[m])
      ensures m < |front| ==> Original(items, m) < k
    {
      ItemLater(described, if m < |front| then front[m] else items[m]);
      assert m < |front| ==> ItemIs(before, front[m]);
    }
    forall m: nat, n: nat | m < n < |items|
      ensures Original(items, m) < Original(items, n)
    {
      assert n < |front| ==> Original(front, m) < Original(front, n);
    }
    forall i: nat | i < |described| && described[i].description.key.Some?
      ensures HasOriginal(items, i)
    {
      assert i < k ==> before[i] == described[i];
      OriginalLater(front, items, i);
    }
  }

  lemma ItemLater(described: seq<Described>, item: Item)
    requires described != []
    ensures ItemIs(described[..|described| - 1], item) ==>
      ItemIs(described, item) && item.value.value.original < |described| - 1
    ensures var k := |described| - 1;
      var d := described[k].description;
      d.key.Some? ==> ItemIs(described, Pair(d.key.value, Pair(d.identity, EntryOf(described[k], k))))
  {
  }

  lemma OriginalLater(front: seq<Item>, items: seq<Item>, i: nat)
    requires front <= items
    ensures HasOriginal(front, i) ==> HasOriginal(items, i)
    ensures |front| < |items| && Original(items, |front|) == i ==> HasOriginal(items, i)
  {
    if m: nat :| m < |front| && Original(front, m) == i {
      assert Original(items, m) == i;
    }
  }

  lemma WholesHave(groups: seq<Group>, i: nat)
    ensures i in Accepted(WholesKept(groups)) <==> exists g, e :: g in groups && e in g.entries && e.original == i
  {
    hide WholesKept;
    if k, e :| k in WholesKept(groups) && e in k.group.entries && e.original == i {
      WholeIsKept(groups, k.group);
    }
    if g, e :| g in groups && e in g.entries && e.original == i {
      WholeIsKept(groups, g);
      var k :| k in WholesKept(groups) && k.group == g;
    }
  }

  lemma {:induction false} WholeIsKept(groups: seq<Group>, g: Group)
    ensures g in groups <==> exists k :: k in WholesKept(groups) && k.group == g
  {
    if groups != [] {
      var front, last := groups[..|groups| - 1], groups[|groups| - 1];
      assert groups == front + [last];
      WholeIsKept(front, g);
      var kept := WholesKept(groups)[|WholesKept(groups)| - 1];
      assert kept in WholesKept(groups);
    }
  }

  lemma WholesAre(described: seq<Described>, i: nat)
    ensures i in Accepted(WholesKept(Matching(Filled(WholeItems(described), Inner())))) <==> FromWhole(described, i)
  {
    hide Matching, Filled, Inner, At, Shared, WholeItems, Accepted, WholesKept, FromWhole, Places;
    var items := WholeItems(described);
    var groups := Matching(Filled(items, Inner()));
    WholesHave(groups, i);
    WholePlaces(described);
    if g, e :| g in groups && e in g.entries && e.original == i {
      EntriesAre(items, g, e);
      var m: nat :| IsLast(items, m) && items[m].key == g.key && items[m].value.value == e;
      GroupAt(items, m);
      WholeAt(described, items, m);
    }
    if FromWhole(described, i) {
      WholeHasPlace(described, items, i);
      var m: nat :| m < |items| && Original(items, m) == i;
      WholeAt(described, items, m);
      GroupAt(items, m);
      var g :| g in groups && g.key == items[m].key;
      EntriesAre(items, g, items[m].value.value);
    }
  }

  lemma WholeHasPlace(described: seq<Described>, items: seq<Item>, i: nat)
    requires Places(described, items) && FromWhole(described, i)
    ensures HasOriginal(items, i)
  {
  }

  lemma WholeAt(described: seq<Described>, items: seq<Item>, m: nat)
    requires Places(described, items) && m < |items|
    ensures IsLast(items, m) && Shared(items, m) <==> FromWhole(described, Original(items, m))
  {
    var i := Original(items, m);
    forall j: nat | j < |described| && SameKey(described[i], described[j])
      ensures exists n: nat :: n < |items| && Original(items, n) == j && items[n].key == items[m].key
    {
      assert HasOriginal(items, j);
    }
    if FromWhole(described, i) {
      forall n: nat | m < n
        ensures !At(items, n, items[m].key, items[m].value.key)
      {
        if n < |items| && items[n].key == items[m].key {
          assert SameKey(described[i], described[Original(items, n)]);
        }
      }
      var j: nat :| j < |described| && SameKey(described[i], described[j])
        && described[j].description.identity != described[i].description.identity;
      var n: nat :| n < |items| && Original(items, n) == j && items[n].key == items[m].key;
      assert items[n].value.key != items[m].value.key;
    }
    if IsLast(items, m) && Shared(items, m) {
      forall j: nat | i < j < |described| && SameKey(described[i], described[j])
        ensures described[j].description.identity != described[i].description.identity
      {
        var n: nat :| n < |items| && Original(items, n) == j && items[n].key == items[m].key;
        assert n != m && !(n < m);
        assert !At(items, n, items[m].key, items[m].value.key);
      }
      var n: nat :| n < |items| && items[n].key == items[m].key && items[n].value.key != items[m].value.key;
      assert SameKey(described[i], described[Original(items, n)]);
    }
  }

  lemma PrefixesAre(lib: Library, described: seq<Described>, i: nat)
    ensures i in Accepted(PrefixesKept(Matching(Filled(PrefixItems(lib, described), Inner())))) <==>
      FromPrefix(lib, described, i)
  {
    hide Matching, Filled, Inner, PrefixItems, PrefixesKept, TypesDiffer, At;
    var items := PrefixItems(lib, described);
    var groups := Matching(Filled(items, Inner()));
    if k, e :| k in PrefixesKept(groups) && e in k.group.entries && e.original == i {
      PrefixIsKept(groups, k);
      var g :| g in groups && k.group == g.(key := "prefix:" + g.key);
      EntriesAre(items, g, e);
      var m: nat :| IsLast(items, m) && items[m].key == g.key && items[m].value.value == e;
      TypesOf(items, g);
    }
    if m: nat :| IsLast(items, m) && TypesDiffer(items, items[m].key) && items[m].value.value.original == i {
      var g := PrefixGroup(items, items[m].key);
      var e, k := items[m].value.value, Kept(PREFIXES, g.(key := "prefix:" + g.key));
      EntriesAre(items, g, e);
      TypesOf(items, g);
      PrefixIsKept(groups, k);
      assert k in PrefixesKept(groups) && e in k.group.entries;
    }
  }

  lemma OneIsLast(items: seq<Item>, a: nat, b: nat)
    requires IsLast(items, a) && IsLast(items, b) && a != b && items[a].key == items[b].key
    ensures items[a].value.key != items[b].value.key
  {
    assert !At(items, if a < b then b else a, items[a].key, items[if a < b then a else b].value.key);
  }

  // Functions that differ in their parameter types are different functions.
  lemma PrefixGroup(items: seq<Item>, key: string) returns (g: Group)
    requires TypesDiffer(items, key)
    ensures g in Matching(Filled(items, Inner())) && g.key == key
  {
    hide Matching, Filled, Inner;
    var a: nat, b: nat :|
      && IsLast(items, a) && items[a].key == key
      && IsLast(items, b) && items[b].key == key
      && items[a].value.value.parameterTypes != items[b].value.value.parameterTypes;
    OneIsLast(items, a, b);
    assert Shared(items, a);
    GroupAt(items, a);
    g :| g in Matching(Filled(items, Inner())) && g.key == key;
  }

  lemma TypesOf(items: seq<Item>, g: Group)
    requires g in Matching(Filled(items, Inner()))
    ensures TypesDiffer(items, g.key) <==>
      exists d, e :: d in g.entries && e in g.entries && d.parameterTypes != e.parameterTypes
  {
    hide Matching, Filled, Inner, At;
    if d, e :| d in g.entries && e in g.entries && d.parameterTypes != e.parameterTypes {
      EntriesAre(items, g, d);
      EntriesAre(items, g, e);
      var a: nat :| IsLast(items, a) && items[a].key == g.key && items[a].value.value == d;
      var b: nat :| IsLast(items, b) && items[b].key == g.key && items[b].value.value == e;
      assert TypesDiffer(items, g.key);
    }
    if TypesDiffer(items, g.key) {
      var a: nat, b: nat :|
        && IsLast(items, a) && items[a].key == g.key
        && IsLast(items, b) && items[b].key == g.key
        && items[a].value.value.parameterTypes != items[b].value.value.parameterTypes;
      EntriesAre(items, g, items[a].value.value);
      EntriesAre(items, g, items[b].value.value);
    }
  }

  lemma InsideIsTransitive(r: Span, s: Span, t: Span)
    requires Inside(r, s) && Inside(s, t)
    ensures Inside(r, t)
  {
  }

  lemma {:induction false} CoveredAreSpans(lib: Library, groups: seq<Group>, p: Span)
    requires p in Covered(lib, groups)
    ensures exists g :: g in groups && p in SpansOf(lib, g.identities)
  {
    hide Contained, SpansOf;
    if groups != [] {
      var front, last := groups[..|groups| - 1], groups[|groups| - 1];
      assert groups == front + [last];
      if p in Covered(lib, front) {
        CoveredAreSpans(lib, front, p);
      } else {
        assert last in groups;
      }
    }
  }

  lemma InsideIs()
    ensures forall s, p :: Inside(s, p) <==> p.path == s.path && p.start <= s.start && s.end <= p.end
  {
  }

  // What the kept parts cover is what all the parts cover.
  lemma CoveredMeans(lib: Library, groups: seq<Group>, s: Span)
    ensures InsideSome(lib, groups, s) <==> exists p :: p in Covered(lib, groups) && Inside(s, p)
  {
    hide SpansOf, Covered, Inside;
    if p :| p in Covered(lib, groups) && Inside(s, p) {
      CoveredAreSpans(lib, groups, p);
    }
    InsideIs();
    if g, p :| g in groups && p in SpansOf(lib, g.identities) && Inside(s, p) {
      CoversAll(lib, groups);
      var q :| q in Covered(lib, groups) && Inside(p, q);
      InsideIsTransitive(s, p, q);
    }
  }

  lemma UncoveredIs(lib: Library, groups: seq<Group>, n: nat)
    requires n < |groups|
    ensures Uncovered(lib, groups, n) <==> !Contained(SpansOf(lib, groups[n].identities), Covered(lib, groups[..n]))
  {
    hide SpansOf, Covered, Inside, InsideSome;
    forall s: Span
      ensures InsideSome(lib, groups[..n], s) <==> exists p :: p in Covered(lib, groups[..n]) && Inside(s, p)
    {
      CoveredMeans(lib, groups[..n], s);
    }
  }

  // A group of parts is kept exactly when the groups before it, kept or not, do not cover it.
  lemma {:induction false} PartIsKept(lib: Library, groups: seq<Group>, k: Kept)
    ensures k in PartsKept(lib, groups) <==>
      k.pattern == PARTS && exists n: nat :: Uncovered(lib, groups, n) && groups[n] == k.group
  {
    if groups != [] {
      hide Contained, SpansOf, Covered, InsideSome;
      var last := |groups| - 1;
      var front := groups[..last];
      PartIsKept(lib, front, k);
      UncoveredIs(lib, groups, last);
      forall n: nat | n < last
        ensures Uncovered(lib, front, n) <==> Uncovered(lib, groups, n)
      {
        assert front[..n] == groups[..n];
      }
    }
  }

  lemma PartsAre(lib: Library, described: seq<Described>, i: nat)
    ensures i in Accepted(PartsKept(lib, PartGroupsOf(described))) <==> FromPart(lib, described, i)
  {
    hide Matching, Filled, Inner, PartItems, PartsKept, InsideSome, SpansOf, At, BySize;
    var items, groups := PartItems(described), PartGroupsOf(described);
    PartGroupsAre(described);
    if k, e :| k in PartsKept(lib, groups) && e in k.group.entries && e.original == i {
      PartIsKept(lib, groups, k);
      var n: nat :| Uncovered(lib, groups, n) && groups[n] == k.group;
      EntriesAre(items, groups[n], e);
      var m: nat :| IsLast(items, m) && items[m].key == groups[n].key && items[m].value.value == e;
    }
    if m: nat, n: nat :|
      && IsLast(items, m) && items[m].value.value.original == i
      && Uncovered(lib, groups, n) && groups[n].key == items[m].key
    {
      var k := Kept(PARTS, groups[n]);
      EntriesAre(items, groups[n], items[m].value.value);
      PartIsKept(lib, groups, k);
      assert k in PartsKept(lib, groups) && items[m].value.value in k.group.entries;
    }
  }

  // The groups with as many tokens as g.
  function Alike(groups: seq<Group>, g: Group): seq<Group> {
    Sorting.Alike(groups, g, Sorting.Through(Tokens(), Greater))
  }

  // The groups of parts, those with more tokens first and the others as they came.
  lemma PartGroupsAre(described: seq<Described>)
    ensures var groups := PartGroupsOf(described);
      && (forall g :: g in groups <==> g in Matching(Filled(PartItems(described), Inner())))
      && (forall j, k :: 0 <= j < k < |groups| ==> Tokens()(groups[j]) >= Tokens()(groups[k]))
      && forall g :: Alike(groups, g) == Alike(Matching(Filled(PartItems(described), Inner())), g)
  {
    hide Tokens;
    var groups, less := Matching(Filled(PartItems(described), Inner())), Sorting.Through(Tokens(), Greater);
    Sorting.SortKeeps(groups, less);
    Sorting.ThroughIsOrder(Tokens(), Greater);
    Sorting.SortSorts(groups, less);
    forall g
      ensures Alike(PartGroupsOf(described), g) == Alike(groups, g)
    {
      Sorting.SortIsStable(groups, g, less);
    }
  }

  // ---------------------------------------------------------------------------
  // Which originals the filter accepts
  // ---------------------------------------------------------------------------

  ghost predicate FromOperation(lib: Library, described: seq<Described>, i: nat) {
    FromWhole(described, i) || FromPrefix(lib, described, i)
  }

  ghost predicate TwoFromOperations(lib: Library, described: seq<Described>) {
    exists i: nat, j: nat :: i != j && FromOperation(lib, described, i) && FromOperation(lib, described, j)
  }

  ghost predicate SomeUnbalanced(described: seq<Described>) {
    exists d :: d in described && !d.description.balanced
  }

  // By the input alone: some occurrence is unbalanced, or this one brings an entry to a kept
  // group; parts count only where whole operations and prefixes bring fewer than two.
  ghost predicate Chosen(lib: Library, described: seq<Described>, i: nat) {
    && i < |described|
    && (|| SomeUnbalanced(described)
        || FromOperation(lib, described, i)
        || (!TwoFromOperations(lib, described) && FromPart(lib, described, i)))
  }

  lemma AcceptedJoins(a: seq<Kept>, b: seq<Kept>)
    ensures Accepted(a + b) == Accepted(a) + Accepted(b)
  {
  }

  lemma TwoMembers(s: set<nat>)
    ensures |s| >= 2 <==> exists i: nat, j: nat :: i != j && i in s && j in s
  {
    if i: nat, j: nat :| i != j && i in s && j in s {
      assert s == {i, j} + (s - {i, j});
    }
    if |s| >= 2 {
      var i :| i in s;
      assert |s - {i}| >= 1;
      var j :| j in s - {i};
    }
  }

  lemma OperationsAreFrom(lib: Library, described: seq<Described>)
    ensures forall i: nat :: i in Accepted(OperationsKept(lib, described)) <==> FromOperation(lib, described, i)
    ensures |Accepted(OperationsKept(lib, described))| >= 2 <==> TwoFromOperations(lib, described)
  {
    hide Accepted, WholesKept, PrefixesKept, Matching, Filled, WholeItems, PrefixItems, Inner, FromWhole, FromPrefix;
    AcceptedJoins(WholesKept(Matching(Filled(WholeItems(described), Inner()))),
                  PrefixesKept(Matching(Filled(PrefixItems(lib, described), Inner()))));
    forall i: nat
      ensures i in Accepted(OperationsKept(lib, described)) <==> FromOperation(lib, described, i)
    {
      WholesAre(described, i);
      PrefixesAre(lib, described, i);
    }
    TwoMembers(Accepted(OperationsKept(lib, described)));
  }

  lemma ClassifiedAreFrom(lib: Library, described: seq<Described>, i: nat)
    ensures i in Accepted(ClassifiedKept(lib, described)) <==>
      FromOperation(lib, described, i) || (!TwoFromOperations(lib, described) && FromPart(lib, described, i))
  {
    hide Accepted, OperationsKept, PartsKept, PartGroupsOf, FromOperation, TwoFromOperations, FromPart;
    OperationsAreFrom(lib, described);
    AcceptedJoins(OperationsKept(lib, described), PartsKept(lib, PartGroupsOf(described)));
    PartsAre(lib, described, i);
  }

  // The filter accepts exactly the chosen originals.
  lemma AcceptedIsChosen(lib: Library, described: seq<Described>, index: nat, i: nat)
    ensures i in Accepted(KeptOf(lib, described, index)) <==> Chosen(lib, described, i)
  {
    hide Accepted, ClassifiedKept, FromOperation, TwoFromOperations, FromPart, Below, AllIdentities, AllEntries;
    ClassifiedAreFrom(lib, described, i);
    KeptIsSound(lib, described, index);
    AcceptedIsRetained(Facts(Missing, Missing), described, KeptOf(lib, described, index));
    if !Balanced(described) {
      UnbalancedKeepsAll(lib, described, index);
    }
  }

  // ---------------------------------------------------------------------------
  // Accepted and listed as filtered all the same
  // ---------------------------------------------------------------------------

  ghost predicate AtMostOne(lib: Library, described: seq<Described>) {
    forall j: nat, k: nat :: Chosen(lib, described, j) && Chosen(lib, described, k) ==> j == k
  }

  // Some original that is not chosen is the same occurrence as this one.
  ghost predicate HasUnchosenTwin(lib: Library, described: seq<Described>, i: nat)
    requires i < |described|
  {
    exists j: nat ::
      && j < |described| && !Chosen(lib, described, j)
      && described[j].occurrence == described[i].occurrence
  }

  // A chosen occurrence is retained. Any occurrence is listed in a filtered record exactly
  // when at most one is chosen or an original that is not chosen is the same occurrence.
  lemma ListedIs(lib: Library, facts: Facts, described: seq<Described>, index: nat, i: nat)
    requires i < |described|
    ensures var kept := KeptOf(lib, described, index);
      && (Chosen(lib, described, i) ==> Retained(HitsOf(facts, kept), described[i]))
      && (Listed(FilteredOf(facts, described, Accepted(kept)), described[i].occurrence) <==>
            AtMostOne(lib, described) || HasUnchosenTwin(lib, described, i))
  {
    hide KeptOf, HitsOf, FilteredOf, Accepted, Retained, Listed, Below, Chosen;
    var kept := KeptOf(lib, described, index);
    var accepted := Accepted(kept);
    KeptIsSound(lib, described, index);
    AcceptedIsRetained(facts, described, kept);
    RecordLists(facts, described, accepted);
    forall j: nat
      ensures j in accepted <==> Chosen(lib, described, j)
    {
      AcceptedIsChosen(lib, described, index, j);
    }
    TwoMembers(accepted);
    if AtMostOne(lib, described) {
      assert Recorded(accepted, i);
    }
    if j: nat :| j < |described| && !Chosen(lib, described, j) && described[j].occurrence == described[i].occurrence {
      assert Recorded(accepted, j);
    }
  }

  // Where no two originals are the same occurrence, a chosen one is listed as well exactly
  // when it is the only one.
  lemma OnlyOneIsInBoth(lib: Library, facts: Facts, described: seq<Described>, index: nat, i: nat)
    requires Chosen(lib, described, i)
    requires forall j, k :: 0 <= j < k < |described| ==> described[j].occurrence != described[k].occurrence
    ensures var kept := KeptOf(lib, described, index);
      && Retained(HitsOf(facts, kept), described[i])
      && (Listed(FilteredOf(facts, described, Accepted(kept)), described[i].occurrence) <==> Only(lib, described, i))
  {
    hide KeptOf, HitsOf, FilteredOf, Accepted, Retained, Listed, FromOperation, TwoFromOperations, FromPart;
    ListedIs(lib, facts, described, index, i);
  }

  ghost predicate Only(lib: Library, described: seq<Described>, i: nat) {
    forall j: nat :: Chosen(lib, described, j) <==> j == i
  }

  // Then every retained hit is made of its pieces.
  lemma OnlyPieces(lib: Library, facts: Facts, described: seq<Described>, index: nat, i: nat)
    requires i < |described| && Only(lib, described, i)
    ensures forall h, o :: h in HitsOf(facts, KeptOf(lib, described, index)) && o in h.occurrences ==>
      Piece(described[i], o)
  {
    hide KeptOf, HitsOf, Accepted, Retained, Below, Chosen, Piece;
    var kept := KeptOf(lib, described, index);
    KeptIsSound(lib, described, index);
    AcceptedIsRetained(facts, described, kept);
    forall j: nat
      ensures j in Accepted(kept) <==> j == i
    {
      AcceptedIsChosen(lib, described, index, j);
    }
  }

  // ---------------------------------------------------------------------------
  // Occurrences that are in both
  // ---------------------------------------------------------------------------

  // Two occurrences, of which the first repeats a run of statements.
  function Repeating(a: Occurrence, b: Occurrence, p: Part, q: Part): seq<Described> {
    [Described(a, Description(None, "a", 1, false, 9, true, [], [p, q])),
     Described(b, Description(None, "b", 1, false, 9, true, [], []))]
  }

  // Three occurrences of two declarations under one key; the first two are the same.
  function Twins(a: Occurrence, b: Occurrence, key: string): seq<Described> {
    var first, second := Description(Some(key), "a", 2, false, 9, true, [], []),
      Description(Some(key), "b", 2, false, 9, true, [], []);
    [Described(a, first), Described(a, first), Described(b, second)]
  }

  lemma {:induction false} NoPrefixes(lib: Library, described: seq<Described>)
    requires forall d :: d in described ==> d.description.prefixes == []
    ensures PrefixItems(lib, described) == []
  {
    if described != [] {
      NoPrefixes(lib, described[..|described| - 1]);
    }
  }

  lemma RepeatingItems(a: Occurrence, b: Occurrence, p: Part, q: Part)
    ensures PartItems(Repeating(a, b, p, q)) == [PartItem(0, p), PartItem(0, q)]
  {
    var described := Repeating(a, b, p, q);
    assert described[..2][..1] == [described[0]] && described[..1][..0] == [];
    assert PartItems([]) == [];
    assert PartItemsOf(described[0], 0, 1) == [PartItem(0, p)];
    assert PartItemsOf(described[0], 0, 2) == [PartItem(0, p), PartItem(0, q)];
    assert PartItems(described[..1]) == [PartItem(0, p), PartItem(0, q)];
  }

  // The first group is kept.
  lemma FirstIsUncovered(lib: Library, described: seq<Described>, m: nat) returns (key: string)
    requires Shared(PartItems(described), m)
    ensures Uncovered(lib, PartGroupsOf(described), 0) && PartGroupsOf(described)[0].key == key
    ensures exists n: nat :: IsLast(PartItems(described), n) && PartItems(described)[n].key == key
  {
    hide PartItems, Matching, Filled, Inner, BySize, At;
    var items, groups := PartItems(described), PartGroupsOf(described);
    PartGroupsAre(described);
    GroupAt(items, m);
    var g := groups[0];
    key := g.key;
    GroupIs(items, g);
    EntriesAre(items, g, g.entries[0]);
    assert SpansOf(lib, g.identities)[0] in SpansOf(lib, g.identities);
    assert !InsideSome(lib, groups[..0], SpansOf(lib, g.identities)[0]);
  }

  lemma RepeatingIsChosen(lib: Library, a: Occurrence, b: Occurrence, p: Part, q: Part)
    requires p.key == q.key && p.identity != q.identity
    ensures Only(lib, Repeating(a, b, p, q), 0)
  {
    hide PartItems, PartGroupsOf, Uncovered, PrefixItems;
    var described := Repeating(a, b, p, q);
    var items := PartItems(described);
    RepeatingItems(a, b, p, q);
    NoPrefixes(lib, described);
    assert items[1].value.key != items[0].value.key;
    assert Shared(items, 0) && IsLast(items, 0);
    var key := FirstIsUncovered(lib, described, 0);
    assert FromPart(lib, described, 0);
  }

  // The repeated statements are retained, and the candidate is filtered as well.
  lemma RepeatingIsInBoth(lib: Library, facts: Facts, a: Occurrence, b: Occurrence, p: Part, q: Part, index: nat)
    requires p.key == q.key && p.identity != q.identity
    ensures var described := Repeating(a, b, p, q);
      var kept := KeptOf(lib, described, index);
      && Accepted(kept) == {0}
      && Retained(HitsOf(facts, kept), described[0])
      && Listed(FilteredOf(facts, described, Accepted(kept)), a)
  {
    hide KeptOf, HitsOf, FilteredOf, Accepted, Retained, Listed, Chosen;
    var described := Repeating(a, b, p, q);
    RepeatingIsChosen(lib, a, b, p, q);
    ListedIs(lib, facts, described, index, 0);
    forall i: nat
      ensures i in Accepted(KeptOf(lib, described, index)) <==> i == 0
    {
      AcceptedIsChosen(lib, described, index, i);
    }
  }

  // Of the same occurrence twice, only the last is chosen, and so the other is listed.
  lemma TwinIsInBoth(lib: Library, facts: Facts, a: Occurrence, b: Occurrence, key: string, index: nat)
    ensures var described := Twins(a, b, key);
      var kept := KeptOf(lib, described, index);
      && Accepted(kept) == {1, 2}
      && Retained(HitsOf(facts, kept), described[1])
      && Listed(FilteredOf(facts, described, Accepted(kept)), a)
  {
    hide KeptOf, HitsOf, FilteredOf, Accepted, Retained, Listed, Chosen;
    var described := Twins(a, b, key);
    ListedIs(lib, facts, described, index, 1);
    forall i: nat
      ensures i in Accepted(KeptOf(lib, described, index)) <==> i == 1 || i == 2
    {
      TwinsAreChosen(lib, a, b, key, i);
      AcceptedIsChosen(lib, described, index, i);
    }
    TwinsAreChosen(lib, a, b, key, 0);
    TwinsAreChosen(lib, a, b, key, 1);
    assert HasUnchosenTwin(lib, described, 1);
  }

  lemma TwinsAreChosen(lib: Library, a: Occurrence, b: Occurrence, key: string, i: nat)
    ensures Chosen(lib, Twins(a, b, key), i) <==> i == 1 || i == 2
  {
    hide FromPart, PrefixItems;
    var described := Twins(a, b, key);
    NoPrefixes(lib, described);
    assert described[2].description.identity != described[1].description.identity;
    assert FromWhole(described, 1) && FromWhole(described, 2);
    assert FromOperation(lib, described, 1) && FromOperation(lib, described, 2);
    assert SameKey(described[0], described[1]);
  }
}
