// Which occurrences of a duplicate candidate are retained
// (tools/cleanup/cpd_patterns.cpp filterCpdCandidates, without consolidation).
module Candidates {
  import opened Wrappers
  import opened OrderedMaps
  import Sorting

  datatype Occurrence = Occurrence(path: string, start: nat, end: nat)

  datatype Prefix = Prefix(key: string, parameterTypes: string, start: nat, end: nat, occurrence: Occurrence)

  datatype Part = Part(key: string, identity: string, executableTokens: nat, occurrence: Occurrence)

  // What the source index says of an occurrence.
  datatype Description = Description(
    key: Option<string>, identity: string, statements: nat, expression: bool, executableTokens: nat, balanced: bool,
    prefixes: seq<Prefix>, parts: seq<Part>)

  datatype Described = Described(occurrence: Occurrence, description: Description)

  // An occurrence or a piece of one; `original` is its place among the candidate's occurrences.
  datatype Entry = Entry(occurrence: Occurrence, original: nat, parameterTypes: string, executableTokens: nat,
    operation: bool)

  // A JSON field that should be a number.
  datatype Field = Missing | Null | Flag(flag: bool) | Number(number: int) | NotANumber | Other

  datatype Facts = Facts(tokenCount: Field, lineCount: Field)

  datatype Hit = Hit(facts: Facts, occurrences: seq<Occurrence>, pattern: string, identities: seq<string>,
    patternKey: string)

  datatype Rejected = Rejected(facts: Facts, occurrences: seq<Occurrence>, reason: string)

  datatype Span = Span(path: string, start: nat, end: nat)

  // The JSON library: how identities are written and read, and how numbers are written.
  datatype Library = Library(
    spanText: (string, nat, nat) -> string, occurrenceText: Occurrence -> string, spanOf: string -> Span,
      numberText: nat -> string)

  datatype Group = Group(key: string, identities: seq<string>, entries: seq<Entry>)

  const OPERATIONS := "shared executable operations"
  const RECORDS := "same complete record declaration"
  const PREFIXES := "same function, first parameter and opening statement"
  const PARTS := "shared complete statements within a larger match"
  const UNCLASSIFIED := "unclassified syntax requires manual review"
  const UNMATCHED := "occurrences without the retained group's operation or declaration identity"

  // ---------------------------------------------------------------------------
  // Grouping
  // ---------------------------------------------------------------------------

  type Item = Pair<Pair<Entry>>

  type Grouped = seq<Pair<seq<Pair<Entry>>>>

  function Inner(): Step<seq<Pair<Entry>>, Pair<Entry>> {
    (before: Option<seq<Pair<Entry>>>, item: Pair<Entry>) =>
      Put(if before.Some? then before.value else [], item.key, item.value)
  }

  function EntryOf(d: Described, i: nat): Entry {
    Entry(d.occurrence, i, "", d.description.executableTokens,
      d.description.statements >= 2 || d.description.expression)
  }

  function WholeItems(described: seq<Described>): seq<Item> {
    if described == [] then []
    else
      var i := |described| - 1;
      var d := described[i].description;
      var front := WholeItems(described[..i]);
      if d.key.None? then front else front + [Pair(d.key.value, Pair(d.identity, EntryOf(described[i], i)))]
  }

  function PrefixItem(lib: Library, d: Described, i: nat, p: Prefix): Item {
    Pair(p.key,
      Pair(lib.spanText(d.occurrence.path, p.start, p.end), Entry(p.occurrence, i, p.parameterTypes, 0, false)))
  }

  function PrefixItemsOf(lib: Library, d: Described, i: nat, n: nat): (items: seq<Item>)
    requires n <= |d.description.prefixes|
  {
    if n == 0 then [] else PrefixItemsOf(lib, d, i, n - 1) + [PrefixItem(lib, d, i, d.description.prefixes[n - 1])]
  }

  function PrefixItems(lib: Library, described: seq<Described>): seq<Item> {
    if described == [] then []
    else
      var i := |described| - 1;
      PrefixItems(lib, described[..i]) + PrefixItemsOf(lib, described[i], i, |described[i].description.prefixes|)
  }

  function PartItem(i: nat, p: Part): Item {
    Pair(p.key, Pair(p.identity, Entry(p.occurrence, i, "", p.executableTokens, false)))
  }

  function PartItemsOf(d: Described, i: nat, n: nat): seq<Item>
    requires n <= |d.description.parts|
  {
    if n == 0 then [] else PartItemsOf(d, i, n - 1) + [PartItem(i, d.description.parts[n - 1])]
  }

  function PartItems(described: seq<Described>): seq<Item> {
    if described == [] then []
    else
      var i := |described| - 1;
      PartItems(described[..i]) + PartItemsOf(described[i], i, |described[i].description.parts|)
  }

  function Values<V>(m: seq<Pair<V>>): seq<V> {
    seq(|m|, i requires 0 <= i < |m| => m[i].value)
  }

  // The groups with at least two identities.
  function Matching(groups: Grouped): seq<Group> {
    if groups == [] then []
    else
      var k := |groups| - 1;
      var front := Matching(groups[..k]);
      if |groups[k].value| >= 2 then front + [Group(groups[k].key, Keys(groups[k].value), Values(groups[k].value))]
      else front
  }

  // groups.get(key).set(identity, entry)
  method AddItem(groups: OrderedMap<seq<Pair<Entry>>>, item: Item)
    requires groups.Valid()
    modifies groups
    ensures groups.Valid()
    ensures groups.entries ==
      Put(old(groups.entries), item.key, Inner()(Lookup(old(groups.entries), item.key), item.value))
  {
    hide Inner, Lookup, Put;
    ghost var before := groups.entries;
    var i := groups.Get(item.key, []);
    AddStep(before, item, groups.entries, i);
    groups.Store(i, Put(groups.entries[i].value, item.value.key, item.value.value));
  }

  lemma AddStep(before: Grouped, item: Item, groups: Grouped, i: nat)
    requires i == Place(before, item.key) < |groups|
      && groups == if i < |before| then before else before + [Pair(item.key, [])]
    ensures groups[i := Pair(groups[i].key, Put(groups[i].value, item.value.key, item.value.value))]
         == Put(before, item.key, Inner()(Lookup(before, item.key), item.value))
  {
  }

  method MatchingGroups(groups: Grouped) returns (result: seq<Group>)
    ensures result == Matching(groups)
  {
    result := [];
    for k := 0 to |groups|
      invariant result == Matching(groups[..k])
    {
      assert groups[..k + 1][..k] == groups[..k];
      if |groups[k].value| >= 2 {
        result := result + [Group(groups[k].key, Keys(groups[k].value), Values(groups[k].value))];
      }
    }
    assert groups[..|groups|] == groups;
  }

  method WholeGroups(described: seq<Described>) returns (result: seq<Group>)
    ensures result == Matching(Filled(WholeItems(described), Inner()))
  {
    var groups := new OrderedMap<seq<Pair<Entry>>>();
    for i := 0 to |described|
      invariant groups.Valid() && fresh(groups)
      invariant groups.entries == Filled(WholeItems(described[..i]), Inner())
    {
      assert described[..i + 1][..i] == described[..i];
      var d := described[i].description;
      if d.key.Some? {
        var item: Item := Pair(d.key.value, Pair(d.identity, EntryOf(described[i], i)));
        FilledLast(WholeItems(described[..i]), item);
        AddItem(groups, item);
      }
    }
    assert described[..|described|] == described;
    result := MatchingGroups(groups.entries);
  }

  lemma FilledLast(items: seq<Item>, item: Item)
    ensures Filled(items + [item], Inner()) ==
      Put(Filled(items, Inner()), item.key, Inner()(Lookup(Filled(items, Inner()), item.key), item.value))
  {
    assert (items + [item])[..|items|] == items;
  }

  method PrefixGroups(lib: Library, described: seq<Described>) returns (result: seq<Group>)
    ensures result == Matching(Filled(PrefixItems(lib, described), Inner()))
  {
    hide Filled;
    var groups := new OrderedMap<seq<Pair<Entry>>>();
    ghost var items: seq<Item> := [];
    NothingFilled();
    for i := 0 to |described|
      invariant groups.Valid() && fresh(groups)
      invariant items == PrefixItems(lib, described[..i]) && groups.entries == Filled(items, Inner())
    {
      assert described[..i + 1][..i] == described[..i];
      var d := described[i];
      for n := 0 to |d.description.prefixes|
        invariant groups.Valid() && fresh(groups)
        invariant items == PrefixItems(lib, described[..i]) + PrefixItemsOf(lib, d, i, n)
          && groups.entries == Filled(items, Inner())
      {
        var item := PrefixItem(lib, d, i, d.description.prefixes[n]);
        FilledLast(items, item);
        AddItem(groups, item);
        items := items + [item];
      }
    }
    assert described[..|described|] == described;
    result := MatchingGroups(groups.entries);
  }

  method PartGroups(described: seq<Described>) returns (result: seq<Group>)
    ensures result == Matching(Filled(PartItems(described), Inner()))
  {
    hide Filled;
    var groups := new OrderedMap<seq<Pair<Entry>>>();
    ghost var items: seq<Item> := [];
    NothingFilled();
    for i := 0 to |described|
      invariant groups.Valid() && fresh(groups)
      invariant items == PartItems(described[..i]) && groups.entries == Filled(items, Inner())
    {
      assert described[..i + 1][..i] == described[..i];
      var d := described[i];
      for n := 0 to |d.description.parts|
        invariant groups.Valid() && fresh(groups)
        invariant items == PartItems(described[..i]) + PartItemsOf(d, i, n) && groups.entries == Filled(items, Inner())
      {
        var item := PartItem(i, d.description.parts[n]);
        FilledLast(items, item);
        AddItem(groups, item);
        items := items + [item];
      }
    }
    assert described[..|described|] == described;
    result := MatchingGroups(groups.entries);
  }

  lemma NothingFilled()
    ensures Filled<seq<Pair<Entry>>, Pair<Entry>>([], Inner()) == []
  {
  }

  // ---------------------------------------------------------------------------
  // What is kept
  // ---------------------------------------------------------------------------

  datatype Kept = Kept(pattern: string, group: Group)

  function WholesKept(groups: seq<Group>): seq<Kept> {
    if groups == [] then []
    else
      var g := groups[|groups| - 1];
      WholesKept(groups[..|groups| - 1])
        + [Kept(if g.entries != [] && g.entries[0].operation then OPERATIONS else RECORDS, g)]
  }

  function ParameterTypes(entries: seq<Entry>): set<string> {
    set e | e in entries :: e.parameterTypes
  }

  function PrefixesKept(groups: seq<Group>): seq<Kept> {
    if groups == [] then []
    else
      var front, g := PrefixesKept(groups[..|groups| - 1]), groups[|groups| - 1];
      if |ParameterTypes(g.entries)| < 2 then front else front + [Kept(PREFIXES, g.(key := "prefix:" + g.key))]
  }

  function Tokens(): Group -> int {
    (g: Group) => if g.entries == [] then 0 else g.entries[0].executableTokens
  }

  predicate Greater(a: int, b: int) {
    a > b
  }

  // Larger parts first; otherwise in the order of their groups.
  function BySize(groups: seq<Group>): seq<Group> {
    Sorting.Sort(groups, Sorting.Through(Tokens(), Greater))
  }

  function SpansOf(lib: Library, identities: seq<string>): seq<Span> {
    seq(|identities|, i requires 0 <= i < |identities| => lib.spanOf(identities[i]))
  }

  predicate Inside(span: Span, prior: Span) {
    prior.path == span.path && prior.start <= span.start && span.end <= prior.end
  }

  predicate Contained(spans: seq<Span>, covered: seq<Span>) {
    forall s :: s in spans ==> exists p :: p in covered && Inside(s, p)
  }

  // The spans of the kept parts among the groups, taken in order.
  function Covered(lib: Library, groups: seq<Group>): seq<Span> {
    if groups == [] then []
    else
      var front, spans := Covered(lib, groups[..|groups| - 1]), SpansOf(lib, groups[|groups| - 1].identities);
      if Contained(spans, front) then front else front + spans
  }

  function PartsKept(lib: Library, groups: seq<Group>): seq<Kept> {
    if groups == [] then []
    else
      var k := |groups| - 1;
      var front := PartsKept(lib, groups[..k]);
      if Contained(SpansOf(lib, groups[k].identities), Covered(lib, groups[..k])) then front
      else front + [Kept(PARTS, groups[k])]
  }

  function AllEntries(described: seq<Described>): seq<Entry> {
    seq(|described|, i requires 0 <= i < |described| => EntryOf(described[i], i))
  }

  function AllIdentities(lib: Library, described: seq<Described>): seq<string> {
    seq(|described|, i requires 0 <= i < |described| => lib.occurrenceText(described[i].occurrence))
  }

  predicate Balanced(described: seq<Described>) {
    forall d :: d in described ==> d.description.balanced
  }

  function Accepted(kept: seq<Kept>): set<nat> {
    set k, e | k in kept && e in k.group.entries :: e.original
  }

  function OperationsKept(lib: Library, described: seq<Described>): seq<Kept> {
    WholesKept(Matching(Filled(WholeItems(described), Inner())))
      + PrefixesKept(Matching(Filled(PrefixItems(lib, described), Inner())))
  }

  function PartGroupsOf(described: seq<Described>): seq<Group> {
    BySize(Matching(Filled(PartItems(described), Inner())))
  }

  function ClassifiedKept(lib: Library, described: seq<Described>): seq<Kept> {
    var operations := OperationsKept(lib, described);
    if |Accepted(operations)| < 2 then operations + PartsKept(lib, PartGroupsOf(described)) else operations
  }

  function KeptOf(lib: Library, described: seq<Described>, index: nat): seq<Kept> {
    var classified := ClassifiedKept(lib, described);
    if Balanced(described) then classified
    else classified + [Kept(UNCLASSIFIED, Unclassified(lib, described, index))]
  }

  function Unclassified(lib: Library, described: seq<Described>, index: nat): Group {
    Group("unclassified:" + lib.numberText(index), AllIdentities(lib, described), AllEntries(described))
  }

  function Occurrences(entries: seq<Entry>): seq<Occurrence> {
    seq(|entries|, i requires 0 <= i < |entries| => entries[i].occurrence)
  }

  function HitOf(facts: Facts, k: Kept): Hit {
    Hit(facts, Occurrences(k.group.entries), k.pattern, k.group.identities, k.group.key)
  }

  function HitsOf(facts: Facts, kept: seq<Kept>): seq<Hit> {
    seq(|kept|, i requires 0 <= i < |kept| => HitOf(facts, kept[i]))
  }

  // The occurrences that no kept group took.
  function Unmatched(described: seq<Described>, accepted: set<nat>): seq<Occurrence> {
    if described == [] then []
    else
      var i := |described| - 1;
      var front := Unmatched(described[..i], accepted);
      if i in accepted then front else front + [described[i].occurrence]
  }

  function ReasonOf(described: seq<Described>): string {
    if |set d | d in described :: d.description.identity| < 2
      then "one containing statement or declaration reported more than once"
    else if forall d :: d in described ==> d.description.executableTokens == 0 then "declaration or signature surface"
    else if forall d :: d in described ==> d.description.statements < 2 then "single operation or partial statement"
    else "different complete operations, types, constants or assertion facts"
  }

  function AllOccurrences(described: seq<Described>): seq<Occurrence> {
    seq(|described|, i requires 0 <= i < |described| => described[i].occurrence)
  }

  function FilteredOf(facts: Facts, described: seq<Described>, accepted: set<nat>): seq<Rejected> {
    if |accepted| < 2 then [Rejected(facts, AllOccurrences(described), ReasonOf(described))]
    else
      var unmatched := Unmatched(described, accepted);
      if unmatched == [] then [] else [Rejected(facts, unmatched, UNMATCHED)]
  }

  // ---------------------------------------------------------------------------
  // The filter
  // ---------------------------------------------------------------------------

  // What one candidate has so far: the accepted occurrences and the retained hits.
  class Selection {
    const facts: Facts
    var accepted: set<nat>
    var retained: seq<Hit>
    ghost var kept: seq<Kept>

    ghost predicate Valid()
      reads this
    {
      accepted == Accepted(kept) && retained == HitsOf(facts, kept)
    }

    constructor (facts: Facts)
      ensures Valid() && kept == [] && this.facts == facts
    {
      this.facts := facts;
      accepted, retained, kept := {}, [], [];
    }

    method Keep(pattern: string, group: Group)
      requires Valid()
      modifies this
      ensures Valid() && kept == old(kept) + [Kept(pattern, group)]
    {
      var occurrences: seq<Occurrence> := [];
      for i := 0 to |group.entries|
        invariant kept == old(kept) && retained == old(retained)
        invariant accepted == old(accepted) + (set e | e in group.entries[..i] :: e.original)
        invariant occurrences == Occurrences(group.entries[..i])
      {
        assert group.entries[..i + 1] == group.entries[..i] + [group.entries[i]];
        accepted := accepted + {group.entries[i].original};
        occurrences := occurrences + [group.entries[i].occurrence];
      }
      assert group.entries[..|group.entries|] == group.entries;
      AcceptedLast(kept, Kept(pattern, group));
      kept := kept + [Kept(pattern, group)];
      retained := retained + [Hit(facts, occurrences, pattern, group.identities, group.key)];
    }

    method KeepWholes(groups: seq<Group>)
      requires Valid()
      modifies this
      ensures Valid() && kept == old(kept) + WholesKept(groups)
    {
      for i := 0 to |groups|
        invariant Valid() && kept == old(kept) + WholesKept(groups[..i])
      {
        assert groups[..i + 1][..i] == groups[..i];
        var g := groups[i];
        Keep(if g.entries != [] && g.entries[0].operation then OPERATIONS else RECORDS, g);
      }
      assert groups[..|groups|] == groups;
    }

    method KeepPrefixes(groups: seq<Group>)
      requires Valid()
      modifies this
      ensures Valid() && kept == old(kept) + PrefixesKept(groups)
    {
      for i := 0 to |groups|
        invariant Valid() && kept == old(kept) + PrefixesKept(groups[..i])
      {
        assert groups[..i + 1][..i] == groups[..i];
        if |ParameterTypes(groups[i].entries)| >= 2 {
          Keep(PREFIXES, groups[i].(key := "prefix:" + groups[i].key));
        }
      }
      assert groups[..|groups|] == groups;
    }

    method KeepParts(lib: Library, groups: seq<Group>)
      requires Valid()
      modifies this
      ensures Valid() && kept == old(kept) + PartsKept(lib, groups)
    {
      var covered: seq<Span> := [];
      for i := 0 to |groups|
        invariant Valid() && kept == old(kept) + PartsKept(lib, groups[..i]) && covered == Covered(lib, groups[..i])
      {
        assert groups[..i + 1][..i] == groups[..i];
        var spans := SpansOf(lib, groups[i].identities);
        if !Contained(spans, covered) {
          Keep(PARTS, groups[i]);
          covered := covered + spans;
        }
      }
      assert groups[..|groups|] == groups;
    }
  }

  lemma AcceptedLast(kept: seq<Kept>, last: Kept)
    ensures Accepted(kept + [last]) == Accepted(kept) + set e | e in last.group.entries :: e.original
  {
  }

  method FilterCandidate(lib: Library, facts: Facts, described: seq<Described>, index: nat)
    returns (retained: seq<Hit>, filtered: seq<Rejected>)
    ensures retained == HitsOf(facts, KeptOf(lib, described, index))
    ensures filtered == FilteredOf(facts, described, Accepted(KeptOf(lib, described, index)))
    ensures forall i: nat :: i < |described| ==>
      Retained(retained, described[i]) || Listed(filtered, described[i].occurrence)
  {
    hide *;
    var selection := new Selection(facts);
    var wholes := WholeGroups(described);
    selection.KeepWholes(wholes);
    var prefixes := PrefixGroups(lib, described);
    selection.KeepPrefixes(prefixes);
    OperationsAre(lib, described, selection.kept);
    SelectionIs(selection);
    if |selection.accepted| < 2 {
      var parts := PartGroups(described);
      selection.KeepParts(lib, BySize(parts));
    }
    ClassifiedAre(lib, described, selection.kept);
    var balanced := Balanced(described);
    if !balanced {
      selection.Keep(UNCLASSIFIED, Unclassified(lib, described, index));
    }
    KeptAre(lib, described, index, selection.kept);
    SelectionIs(selection);
    retained := selection.retained;
    filtered := Reject(facts, described, selection.accepted);
    EveryOccurrenceIsAccountedFor(lib, facts, described, index);
  }

  method Reject(facts: Facts, described: seq<Described>, accepted: set<nat>) returns (filtered: seq<Rejected>)
    ensures filtered == FilteredOf(facts, described, accepted)
  {
    if |accepted| < 2 {
      return [Rejected(facts, AllOccurrences(described), ReasonOf(described))];
    }
    var unmatched: seq<Occurrence> := [];
    for i := 0 to |described|
      invariant unmatched == Unmatched(described[..i], accepted)
    {
      assert described[..i + 1][..i] == described[..i];
      if i !in accepted {
        unmatched := unmatched + [described[i].occurrence];
      }
    }
    assert described[..|described|] == described;
    filtered := if unmatched == [] then [] else [Rejected(facts, unmatched, UNMATCHED)];
  }

  lemma SelectionIs(selection: Selection)
    requires selection.Valid()
    ensures selection.accepted == Accepted(selection.kept)
      && selection.retained == HitsOf(selection.facts, selection.kept)
  {
  }

  lemma OperationsAre(lib: Library, described: seq<Described>, kept: seq<Kept>)
    requires kept ==
      [] + WholesKept(Matching(Filled(WholeItems(described), Inner())))
        + PrefixesKept(Matching(Filled(PrefixItems(lib, described), Inner())))
    ensures kept == OperationsKept(lib, described)
  {
    hide WholesKept, PrefixesKept, Matching, Filled, WholeItems, PrefixItems, Inner;
  }

  lemma ClassifiedAre(lib: Library, described: seq<Described>, kept: seq<Kept>)
    requires var operations := OperationsKept(lib, described);
      kept == if |Accepted(operations)| < 2
        then operations + PartsKept(lib, BySize(Matching(Filled(PartItems(described), Inner())))) else operations
    ensures kept == ClassifiedKept(lib, described)
  {
  }

  lemma KeptAre(lib: Library, described: seq<Described>, index: nat, kept: seq<Kept>)
    requires var classified := ClassifiedKept(lib, described);
      kept == if Balanced(described) then classified
        else classified + [Kept(UNCLASSIFIED, Unclassified(lib, described, index))]
    ensures kept == KeptOf(lib, described, index)
  {
  }

  // ---------------------------------------------------------------------------
  // What groups mean
  // ---------------------------------------------------------------------------

  lemma {:induction false} MatchingHas(groups: Grouped, g: Group)
    ensures g in Matching(groups) <==>
      exists p :: p in groups && |p.value| >= 2 && g == Group(p.key, Keys(p.value), Values(p.value))
  {
    if groups != [] {
      var k := |groups| - 1;
      assert groups == groups[..k] + [groups[k]];
      MatchingHas(groups[..k], g);
    }
  }

  lemma {:induction false} InnerIsPutAll(pairs: seq<Pair<Entry>>)
    requires pairs != []
    ensures Folded(pairs, Inner()) == Some(PutAll(pairs))
  {
    var k := |pairs| - 1;
    var front, last := pairs[..k], pairs[k];
    if k > 0 {
      InnerIsPutAll(front);
      assert Folded(front, Inner()).value == PutAll(front);
    } else {
      assert PutAll(front) == [] && Folded(front, Inner()).None?;
    }
    assert PutAll(pairs) == Put(PutAll(front), last.key, last.value);
  }

  // The entries with this key and identity, in order.
  function EntriesOf(items: seq<Item>, key: string, identity: string): seq<Entry> {
    Under(Under(items, key), identity)
  }

  // A key has a group exactly when its entries have at least two identities; the group has
  // the identities in the order of their first appearance, each with the last of its entries.
  lemma GroupIs(items: seq<Item>, g: Group)
    ensures g in Matching(Filled(items, Inner())) <==>
      var under := Under(items, g.key);
      && g.identities == FirstKeys(under) && |g.identities| >= 2 && |g.entries| == |g.identities|
      && forall j :: 0 <= j < |g.entries| ==>
        var entries := EntriesOf(items, g.key, g.identities[j]);
        entries != [] && g.entries[j] == entries[|entries| - 1]
  {
    hide Filled, Folded, PutAll, Matching, FirstKeys, Under;
    var groups, under := Filled(items, Inner()), Under(items, g.key);
    MatchingHas(groups, g);
    FilledIs(items, Inner(), g.key);
    var at := Place(groups, g.key);
    forall p | p in groups && p.key == g.key
      ensures at < |groups| && p == groups[at]
    {
      var k :| 0 <= k < |groups| && groups[k] == p;
      PlaceIs(groups, k);
    }
    UnderFolds(under);
    if under != [] {
      InnerIsPutAll(under);
      var inner := PutAll(under);
      assert groups[at] == Pair(g.key, inner);
      PutAllValues(under, g.entries);
    }
  }

  lemma UnderFolds(pairs: seq<Pair<Entry>>)
    ensures Folded(pairs, Inner()).Some? <==> pairs != []
    ensures pairs == [] ==> FirstKeys(pairs) == []
  {
  }

  // The values of the filled map are the last ones of its keys.
  lemma PutAllValues(pairs: seq<Pair<Entry>>, entries: seq<Entry>)
    ensures var m := PutAll(pairs);
      && Keys(m) == FirstKeys(pairs)
      && (Values(m) == entries <==>
        && |entries| == |m|
        && forall j :: 0 <= j < |m| ==> var under := Under(pairs, Keys(m)[j]);
           under != [] && entries[j] == under[|under| - 1])
  {
    hide PutAll, Under, FirstKeys;
    var m := PutAll(pairs);
    forall j | 0 <= j < |m|
      ensures var under := Under(pairs, Keys(m)[j]); under != [] && m[j].value == under[|under| - 1]
    {
      PutAllIs(pairs, m[j].key);
      PlaceIs(m, j);
    }
    PutAllIs(pairs, "");
  }

  // ---------------------------------------------------------------------------
  // Parts
  // ---------------------------------------------------------------------------

  function KeptSpans(lib: Library, kept: seq<Kept>): seq<Span> {
    if kept == [] then [] else KeptSpans(lib, kept[..|kept| - 1]) + SpansOf(lib, kept[|kept| - 1].group.identities)
  }

  lemma {:induction false} CoveredIsKept(lib: Library, groups: seq<Group>)
    ensures Covered(lib, groups) == KeptSpans(lib, PartsKept(lib, groups))
  {
    if groups != [] {
      CoveredIsKept(lib, groups[..|groups| - 1]);
    }
  }

  lemma ContainedGrows(spans: seq<Span>, covered: seq<Span>, more: seq<Span>)
    ensures Contained(spans, covered) ==> Contained(spans, covered + more)
    ensures Contained(more, covered + more)
  {
    forall s | s in more
      ensures exists p :: p in covered + more && Inside(s, p)
    {
      assert s in covered + more && Inside(s, s);
    }
    if Contained(spans, covered) {
      forall s | s in spans
        ensures exists p :: p in covered + more && Inside(s, p)
      {
        var p :| p in covered && Inside(s, p);
        assert p in covered + more;
      }
    }
  }

  lemma {:induction false} CoversAll(lib: Library, groups: seq<Group>)
    ensures forall g :: g in groups ==> Contained(SpansOf(lib, g.identities), Covered(lib, groups))
  {
    if groups != [] {
      hide Contained, SpansOf;
      var front, g := groups[..|groups| - 1], groups[|groups| - 1];
      CoversAll(lib, front);
      assert groups == front + [g];
      forall h | h in groups
        ensures Contained(SpansOf(lib, h.identities), Covered(lib, groups))
      {
        if h in front {
          ContainedGrows(SpansOf(lib, h.identities), Covered(lib, front), SpansOf(lib, g.identities));
        } else {
          ContainedGrows(SpansOf(lib, g.identities), Covered(lib, front), SpansOf(lib, g.identities));
        }
      }
    }
  }

  // None of the kept parts lies inside those before it.
  ghost predicate Fresh(lib: Library, kept: seq<Kept>) {
    forall i :: 0 <= i < |kept| ==> !Contained(SpansOf(lib, kept[i].group.identities), KeptSpans(lib, kept[..i]))
  }

  lemma FreshGrows(lib: Library, kept: seq<Kept>, last: Kept)
    requires Fresh(lib, kept) && !Contained(SpansOf(lib, last.group.identities), KeptSpans(lib, kept))
    ensures Fresh(lib, kept + [last])
  {
    hide Contained, SpansOf, KeptSpans;
    var more := kept + [last];
    forall i | 0 <= i < |more|
      ensures !Contained(SpansOf(lib, more[i].group.identities), KeptSpans(lib, more[..i]))
    {
      assert more[..i] == kept[..i];
      assert i == |kept| ==> kept[..i] == kept;
    }
  }

  // Every group of parts lies inside the kept ones, and no kept one lies inside those kept
  // before it.
  lemma {:induction false} PartsAreCovered(lib: Library, groups: seq<Group>)
    ensures var kept := PartsKept(lib, groups);
      && (forall g :: g in groups ==> Contained(SpansOf(lib, g.identities), KeptSpans(lib, kept)))
      && (forall k :: k in kept ==> k.pattern == PARTS && k.group in groups)
      && Fresh(lib, kept)
  {
    hide Contained, SpansOf, KeptSpans, Covered, Fresh;
    CoversAll(lib, groups);
    CoveredIsKept(lib, groups);
    if groups == [] {
      NothingFresh(lib);
    } else {
      var front, g := groups[..|groups| - 1], groups[|groups| - 1];
      assert groups == front + [g];
      PartsAreCovered(lib, front);
      CoveredIsKept(lib, front);
      if PartsKept(lib, groups) != PartsKept(lib, front) {
        FreshGrows(lib, PartsKept(lib, front), Kept(PARTS, g));
      }
    }
  }

  lemma NothingFresh(lib: Library)
    ensures Fresh(lib, [])
  {
  }

  // ---------------------------------------------------------------------------
  // Entries hold pieces of their originals
  // ---------------------------------------------------------------------------

  // The occurrence itself, or that of one of its function prefixes or statement parts.
  ghost predicate Piece(d: Described, o: Occurrence) {
    || o == d.occurrence
    || (exists prefix :: prefix in d.description.prefixes && prefix.occurrence == o)
    || (exists part :: part in d.description.parts && part.occurrence == o)
  }

  // An entry holds a piece of the occurrence that it names as its original.
  ghost predicate Sound(described: seq<Described>, e: Entry) {
    e.original < |described| && Piece(described[e.original], e.occurrence)
  }

  ghost predicate ItemsSound(described: seq<Described>, items: seq<Item>) {
    forall item :: item in items ==> Sound(described, item.value.value)
  }

  ghost predicate GroupedSound(described: seq<Described>, groups: Grouped) {
    forall g, p :: g in groups && p in g.value ==> Sound(described, p.value)
  }

  lemma {:induction false} FilledSound(described: seq<Described>, items: seq<Item>)
    requires ItemsSound(described, items)
    ensures GroupedSound(described, Filled(items, Inner()))
  {
    if items != [] {
      hide Sound, Filled;
      var front, item := items[..|items| - 1], items[|items| - 1];
      assert items == front + [item];
      FilledSound(described, front);
      FilledLast(front, item);
      PutSound(described, Filled(front, Inner()), item);
    } else {
      NothingFilled();
    }
  }

  lemma PutSound(described: seq<Described>, groups: Grouped, item: Item)
    requires GroupedSound(described, groups) && Sound(described, item.value.value)
    ensures GroupedSound(described, Put(groups, item.key, Inner()(Lookup(groups, item.key), item.value)))
  {
    hide Sound;
    var i := Place(groups, item.key);
    var inner := if i < |groups| then groups[i].value else [];
    assert i < |groups| ==> groups[i] in groups;
    forall p | p in Put(inner, item.value.key, item.value.value)
      ensures Sound(described, p.value)
    {
    }
  }

  lemma SoundLonger(described: seq<Described>, e: Entry)
    requires described != [] && Sound(described[..|described| - 1], e)
    ensures Sound(described, e)
  {
  }

  lemma {:induction false} ItemsAreSound(lib: Library, described: seq<Described>)
    ensures ItemsSound(described, WholeItems(described))
    ensures ItemsSound(described, PrefixItems(lib, described))
    ensures ItemsSound(described, PartItems(described))
  {
    if described != [] {
      hide Sound;
      var i := |described| - 1;
      var front := described[..i];
      ItemsAreSound(lib, front);
      forall e | Sound(front, e)
        ensures Sound(described, e)
      {
        SoundLonger(described, e);
      }
      EntryIsSound(described, i);
      PrefixesAreSound(lib, described, |described[i].description.prefixes|);
      PartsAreSound(described, |described[i].description.parts|);
    }
  }

  lemma EntryIsSound(described: seq<Described>, i: nat)
    requires i < |described|
    ensures Sound(described, EntryOf(described[i], i))
  {
  }

  lemma {:induction false} PrefixesAreSound(lib: Library, described: seq<Described>, n: nat)
    requires described != [] && n <= |described[|described| - 1].description.prefixes|
    ensures var i := |described| - 1; ItemsSound(described, PrefixItemsOf(lib, described[i], i, n))
  {
    if n > 0 {
      PrefixesAreSound(lib, described, n - 1);
      var d := described[|described| - 1];
      assert d.description.prefixes[n - 1] in d.description.prefixes;
    }
  }

  lemma {:induction false} PartsAreSound(described: seq<Described>, n: nat)
    requires described != [] && n <= |described[|described| - 1].description.parts|
    ensures var i := |described| - 1; ItemsSound(described, PartItemsOf(described[i], i, n))
  {
    if n > 0 {
      PartsAreSound(described, n - 1);
      var d := described[|described| - 1];
      assert d.description.parts[n - 1] in d.description.parts;
    }
  }

  ghost predicate GroupsSound(described: seq<Described>, groups: seq<Group>) {
    forall g :: g in groups ==> GroupSound(described, g)
  }

  ghost predicate GroupSound(described: seq<Described>, g: Group) {
    |g.identities| == |g.entries| && forall e :: e in g.entries ==> Sound(described, e)
  }

  lemma MatchingSound(described: seq<Described>, items: seq<Item>)
    requires ItemsSound(described, items)
    ensures GroupsSound(described, Matching(Filled(items, Inner())))
  {
    hide Filled, Matching, Sound;
    var groups := Filled(items, Inner());
    FilledSound(described, items);
    forall g | g in Matching(groups)
      ensures GroupSound(described, g)
    {
      MatchingHas(groups, g);
      var p :| p in groups && g == Group(p.key, Keys(p.value), Values(p.value));
      ValuesSound(described, p.value);
    }
  }

  lemma ValuesSound(described: seq<Described>, m: seq<Pair<Entry>>)
    requires forall p :: p in m ==> Sound(described, p.value)
    ensures forall e :: e in Values(m) ==> Sound(described, e)
    ensures |Keys(m)| == |Values(m)|
  {
    hide Sound;
    forall e | e in Values(m)
      ensures Sound(described, e)
    {
      var j :| 0 <= j < |Values(m)| && Values(m)[j] == e;
      assert m[j] in m;
    }
  }

  ghost predicate KeptSound(described: seq<Described>, kept: seq<Kept>) {
    forall k :: k in kept ==> GroupSound(described, k.group)
  }

  lemma {:induction false} GroupsKeptSound(lib: Library, described: seq<Described>, groups: seq<Group>)
    requires GroupsSound(described, groups)
    ensures KeptSound(described, WholesKept(groups)) && KeptSound(described, PrefixesKept(groups))
      && KeptSound(described, PartsKept(lib, groups))
  {
    if groups != [] {
      hide Covered, Contained, Sound;
      assert groups[|groups| - 1] in groups;
      GroupsKeptSound(lib, described, groups[..|groups| - 1]);
    }
  }

  lemma KeptIsSound(lib: Library, described: seq<Described>, index: nat)
    ensures KeptSound(described, KeptOf(lib, described, index))
  {
    hide Filled, Matching, WholeItems, PrefixItems, PartItems, WholesKept, PrefixesKept, PartsKept, BySize, Accepted,
         GroupSound, AllEntries, AllIdentities;
    ItemsAreSound(lib, described);
    MatchingSound(described, WholeItems(described));
    MatchingSound(described, PrefixItems(lib, described));
    MatchingSound(described, PartItems(described));
    GroupsKeptSound(lib, described, Matching(Filled(WholeItems(described), Inner())));
    GroupsKeptSound(lib, described, Matching(Filled(PrefixItems(lib, described), Inner())));
    SortedSound(described, Matching(Filled(PartItems(described), Inner())));
    GroupsKeptSound(lib, described, PartGroupsOf(described));
    AllIsSound(lib, described, "unclassified:" + lib.numberText(index));
  }

  lemma SortedSound(described: seq<Described>, groups: seq<Group>)
    requires GroupsSound(described, groups)
    ensures GroupsSound(described, BySize(groups))
  {
    Sorting.SortKeeps(groups, Sorting.Through(Tokens(), Greater));
  }

  lemma AllIsSound(lib: Library, described: seq<Described>, key: string)
    ensures GroupSound(described, Group(key, AllIdentities(lib, described), AllEntries(described)))
  {
  }

  // ---------------------------------------------------------------------------
  // Every occurrence is accounted for
  // ---------------------------------------------------------------------------

  // Some hit has a piece of this occurrence.
  ghost predicate Retained(hits: seq<Hit>, d: Described) {
    exists h, o :: h in hits && o in h.occurrences && Piece(d, o)
  }

  ghost predicate Listed(records: seq<Rejected>, o: Occurrence) {
    exists r :: r in records && o in r.occurrences
  }

  ghost function Below(n: nat): (s: set<nat>)
    ensures forall i: nat :: i in s <==> i < n
  {
    if n == 0 then {} else Below(n - 1) + {n - 1}
  }

  lemma {:induction false} BelowSize(n: nat)
    ensures |Below(n)| == n
  {
    if n > 0 {
      BelowSize(n - 1);
    }
  }

  // The unmatched occurrences are those of the originals that were not accepted, each once.
  lemma {:induction false} UnmatchedIs(described: seq<Described>, accepted: set<nat>)
    ensures |Unmatched(described, accepted)| == |Below(|described|) - accepted|
    ensures forall o :: o in Unmatched(described, accepted) <==>
      exists i: nat :: i < |described| && i !in accepted && described[i].occurrence == o
  {
    if described == [] {
      assert Below(0) - accepted == {};
    } else {
      var k := |described| - 1;
      var front := described[..k];
      UnmatchedIs(front, accepted);
      BelowLess(k, accepted);
      UnmatchedHas(described, accepted);
    }
  }

  lemma BelowLess(k: nat, accepted: set<nat>)
    ensures |Below(k + 1) - accepted| == |Below(k) - accepted| + if k in accepted then 0 else 1
  {
    if k in accepted {
      assert Below(k + 1) - accepted == Below(k) - accepted;
    } else {
      assert Below(k + 1) - accepted == (Below(k) - accepted) + {k};
    }
  }

  lemma UnmatchedHas(described: seq<Described>, accepted: set<nat>)
    requires described != []
    requires var front := described[..|described| - 1]; forall o :: o in Unmatched(front, accepted) <==>
      exists i: nat :: i < |front| && i !in accepted && front[i].occurrence == o
    ensures forall o :: o in Unmatched(described, accepted) <==>
      exists i: nat :: i < |described| && i !in accepted && described[i].occurrence == o
  {
    var k := |described| - 1;
    var front := described[..k];
    forall o
      ensures o in Unmatched(described, accepted) <==>
        exists i: nat :: i < |described| && i !in accepted && described[i].occurrence == o
    {
      if o in Unmatched(front, accepted) {
        var i: nat :| i < |front| && i !in accepted && front[i].occurrence == o;
        assert described[i].occurrence == o;
      }
      if i: nat :| i < |described| && i !in accepted && described[i].occurrence == o {
        assert i < k ==> front[i].occurrence == o;
      }
    }
  }

  // An occurrence is recorded when fewer than two are accepted, or when it is not.
  predicate Recorded(accepted: set<nat>, i: nat) {
    |accepted| < 2 || i !in accepted
  }

  // The filtered record lists exactly the occurrences that are not accepted, or all of them
  // when fewer than two are.
  lemma RecordLists(facts: Facts, described: seq<Described>, accepted: set<nat>)
    requires accepted <= Below(|described|)
    ensures var filtered := FilteredOf(facts, described, accepted);
      && (forall o :: Listed(filtered, o) <==>
           exists i: nat :: i < |described| && Recorded(accepted, i) && described[i].occurrence == o)
      && |filtered| <= 1
      && (filtered != [] ==>
           |filtered[0].occurrences| == if |accepted| < 2 then |described| else |described| - |accepted|)
  {
    hide Unmatched, AllOccurrences, ReasonOf, Below;
    UnmatchedIs(described, accepted);
    AllListed(described);
    var n := |described|;
    BelowSize(n);
    assert |Below(n) - accepted| == |Below(n)| - |accepted|;
    var filtered := FilteredOf(facts, described, accepted);
    var listed := if filtered == [] then [] else filtered[0].occurrences;
    forall o
      ensures Listed(filtered, o) <==> o in listed
    {
      if o in listed {
        assert filtered[0] in filtered;
      }
    }
    if |accepted| < 2 {
      assert forall i: nat :: Recorded(accepted, i);
    } else {
      assert forall i: nat :: Recorded(accepted, i) <==> i !in accepted;
    }
  }

  lemma AllListed(described: seq<Described>)
    ensures |AllOccurrences(described)| == |described|
    ensures forall o :: o in AllOccurrences(described) <==>
      exists i: nat :: i < |described| && described[i].occurrence == o
  {
    forall o
      ensures o in AllOccurrences(described) <==> exists i: nat :: i < |described| && described[i].occurrence == o
    {
      if i: nat :| i < |described| && described[i].occurrence == o {
        assert AllOccurrences(described)[i] == o;
      }
    }
  }

  // An accepted occurrence has a piece in a retained hit, and hits hold nothing but pieces of
  // accepted occurrences.
  lemma AcceptedIsRetained(facts: Facts, described: seq<Described>, kept: seq<Kept>)
    requires KeptSound(described, kept)
    ensures Accepted(kept) <= Below(|described|)
    ensures forall i: nat :: i in Accepted(kept) ==> Retained(HitsOf(facts, kept), described[i])
    ensures forall h, o :: h in HitsOf(facts, kept) && o in h.occurrences ==>
      exists i: nat :: i in Accepted(kept) && Piece(described[i], o)
  {
    hide Piece, Retained, HitsOf, KeptSound, Below;
    forall i: nat | i in Accepted(kept)
      ensures i < |described| && Retained(HitsOf(facts, kept), described[i])
    {
      var k, e :| k in kept && e in k.group.entries && e.original == i;
      EntryIsRetained(facts, described, kept, k, e);
    }
    forall h, o | h in HitsOf(facts, kept) && o in h.occurrences
      ensures exists i: nat :: i in Accepted(kept) && Piece(described[i], o)
    {
      var e := EntryBehind(facts, described, kept, h, o);
    }
  }

  lemma EntryIsRetained(facts: Facts, described: seq<Described>, kept: seq<Kept>, k: Kept, e: Entry)
    requires KeptSound(described, kept) && k in kept && e in k.group.entries
    ensures e.original < |described| && Retained(HitsOf(facts, kept), described[e.original])
  {
    hide Piece;
    var hits := HitsOf(facts, kept);
    assert Sound(described, e);
    var m :| 0 <= m < |kept| && kept[m] == k;
    var j :| 0 <= j < |k.group.entries| && k.group.entries[j] == e;
    assert hits[m].occurrences[j] == e.occurrence;
    assert hits[m] in hits && e.occurrence in hits[m].occurrences;
  }

  lemma EntryBehind(facts: Facts, described: seq<Described>, kept: seq<Kept>, h: Hit, o: Occurrence) returns (e: Entry)
    requires KeptSound(described, kept) && h in HitsOf(facts, kept) && o in h.occurrences
    ensures e.original in Accepted(kept) && e.original < |described| && Piece(described[e.original], o)
  {
    hide Piece;
    var hits := HitsOf(facts, kept);
    var m :| 0 <= m < |hits| && hits[m] == h;
    var j :| 0 <= j < |h.occurrences| && h.occurrences[j] == o;
    e := kept[m].group.entries[j];
    assert kept[m] in kept && e in kept[m].group.entries;
    assert Sound(described, e);
  }

  // Every occurrence of a candidate has a piece in a retained hit or is listed in a filtered
  // record, and what these hold comes from the candidate.
  lemma EveryOccurrenceIsAccountedFor(lib: Library, facts: Facts, described: seq<Described>, index: nat)
    ensures var kept := KeptOf(lib, described, index);
      var hits, filtered := HitsOf(facts, kept), FilteredOf(facts, described, Accepted(kept));
      && (forall i: nat :: i < |described| ==>
           Retained(hits, described[i]) || Listed(filtered, described[i].occurrence))
      && (forall h, o :: h in hits && o in h.occurrences ==> exists i: nat :: i < |described| && Piece(described[i], o))
      && (forall o :: Listed(filtered, o) ==> exists i: nat :: i < |described| && described[i].occurrence == o)
  {
    hide KeptOf, HitsOf, FilteredOf, Accepted, Piece, Retained, Listed, Below;
    var kept := KeptOf(lib, described, index);
    KeptIsSound(lib, described, index);
    AcceptedIsRetained(facts, described, kept);
    RecordLists(facts, described, Accepted(kept));
    forall i: nat | i < |described|
      ensures Retained(HitsOf(facts, kept), described[i])
        || Listed(FilteredOf(facts, described, Accepted(kept)), described[i].occurrence)
    {
      assert i in Accepted(kept) || Recorded(Accepted(kept), i);
    }
  }

  // One occurrence that the index could not balance keeps all of them.
  lemma UnbalancedKeepsAll(lib: Library, described: seq<Described>, index: nat)
    requires !Balanced(described)
    ensures var kept := KeptOf(lib, described, index);
      && Accepted(kept) == Below(|described|)
      && HitsOf(Facts(Missing, Missing), kept)[|kept| - 1].occurrences == AllOccurrences(described)
  {
    hide ClassifiedKept, Below;
    var kept := KeptOf(lib, described, index);
    var last := kept[|kept| - 1];
    KeptIsSound(lib, described, index);
    AcceptedIsRetained(Facts(Missing, Missing), described, kept);
    forall i: nat | i < |described|
      ensures i in Accepted(kept)
    {
      assert last in kept && AllEntries(described)[i] in last.group.entries;
    }
  }

  // ---------------------------------------------------------------------------
  // Prefixes
  // ---------------------------------------------------------------------------

  lemma TwoTypes(entries: seq<Entry>)
    ensures |ParameterTypes(entries)| >= 2 <==>
      exists d, e :: d in entries && e in entries && d.parameterTypes != e.parameterTypes
  {
    var types := ParameterTypes(entries);
    if d, e :| d in entries && e in entries && d.parameterTypes != e.parameterTypes {
      assert {d.parameterTypes, e.parameterTypes} <= types;
      assert types == {d.parameterTypes, e.parameterTypes} + (types - {d.parameterTypes, e.parameterTypes});
    }
    if |types| >= 2 {
      var t :| t in types;
      var rest := types - {t};
      assert |rest| >= 1;
      var u :| u in rest;
      var d :| d in entries && d.parameterTypes == t;
      var e :| e in entries && e.parameterTypes == u;
      assert d.parameterTypes != e.parameterTypes;
    }
  }

  // A prefix group is kept exactly when its functions differ in their parameter types.
  lemma {:induction false} PrefixIsKept(groups: seq<Group>, k: Kept)
    ensures k in PrefixesKept(groups) <==>
      && k.pattern == PREFIXES
      && (exists d, e :: d in k.group.entries && e in k.group.entries && d.parameterTypes != e.parameterTypes)
      && exists g :: g in groups && k.group == g.(key := "prefix:" + g.key)
  {
    if groups != [] {
      hide ParameterTypes;
      var front, last := groups[..|groups| - 1], groups[|groups| - 1];
      assert groups == front + [last];
      PrefixIsKept(front, k);
      TwoTypes(last.entries);
    }
  }
}
