// One hit per operation pattern (tools/cleanup/cpd_patterns.cpp filterCpdCandidates, with
// consolidation).
module Consolidation {
  import opened Wrappers
  import opened OrderedMaps
  import opened Candidates

  datatype Numeric = NaN | Value(n: int)

  function NumericOf(field: Field): Numeric {
    match field
    case Number(n) => Value(n)
    case Null => Value(0)
    case Flag(flag) => Value(if flag then 1 else 0)
    case _ => NaN
  }

  predicate Exceeds(a: Numeric, b: Numeric) {
    a.Value? && b.Value? && a.n > b.n
  }

  function MergedField(previous: Field, current: Field): Field {
    var p, c := NumericOf(previous), NumericOf(current);
    if p.NaN? || c.NaN? then NotANumber
    else if c.n > p.n then current
    else if !previous.Number? then Number(p.n)
    else previous
  }

  datatype Target = Target(facts: Facts, pattern: string, occurrences: seq<Pair<Occurrence>>)

  const REPRESENTED := "same operation pattern already represented by a consolidated match"

  // The identities of a hit, each with its occurrence.
  function PairsOf(hit: Hit): seq<Pair<Occurrence>> {
    var n := if |hit.identities| < |hit.occurrences| then |hit.identities| else |hit.occurrences|;
    seq(n, i requires 0 <= i < n => Pair(hit.identities[i], hit.occurrences[i]))
  }

  // Adds the new identities, and replaces the known ones if asked to.
  function Absorbed(m: seq<Pair<Occurrence>>, entries: seq<Pair<Occurrence>>, replace: bool): seq<Pair<Occurrence>> {
    if entries == [] then m
    else
      var k := |entries| - 1;
      var before := Absorbed(m, entries[..k], replace);
      if replace || Lookup(before, entries[k].key).None? then Put(before, entries[k].key, entries[k].value) else before
  }

  function Absorb(): Step<Target, Hit> {
    (prior: Option<Target>, hit: Hit) =>
      if prior.None? then Target(hit.facts, hit.pattern, PutAll(PairsOf(hit)))
      else
        var t := prior.value;
        Target(
          Facts(MergedField(t.facts.tokenCount, hit.facts.tokenCount),
            MergedField(t.facts.lineCount, hit.facts.lineCount)),
          t.pattern,
          Absorbed(t.occurrences, PutAll(PairsOf(hit)),
            Exceeds(NumericOf(hit.facts.tokenCount), NumericOf(t.facts.tokenCount))))
  }

  function ByPattern(hits: seq<Hit>): seq<Pair<Hit>> {
    seq(|hits|, i requires 0 <= i < |hits| => Pair(hits[i].patternKey, hits[i]))
  }

  function Targets(hits: seq<Hit>): seq<Pair<Target>> {
    Filled(ByPattern(hits), Absorb())
  }

  predicate Repeats(hits: seq<Hit>, k: nat)
    requires k < |hits|
  {
    exists i :: 0 <= i < k && hits[i].patternKey == hits[k].patternKey
  }

  // The hits whose pattern an earlier hit has.
  function Represented(hits: seq<Hit>): seq<Rejected> {
    if hits == [] then []
    else
      var k := |hits| - 1;
      var front := Represented(hits[..k]);
      if Repeats(hits, k) then front + [Rejected(hits[k].facts, hits[k].occurrences, REPRESENTED)] else front
  }

  datatype Duplication = Duplication(facts: Facts, pattern: string, occurrences: seq<Occurrence>)

  function DuplicationsOf(targets: seq<Pair<Target>>): seq<Duplication> {
    seq(|targets|, i requires 0 <= i < |targets| =>
      Duplication(targets[i].value.facts, targets[i].value.pattern, Values(targets[i].value.occurrences)))
  }

  // ---------------------------------------------------------------------------
  // The loop
  // ---------------------------------------------------------------------------

  method OccurrencesOf(hit: Hit) returns (entries: seq<Pair<Occurrence>>)
    ensures entries == PutAll(PairsOf(hit))
  {
    var pairs := PairsOf(hit);
    var occurrences := new OrderedMap<Occurrence>();
    for i := 0 to |pairs|
      invariant occurrences.Valid() && fresh(occurrences) && occurrences.entries == PutAll(pairs[..i])
    {
      assert pairs[..i + 1][..i] == pairs[..i];
      occurrences.Set(pairs[i].key, pairs[i].value);
    }
    assert pairs[..|pairs|] == pairs;
    entries := occurrences.entries;
  }

  method AbsorbOccurrences(prior: seq<Pair<Occurrence>>, entries: seq<Pair<Occurrence>>, replace: bool)
    returns (m: seq<Pair<Occurrence>>)
    ensures m == Absorbed(prior, entries, replace)
  {
    m := prior;
    for i := 0 to |entries|
      invariant m == Absorbed(prior, entries[..i], replace)
    {
      assert entries[..i + 1][..i] == entries[..i];
      if Lookup(m, entries[i].key).None? || replace {
        m := Put(m, entries[i].key, entries[i].value);
      }
    }
    assert entries[..|entries|] == entries;
  }

  method Consolidate(retained: seq<Hit>) returns (duplications: seq<Duplication>, filtered: seq<Rejected>)
    ensures duplications == DuplicationsOf(Targets(retained)) && filtered == Represented(retained)
  {
    hide Filled;
    var targets := new OrderedMap<Target>();
    filtered := [];
    NoTargets();
    for i := 0 to |retained|
      invariant targets.Valid() && fresh(targets)
      invariant targets.entries == Targets(retained[..i]) && filtered == Represented(retained[..i])
    {
      hide Absorb;
      var hit := retained[i];
      TargetsStep(retained, i);
      var occurrences := OccurrencesOf(hit);
      var prior := targets.Find(hit.patternKey);
      var next := Target(hit.facts, hit.pattern, occurrences);
      if prior.Some? {
        var t := targets.entries[prior.value].value;
        var replace := Exceeds(NumericOf(hit.facts.tokenCount), NumericOf(t.facts.tokenCount));
        var merged := AbsorbOccurrences(t.occurrences, occurrences, replace);
        next := Target(
          Facts(MergedField(t.facts.tokenCount, hit.facts.tokenCount),
            MergedField(t.facts.lineCount, hit.facts.lineCount)),
          t.pattern, merged);
        filtered := filtered + [Rejected(hit.facts, hit.occurrences, REPRESENTED)];
      }
      AbsorbIs(if prior.Some? then Some(targets.entries[prior.value].value) else None, hit);
      targets.Set(hit.patternKey, next);
    }
    assert retained[..|retained|] == retained;
    duplications := DuplicationsOf(targets.entries);
  }

  lemma AbsorbIs(prior: Option<Target>, hit: Hit)
    ensures Absorb()(prior, hit) ==
      if prior.None? then Target(hit.facts, hit.pattern, PutAll(PairsOf(hit)))
      else
        var t := prior.value;
        Target(
          Facts(MergedField(t.facts.tokenCount, hit.facts.tokenCount),
            MergedField(t.facts.lineCount, hit.facts.lineCount)),
          t.pattern,
          Absorbed(t.occurrences, PutAll(PairsOf(hit)),
            Exceeds(NumericOf(hit.facts.tokenCount), NumericOf(t.facts.tokenCount))))
  {
  }

  lemma NoTargets()
    ensures Targets([]) == []
  {
  }

  lemma TargetsStep(hits: seq<Hit>, i: nat)
    requires i < |hits|
    ensures var before, hit := Targets(hits[..i]), hits[i];
      && Targets(hits[..i + 1]) == Put(before, hit.patternKey, Absorb()(Lookup(before, hit.patternKey), hit))
      && Represented(hits[..i + 1]) ==
         if Lookup(before, hit.patternKey).Some?
           then Represented(hits[..i]) + [Rejected(hit.facts, hit.occurrences, REPRESENTED)] else Represented(hits[..i])
  {
    hide Absorb, FirstKeys, Lookup, Put, Repeats;
    var front := hits[..i];
    assert hits[..i + 1][..i] == front;
    ByPatternLast(hits, i);
    FilledIs(ByPattern(front), Absorb(), hits[i].patternKey);
    KeysLookup(Targets(front), hits[i].patternKey);
    RepeatsIsKnown(hits, i);
  }

  lemma ByPatternLast(hits: seq<Hit>, i: nat)
    requires i < |hits|
    ensures ByPattern(hits[..i + 1]) == ByPattern(hits[..i]) + [Pair(hits[i].patternKey, hits[i])]
    ensures var items := ByPattern(hits[..i + 1]); items != [] && items[..|items| - 1] == ByPattern(hits[..i])
  {
  }

  lemma RepeatsIsKnown(hits: seq<Hit>, i: nat)
    requires i < |hits|
    ensures Repeats(hits, i) <==> hits[i].patternKey in FirstKeys(ByPattern(hits[..i]))
    ensures Repeats(hits[..i + 1], i) <==> Repeats(hits, i)
  {
    hide FirstKeys;
    var items := ByPattern(hits[..i]);
    FirstKeysAre(items);
    assert forall k :: 0 <= k < i ==> items[k] == Pair(hits[k].patternKey, hits[k]);
    if Repeats(hits, i) {
      var k :| 0 <= k < i && hits[k].patternKey == hits[i].patternKey;
      assert items[k] in items;
      assert hits[..i + 1][k].patternKey == hits[..i + 1][i].patternKey;
    }
  }

  // ---------------------------------------------------------------------------
  // What a consolidated hit holds
  // ---------------------------------------------------------------------------

  function Counted(hit: Hit): Numeric {
    NumericOf(hit.facts.tokenCount)
  }

  // Null and false count as 0, true as 1; what is no number is missing.
  lemma NumericIs(field: Field, n: int)
    ensures NumericOf(field) == Value(n) <==>
      field == Number(n) || (n == 0 && (field == Null || field == Flag(false))) || (n == 1 && field == Flag(true))
  {
  }

  lemma MergedIsMax(previous: Field, current: Field)
    ensures var p, c := NumericOf(previous), NumericOf(current);
      NumericOf(MergedField(previous, current)) == if p.NaN? || c.NaN? then NaN else if c.n > p.n then c else p
  {
  }

  // The token count of the hits together: the largest, or none when one is missing.
  ghost predicate IsMax(count: Numeric, hits: seq<Hit>) {
    && (count.NaN? <==> exists i :: 0 <= i < |hits| && Counted(hits[i]).NaN?)
    && (count.Value? ==>
      && (forall i :: 0 <= i < |hits| ==> Counted(hits[i]).n <= count.n)
      && (exists i :: 0 <= i < |hits| && Counted(hits[i]) == count))
  }

  lemma {:induction false} CountIsMax(hits: seq<Hit>)
    requires hits != []
    ensures Folded(hits, Absorb()).Some?
    ensures IsMax(NumericOf(Folded(hits, Absorb()).value.facts.tokenCount), hits)
  {
    hide Absorb, IsMax, MergedField, NumericOf;
    var k := |hits| - 1;
    var front, last := hits[..k], hits[k];
    AbsorbIs(Folded(front, Absorb()), last);
    if k > 0 {
      CountIsMax(front);
      var t := Folded(front, Absorb()).value;
      MergedIsMax(t.facts.tokenCount, last.facts.tokenCount);
      MaxGrows(NumericOf(t.facts.tokenCount), front, last);
      assert front + [last] == hits;
    } else {
      OneIsMax(last);
      assert hits == [last];
    }
  }

  lemma OneIsMax(hit: Hit)
    ensures IsMax(NumericOf(hit.facts.tokenCount), [hit])
  {
    assert [hit][0] == hit;
  }

  lemma MaxGrows(count: Numeric, front: seq<Hit>, last: Hit)
    requires IsMax(count, front)
    ensures var c := Counted(last);
      IsMax(if count.NaN? || c.NaN? then NaN else if c.n > count.n then c else count, front + [last])
  {
    var hits := front + [last];
    assert forall i :: 0 <= i < |front| ==> hits[i] == front[i];
    assert hits[|front|] == last;
  }

  // The same of the line count; the pattern is that of the first hit.
  ghost predicate IsMaxLines(count: Numeric, hits: seq<Hit>) {
    && (count.NaN? <==> exists i :: 0 <= i < |hits| && NumericOf(hits[i].facts.lineCount).NaN?)
    && (count.Value? ==>
      && (forall i :: 0 <= i < |hits| ==> NumericOf(hits[i].facts.lineCount).n <= count.n)
      && (exists i :: 0 <= i < |hits| && NumericOf(hits[i].facts.lineCount) == count))
  }

  lemma {:induction false} LinesAreMax(hits: seq<Hit>)
    requires hits != []
    ensures Folded(hits, Absorb()).Some?
    ensures var t := Folded(hits, Absorb()).value;
      IsMaxLines(NumericOf(t.facts.lineCount), hits) && t.pattern == hits[0].pattern
  {
    hide Absorb, IsMaxLines, MergedField, NumericOf;
    var k := |hits| - 1;
    var front, last := hits[..k], hits[k];
    AbsorbIs(Folded(front, Absorb()), last);
    if k > 0 {
      LinesAreMax(front);
      var t := Folded(front, Absorb()).value;
      MergedIsMax(t.facts.lineCount, last.facts.lineCount);
      MaxLinesGrow(NumericOf(t.facts.lineCount), front, last);
      assert front + [last] == hits;
    } else {
      OneIsMaxLines(last);
      assert hits == [last];
    }
  }

  lemma OneIsMaxLines(hit: Hit)
    ensures IsMaxLines(NumericOf(hit.facts.lineCount), [hit])
  {
    assert [hit][0] == hit;
  }

  lemma MaxLinesGrow(count: Numeric, front: seq<Hit>, last: Hit)
    requires IsMaxLines(count, front)
    ensures var c := NumericOf(last.facts.lineCount);
      IsMaxLines(if count.NaN? || c.NaN? then NaN else if c.n > count.n then c else count, front + [last])
  {
    var hits := front + [last];
    assert forall i :: 0 <= i < |front| ==> hits[i] == front[i];
    assert hits[|front|] == last;
  }

  // All counts are numbers so far, and this one is larger than those before it.
  ghost predicate Beats(hits: seq<Hit>, j: nat)
    requires j < |hits|
  {
    && Counted(hits[j]).Value?
    && forall i :: 0 <= i < j ==> Counted(hits[i]).Value? && Counted(hits[i]).n < Counted(hits[j]).n
  }

  lemma BeatsIsExceeds(hits: seq<Hit>)
    requires |hits| >= 2
    ensures var k := |hits| - 1;
      var front := Folded(hits[..k], Absorb());
      front.Some? && (Beats(hits, k) <==> Exceeds(Counted(hits[k]), NumericOf(front.value.facts.tokenCount)))
  {
    hide Absorb, Folded;
    var k := |hits| - 1;
    CountIsMax(hits[..k]);
    assert forall i :: 0 <= i < k ==> hits[..k][i] == hits[i];
  }

  ghost predicate Has(hit: Hit, identity: string) {
    Under(PairsOf(hit), identity) != []
  }

  // The last occurrence of the hit with this identity.
  function OccurrenceIn(hit: Hit, identity: string): Option<Occurrence> {
    Lookup(PutAll(PairsOf(hit)), identity)
  }

  // The j-th hit puts its occurrence: it is the first with the identity, or beats the others.
  ghost predicate Takes(hits: seq<Hit>, identity: string, j: nat)
    requires j < |hits|
  {
    Has(hits[j], identity) && (Beats(hits, j) || forall i :: 0 <= i < j ==> !Has(hits[i], identity))
  }

  // The last hit that takes the identity decides its occurrence.
  ghost predicate Decides(hits: seq<Hit>, identity: string, j: nat)
    requires j < |hits|
  {
    Takes(hits, identity, j) && forall i :: j < i < |hits| ==> !Takes(hits, identity, i)
  }

  lemma {:induction false} AbsorbedLookup(
      m: seq<Pair<Occurrence>>, entries: seq<Pair<Occurrence>>, replace: bool, key: string)
    requires Distinct(m) && Distinct(entries)
    ensures Distinct(Absorbed(m, entries, replace))
    ensures Lookup(Absorbed(m, entries, replace), key) ==
      if Lookup(entries, key).Some? && (replace || Lookup(m, key).None?) then Lookup(entries, key) else Lookup(m, key)
  {
    if entries != [] {
      var k := |entries| - 1;
      var front, last := entries[..k], entries[k];
      AbsorbedLookup(m, front, replace, key);
      AbsorbedLookup(m, front, replace, last.key);
      var before := Absorbed(m, front, replace);
      PutLookup(before, last.key, last.value, key);
      PlaceIs(entries, k);
      LookupFront(entries, key);
      LookupFront(entries, last.key);
    }
  }

  lemma LookupFront<V>(m: seq<Pair<V>>, key: string)
    requires m != [] && Distinct(m)
    ensures var k := |m| - 1; Lookup(m, key) == if m[k].key == key then Some(m[k].value) else Lookup(m[..k], key)
    ensures var k := |m| - 1; Lookup(m[..k], m[k].key).None?
  {
    var k := |m| - 1;
    var front := m[..k];
    assert forall i :: 0 <= i < k ==> front[i] == m[i];
    PlaceIs(m, k);
    var i := Place(front, key);
    if i < k {
      PlaceIs(m, i);
    } else {
      assert forall j :: 0 <= j < k ==> m[j].key != key;
    }
  }

  lemma HasLookup(hit: Hit, identity: string)
    ensures Has(hit, identity) <==> OccurrenceIn(hit, identity).Some?
    ensures Distinct(PutAll(PairsOf(hit)))
  {
    PutAllIs(PairsOf(hit), identity);
  }

  lemma {:induction false} FoldedDistinct(hits: seq<Hit>)
    requires hits != []
    ensures Folded(hits, Absorb()).Some? && Distinct(Folded(hits, Absorb()).value.occurrences)
  {
    var k := |hits| - 1;
    AbsorbIs(Folded(hits[..k], Absorb()), hits[k]);
    HasLookup(hits[k], "");
    if k > 0 {
      hide Absorb;
      FoldedDistinct(hits[..k]);
      var t := Folded(hits[..k], Absorb()).value;
      AbsorbedLookup(t.occurrences, PutAll(PairsOf(hits[k])),
        Exceeds(Counted(hits[k]), NumericOf(t.facts.tokenCount)), "");
    }
  }

  // The last step: what is known of an identity after one more hit.
  lemma FoldedStep(hits: seq<Hit>, identity: string)
    requires hits != []
    ensures Folded(hits, Absorb()).Some?
    ensures var k := |hits| - 1;
      var known := if k == 0 then None else Lookup(Folded(hits[..k], Absorb()).value.occurrences, identity);
      Lookup(Folded(hits, Absorb()).value.occurrences, identity) ==
      if Has(hits[k], identity) && (known.None? || Beats(hits, k)) then OccurrenceIn(hits[k], identity) else known
  {
    hide Has, Beats;
    var k := |hits| - 1;
    var hit := hits[k];
    AbsorbIs(Folded(hits[..k], Absorb()), hit);
    HasLookup(hit, identity);
    if k > 0 {
      hide Absorb;
      FoldedDistinct(hits[..k]);
      BeatsIsExceeds(hits);
      var t := Folded(hits[..k], Absorb()).value;
      AbsorbedLookup(t.occurrences, PutAll(PairsOf(hit)),
        Exceeds(Counted(hit), NumericOf(t.facts.tokenCount)), identity);
    }
  }

  // A consolidated hit has an identity exactly when one of its hits has, and the occurrence
  // of the hit that decides.
  lemma {:induction false} OccurrencesAreUnion(hits: seq<Hit>, identity: string)
    requires hits != []
    ensures Folded(hits, Absorb()).Some?
    ensures var known := Lookup(Folded(hits, Absorb()).value.occurrences, identity);
      && (known.Some? <==> exists i :: 0 <= i < |hits| && Has(hits[i], identity))
      && forall j :: 0 <= j < |hits| && Decides(hits, identity, j) ==> known == OccurrenceIn(hits[j], identity)
  {
    hide Folded, Has, Takes, Beats, Absorb;
    var k := |hits| - 1;
    var front := hits[..k];
    FoldedStep(hits, identity);
    HasLookup(hits[k], identity);
    if k > 0 {
      OccurrencesAreUnion(front, identity);
    }
    assert forall i :: 0 <= i < k ==> front[i] == hits[i];
    LastTakes(hits, identity);
    forall j | 0 <= j < |hits| && Decides(hits, identity, j)
      ensures Lookup(Folded(hits, Absorb()).value.occurrences, identity) == OccurrenceIn(hits[j], identity)
    {
      if j < k {
        DecidesInFront(hits, identity, j);
      }
    }
  }

  lemma LastTakes(hits: seq<Hit>, identity: string)
    requires hits != []
    ensures var k := |hits| - 1;
      Takes(hits, identity, k) <==>
        Has(hits[k], identity) && (Beats(hits, k) || forall i :: 0 <= i < k ==> !Has(hits[i], identity))
  {
    hide Has, Beats;
  }

  lemma DecidesInFront(hits: seq<Hit>, identity: string, j: nat)
    requires j < |hits| - 1 && Decides(hits, identity, j)
    ensures Decides(hits[..|hits| - 1], identity, j)
  {
    hide Has, Takes;
    var front := hits[..|hits| - 1];
    forall i: nat | i < |front|
      ensures Takes(hits, identity, i) <==> Takes(front, identity, i)
    {
      TakesInFront(hits, identity, i);
    }
  }

  lemma TakesInFront(hits: seq<Hit>, identity: string, i: nat)
    requires i < |hits| - 1
    ensures Takes(hits, identity, i) <==> Takes(hits[..|hits| - 1], identity, i)
  {
    hide Has;
    var front := hits[..|hits| - 1];
    assert forall n :: 0 <= n <= i ==> front[n] == hits[n];
  }

  // The hit that decides exists and is unique.
  lemma {:induction false} SomeHitDecides(hits: seq<Hit>, identity: string, i: nat) returns (j: nat)
    requires i < |hits| && Has(hits[i], identity)
    ensures j < |hits| && Decides(hits, identity, j)
      && forall k: nat :: k < |hits| && Decides(hits, identity, k) ==> k == j
  {
    hide Has, Beats;
    var first: nat := 0;
    while !Has(hits[first], identity)
      invariant first <= i && forall k :: 0 <= k < first ==> !Has(hits[k], identity)
      decreases i - first
    {
      first := first + 1;
    }
    assert Takes(hits, identity, first);
    j := |hits| - 1;
    while !Takes(hits, identity, j)
      invariant first <= j < |hits| && forall k :: j < k < |hits| ==> !Takes(hits, identity, k)
      decreases j
    {
      j := j - 1;
    }
  }

  // ---------------------------------------------------------------------------
  // The order of the identities
  // ---------------------------------------------------------------------------

  function Extended(keys: seq<string>, more: seq<string>): seq<string> {
    if more == [] then keys
    else
      var front, key := Extended(keys, more[..|more| - 1]), more[|more| - 1];
      if key in front then front else front + [key]
  }

  lemma {:induction false} ExtendedHas(keys: seq<string>, more: seq<string>)
    ensures forall key :: key in Extended(keys, more) <==> key in keys || key in more
  {
    if more != [] {
      var k := |more| - 1;
      assert more == more[..k] + [more[k]];
      ExtendedHas(keys, more[..k]);
    }
  }

  lemma {:induction false} FirstKeysJoin(a: seq<Pair<Occurrence>>, b: seq<Pair<Occurrence>>)
    ensures FirstKeys(a + b) == Extended(FirstKeys(a), FirstKeys(b))
  {
    if b == [] {
      assert a + b == a;
    } else {
      var k := |b| - 1;
      assert (a + b)[..|a + b| - 1] == a + b[..k];
      FirstKeysJoin(a, b[..k]);
      ExtendedHas(FirstKeys(a), FirstKeys(b[..k]));
    }
  }

  lemma {:induction false} AbsorbedKeys(m: seq<Pair<Occurrence>>, entries: seq<Pair<Occurrence>>, replace: bool)
    ensures Keys(Absorbed(m, entries, replace)) == Extended(Keys(m), Keys(entries))
  {
    if entries != [] {
      var k := |entries| - 1;
      assert Keys(entries)[..k] == Keys(entries[..k]);
      AbsorbedKeys(m, entries[..k], replace);
      var before := Absorbed(m, entries[..k], replace);
      PutLookup(before, entries[k].key, entries[k].value, "");
      KeysLookup(before, entries[k].key);
    }
  }

  function AllPairs(hits: seq<Hit>): seq<Pair<Occurrence>> {
    if hits == [] then [] else AllPairs(hits[..|hits| - 1]) + PairsOf(hits[|hits| - 1])
  }

  // The identities stand in the order in which the hits brought them.
  lemma {:induction false} IdentitiesInOrder(hits: seq<Hit>)
    requires hits != []
    ensures Folded(hits, Absorb()).Some?
    ensures Keys(Folded(hits, Absorb()).value.occurrences) == FirstKeys(AllPairs(hits))
  {
    var k := |hits| - 1;
    AbsorbIs(Folded(hits[..k], Absorb()), hits[k]);
    PutAllIs(PairsOf(hits[k]), "");
    if k > 0 {
      hide Absorb;
      IdentitiesInOrder(hits[..k]);
      FirstKeysJoin(AllPairs(hits[..k]), PairsOf(hits[k]));
      var t := Folded(hits[..k], Absorb()).value;
      AbsorbedKeys(t.occurrences, PutAll(PairsOf(hits[k])), Exceeds(Counted(hits[k]), NumericOf(t.facts.tokenCount)));
    } else {
      assert AllPairs(hits) == PairsOf(hits[0]);
    }
  }

  // One consolidated hit for every pattern, in the order in which the patterns came first,
  // holding what the hits of that pattern come to, whatever stands between them.
  lemma OneHitPerPattern(retained: seq<Hit>, key: string)
    ensures Distinct(Targets(retained)) && Keys(Targets(retained)) == FirstKeys(ByPattern(retained))
    ensures Lookup(Targets(retained), key) == Folded(Under(ByPattern(retained), key), Absorb())
  {
    FilledIs(ByPattern(retained), Absorb(), key);
  }

  // The hits that come first with their pattern, and the others.
  function FirstOf(hits: seq<Hit>): seq<Hit> {
    if hits == [] then []
    else
      var k := |hits| - 1;
      var front := FirstOf(hits[..k]);
      if Repeats(hits, k) then front else front + [hits[k]]
  }

  function LaterOf(hits: seq<Hit>): seq<Hit> {
    if hits == [] then []
    else
      var k := |hits| - 1;
      var front := LaterOf(hits[..k]);
      if Repeats(hits, k) then front + [hits[k]] else front
  }

  function PatternKeys(hits: seq<Hit>): (keys: seq<string>)
    ensures |keys| == |hits|
  {
    seq(|hits|, i requires 0 <= i < |hits| => hits[i].patternKey)
  }

  // Every retained hit starts a consolidated one, in order, or is listed as represented, and
  // none is both.
  lemma HitsAreAccountedFor(retained: seq<Hit>)
    ensures multiset(retained) == multiset(FirstOf(retained)) + multiset(LaterOf(retained))
    ensures Keys(Targets(retained)) == PatternKeys(FirstOf(retained))
    ensures Represented(retained) == RecordsOf(LaterOf(retained))
  {
    hide *;
    HitsSplit(retained);
    OneHitPerPattern(retained, "");
    FirstKeysAreFirst(retained);
    RepresentedIsLater(retained);
  }

  lemma {:induction false} HitsSplit(hits: seq<Hit>)
    ensures multiset(hits) == multiset(FirstOf(hits)) + multiset(LaterOf(hits))
  {
    if hits != [] {
      hide Repeats;
      var k := |hits| - 1;
      assert hits == hits[..k] + [hits[k]];
      HitsSplit(hits[..k]);
    }
  }

  lemma {:induction false} FirstKeysAreFirst(hits: seq<Hit>)
    ensures FirstKeys(ByPattern(hits)) == PatternKeys(FirstOf(hits))
  {
    if hits != [] {
      hide Repeats, FirstKeys, ByPattern;
      FirstKeysAreFirst(hits[..|hits| - 1]);
      FirstKeysStep(hits);
    }
  }

  lemma {:induction false} RepresentedIsLater(hits: seq<Hit>)
    ensures Represented(hits) == RecordsOf(LaterOf(hits))
  {
    if hits != [] {
      hide Repeats;
      RepresentedIsLater(hits[..|hits| - 1]);
    }
  }

  function RecordsOf(hits: seq<Hit>): seq<Rejected> {
    seq(|hits|, i requires 0 <= i < |hits| => Rejected(hits[i].facts, hits[i].occurrences,
      "same operation pattern already represented by a consolidated match"))
  }

  lemma FirstKeysStep(hits: seq<Hit>)
    requires hits != []
    ensures var k := |hits| - 1;
      var front := FirstKeys(ByPattern(hits[..k]));
      FirstKeys(ByPattern(hits)) == if Repeats(hits, k) then front else front + [hits[k].patternKey]
  {
    hide Repeats;
    var k := |hits| - 1;
    assert hits[..k + 1] == hits;
    ByPatternLast(hits, k);
    RepeatsIsKnown(hits, k);
  }

  // ---------------------------------------------------------------------------
  // What becomes of an occurrence
  // ---------------------------------------------------------------------------

  // A hit of this pattern has the occurrence under this identity.
  ghost predicate Brought(hits: seq<Hit>, pattern: string, identity: string, o: Occurrence) {
    exists h :: h in hits && h.patternKey == pattern && Pair(identity, o) in PairsOf(h)
  }

  // A piece of the occurrence was retained, and a consolidated hit holds what was retained
  // under the same pattern and identity.
  ghost predicate Stands(retained: seq<Hit>, duplications: seq<Duplication>, d: Described) {
    exists pattern, identity, o, stand :: StandsAs(retained, duplications, d, pattern, identity, o, stand)
  }

  ghost predicate StandsAs(
      retained: seq<Hit>, duplications: seq<Duplication>, d: Described, pattern: string, identity: string,
      o: Occurrence, stand: Occurrence)
  {
    && Piece(d, o) && Brought(retained, pattern, identity, o) && Brought(retained, pattern, identity, stand)
    && exists duplication :: duplication in duplications && stand in duplication.occurrences
  }

  lemma {:induction false} UnderHas<X>(items: seq<Pair<X>>, key: string, x: X)
    ensures x in Under(items, key) <==> Pair(key, x) in items
  {
    if items != [] {
      var front, item := items[..|items| - 1], items[|items| - 1];
      assert items == front + [item];
      UnderHas(front, key, x);
    }
  }

  lemma OfPattern(hits: seq<Hit>, key: string, h: Hit)
    ensures h in Under(ByPattern(hits), key) <==> h in hits && h.patternKey == key
  {
    UnderHas(ByPattern(hits), key, h);
    if h in hits && h.patternKey == key {
      var i :| 0 <= i < |hits| && hits[i] == h;
      assert ByPattern(hits)[i] == Pair(key, h);
    }
  }

  // Whatever a hit brought, its consolidated hit holds something brought under the same
  // pattern and identity.
  lemma BroughtStands(retained: seq<Hit>, pattern: string, identity: string, o: Occurrence) returns (stand: Occurrence)
    requires Brought(retained, pattern, identity, o)
    ensures Brought(retained, pattern, identity, stand)
    ensures exists duplication :: duplication in DuplicationsOf(Targets(retained)) && stand in duplication.occurrences
  {
    hide Absorb, Filled, Folded, Decides, PairsOf, PutAll, Under;
    var hits := Under(ByPattern(retained), pattern);
    var h :| h in retained && h.patternKey == pattern && Pair(identity, o) in PairsOf(h);
    OfPattern(retained, pattern, h);
    var i :| 0 <= i < |hits| && hits[i] == h;
    UnderHas(PairsOf(h), identity, o);
    var j := SomeHitDecides(hits, identity, i);
    OneHitPerPattern(retained, pattern);
    OccurrencesAreUnion(hits, identity);
    var targets := Targets(retained);
    var t := Place(targets, pattern);
    var occurrences := targets[t].value.occurrences;
    var n := Place(occurrences, identity);
    HasLookup(hits[j], identity);
    stand := OccurrenceIn(hits[j], identity).value;
    assert stand == occurrences[n].value == Values(occurrences)[n];
    assert DuplicationsOf(targets)[t].occurrences == Values(occurrences);
    PutAllIs(PairsOf(hits[j]), identity);
    UnderHas(PairsOf(hits[j]), identity, stand);
    OfPattern(retained, pattern, hits[j]);
    assert DuplicationsOf(targets)[t] in DuplicationsOf(targets);
  }

  ghost predicate Matched(hits: seq<Hit>) {
    forall h :: h in hits ==> |h.identities| == |h.occurrences|
  }

  lemma RetainedStands(retained: seq<Hit>, d: Described)
    requires Retained(retained, d) && Matched(retained)
    ensures Stands(retained, DuplicationsOf(Targets(retained)), d)
  {
    hide Piece, Targets, DuplicationsOf;
    var h, o :| h in retained && o in h.occurrences && Piece(d, o);
    var j :| 0 <= j < |h.occurrences| && h.occurrences[j] == o;
    assert PairsOf(h)[j] == Pair(h.identities[j], o);
    var stand := BroughtStands(retained, h.patternKey, h.identities[j], o);
    assert StandsAs(retained, DuplicationsOf(Targets(retained)), d, h.patternKey, h.identities[j], o, stand);
  }

  // ---------------------------------------------------------------------------
  // All candidates
  // ---------------------------------------------------------------------------

  datatype Candidate = Candidate(facts: Facts, described: seq<Described>)

  datatype Report = Separate(hits: seq<Hit>, filtered: seq<Rejected>) | Consolidated(duplications: seq<Duplication>,
    filtered: seq<Rejected>)

  function RetainedOf(lib: Library, candidates: seq<Candidate>): seq<Hit> {
    if candidates == [] then []
    else
      var k := |candidates| - 1;
      RetainedOf(lib, candidates[..k]) + HitsOf(candidates[k].facts, KeptOf(lib, candidates[k].described, k))
  }

  function AllFiltered(lib: Library, candidates: seq<Candidate>): seq<Rejected> {
    if candidates == [] then []
    else
      var k := |candidates| - 1;
      var c := candidates[k];
      AllFiltered(lib, candidates[..k]) + FilteredOf(c.facts, c.described, Accepted(KeptOf(lib, c.described, k)))
  }

  lemma HitsAreMatched(facts: Facts, described: seq<Described>, kept: seq<Kept>)
    requires KeptSound(described, kept)
    ensures Matched(HitsOf(facts, kept))
  {
    forall h | h in HitsOf(facts, kept)
      ensures |h.identities| == |h.occurrences|
    {
      var m :| 0 <= m < |kept| && HitsOf(facts, kept)[m] == h;
      assert kept[m] in kept;
    }
  }

  lemma RetainedMore(a: seq<Hit>, b: seq<Hit>, d: Described)
    ensures Retained(a, d) || Retained(b, d) ==> Retained(a + b, d)
  {
    hide Piece;
    if h, o :| h in a && o in h.occurrences && Piece(d, o) {
      assert h in a + b;
    }
    if h, o :| h in b && o in h.occurrences && Piece(d, o) {
      assert h in a + b;
    }
  }

  lemma ListedMore(a: seq<Rejected>, b: seq<Rejected>, o: Occurrence)
    ensures Listed(a, o) || Listed(b, o) ==> Listed(a + b, o)
  {
    if r :| r in a && o in r.occurrences {
      assert r in a + b;
    }
    if r :| r in b && o in r.occurrences {
      assert r in a + b;
    }
  }

  lemma {:induction false} AllAreMatched(lib: Library, candidates: seq<Candidate>)
    ensures Matched(RetainedOf(lib, candidates))
  {
    if candidates != [] {
      hide KeptOf, HitsOf;
      var k := |candidates| - 1;
      var c := candidates[k];
      AllAreMatched(lib, candidates[..k]);
      KeptIsSound(lib, c.described, k);
      HitsAreMatched(c.facts, c.described, KeptOf(lib, c.described, k));
    }
  }

  // Every occurrence of every candidate has a piece in a retained hit or is listed in a
  // filtered record.
  lemma {:induction false} AllOccurrencesAreAccountedFor(lib: Library, candidates: seq<Candidate>, c: nat, i: nat)
    requires c < |candidates| && i < |candidates[c].described|
    ensures var d := candidates[c].described[i];
      Retained(RetainedOf(lib, candidates), d) || Listed(AllFiltered(lib, candidates), d.occurrence)
    decreases |candidates|
  {
    hide KeptOf, HitsOf, FilteredOf, Retained, Listed, Accepted;
    var k, d := |candidates| - 1, candidates[c].described[i];
    var last := candidates[k];
    if c < k {
      AllOccurrencesAreAccountedFor(lib, candidates[..k], c, i);
    } else {
      EveryOccurrenceIsAccountedFor(lib, last.facts, last.described, k);
    }
    var kept := KeptOf(lib, last.described, k);
    RetainedMore(RetainedOf(lib, candidates[..k]), HitsOf(last.facts, kept), d);
    ListedMore(AllFiltered(lib, candidates[..k]), FilteredOf(last.facts, last.described, Accepted(kept)), d.occurrence);
  }

  // The same of a report, with or without consolidation.
  ghost predicate AccountsFor(lib: Library, candidates: seq<Candidate>, report: Report, d: Described) {
    || Listed(report.filtered, d.occurrence)
    || match report
       case Separate(hits, _) => Retained(hits, d)
       case Consolidated(duplications, _) => Stands(RetainedOf(lib, candidates), duplications, d)
  }

  method FilterCpdCandidates(lib: Library, candidates: seq<Candidate>, consolidate: bool) returns (report: Report)
    ensures forall c: nat, i: nat :: c < |candidates| && i < |candidates[c].described| ==>
      AccountsFor(lib, candidates, report, candidates[c].described[i])
    ensures !consolidate ==> report == Separate(RetainedOf(lib, candidates), AllFiltered(lib, candidates))
    ensures consolidate ==>
      var retained := RetainedOf(lib, candidates);
      report == Consolidated(DuplicationsOf(Targets(retained)), AllFiltered(lib, candidates) + Represented(retained))
  {
    hide KeptOf, FilteredOf, HitsOf, Targets, Represented, DuplicationsOf, Listed, Retained, Stands, Matched;
    var retained: seq<Hit> := [];
    var filtered: seq<Rejected> := [];
    for k := 0 to |candidates|
      invariant retained == RetainedOf(lib, candidates[..k]) && filtered == AllFiltered(lib, candidates[..k])
    {
      assert candidates[..k + 1][..k] == candidates[..k];
      var hits, rejected := FilterCandidate(lib, candidates[k].facts, candidates[k].described, k);
      retained := retained + hits;
      filtered := filtered + rejected;
    }
    assert candidates[..|candidates|] == candidates;
    if !consolidate {
      ReportAccounts(lib, candidates, Separate(retained, filtered));
      return Separate(retained, filtered);
    }
    var duplications, represented := Consolidate(retained);
    report := Consolidated(duplications, filtered + represented);
    ReportAccounts(lib, candidates, report);
  }

  lemma ReportAccounts(lib: Library, candidates: seq<Candidate>, report: Report)
    requires var retained, filtered := RetainedOf(lib, candidates), AllFiltered(lib, candidates);
      || report == Separate(retained, filtered)
      || report == Consolidated(DuplicationsOf(Targets(retained)), filtered + Represented(retained))
    ensures forall c: nat, i: nat :: c < |candidates| && i < |candidates[c].described| ==>
      AccountsFor(lib, candidates, report, candidates[c].described[i])
  {
    hide Listed, Retained, Stands, Matched, RetainedOf, AllFiltered, Targets, DuplicationsOf, Represented;
    var retained, filtered := RetainedOf(lib, candidates), AllFiltered(lib, candidates);
    AllAreMatched(lib, candidates);
    forall c: nat, i: nat | c < |candidates| && i < |candidates[c].described|
      ensures AccountsFor(lib, candidates, report, candidates[c].described[i])
    {
      var d := candidates[c].described[i];
      AllOccurrencesAreAccountedFor(lib, candidates, c, i);
      ListedMore(filtered, Represented(retained), d.occurrence);
      if Retained(retained, d) {
        RetainedStands(retained, d);
      }
    }
  }
}
