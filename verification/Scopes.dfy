// Functions and records as scopes, and the owner of every token
// (tools/cleanup/cpd_patterns.cpp).
module Scopes {
  import opened Brackets

  datatype Scope = Scope(open: nat, end: nat)

  predicate Encloses(s: Scope, index: nat) {
    s.open <= index < s.end
  }

  predicate InOrder(scopes: seq<Scope>) {
    && (forall k :: 0 <= k < |scopes| ==> scopes[k].open < scopes[k].end)
    && (forall j, k :: 0 <= j < k < |scopes| ==> scopes[j].open < scopes[k].open)
  }

  // The owner of a token is the enclosing scope that opens last; -1 when none encloses it.
  predicate Owns(scopes: seq<Scope>, owner: int, index: nat) {
    if owner < 0 then owner == -1 && forall k :: 0 <= k < |scopes| ==> !Encloses(scopes[k], index)
    else
      && owner < |scopes| && Encloses(scopes[owner], index)
      && forall k :: 0 <= k < |scopes| && Encloses(scopes[k], index) ==> scopes[k].open <= scopes[owner].open
  }

  // The stack of the scan: scopes already opened, in order, with every one of them that
  // ends after `bound`.
  ghost predicate Active(scopes: seq<Scope>, active: seq<nat>, next: nat, bound: int) {
    && next <= |scopes|
    && (forall j :: 0 <= j < |active| ==> active[j] < next)
    && (forall j, k :: 0 <= j < k < |active| ==> active[j] < active[k])
    && (forall k: nat :: k < next && bound < scopes[k].end ==> k in active)
  }

  lemma PopKeeps(scopes: seq<Scope>, active: seq<nat>, next: nat, bound: nat)
    requires active != [] && Active(scopes, active, next, bound) && scopes[active[|active| - 1]].end <= bound
    ensures Active(scopes, active[..|active| - 1], next, bound)
  {
    var popped := active[..|active| - 1];
    forall k: nat | k < next && bound < scopes[k].end
      ensures k in popped
    {
      var j :| 0 <= j < |active| && active[j] == k;
      assert popped[j] == k;
    }
  }

  lemma PushKeeps(scopes: seq<Scope>, active: seq<nat>, next: nat, bound: nat)
    requires Active(scopes, active, next, bound) && next < |scopes|
    ensures Active(scopes, active + [next], next + 1, bound)
  {
    var pushed := active + [next];
    forall k: nat | k < next + 1 && bound < scopes[k].end
      ensures k in pushed
    {
      if k < next {
        assert k in active;
      } else {
        assert pushed[|active|] == k;
      }
    }
  }

  // Leaves the scopes that end after the index.
  method PopClosed(scopes: seq<Scope>, before: seq<nat>, ghost next: nat, index: nat) returns (active: seq<nat>)
    requires Active(scopes, before, next, index)
    ensures Active(scopes, active, next, index)
    ensures active != [] ==> index < ActiveTop(scopes, active, next, index).end
  {
    hide Active;
    active := before;
    while active != [] && ActiveTop(scopes, active, next, index).end <= index
      invariant Active(scopes, active, next, index)
      decreases |active|
    {
      PopKeeps(scopes, active, next, index);
      active := active[..|active| - 1];
    }
  }

  // Opens the scopes that start at the index.
  method PushOpened(scopes: seq<Scope>, before: seq<nat>, from: nat, index: nat) returns (active: seq<nat>, next: nat)
    requires InOrder(scopes) && Active(scopes, before, from, index) && from <= |scopes|
    requires forall k :: 0 <= k < from ==> scopes[k].open < index
    requires forall k :: from <= k < |scopes| ==> index <= scopes[k].open
    requires before != [] ==> index < ActiveTop(scopes, before, from, index).end
    ensures Active(scopes, active, next, index) && next <= |scopes|
    ensures forall k :: 0 <= k < next ==> scopes[k].open <= index
    ensures forall k :: next <= k < |scopes| ==> index < scopes[k].open
    ensures active != [] ==> index < ActiveTop(scopes, active, next, index).end
  {
    hide Active;
    active, next := before, from;
    while next < |scopes| && scopes[next].open == index
      invariant Active(scopes, active, next, index) && from <= next <= |scopes|
      invariant forall k :: 0 <= k < next ==> scopes[k].open <= index
      invariant active != [] ==> index < ActiveTop(scopes, active, next, index).end
      decreases |scopes| - next
    {
      PushKeeps(scopes, active, next, index);
      active := active + [next];
      next := next + 1;
    }
  }

  method ScopeOwners(scopes: seq<Scope>, size: nat) returns (result: seq<int>)
    requires InOrder(scopes)
    ensures |result| == size
    ensures forall i :: 0 <= i < size ==> Owns(scopes, result[i], i)
  {
    hide Owns, Active, InOrder;
    var owners := new int[size](_ => -1);
    var active: seq<nat> := [];
    var next: nat := 0;
    NothingActive(scopes);
    for index := 0 to size
      invariant Active(scopes, active, next, index - 1) && next <= |scopes|
      invariant forall k :: 0 <= k < next ==> scopes[k].open < index
      invariant forall k :: next <= k < |scopes| ==> index <= scopes[k].open
      invariant forall i :: 0 <= i < index ==> Owns(scopes, owners[i], i)
      invariant forall i :: index <= i < size ==> owners[i] == -1
    {
      Later(scopes, active, next, index);
      active := PopClosed(scopes, active, next, index);
      active, next := PushOpened(scopes, active, next, index);
      LastOwns(scopes, active, next, index);
      if active != [] {
        owners[index] := active[|active| - 1];
      }
    }
    result := owners[..];
  }

  lemma NothingActive(scopes: seq<Scope>)
    ensures Active(scopes, [], 0, -1)
  {
  }

  // The scope on top of the stack.
  function ActiveTop(scopes: seq<Scope>, active: seq<nat>, ghost next: nat, ghost bound: int): (s: Scope)
    requires active != [] && Active(scopes, active, next, bound)
    ensures active[|active| - 1] < |scopes| && s == scopes[active[|active| - 1]]
  {
    scopes[active[|active| - 1]]
  }

  lemma Later(scopes: seq<Scope>, active: seq<nat>, next: nat, index: nat)
    requires Active(scopes, active, next, index - 1)
    ensures Active(scopes, active, next, index) && next <= |scopes|
  {
  }

  lemma LastOwns(scopes: seq<Scope>, active: seq<nat>, next: nat, index: nat)
    requires InOrder(scopes) && Active(scopes, active, next, index)
    requires forall k :: 0 <= k < next ==> scopes[k].open <= index
    requires forall k :: next <= k < |scopes| ==> index < scopes[k].open
    requires active != [] ==> index < scopes[active[|active| - 1]].end
    ensures Owns(scopes, if active == [] then -1 else active[|active| - 1], index)
  {
    if active != [] {
      var top := active[|active| - 1];
      forall k: nat | k < |scopes| && Encloses(scopes[k], index)
        ensures scopes[k].open <= scopes[top].open
      {
        assert k in active;
        var j :| 0 <= j < |active| && active[j] == k;
        assert j == |active| - 1 || active[j] < top;
      }
    }
  }

  // Scopes that come from matched brackets are nested or disjoint, so the owner's
  // extent lies inside every scope that encloses the token: it is the innermost one.
  lemma OwnerIsInnermost(s: seq<Symbol>, scopes: seq<Scope>, owner: int, index: nat, k: nat)
    requires InOrder(scopes) && FromPairs(Matched(s, |s|).pairs, scopes)
    requires Owns(scopes, owner, index) && k < |scopes| && Encloses(scopes[k], index)
    ensures Innermost(scopes, owner, k)
  {
    PairsAreLaminar(s);
    hide Matched;
    if owner < k {
      assert false;
    }
  }

  // The owner lies inside the scope k.
  predicate Innermost(scopes: seq<Scope>, owner: int, k: nat)
    requires k < |scopes|
  {
    0 <= owner < |scopes| && scopes[k].open <= scopes[owner].open && scopes[owner].end <= scopes[k].end
  }

  // Every scope is an opening bracket and its partner.
  predicate FromPairs(pairs: map<nat, nat>, scopes: seq<Scope>) {
    forall k :: 0 <= k < |scopes| ==> scopes[k].open in pairs && pairs[scopes[k].open] == scopes[k].end
  }

  // ---------------------------------------------------------------------------
  // Finding the scopes
  // ---------------------------------------------------------------------------

  // What a token is to the scans that look for scopes and statements.
  datatype Word = Bracketed(symbol: Symbol) | Semicolon | Introducer | OtherWord

  function SymbolOf(w: Word): Symbol {
    if w.Bracketed? then w.symbol else Plain
  }

  function SymbolsOf(words: seq<Word>): (s: seq<Symbol>)
    ensures |s| == |words|
    ensures forall i :: 0 <= i < |words| ==> s[i] == SymbolOf(words[i])
  {
    seq(|words|, i requires 0 <= i < |words| => SymbolOf(words[i]))
  }

  predicate Opens(words: seq<Word>, i: nat, b: Bracket) {
    i < |words| && words[i] == Bracketed(Open(b))
  }

  predicate Closes(words: seq<Word>, i: nat, b: Bracket) {
    i < |words| && words[i] == Bracketed(Close(b))
  }

  // Which braces, with the header that starts at `boundary`, open a function or a record:
  // the program reads names, keywords and parameter lists for that.
  datatype Headers = Headers(isFunction: (nat, nat) -> bool, isRecord: (nat, nat) -> bool)

  // The scopes that `accepted` headers open, from `index` on.
  function ScopesFrom(
      words: seq<Word>, pairs: map<nat, nat>, accepted: (nat, nat) -> bool, boundary: nat, index: nat)
    : (scopes: seq<Scope>)
    ensures forall k :: 0 <= k < |scopes| ==>
      index <= scopes[k].open && scopes[k].open in pairs && pairs[scopes[k].open] == scopes[k].end
    ensures forall k :: 0 <= k < |scopes| ==> Opens(words, scopes[k].open, Curly)
    ensures forall j, k :: 0 <= j < k < |scopes| ==> scopes[j].open < scopes[k].open
    decreases |words| - index
  {
    if index >= |words| then []
    else if SkipsGroup(words, pairs, index) then ScopesFrom(words, pairs, accepted, boundary, pairs[index] + 1)
    else if Opens(words, index, Curly) && index in pairs then
      (if accepted(boundary, index) then [Scope(index, pairs[index])] else [])
        + ScopesFrom(words, pairs, accepted, index + 1, index + 1)
    else
      var moves := words[index] == Semicolon || Closes(words, index, Curly);
      ScopesFrom(words, pairs, accepted, if moves then index + 1 else boundary, index + 1)
  }

  predicate SkipsGroup(words: seq<Word>, pairs: map<nat, nat>, index: nat) {
    (Opens(words, index, Round) || Opens(words, index, Square)) && index in pairs && pairs[index] > index
  }

  lemma ScopesStep(
      words: seq<Word>, pairs: map<nat, nat>, accepted: (nat, nat) -> bool, boundary: nat, index: nat,
      prior: seq<Scope>)
    requires index < |words|
    ensures var opens := !SkipsGroup(words, pairs, index) && Opens(words, index, Curly) && index in pairs;
      var moves := opens
        || (!SkipsGroup(words, pairs, index) && !Opens(words, index, Curly)
             && (words[index] == Semicolon || Closes(words, index, Curly)));
      prior + ScopesFrom(words, pairs, accepted, boundary, index)
      == (if opens && accepted(boundary, index) then prior + [Scope(index, pairs[index])] else prior)
         + ScopesFrom(words, pairs, accepted, if moves then index + 1 else boundary,
                      if SkipsGroup(words, pairs, index) then pairs[index] + 1 else index + 1)
  {
    var rest := ScopesFrom(words, pairs, accepted, index + 1, index + 1);
    assert index in pairs ==>
      prior + ([Scope(index, pairs[index])] + rest) == prior + [Scope(index, pairs[index])] + rest;
    assert prior + ([] + rest) == prior + rest;
  }

  method IndexFunctions(words: seq<Word>, pairs: map<nat, nat>, headers: Headers)
    returns (functions: seq<Scope>, records: seq<Scope>)
    ensures functions == ScopesFrom(words, pairs, headers.isFunction, 0, 0)
    ensures records == ScopesFrom(words, pairs, headers.isRecord, 0, 0)
  {
    functions, records := [], [];
    var boundary: nat, index: nat := 0, 0;
    while index < |words|
      invariant ScopesFrom(words, pairs, headers.isFunction, 0, 0) ==
        functions + ScopesFrom(words, pairs, headers.isFunction, boundary, index)
      invariant ScopesFrom(words, pairs, headers.isRecord, 0, 0) ==
        records + ScopesFrom(words, pairs, headers.isRecord, boundary, index)
      decreases |words| - index
    {
      hide ScopesFrom;
      ScopesStep(words, pairs, headers.isFunction, boundary, index, functions);
      ScopesStep(words, pairs, headers.isRecord, boundary, index, records);
      if SkipsGroup(words, pairs, index) {
        index := pairs[index] + 1;
        continue;
      }
      if !Opens(words, index, Curly) {
        if words[index] == Semicolon || Closes(words, index, Curly) {
          boundary := index + 1;
        }
        index := index + 1;
        continue;
      }
      if index !in pairs {
        index := index + 1;
        continue;
      }
      var scope := Scope(index, pairs[index]);
      if headers.isRecord(boundary, index) {
        records := records + [scope];
      }
      if headers.isFunction(boundary, index) {
        functions := functions + [scope];
      }
      boundary := index + 1;
      index := index + 1;
    }
    assert functions + [] == functions && records + [] == records;
  }

  predicate Skips(words: seq<Word>, pairs: map<nat, nat>, open: nat, i: nat) {
    SkipsGroup(words, pairs, open) && open < i <= pairs[open]
  }

  // Token i lies in a paired round or square group that the scan skips.
  ghost predicate InSkipped(words: seq<Word>, pairs: map<nat, nat>, i: nat) {
    exists open: nat :: Skips(words, pairs, open, i)
  }

  // A header may start after token i: a semicolon, a closing brace or a paired opening one
  // outside such groups.
  ghost predicate Bounds(words: seq<Word>, pairs: map<nat, nat>, i: nat) {
    && i < |words| && !InSkipped(words, pairs, i)
    && (words[i].Semicolon? || Closes(words, i, Curly) || (Opens(words, i, Curly) && i in pairs))
  }

  // The header of the brace at `open` starts after the last such token before it, or with the
  // token list.
  ghost predicate Header(words: seq<Word>, pairs: map<nat, nat>, boundary: nat, open: nat) {
    && boundary <= open
    && (boundary == 0 || Bounds(words, pairs, boundary - 1))
    && forall i :: boundary <= i < open ==> !Bounds(words, pairs, i)
  }

  // A paired opening brace outside skipped groups, with an accepted header.
  ghost predicate ScopeAt(words: seq<Word>, pairs: map<nat, nat>, accepted: (nat, nat) -> bool, s: Scope) {
    && Opens(words, s.open, Curly) && s.open in pairs && pairs[s.open] == s.end
    && !InSkipped(words, pairs, s.open)
    && exists boundary: nat :: Header(words, pairs, boundary, s.open) && accepted(boundary, s.open)
  }

  // What the scan knows at `index`.
  ghost predicate Scanning(words: seq<Word>, pairs: map<nat, nat>, boundary: nat, index: nat) {
    Header(words, pairs, boundary, index) && !InSkipped(words, pairs, index)
  }

  lemma HeaderIsOne(words: seq<Word>, pairs: map<nat, nat>, a: nat, b: nat, open: nat)
    requires Header(words, pairs, a, open) && Header(words, pairs, b, open)
    ensures a == b
  {
  }

  lemma NextIsClear(words: seq<Word>, pairs: map<nat, nat>, index: nat)
    requires Laminar(SymbolsOf(words), pairs) && index < |words| && !InSkipped(words, pairs, index)
    ensures !InSkipped(words, pairs, if SkipsGroup(words, pairs, index) then pairs[index] + 1 else index + 1)
  {
    var next := if SkipsGroup(words, pairs, index) then pairs[index] + 1 else index + 1;
    var s := SymbolsOf(words);
    forall open: nat | SkipsGroup(words, pairs, open) && open != index
      ensures !Skips(words, pairs, open, next)
    {
      assert !Skips(words, pairs, open, index);
      assert s[open].Open?;
    }
  }

  lemma GroupScanned(words: seq<Word>, pairs: map<nat, nat>, boundary: nat, index: nat)
    requires Laminar(SymbolsOf(words), pairs)
    requires Scanning(words, pairs, boundary, index) && SkipsGroup(words, pairs, index)
    ensures Scanning(words, pairs, boundary, pairs[index] + 1)
    ensures forall i: nat :: index < i <= pairs[index] ==> InSkipped(words, pairs, i)
  {
    NextIsClear(words, pairs, index);
    hide Laminar;
    forall i: nat | index < i <= pairs[index]
      ensures InSkipped(words, pairs, i)
    {
      assert Skips(words, pairs, index, i);
    }
  }

  lemma TokenScanned(words: seq<Word>, pairs: map<nat, nat>, boundary: nat, index: nat)
    requires Laminar(SymbolsOf(words), pairs)
    requires index < |words| && Scanning(words, pairs, boundary, index) && !SkipsGroup(words, pairs, index)
    ensures Scanning(words, pairs, if Bounds(words, pairs, index) then index + 1 else boundary, index + 1)
  {
    NextIsClear(words, pairs, index);
    hide Laminar;
  }

  lemma ScopeHere(words: seq<Word>, pairs: map<nat, nat>, accepted: (nat, nat) -> bool, boundary: nat, s: Scope)
    requires Scanning(words, pairs, boundary, s.open)
    ensures ScopeAt(words, pairs, accepted, s) <==>
      Opens(words, s.open, Curly) && s.open in pairs && pairs[s.open] == s.end && accepted(boundary, s.open)
  {
    hide InSkipped, Bounds;
    forall other: nat | Header(words, pairs, other, s.open)
      ensures other == boundary
    {
      HeaderIsOne(words, pairs, boundary, other, s.open);
    }
  }

  lemma ScopesNext(
      words: seq<Word>, pairs: map<nat, nat>, accepted: (nat, nat) -> bool, boundary: nat, index: nat, s: Scope)
    requires index < |words| && !InSkipped(words, pairs, index)
    ensures s in ScopesFrom(words, pairs, accepted, boundary, index) <==>
      if SkipsGroup(words, pairs, index) then s in ScopesFrom(words, pairs, accepted, boundary, pairs[index] + 1)
      else
        || s in ScopesFrom(
             words, pairs, accepted, if Bounds(words, pairs, index) then index + 1 else boundary, index + 1)
        || (Opens(words, index, Curly) && index in pairs && accepted(boundary, index)
             && s == Scope(index, pairs[index]))
  {
  }

  lemma {:induction false} ScopesFromAre(
      words: seq<Word>, pairs: map<nat, nat>, accepted: (nat, nat) -> bool, boundary: nat, index: nat, s: Scope)
    requires Laminar(SymbolsOf(words), pairs) && Scanning(words, pairs, boundary, index)
    ensures s in ScopesFrom(words, pairs, accepted, boundary, index) <==>
      index <= s.open && ScopeAt(words, pairs, accepted, s)
    decreases |words| - index
  {
    hide ScopesFrom, InSkipped, Bounds, Laminar, Header;
    if index >= |words| {
      NoScopes(words, pairs, accepted, boundary, index);
    } else {
      ScopesNext(words, pairs, accepted, boundary, index, s);
      if SkipsGroup(words, pairs, index) {
        GroupScanned(words, pairs, boundary, index);
        ScopesFromAre(words, pairs, accepted, boundary, pairs[index] + 1, s);
      } else {
        TokenScanned(words, pairs, boundary, index);
        var next := if Bounds(words, pairs, index) then index + 1 else boundary;
        ScopesFromAre(words, pairs, accepted, next, index + 1, s);
        if s.open == index {
          ScopeHere(words, pairs, accepted, boundary, s);
        }
      }
    }
  }

  lemma NoScopes(words: seq<Word>, pairs: map<nat, nat>, accepted: (nat, nat) -> bool, boundary: nat, index: nat)
    requires index >= |words|
    ensures ScopesFrom(words, pairs, accepted, boundary, index) == []
  {
  }

  // The scopes are exactly the paired braces outside skipped groups whose header, from the
  // last boundary before it on, is accepted.
  lemma ScopesAre(words: seq<Word>, pairs: map<nat, nat>, accepted: (nat, nat) -> bool, s: Scope)
    requires Laminar(SymbolsOf(words), pairs)
    ensures s in ScopesFrom(words, pairs, accepted, 0, 0) <==> ScopeAt(words, pairs, accepted, s)
  {
    hide ScopesFrom, Laminar;
    ScopesFromAre(words, pairs, accepted, 0, 0, s);
  }

  // The scopes found between matched brackets are ones that ScopeOwners can scan.
  lemma ScopesAreInOrder(words: seq<Word>, accepted: (nat, nat) -> bool)
    ensures var pairs := Matched(SymbolsOf(words), |words|).pairs;
      var scopes := ScopesFrom(words, pairs, accepted, 0, 0);
      InOrder(scopes) && FromPairs(pairs, scopes)
  {
    PairsAreLaminar(SymbolsOf(words));
    hide Matched;
    LaminarInOrder(words, Matched(SymbolsOf(words), |words|).pairs, accepted);
  }

  lemma LaminarInOrder(words: seq<Word>, pairs: map<nat, nat>, accepted: (nat, nat) -> bool)
    requires Laminar(SymbolsOf(words), pairs)
    ensures var scopes := ScopesFrom(words, pairs, accepted, 0, 0);
      InOrder(scopes) && FromPairs(pairs, scopes)
  {
    var scopes := ScopesFrom(words, pairs, accepted, 0, 0);
    hide ScopesFrom;
    forall k | 0 <= k < |scopes|
      ensures scopes[k].open < scopes[k].end
    {
      var o := scopes[k].open;
      assert SymbolsOf(words)[o] == Open(Curly);
    }
  }
}
