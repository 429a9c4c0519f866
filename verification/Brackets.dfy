// Bracket matching in token lists that need not be balanced
// (tools/cleanup/cpd_patterns.cpp, the SourceIndex constructor).
module Brackets {

  datatype Bracket = Round | Square | Curly

  datatype Symbol = Open(bracket: Bracket) | Close(bracket: Bracket) | Plain

  // What the scan knows after some symbols: the open brackets still on the stack, the
  // pairs found so far (in both directions), and whether nothing was amiss.
  datatype Matching = Matching(stack: seq<nat>, pairs: map<nat, nat>, balanced: bool)

  function Matched(s: seq<Symbol>, n: nat): (m: Matching)
    requires n <= |s|
    ensures forall k :: 0 <= k < |m.stack| ==> m.stack[k] < n && s[m.stack[k]].Open?
  {
    if n == 0 then Matching([], map[], true)
    else
      var m := Matched(s, n - 1);
      match s[n - 1]
      case Plain => m
      case Open(_) => m.(stack := m.stack + [n - 1])
      case Close(b) =>
        if m.stack == [] then m.(balanced := false)
        else
          var open := m.stack[|m.stack| - 1];
          var rest := m.(stack := m.stack[..|m.stack| - 1]);
          if s[open].bracket != b then rest.(balanced := false)
          else rest.(pairs := m.pairs[open := n - 1][n - 1 := open])
  }

  // One symbol more.
  lemma MatchedNext(s: seq<Symbol>, n: nat)
    requires n < |s|
    ensures var m := Matched(s, n);
      Matched(s, n + 1) ==
      if s[n].Plain? then m
      else if s[n].Open? then m.(stack := m.stack + [n])
      else if m.stack == [] then m.(balanced := false)
      else
        var open := m.stack[|m.stack| - 1];
        var rest := m.(stack := m.stack[..|m.stack| - 1]);
        if s[open] != Open(s[n].bracket) then rest.(balanced := false)
        else rest.(pairs := m.pairs[open := n][n := open])
  {
  }

  // --- partners, without a stack ---

  // Opening less closing brackets in s[a..b], whatever their kinds.
  function Net(s: seq<Symbol>, a: nat, b: nat): int
    requires a <= b <= |s|
    decreases b
  {
    if a == b then 0
    else Net(s, a, b - 1) + if s[b - 1].Open? then 1 else if s[b - 1].Close? then -1 else 0
  }

  // The bracket that opens at i is still open before position n.
  ghost predicate Unclosed(s: seq<Symbol>, i: nat, n: nat) {
    i < n <= |s| && s[i].Open? && forall m :: i < m <= n ==> Net(s, i, m) >= 1
  }

  // The bracket at j is the one that closes the bracket at i, and it is of the same kind.
  ghost predicate Partners(s: seq<Symbol>, i: nat, j: nat) {
    i < j < |s| && Unclosed(s, i, j) && Net(s, i, j) == 1 && s[j] == Close(s[i].bracket)
  }

  lemma NetStep(s: seq<Symbol>, i: nat, n: nat)
    requires i <= n < |s|
    ensures Net(s, i, n + 1) == Net(s, i, n) + if s[n].Open? then 1 else if s[n].Close? then -1 else 0
    ensures Net(s, i, i) == 0
  {
  }

  ghost predicate StackSound(s: seq<Symbol>, n: nat, stack: seq<nat>)
    requires n <= |s|
  {
    && (forall k :: 0 <= k < |stack| ==> Unclosed(s, stack[k], n) && Net(s, stack[k], n) == |stack| - k)
    && (forall j, k :: 0 <= j < k < |stack| ==> stack[j] < stack[k])
    && (forall i: nat :: Unclosed(s, i, n) ==> i in stack)
  }

  lemma UnclosedStep(s: seq<Symbol>, i: nat, n: nat)
    requires i < n < |s|
    ensures Unclosed(s, i, n + 1) <==> Unclosed(s, i, n) && Net(s, i, n + 1) >= 1
  {
    hide Net;
  }

  // The scan's own step, as the next two lemmas use it.
  ghost predicate Steps(s: seq<Symbol>, j: nat, m: Matching, next: Matching)
    requires j < |s|
  {
    && next.stack == (if s[j].Open? then m.stack + [j]
                      else if s[j].Close? && m.stack != [] then m.stack[..|m.stack| - 1] else m.stack)
    && (forall k :: 0 <= k < |m.stack| ==> m.stack[k] < j)
    && next.pairs == (if s[j].Close? && m.stack != [] && s[m.stack[|m.stack| - 1]] == Open(s[j].bracket)
                      then m.pairs[m.stack[|m.stack| - 1] := j][j := m.stack[|m.stack| - 1]] else m.pairs)
  }

  lemma MatchedStep(s: seq<Symbol>, j: nat)
    requires j < |s|
    ensures Steps(s, j, Matched(s, j), Matched(s, j + 1))
  {
  }

  lemma {:induction false} StackHolds(s: seq<Symbol>, n: nat)
    requires n <= |s|
    ensures StackSound(s, n, Matched(s, n).stack)
  {
    hide *;
    if n > 0 {
      StackHolds(s, n - 1);
      MatchedStep(s, n - 1);
      StackStep(s, n - 1, Matched(s, n - 1), Matched(s, n));
    } else {
      EmptyStack(s);
    }
  }

  lemma EmptyStack(s: seq<Symbol>)
    ensures StackSound(s, 0, Matched(s, 0).stack)
  {
  }

  lemma StackStep(s: seq<Symbol>, j: nat, m: Matching, next: Matching)
    requires j < |s| && StackSound(s, j, m.stack) && Steps(s, j, m, next)
    ensures StackSound(s, j + 1, next.stack)
  {
    hide Net;
    forall i: nat | i <= j
      ensures Net(s, i, j + 1) == Net(s, i, j) + if s[j].Open? then 1 else if s[j].Close? then -1 else 0
      ensures i < j ==> (Unclosed(s, i, j + 1) <==> Unclosed(s, i, j) && Net(s, i, j + 1) >= 1)
      ensures Net(s, j, j) == 0
    {
      NetStep(s, i, j);
      NetStep(s, j, j);
      if i < j {
        UnclosedStep(s, i, j);
      }
    }
    hide Unclosed;
    forall k | 0 <= k < |next.stack|
      ensures Unclosed(s, next.stack[k], j + 1) && Net(s, next.stack[k], j + 1) == |next.stack| - k
    {
      if k < |m.stack| {
        assert next.stack[k] == m.stack[k];
      } else {
        NewlyOpen(s, j);
      }
    }
    forall i: nat | Unclosed(s, i, j + 1)
      ensures i in next.stack
    {
      StillThere(s, j, m, next, i);
    }
  }

  lemma StillThere(s: seq<Symbol>, j: nat, m: Matching, next: Matching, i: nat)
    requires j < |s| && StackSound(s, j, m.stack) && Steps(s, j, m, next)
    requires Unclosed(s, i, j + 1)
    ensures i in next.stack
  {
    if i < j {
      UnclosedStep(s, i, j);
      NetStep(s, i, j);
      hide Net;
      assert i in m.stack;
      var k :| 0 <= k < |m.stack| && m.stack[k] == i;
      assert k < |next.stack| && next.stack[k] == i;
    } else {
      assert next.stack[|next.stack| - 1] == j;
    }
  }

  lemma UnclosedBelow(s: seq<Symbol>, i: nat, n: nat)
    requires Unclosed(s, i, n)
    ensures i < n <= |s| && s[i].Open?
  {
  }

  lemma NewlyOpen(s: seq<Symbol>, j: nat)
    requires j < |s| && s[j].Open?
    ensures Unclosed(s, j, j + 1)
  {
  }

  ghost predicate PairsSound(s: seq<Symbol>, n: nat, pairs: map<nat, nat>) {
    && (forall i: nat, j: nat :: i < j < n && Partners(s, i, j) ==>
         i in pairs && pairs[i] == j && j in pairs && pairs[j] == i)
    && (forall i :: i in pairs ==>
         i < n && pairs[i] < n && i != pairs[i]
           && (if i < pairs[i] then Partners(s, i, pairs[i]) else Partners(s, pairs[i], i)))
  }

  lemma {:induction false} PairsHold(s: seq<Symbol>, n: nat)
    requires n <= |s|
    ensures PairsSound(s, n, Matched(s, n).pairs)
  {
    hide *;
    if n > 0 {
      PairsHold(s, n - 1);
      StackHolds(s, n - 1);
      MatchedStep(s, n - 1);
      PairsStep(s, n - 1, Matched(s, n - 1), Matched(s, n));
    } else {
      NoPairs(s);
    }
  }

  lemma NoPairs(s: seq<Symbol>)
    ensures PairsSound(s, 0, Matched(s, 0).pairs)
  {
  }

  lemma PairsStep(s: seq<Symbol>, j: nat, m: Matching, next: Matching)
    requires j < |s| && StackSound(s, j, m.stack) && PairsSound(s, j, m.pairs) && Steps(s, j, m, next)
    ensures PairsSound(s, j + 1, next.pairs)
  {
    hide Partners, Unclosed;
    var stack := m.stack;
    forall i: nat | Partners(s, i, j)
      ensures s[j].Close? && stack != [] && i == stack[|stack| - 1] && s[i] == Open(s[j].bracket)
    {
      PartnerIsTop(s, j, stack, i);
    }
    if s[j].Close? && stack != [] && s[stack[|stack| - 1]] == Open(s[j].bracket) {
      var open := stack[|stack| - 1];
      TopIsPartner(s, j, stack);
      OpenIsUnpaired(s, j, m.pairs, open);
      AddPair(s, j, m.pairs, open);
    }
  }

  lemma PartnerIsTop(s: seq<Symbol>, j: nat, stack: seq<nat>, i: nat)
    requires j < |s| && StackSound(s, j, stack) && Partners(s, i, j)
    ensures s[j].Close? && stack != [] && i == stack[|stack| - 1] && s[i] == Open(s[j].bracket)
  {
    hide Net;
    var k :| 0 <= k < |stack| && stack[k] == i;
  }

  lemma TopIsPartner(s: seq<Symbol>, j: nat, stack: seq<nat>)
    requires j < |s| && StackSound(s, j, stack) && s[j].Close? && stack != []
      && s[stack[|stack| - 1]] == Open(s[j].bracket)
    ensures Partners(s, stack[|stack| - 1], j) && Unclosed(s, stack[|stack| - 1], j)
  {
    hide Net;
  }

  lemma AddPair(s: seq<Symbol>, j: nat, pairs: map<nat, nat>, open: nat)
    requires PairsSound(s, j, pairs) && open !in pairs && Partners(s, open, j)
    requires forall i: nat :: Partners(s, i, j) ==> i == open
    ensures PairsSound(s, j + 1, pairs[open := j][j := open])
  {
    assert open < j;
    hide Partners, Unclosed;
    var next := pairs[open := j][j := open];
    assert j !in pairs;
    forall i: nat, k: nat | i < k < j + 1 && Partners(s, i, k)
      ensures i in next && next[i] == k && k in next && next[k] == i
    {
      if k < j {
        assert i in pairs && k in pairs;
      }
    }
  }

  lemma OpenIsUnpaired(s: seq<Symbol>, n: nat, pairs: map<nat, nat>, open: nat)
    requires n <= |s| && PairsSound(s, n, pairs) && Unclosed(s, open, n)
    ensures open !in pairs
  {
    if open in pairs && open < pairs[open] {
      PartnerCloses(s, open, pairs[open], n);
    }
  }

  // A bracket that was closed at k is not open later.
  lemma PartnerCloses(s: seq<Symbol>, i: nat, k: nat, j: nat)
    requires Partners(s, i, k) && k < j <= |s|
    ensures !Unclosed(s, i, j)
  {
    NetStep(s, i, k);
    assert Net(s, i, k + 1) == 0;
  }

  // For every symbol list, balanced or not: i and j are paired exactly when j closes i by
  // counting brackets of every kind, and the two are of one kind.
  lemma PairsArePartners(s: seq<Symbol>, i: nat, j: nat)
    ensures var pairs := Matched(s, |s|).pairs;
      (i < j && i in pairs && pairs[i] == j) <==> Partners(s, i, j)
  {
    PairsHold(s, |s|);
  }

  // The pairs are a symmetric matching of brackets of one kind, nested or disjoint.
  ghost predicate Laminar(s: seq<Symbol>, pairs: map<nat, nat>) {
    && (forall i :: i in pairs ==>
          && i < |s| && pairs[i] in pairs && pairs[pairs[i]] == i && i != pairs[i]
          && (i < pairs[i] ==> pairs[i] < |s| && s[i].Open? && s[pairs[i]] == Close(s[i].bracket)))
    && (forall i, j :: i in pairs && j in pairs && i < j < pairs[i] && j < pairs[j] ==> pairs[j] < pairs[i])
  }

  lemma PairsAreLaminar(s: seq<Symbol>)
    ensures Laminar(s, Matched(s, |s|).pairs)
  {
    PairsHold(s, |s|);
    SoundIsLaminar(s, Matched(s, |s|).pairs);
  }

  lemma SoundIsLaminar(s: seq<Symbol>, pairs: map<nat, nat>)
    requires PairsSound(s, |s|, pairs)
    ensures Laminar(s, pairs)
  {
    hide Net, Unclosed;
    forall i, j | i in pairs && j in pairs && i < j < pairs[i] && j < pairs[j]
      ensures pairs[j] < pairs[i]
    {
      NestedPartners(s, i, pairs[i], j, pairs[j]);
    }
    forall i | i in pairs
      ensures pairs[i] in pairs && pairs[pairs[i]] == i
    {
    }
    forall i: nat, j: nat | Partners(s, i, j)
      ensures s[i].Open?
    {
      UnclosedBelow(s, i, j);
    }
  }

  lemma {:induction false} NetSplits(s: seq<Symbol>, a: nat, b: nat, c: nat)
    requires a <= b <= c <= |s|
    ensures Net(s, a, c) == Net(s, a, b) + Net(s, b, c)
    decreases c
  {
    if b < c {
      NetSplits(s, a, b, c - 1);
    }
  }

  lemma NestedPartners(s: seq<Symbol>, i: nat, k: nat, j: nat, l: nat)
    requires Partners(s, i, k) && Partners(s, j, l) && i < j < k
    ensures l < k
  {
    if k <= l {
      NetSplits(s, i, j, k);
      assert false;
    }
  }

  // ---------------------------------------------------------------------------
  // Well-formed bracket sequences
  // ---------------------------------------------------------------------------

  datatype Nest = Empty | Word(rest: Nest) | Group(bracket: Bracket, inner: Nest, rest: Nest)

  function Symbols(n: Nest): seq<Symbol> {
    match n
    case Empty => []
    case Word(rest) => [Plain] + Symbols(rest)
    case Group(b, inner, rest) => [Open(b)] + Symbols(inner) + [Close(b)] + Symbols(rest)
  }

  ghost predicate WellFormed(s: seq<Symbol>) {
    exists n :: Symbols(n) == s
  }

  datatype Kinds = Mismatch | Kinds(open: seq<Bracket>)

  // The kinds still open after s, when every closing bracket closes its kind.
  function Reduce(k: Kinds, s: seq<Symbol>): Kinds
    decreases |s|
  {
    if s == [] || k.Mismatch? then k
    else Reduce(ReduceOne(k, s[0]), s[1..])
  }

  function ReduceOne(k: Kinds, x: Symbol): Kinds {
    match k
    case Mismatch => Mismatch
    case Kinds(open) =>
      match x
      case Plain => k
      case Open(b) => Kinds(open + [b])
      case Close(b) => if open != [] && open[|open| - 1] == b then Kinds(open[..|open| - 1]) else Mismatch
  }

  lemma {:induction false} ReduceJoins(k: Kinds, a: seq<Symbol>, b: seq<Symbol>)
    ensures Reduce(k, a + b) == Reduce(Reduce(k, a), b)
    decreases |a|
  {
    if a == [] {
      assert a + b == b;
    } else if k.Kinds? {
      assert (a + b)[1..] == a[1..] + b;
      ReduceJoins(ReduceOne(k, a[0]), a[1..], b);
    }
  }

  lemma {:induction false} NestReduces(open: seq<Bracket>, n: Nest)
    ensures Reduce(Kinds(open), Symbols(n)) == Kinds(open)
    decreases n
  {
    match n
    case Empty =>
    case Word(rest) =>
      NestReduces(open, rest);
      assert Symbols(n)[1..] == Symbols(rest);
    case Group(b, inner, rest) =>
      var s := Symbols(inner) + [Close(b)] + Symbols(rest);
      assert Symbols(n) == [Open(b)] + s;
      assert Symbols(n)[1..] == s;
      NestReduces(open + [b], inner);
      NestReduces(open, rest);
      ReduceJoins(Kinds(open + [b]), Symbols(inner) + [Close(b)], Symbols(rest));
      ReduceJoins(Kinds(open + [b]), Symbols(inner), [Close(b)]);
      CloseReduces(open, b);
  }

  lemma CloseReduces(open: seq<Bracket>, b: Bracket)
    ensures Reduce(Kinds(open + [b]), [Close(b)]) == Kinds(open)
  {
    assert (open + [b])[..|open|] == open;
    assert [Close(b)][1..] == [];
  }

  // Nests, with the closing brackets of `open` between them, innermost first.
  function Spine(open: seq<Bracket>, nests: seq<Nest>): seq<Symbol>
    requires |nests| == |open| + 1
    decreases |open|
  {
    if open == [] then Symbols(nests[0])
    else Symbols(nests[0]) + [Close(open[|open| - 1])] + Spine(open[..|open| - 1], nests[1..])
  }

  // What closes everything that is open is such a spine.
  lemma {:induction false} SpineOf(open: seq<Bracket>, s: seq<Symbol>) returns (nests: seq<Nest>)
    requires Reduce(Kinds(open), s) == Kinds([])
    ensures |nests| == |open| + 1 && Spine(open, nests) == s
    decreases |s|
  {
    hide Reduce, Spine, Symbols;
    if s == [] {
      nests := [Empty];
      EmptySpine(open);
    } else {
      ReduceStep(Kinds(open), s);
      assert s == [s[0]] + s[1..];
      match s[0]
      case Plain =>
        var later := SpineOf(open, s[1..]);
        nests := [Word(later[0])] + later[1..];
        WordSymbols(later[0]);
        SpineGrows(open, later, nests, [Plain]);
      case Open(b) =>
        var later := SpineOf(open + [b], s[1..]);
        nests := [Group(b, later[0], later[1])] + later[2..];
        SpineOpens(open, b, later, nests);
      case Close(b) =>
        MismatchStays(s[1..]);
        var later := SpineOf(open[..|open| - 1], s[1..]);
        nests := [Empty] + later;
        SpineCloses(open, b, later);
    }
  }

  lemma ReduceStep(k: Kinds, s: seq<Symbol>)
    requires s != []
    ensures Reduce(k, s) == Reduce(ReduceOne(k, s[0]), s[1..])
  {
    MismatchStays(s[1..]);
  }

  lemma EmptySpine(open: seq<Bracket>)
    requires Reduce(Kinds(open), []) == Kinds([])
    ensures open == [] && Spine([], [Empty]) == []
  {
  }

  lemma WordSymbols(rest: Nest)
    ensures Symbols(Word(rest)) == [Plain] + Symbols(rest)
  {
  }

  lemma {:induction false} SpineCloses(open: seq<Bracket>, b: Bracket, later: seq<Nest>)
    requires open != [] && open[|open| - 1] == b && |later| == |open|
    ensures Spine(open, [Empty] + later) == [Close(b)] + Spine(open[..|open| - 1], later)
  {
    hide Symbols;
    var nests := [Empty] + later;
    NoSymbols();
    assert nests[0] == Empty && nests[1..] == later;
    assert [] + [Close(b)] == [Close(b)];
  }

  lemma NoSymbols()
    ensures Symbols(Empty) == []
  {
  }

  lemma MismatchStays(s: seq<Symbol>)
    ensures Reduce(Mismatch, s) == Mismatch
  {
  }

  lemma SpineGrows(open: seq<Bracket>, later: seq<Nest>, nests: seq<Nest>, first: seq<Symbol>)
    requires |later| == |open| + 1 && |nests| == |later| && nests[1..] == later[1..]
    requires Symbols(nests[0]) == first + Symbols(later[0])
    ensures Spine(open, nests) == first + Spine(open, later)
  {
    hide Symbols;
  }

  lemma SpineOpens(open: seq<Bracket>, b: Bracket, later: seq<Nest>, nests: seq<Nest>)
    requires |later| == |open| + 2 && |nests| == |open| + 1
    requires nests == [Group(b, later[0], later[1])] + later[2..]
    ensures Spine(open, nests) == [Open(b)] + Spine(open + [b], later)
  {
    hide Symbols, Spine;
    var tail := later[1..];
    var first := [Open(b)] + Symbols(later[0]) + [Close(b)];
    GroupSymbols(b, later[0], later[1]);
    SpineGrows(open, tail, nests, first);
    SpineUnfolds(open, b, later);
    Regroup([Open(b)], Symbols(later[0]), [Close(b)], Spine(open, tail));
  }

  lemma Regroup(a: seq<Symbol>, b: seq<Symbol>, c: seq<Symbol>, d: seq<Symbol>)
    ensures a + b + c + d == a + (b + c + d)
  {
  }

  lemma SpineUnfolds(open: seq<Bracket>, b: Bracket, later: seq<Nest>)
    requires |later| == |open| + 2
    ensures Spine(open + [b], later) == Symbols(later[0]) + [Close(b)] + Spine(open, later[1..])
  {
    hide Symbols;
    assert (open + [b])[..|open|] == open;
  }

  lemma GroupSymbols(b: Bracket, inner: Nest, rest: Nest)
    ensures Symbols(Group(b, inner, rest)) == [Open(b)] + Symbols(inner) + [Close(b)] + Symbols(rest)
  {
  }

  lemma ReducesIsWellFormed(s: seq<Symbol>)
    ensures Reduce(Kinds([]), s) == Kinds([]) <==> WellFormed(s)
  {
    if Reduce(Kinds([]), s) == Kinds([]) {
      var nests := SpineOf([], s);
      assert Symbols(nests[0]) == s;
    }
    forall n | Symbols(n) == s
      ensures Reduce(Kinds([]), s) == Kinds([])
    {
      NestReduces([], n);
    }
  }

  // --- the scan finds exactly the well-formed sequences ---

  function KindsOf(s: seq<Symbol>, stack: seq<nat>): seq<Bracket>
    requires forall k :: 0 <= k < |stack| ==> stack[k] < |s| && s[stack[k]].Open?
  {
    seq(|stack|, k requires 0 <= k < |stack| => s[stack[k]].bracket)
  }

  function OpenKinds(s: seq<Symbol>, m: Matching): Kinds
    requires forall k :: 0 <= k < |m.stack| ==> m.stack[k] < |s| && s[m.stack[k]].Open?
  {
    if m.balanced then Kinds(KindsOf(s, m.stack)) else Mismatch
  }

  lemma {:induction false} ScanReduces(s: seq<Symbol>, n: nat)
    requires n <= |s|
    ensures Reduce(Kinds([]), s[..n]) == OpenKinds(s, Matched(s, n))
  {
    if n > 0 {
      hide Reduce, Matched, OpenKinds, ReduceOne;
      ScanReduces(s, n - 1);
      assert s[..n] == s[..n - 1] + [s[n - 1]];
      ReduceJoins(Kinds([]), s[..n - 1], [s[n - 1]]);
      OneReduces(Reduce(Kinds([]), s[..n - 1]), s[n - 1]);
      ScanStep(s, n);
    } else {
      assert s[..n] == [];
    }
  }

  lemma ScanStep(s: seq<Symbol>, n: nat)
    requires 0 < n <= |s|
    ensures OpenKinds(s, Matched(s, n)) == ReduceOne(OpenKinds(s, Matched(s, n - 1)), s[n - 1])
  {
    var m, before := Matched(s, n), Matched(s, n - 1);
    var open := KindsOf(s, before.stack);
    if before.balanced {
      if s[n - 1].Open? {
        assert KindsOf(s, m.stack) == open + [s[n - 1].bracket];
      } else if s[n - 1].Close? && before.stack != [] {
        assert KindsOf(s, m.stack) == open[..|open| - 1];
      }
    }
  }

  lemma OneReduces(k: Kinds, x: Symbol)
    ensures Reduce(k, [x]) == ReduceOne(k, x)
  {
    assert [x][1..] == [];
  }

  ghost predicate Placed(s: seq<Symbol>, n: nat, m: Matching) {
    n <= |s| && forall i :: 0 <= i < n && !s[i].Plain? ==> i in m.pairs || i in m.stack
  }

  lemma PlacedPush(s: seq<Symbol>, n: nat, m: Matching)
    requires n < |s| && Placed(s, n, m)
    ensures Placed(s, n + 1, m.(stack := m.stack + [n]))
    ensures s[n].Plain? ==> Placed(s, n + 1, m)
  {
  }

  lemma PlacedPop(s: seq<Symbol>, n: nat, m: Matching)
    requires n < |s| && Placed(s, n, m) && m.stack != []
    ensures var open := m.stack[|m.stack| - 1];
      Placed(s, n + 1, m.(stack := m.stack[..|m.stack| - 1], pairs := m.pairs[open := n][n := open]))
  {
    var k := |m.stack| - 1;
    assert m.stack == m.stack[..k] + [m.stack[k]];
  }

  // Brackets that were neither stray nor mismatched are on the stack or paired.
  lemma {:induction false} BalancedPairs(s: seq<Symbol>, n: nat)
    requires n <= |s| && Matched(s, n).balanced
    ensures Placed(s, n, Matched(s, n))
  {
    hide Matched, Placed;
    if n > 0 {
      MatchedNext(s, n - 1);
      BalancedPairs(s, n - 1);
      var before := Matched(s, n - 1);
      PlacedPush(s, n - 1, before);
      if s[n - 1].Close? {
        PlacedPop(s, n - 1, before);
      }
    } else {
      NothingPlaced(s, Matched(s, 0));
    }
  }

  lemma NothingPlaced(s: seq<Symbol>, m: Matching)
    ensures Placed(s, 0, m)
  {
  }

  function Balanced(m: Matching): bool {
    m.balanced && m.stack == []
  }

  // The scan reports balance exactly for the well-formed sequences, and then every
  // bracket has its partner.
  lemma BalancedIsWellFormed(s: seq<Symbol>)
    ensures Balanced(Matched(s, |s|)) <==> WellFormed(s)
    ensures WellFormed(s) ==> forall i :: 0 <= i < |s| && !s[i].Plain? ==> i in Matched(s, |s|).pairs
  {
    ScanReduces(s, |s|);
    assert s[..|s|] == s;
    ReducesIsWellFormed(s);
    if Balanced(Matched(s, |s|)) {
      BalancedPairs(s, |s|);
    }
  }
}
