// Cutting a token list into statements (tools/cleanup/cpd_patterns.cpp,
// SourceIndex::indexStatements).
module Statements {
  import opened Brackets
  import opened Scopes

  datatype Context = Context(words: seq<Word>, pairs: map<nat, nat>, scopes: set<nat>, owners: seq<int>)

  ghost predicate Fits(c: Context) {
    && |c.owners| == |c.words|
    && Laminar(SymbolsOf(c.words), c.pairs)
  }

  // A brace that opens a block rather than an initializer.
  predicate Block(c: Context, i: nat)
    requires |c.owners| == |c.words|
  {
    && Opens(c.words, i, Curly)
    && (i in c.scopes || c.owners[i] < 0 || (i > 0 && BeforeBlock(c.words[i - 1])))
  }

  // ) { } ; else try do :
  predicate BeforeBlock(w: Word) {
    w == Bracketed(Close(Round)) || w == Bracketed(Open(Curly)) || w == Bracketed(Close(Curly)) || w.Semicolon?
      || w.Introducer?
  }

  // An opening bracket whose group belongs to one statement: parentheses, square
  // brackets and initializer braces that have a partner.
  predicate Groups(c: Context, i: nat)
    requires |c.owners| == |c.words|
  {
    && (Opens(c.words, i, Round) || Opens(c.words, i, Square) || (Opens(c.words, i, Curly) && !Block(c, i)))
    && i in c.pairs && c.pairs[i] > i
  }

  predicate InGroup(c: Context, open: nat, i: nat)
    requires |c.owners| == |c.words|
  {
    Groups(c, open) && open < i <= c.pairs[open]
  }

  ghost predicate Outside(c: Context, i: nat)
    requires |c.owners| == |c.words|
  {
    forall open: nat :: !InGroup(c, open, i)
  }

  predicate Ends(c: Context, i: nat)
    requires |c.owners| == |c.words|
  {
    i < |c.words| && !Groups(c, i) && (c.words[i].Semicolon? || Closes(c.words, i, Curly) || Block(c, i))
  }

  // A statement may start or end here: at either end of the list, or after a semicolon,
  // a closing brace or a block brace that is in no group.
  ghost predicate Cut(c: Context, at: nat)
    requires |c.owners| == |c.words|
  {
    at == 0 || at == |c.words| || (at <= |c.words| && Ends(c, at - 1) && Outside(c, at - 1))
  }

  ghost predicate Neighbours(c: Context, start: nat, end: nat)
    requires |c.owners| == |c.words|
  {
    start < end && Cut(c, start) && Cut(c, end) && forall at: nat :: start < at < end ==> !Cut(c, at)
  }

  // [start, end) is the statement around i: the interval between neighbouring cuts.
  ghost predicate Statement(c: Context, i: nat, start: nat, end: nat)
    requires |c.owners| == |c.words|
  {
    start <= i < end && Neighbours(c, start, end)
  }

  lemma NextIsOutside(c: Context, i: nat)
    requires Fits(c) && Outside(c, i) && i < |c.words|
    ensures Outside(c, if Groups(c, i) then c.pairs[i] + 1 else i + 1)
  {
    var next := if Groups(c, i) then c.pairs[i] + 1 else i + 1;
    var s := SymbolsOf(c.words);
    forall open: nat | Groups(c, open) && open != i
      ensures !InGroup(c, open, next)
    {
      assert !InGroup(c, open, i);
      assert s[open].Open?;
    }
  }

  // Nothing that a group spans is a cut.
  lemma NoCutInGroup(c: Context, open: nat, at: nat)
    requires |c.owners| == |c.words| && Groups(c, open) && open < at <= c.pairs[open] && c.pairs[open] < |c.words|
    ensures !Cut(c, at)
  {
    if Outside(c, at - 1) {
      assert !InGroup(c, open, at - 1);
    }
  }

  // A group lies inside one statement, which is the statement of all its tokens.
  lemma GroupInStatement(c: Context, open: nat, i: nat, start: nat, end: nat)
    requires |c.owners| == |c.words| && Groups(c, open) && open <= i <= c.pairs[open] < |c.words|
    requires Statement(c, i, start, end)
    ensures start <= open && c.pairs[open] < end
  {
    hide Cut;
    forall at: nat | open < at <= c.pairs[open]
      ensures !Cut(c, at)
    {
      NoCutInGroup(c, open, at);
    }
  }

  // The tokens of one statement agree about it.
  predicate TokensAgree(starts: seq<nat>, ends: seq<nat>)
    requires |starts| == |ends|
  {
    forall i, j :: 0 <= i < |starts| && starts[i] <= j < ends[i] ==>
      j < |starts| && starts[j] == starts[i] && ends[j] == ends[i]
  }

  lemma StatementsAgree(c: Context, starts: seq<nat>, ends: seq<nat>)
    requires |starts| == |ends| == |c.words| == |c.owners|
    requires forall i :: 0 <= i < |c.words| ==> Statement(c, i, starts[i], ends[i])
    ensures TokensAgree(starts, ends)
  {
    forall i, j | 0 <= i < |c.words| && starts[i] <= j < ends[i]
      ensures j < |c.words| && starts[j] == starts[i] && ends[j] == ends[i]
    {
      assert Statement(c, i, starts[i], ends[i]);
      assert Statement(c, j, starts[j], ends[j]);
    }
  }

  method Finish(starts: array<nat>, ends: array<nat>, start: nat, end: nat)
    requires starts != ends && starts.Length == ends.Length && start <= end <= starts.Length
    modifies starts, ends
    ensures forall i :: 0 <= i < starts.Length ==> starts[i] == if start <= i < end then start else old(starts[i])
    ensures forall i :: 0 <= i < ends.Length ==> ends[i] == if start <= i < end then end else old(ends[i])
  {
    for i := start to end
      invariant forall k :: 0 <= k < starts.Length ==> starts[k] == if start <= k < i then start else old(starts[k])
      invariant forall k :: 0 <= k < ends.Length ==> ends[k] == if start <= k < i then end else old(ends[k])
    {
      starts[i] := start;
      ends[i] := end;
    }
  }

  // The cuts up to `index` are known: the last of them is `start`.
  ghost predicate CutsKnown(c: Context, start: nat, index: nat)
    requires |c.owners| == |c.words|
  {
    && start <= index <= |c.words| && Cut(c, start)
    && (Outside(c, index) || index == |c.words|)
    && forall at: nat :: start < at <= index && at < |c.words| ==> !Cut(c, at)
  }

  lemma GroupSkipped(c: Context, start: nat, index: nat)
    requires Fits(c) && CutsKnown(c, start, index) && index < |c.words| && Groups(c, index)
    ensures c.pairs[index] < |c.words| && CutsKnown(c, start, c.pairs[index] + 1)
  {
    hide Cut;
    NextIsOutside(c, index);
    var close := c.pairs[index];
    forall at: nat | index < at <= close
      ensures !Cut(c, at)
    {
      NoCutInGroup(c, index, at);
    }
    if close + 1 < |c.words| {
      AfterGroup(c, index);
    }
  }

  lemma AfterGroup(c: Context, open: nat)
    requires Fits(c) && Groups(c, open) && c.pairs[open] + 1 < |c.words|
    ensures !Cut(c, c.pairs[open] + 1)
  {
    assert InGroup(c, open, c.pairs[open]);
  }

  lemma TokenTaken(c: Context, start: nat, index: nat)
    requires Fits(c) && CutsKnown(c, start, index) && index < |c.words| && !Groups(c, index)
    ensures CutsKnown(c, if Ends(c, index) then index + 1 else start, index + 1)
    ensures Ends(c, index) ==> Neighbours(c, start, index + 1)
  {
    NextIsOutside(c, index);
  }

  lemma CutsBegin(c: Context)
    requires |c.owners| == |c.words|
    ensures CutsKnown(c, 0, 0)
  {
    assert Outside(c, 0);
  }

  lemma CutsEnd(c: Context, start: nat)
    requires |c.owners| == |c.words| && CutsKnown(c, start, |c.words|) && start < |c.words|
    ensures Neighbours(c, start, |c.words|)
  {
  }

  lemma KnownStart(c: Context, start: nat, index: nat)
    requires |c.owners| == |c.words| && CutsKnown(c, start, index)
    ensures start <= index <= |c.words|
  {
  }

  method IndexStatements(c: Context) returns (starts: seq<nat>, ends: seq<nat>)
    requires Fits(c)
    ensures |starts| == |ends| == |c.words|
    ensures forall i :: 0 <= i < |c.words| ==> Statement(c, i, starts[i], ends[i])
    ensures TokensAgree(starts, ends)
  {
    hide CutsKnown, Neighbours, Cut, Laminar, Block, TokensAgree;
    var size := |c.words|;
    var startOf, endOf := new nat[size](_ => 0), new nat[size](_ => 0);
    var start: nat, index: nat := 0, 0;
    CutsBegin(c);
    while index < size
      invariant CutsKnown(c, start, index) && start <= index <= size
      invariant forall i :: 0 <= i < start ==> Statement(c, i, startOf[i], endOf[i])
    {
      if Groups(c, index) {
        GroupSkipped(c, start, index);
        index := c.pairs[index] + 1;
        KnownStart(c, start, index);
        continue;
      }
      TokenTaken(c, start, index);
      if c.words[index].Semicolon? || Closes(c.words, index, Curly) || Block(c, index) {
        Finish(startOf, endOf, start, index + 1);
        start := index + 1;
      }
      index := index + 1;
    }
    if start < size {
      CutsEnd(c, start);
    }
    Finish(startOf, endOf, start, size);
    starts, ends := startOf[..], endOf[..];
    StatementsAgree(c, starts, ends);
  }
}
