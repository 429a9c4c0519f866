// Lines, columns and token ranges (tools/cleanup/cpd_patterns.cpp sourceRange,
// SourceIndex::range and SourceIndex::occurrence; tools/support/cpp_text.cpp lineStarts).
module Positions {
  import opened Codec
  import opened Lexer

  const NEWLINE: CodeUnit := '\n' as int
  const RETURN: CodeUnit := '\r' as int

  // ---------------------------------------------------------------------------
  // Line starts
  // ---------------------------------------------------------------------------

  // The offset 0, and every offset after a newline, in order.
  predicate LineStart(source: Text, at: nat) {
    at == 0 || (at <= |source| && source[at - 1] == 0x0A)
  }

  ghost predicate AreLines(source: Text, lines: seq<nat>, upTo: nat) {
    && |lines| >= 1 && lines[0] == 0
    && (forall j, k :: 0 <= j < k < |lines| ==> lines[j] < lines[k])
    && (forall k :: 0 <= k < |lines| ==> lines[k] <= upTo && LineStart(source, lines[k]))
    && (forall at: nat :: at <= upTo && LineStart(source, at) ==> at in lines)
  }

  method LineStarts(source: Text) returns (result: seq<nat>)
    ensures AreLines(source, result, |source|)
  {
    result := [0];
    for i := 0 to |source|
      invariant AreLines(source, result, i)
    {
      ghost var before := result;
      if source[i] == NEWLINE {
        result := result + [i + 1];
        assert result[|before|] == i + 1;
      }
      assert forall at :: at in before ==> at in result;
    }
  }

  // The number of elements below x in an ascending list.
  function LowerBound(s: seq<nat>, x: nat): (n: nat)
    ensures n <= |s|
    ensures forall k :: 0 <= k < n ==> s[k] < x
    ensures n < |s| ==> s[n] >= x
  {
    if s == [] || s[0] >= x then 0 else 1 + LowerBound(s[1..], x)
  }

  // The line of an offset, counted from 1.
  function LineOf(lines: seq<nat>, offset: nat): nat {
    LowerBound(lines, offset + 1)
  }

  lemma LineAround(source: Text, lines: seq<nat>, offset: nat)
    requires AreLines(source, lines, |source|)
    ensures var line := LineOf(lines, offset);
      && 1 <= line <= |lines| && lines[line - 1] <= offset
      && (line < |lines| ==> offset < lines[line] && 1 <= lines[line] <= |source| && source[lines[line] - 1] == NEWLINE)
  {
  }

  // The line goes on to the first newline at or after the offset.
  lemma LineReaches(source: Text, lines: seq<nat>, offset: nat, at: nat)
    requires AreLines(source, lines, |source|) && offset <= at < |source| && source[at] == NEWLINE
    ensures LineOf(lines, offset) < |lines| && lines[LineOf(lines, offset)] <= at + 1
  {
    var line := LineOf(lines, offset);
    assert LineStart(source, at + 1);
    var k :| 0 <= k < |lines| && lines[k] == at + 1;
    assert k >= line;
  }

  // ---------------------------------------------------------------------------
  // Source ranges
  // ---------------------------------------------------------------------------

  // A field of an occurrence: missing, not an integral number, or an integer.
  datatype Field = Absent | Unusable | Whole(n: int)

  datatype Occurrence = Occurrence(start: Field, end: Field, column: Field, endColumn: Field)

  datatype Range = Invalid | Range(start: nat, end: nat)

  const MAX_SAFE: int := 9007199254740991

  predicate Safe(f: Field) {
    f.Whole? && -MAX_SAFE <= f.n <= MAX_SAFE
  }

  function PhysicalLines(source: Text, lines: seq<nat>): int {
    |lines| - if source != [] && source[|source| - 1] == NEWLINE then 1 else 0
  }

  // Where the text of a line ends, without its line terminator.
  function ContentEnd(source: Text, lines: seq<nat>, line: nat): (end: int)
    requires line < |lines| ==> lines[line] <= |source|
    ensures -1 <= end <= |source|
  {
    var offset := if line < |lines| then lines[line] - 1 else |source|;
    if offset > 0 && source[offset - 1] == RETURN then offset - 1 else offset
  }

  function SourceRange(source: Text, o: Occurrence, lines: seq<nat>): (r: Range)
    requires forall k :: 0 <= k < |lines| ==> lines[k] <= |source|
    ensures r.Range? ==> r.start < r.end && r.start < |source|
  {
    var column := if o.column.Absent? then Whole(1) else o.column;
    if !Safe(o.start) || !Safe(o.end) || !Safe(column) || o.start.n < 1 || o.end.n < o.start.n || column.n < 1
      || lines == [] then Invalid
    else
      var start, end := o.start.n, o.end.n;
      if end > PhysicalLines(source, lines) then Invalid
      else
        var startOffset := lines[start - 1] + column.n - 1;
        if !o.endColumn.Absent? && (!Safe(o.endColumn) || o.endColumn.n < 1) then Invalid
        else
          var endOffset :=
            if !o.endColumn.Absent? then lines[end - 1] + o.endColumn.n - 1
            else if end < |lines| then lines[end] else |source|;
          if || startOffset >= ContentEnd(source, lines, start)
             || (!o.endColumn.Absent? && endOffset > ContentEnd(source, lines, end))
             || endOffset <= startOffset then Invalid
          else if InsidePair(source, startOffset) || InsidePair(source, endOffset) then Invalid
          else Range(startOffset, endOffset)
  }

  // ---------------------------------------------------------------------------
  // Token ranges
  // ---------------------------------------------------------------------------

  function Offsets(tokens: seq<Token>): (s: seq<nat>)
    ensures |s| == |tokens| && forall k :: 0 <= k < |s| ==> s[k] == tokens[k].offset
  {
    seq(|tokens|, k requires 0 <= k < |tokens| => tokens[k].offset)
  }

  // The tokens of a source range; Invalid where the program throws.
  function TokenRange(source: Text, lines: seq<nat>, tokens: seq<Token>, o: Occurrence): Range
    requires forall k :: 0 <= k < |lines| ==> lines[k] <= |source|
  {
    var r := SourceRange(source, o, lines);
    if r.Invalid? then Invalid
    else Range(LowerBound(Offsets(tokens), r.start), LowerBound(Offsets(tokens), r.end))
  }

  // The occurrence that names tokens[start..end], which the program requires to be a
  // range of existing tokens.
  function OccurrenceOf(lines: seq<nat>, tokens: seq<Token>, start: nat, end: nat): Occurrence
    requires start < end <= |tokens|
    requires forall t :: t in tokens ==> 1 <= LineOf(lines, t.offset) <= |lines|
  {
    var first, last := tokens[start], tokens[end - 1];
    assert first in tokens && last in tokens;
    var startLine, endLine := LineOf(lines, first.offset), LineOf(lines, last.offset);
    Occurrence(Whole(startLine), Whole(endLine),
               Whole(first.offset - lines[startLine - 1] + 1), Whole(last.end - lines[endLine - 1] + 1))
  }

  // --- what the lexer guarantees about significant tokens ---

  ghost predicate Ordered(source: Text, tokens: seq<Token>, from: nat) {
    && (forall t :: t in tokens ==> from <= t.offset < t.end <= |source|)
    && (forall t :: t in tokens ==> !Whitespace(source[t.offset]) && !Whitespace(source[t.end - 1]))
    && (forall j, k :: 0 <= j < k < |tokens| ==> tokens[j].end <= tokens[k].offset)
  }

  lemma {:induction false} SignificantOrdered(source: Text, offset: nat)
    requires offset <= |source|
    ensures Ordered(source, TokensFrom(source, offset, false), offset)
    decreases |source| - offset
  {
    hide TokenAt, Ordered, Trivia;
    if offset < |source| {
      var t := TokenAt(source, offset);
      SignificantOrdered(source, t.end);
      EdgesOfToken(source, offset);
      var rest := TokensFrom(source, t.end, false);
      OrderedGrows(source, t, rest);
      assert [] + rest == rest;
    } else {
      NothingOrdered(source);
    }
  }

  lemma NothingOrdered(source: Text)
    ensures Ordered(source, [], |source|)
  {
  }

  lemma EdgesOfToken(source: Text, offset: nat)
    requires offset < |source|
    ensures var t := TokenAt(source, offset);
      !Trivia(t.kind) ==> !Whitespace(source[t.offset]) && !Whitespace(source[t.end - 1])
  {
    hide Scan, Utf8, Whitespace;
    if !Trivia(TokenAt(source, offset).kind) {
      SignificantEdges(source, offset);
    }
  }

  lemma OrderedGrows(source: Text, t: Token, tokens: seq<Token>)
    requires t.offset < t.end <= |source| && Ordered(source, tokens, t.end)
    ensures Ordered(source, tokens, t.offset)
    ensures !Whitespace(source[t.offset]) && !Whitespace(source[t.end - 1]) ==> Ordered(source, [t] + tokens, t.offset)
  {
    hide Whitespace;
    var all := [t] + tokens;
    forall j, k | 0 <= j < k < |all|
      ensures all[j].end <= all[k].offset
    {
      assert all[k] == tokens[k - 1] && tokens[k - 1] in tokens;
      assert j > 0 ==> all[j] == tokens[j - 1];
    }
  }

  // --- the round trip ---

  predicate HasNewline(source: Text, from: nat, to: nat)
    requires from <= to <= |source|
  {
    exists k :: from <= k < to && source[k] == 0x0A
  }

  // The text of a token's line reaches over the token's end unless the token itself
  // contains a newline.
  lemma ContentReaches(source: Text, lines: seq<nat>, t: Token)
    requires AreLines(source, lines, |source|)
    requires t.offset < t.end <= |source| && !Whitespace(source[t.end - 1])
    ensures var line := LineOf(lines, t.offset);
      && 1 <= line <= |lines|
      && (t.end <= ContentEnd(source, lines, line) <==> !HasNewline(source, t.offset, t.end))
      && line <= PhysicalLines(source, lines)
  {
    var line := LineOf(lines, t.offset);
    LineAround(source, lines, t.offset);
    var text := if line < |lines| then lines[line] - 1 else |source|;
    if HasNewline(source, t.offset, t.end) {
      var k :| t.offset <= k < t.end && source[k] == NEWLINE;
      LineReaches(source, lines, t.offset, k);
    } else {
      assert t.end <= text;
      if t.end == text {
        assert source[text - 1] != RETURN;
      }
    }
    if source[|source| - 1] == NEWLINE {
      assert LineStart(source, |source|);
      var k :| 0 <= k < |lines| && lines[k] == |source|;
      assert line <= k;
    }
  }

  // The line's text always reaches over the token's first unit.
  lemma ContentStarts(source: Text, lines: seq<nat>, t: Token)
    requires AreLines(source, lines, |source|)
    requires t.offset < t.end <= |source| && !Whitespace(source[t.offset])
    ensures var line := LineOf(lines, t.offset);
      1 <= line <= |lines| && t.offset < ContentEnd(source, lines, line)
  {
    ContentReaches(source, lines, Token(t.text, t.offset, t.offset + 1, t.kind));
  }

  predicate SafeFields(o: Occurrence) {
    Safe(o.start) && Safe(o.end) && Safe(o.column) && Safe(o.endColumn)
  }

  // When the occurrence of a token range can be resolved again: the last token keeps to
  // one line, and neither end stands inside a surrogate pair.
  predicate Resolvable(source: Text, first: Token, last: Token)
    requires last.offset <= last.end <= |source|
  {
    && !HasNewline(source, last.offset, last.end)
    && !InsidePair(source, first.offset) && !InsidePair(source, last.end)
  }

  lemma RangeOfOccurrence(source: Text, lines: seq<nat>, tokens: seq<Token>, start: nat, end: nat)
    requires AreLines(source, lines, |source|) && Ordered(source, tokens, 0) && start < end <= |tokens|
    ensures forall t :: t in tokens ==> 1 <= LineOf(lines, t.offset) <= |lines|
    ensures tokens[end - 1] in tokens
    ensures var o := OccurrenceOf(lines, tokens, start, end);
      TokenRange(source, lines, tokens, o)
      == if SafeFields(o) && Resolvable(source, tokens[start], tokens[end - 1]) then Range(start, end) else Invalid
  {
    hide AreLines, TokenRange, OccurrenceOf, LineOf, SafeFields, Resolvable, Ordered;
    forall t | t in tokens
      ensures 1 <= LineOf(lines, t.offset) <= |lines|
    {
      LineAround(source, lines, t.offset);
    }
    var first, last := tokens[start], tokens[end - 1];
    assert first in tokens && last in tokens;
    OccurrenceRanges(source, lines, tokens, start, end);
    RangeFinds(source, lines, tokens, start, end);
  }

  lemma OccurrenceRanges(source: Text, lines: seq<nat>, tokens: seq<Token>, start: nat, end: nat)
    requires AreLines(source, lines, |source|) && Ordered(source, tokens, 0) && start < end <= |tokens|
    requires forall t :: t in tokens ==> 1 <= LineOf(lines, t.offset) <= |lines|
    requires tokens[start] in tokens && tokens[end - 1] in tokens
    ensures var o, first, last := OccurrenceOf(lines, tokens, start, end), tokens[start], tokens[end - 1];
      SourceRange(source, o, lines) ==
        if SafeFields(o) && Resolvable(source, first, last) then Range(first.offset, last.end) else Invalid
  {
    hide SafeFields, Resolvable, SourceRange, OccurrenceOf, LineOf, ContentEnd, HasNewline;
    var first, last := tokens[start], tokens[end - 1];
    assert start < end - 1 ==> first.end <= last.offset;
    ContentStarts(source, lines, first);
    ContentReaches(source, lines, last);
    LineAround(source, lines, first.offset);
    LineAround(source, lines, last.offset);
    LinesGrow(lines, first.offset, last.offset);
    OccurrenceResolves(source, lines, tokens, start, end);
  }

  lemma RangeFinds(source: Text, lines: seq<nat>, tokens: seq<Token>, start: nat, end: nat)
    requires AreLines(source, lines, |source|) && Ordered(source, tokens, 0) && start < end <= |tokens|
    requires forall t :: t in tokens ==> 1 <= LineOf(lines, t.offset) <= |lines|
    requires tokens[start] in tokens && tokens[end - 1] in tokens
    ensures var o := OccurrenceOf(lines, tokens, start, end);
      && (SourceRange(source, o, lines) == Range(tokens[start].offset, tokens[end - 1].end) ==>
           TokenRange(source, lines, tokens, o) == Range(start, end))
      && (SourceRange(source, o, lines) == Invalid ==> TokenRange(source, lines, tokens, o) == Invalid)
  {
    hide SourceRange, OccurrenceOf, LineOf, LowerBound;
    OffsetsFind(tokens, start, end);
  }

  lemma LinesGrow(lines: seq<nat>, a: nat, b: nat)
    requires a <= b
    ensures LineOf(lines, a) <= LineOf(lines, b)
  {
  }

  lemma OccurrenceResolves(source: Text, lines: seq<nat>, tokens: seq<Token>, start: nat, end: nat)
    requires forall k :: 0 <= k < |lines| ==> lines[k] <= |source|
    requires start < end <= |tokens| && forall t :: t in tokens ==> 1 <= LineOf(lines, t.offset) <= |lines|
    requires var first, last := tokens[start], tokens[end - 1];
      var a, b := LineOf(lines, first.offset), LineOf(lines, last.offset);
      && first in tokens && last in tokens
      && first.offset < last.end <= |source| && last.offset <= last.end && a <= b <= PhysicalLines(source, lines)
      && lines[a - 1] <= first.offset && lines[b - 1] <= last.offset && last.offset < last.end
      && first.offset < ContentEnd(source, lines, a)
      && (last.end <= ContentEnd(source, lines, b) <==> !HasNewline(source, last.offset, last.end))
    ensures var o, first, last := OccurrenceOf(lines, tokens, start, end), tokens[start], tokens[end - 1];
      SourceRange(source, o, lines) ==
        if SafeFields(o) && Resolvable(source, first, last) then Range(first.offset, last.end) else Invalid
  {
    hide ContentEnd, LowerBound, HasNewline;
  }

  lemma OffsetsFind(tokens: seq<Token>, start: nat, end: nat)
    requires start < end <= |tokens|
    requires forall j, k :: 0 <= j < k < |tokens| ==> tokens[j].end <= tokens[k].offset
    requires forall j :: 0 <= j < |tokens| ==> tokens[j].offset < tokens[j].end
    ensures LowerBound(Offsets(tokens), tokens[start].offset) == start
    ensures LowerBound(Offsets(tokens), tokens[end - 1].end) == end
  {
    var s := Offsets(tokens);
    var a, b := LowerBound(s, tokens[start].offset), LowerBound(s, tokens[end - 1].end);
    assert s[start] == tokens[start].offset && s[end - 1] < tokens[end - 1].end;
    assert end < |s| ==> s[end] >= tokens[end - 1].end;
    if a < start || b != end {
      assert false;
    }
  }

  // ---------------------------------------------------------------------------
  // The round trip does fail
  // ---------------------------------------------------------------------------

  // A string literal that spans two lines: its own occurrence cannot be resolved.
  lemma MultilineLiteral()
    ensures var source := ['"' as int, '\n' as int, '"' as int];
      var tokens := TokensFrom(source, 0, false);
      && |tokens| == 1 && tokens[0].end == 3 && AreLines(source, [0, 2], 3)
      && (forall t :: t in tokens ==> 1 <= LineOf([0, 2], t.offset) <= 2)
      && TokenRange(source, [0, 2], tokens, OccurrenceOf([0, 2], tokens, 0, 1)) == Invalid
  {
    hide TokensFrom, TokenRange, OccurrenceOf, LineOf;
    var source: Text := ['"' as int, '\n' as int, '"' as int];
    TwoLines(source);
    OneLiteral(source);
    var tokens := TokensFrom(source, 0, false);
    SignificantOrdered(source, 0);
    RangeOfOccurrence(source, [0, 2], tokens, 0, 1);
    forall t | t in tokens
      ensures 1 <= LineOf([0, 2], t.offset) <= 2
    {
      LineAround(source, [0, 2], t.offset);
    }
    assert source[1] == NEWLINE;
  }

  lemma TwoLines(source: Text)
    requires source == ['"' as int, '\n' as int, '"' as int]
    ensures AreLines(source, [0, 2], 3)
  {
    assert forall at: nat :: at <= 3 && LineStart(source, at) ==> at == [0, 2][0] || at == [0, 2][1];
  }

  lemma OneLiteral(source: Text)
    requires source == ['"' as int, '\n' as int, '"' as int]
    ensures TokensFrom(source, 0, false) == [TokenAt(source, 0)] && TokenAt(source, 0).end == 3
      && TokenAt(source, 0).offset == 0
  {
    assert Closing(source, source[0], 1) == Closing(source, source[0], 2) == 3;
    assert Scan(source, 0) == Scanned(3, Literal);
    assert TokensFrom(source, 0, false) == [TokenAt(source, 0)] + TokensFrom(source, 3, false);
  }

  // ---------------------------------------------------------------------------
  // Lines and columns by counting
  // ---------------------------------------------------------------------------

  // How many newlines stand before the offset.
  function NewlinesBefore(source: Text, offset: nat): nat
    requires offset <= |source|
  {
    if offset == 0 then 0 else NewlinesBefore(source, offset - 1) + if source[offset - 1] == 0x0A then 1 else 0
  }

  // How many units stand between the offset and the last newline before it.
  function UnitsSince(source: Text, offset: nat): (n: nat)
    requires offset <= |source|
    ensures n <= offset
  {
    if offset == 0 || source[offset - 1] == 0x0A then 0 else 1 + UnitsSince(source, offset - 1)
  }

  lemma {:induction false} LineIsCounted(source: Text, lines: seq<nat>, offset: nat)
    requires AreLines(source, lines, |source|) && offset <= |source|
    ensures var line := LineOf(lines, offset);
      && line == 1 + NewlinesBefore(source, offset)
      && 1 <= line <= |lines| && offset - lines[line - 1] == UnitsSince(source, offset)
  {
    LineAround(source, lines, offset);
    if offset > 0 {
      LineIsCounted(source, lines, offset - 1);
      LineAround(source, lines, offset - 1);
      LineAdvances(source, lines, offset);
    } else {
      assert lines[0] == 0;
    }
  }

  // From one offset to the next the line grows at a newline, and only there.
  lemma LineAdvances(source: Text, lines: seq<nat>, offset: nat)
    requires AreLines(source, lines, |source|) && 0 < offset <= |source|
    ensures var line, before := LineOf(lines, offset), LineOf(lines, offset - 1);
      && 1 <= before <= |lines| && 1 <= line <= |lines|
      && if source[offset - 1] == 0x0A then line == before + 1 && lines[line - 1] == offset else line == before
  {
    LineAround(source, lines, offset);
    LineAround(source, lines, offset - 1);
    var line, before := LineOf(lines, offset), LineOf(lines, offset - 1);
    if source[offset - 1] == 0x0A {
      assert LineStart(source, offset);
      var k :| 0 <= k < |lines| && lines[k] == offset;
      assert k == line - 1;
      assert before - 1 < k;
    } else {
      assert !LineStart(source, offset);
    }
  }

  // The occurrence of a token range names the lines of its first and its last token and, in
  // these lines, the first unit of the one and the unit after the other, counted from 1.
  lemma OccurrenceIs(source: Text, lines: seq<nat>, tokens: seq<Token>, start: nat, end: nat)
    requires AreLines(source, lines, |source|) && Ordered(source, tokens, 0) && start < end <= |tokens|
    ensures forall t :: t in tokens ==> t.end <= |source| && 1 <= LineOf(lines, t.offset) <= |lines|
    ensures var first, last := tokens[start], tokens[end - 1];
      && first.offset <= |source| && last.offset <= |source|
      && OccurrenceOf(lines, tokens, start, end) ==
         Occurrence(Whole(NewlinesBefore(source, first.offset) + 1), Whole(NewlinesBefore(source, last.offset) + 1),
           Whole(UnitsSince(source, first.offset) + 1),
             Whole(last.end - last.offset + UnitsSince(source, last.offset) + 1))
  {
    hide AreLines, LineOf, NewlinesBefore, UnitsSince, Whitespace;
    forall t | t in tokens
      ensures t.end <= |source| && 1 <= LineOf(lines, t.offset) <= |lines|
    {
      LineAround(source, lines, t.offset);
    }
    var first, last := tokens[start], tokens[end - 1];
    assert first in tokens && last in tokens;
    LineIsCounted(source, lines, first.offset);
    LineIsCounted(source, lines, last.offset);
  }
}
