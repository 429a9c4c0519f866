// Which offsets a span of lines and columns names, told by counting newlines and units
// (tools/cleanup/cpd_patterns.cpp sourceRange).
module SourceSpans {
  import opened Codec
  import opened Lexer
  import opened Positions

  // The offset is at this line and column, both counted from 1.
  predicate At(source: Text, offset: nat, line: int, column: int) {
    offset <= |source| && line == NewlinesBefore(source, offset) + 1 && column == UnitsSince(source, offset) + 1
  }

  // A line feed, or a carriage return before one or before the end of the source.
  predicate Terminator(source: Text, offset: nat)
    requires offset < |source|
  {
    source[offset] == 0x0A || (source[offset] == 0x0D && (offset + 1 == |source| || source[offset + 1] == 0x0A))
  }

  // Lines that the source has; nothing after a final newline is no line.
  function LineCount(source: Text): int {
    NewlinesBefore(source, |source|) + if source != [] && source[|source| - 1] == 0x0A then 0 else 1
  }

  // An integer that a JSON number holds exactly, below 2^53 (RFC 8259, section 6).
  predicate Exact(f: Field) {
    f.Whole? && -0x20_0000_0000_0000 < f.n < 0x20_0000_0000_0000
  }

  // The fields name the units from a up to b: a is at the start line and column, the first by
  // default, and no line terminator; b is at the end line and column and not inside one, or
  // where the next line starts when no column is given; neither splits a surrogate pair.
  predicate Names(source: Text, o: Occurrence, a: nat, b: nat) {
    var column := if o.column.Absent? then Whole(1) else o.column;
    && Exact(o.start) && Exact(o.end) && Exact(column) && o.end.n <= LineCount(source)
    && a < b <= |source|
    && At(source, a, o.start.n, column.n) && !Terminator(source, a)
    && (if o.endColumn.Absent? then EndsLine(source, b, o.end.n)
        else Exact(o.endColumn) && At(source, b, o.end.n, o.endColumn.n) && !InsideTerminator(source, b))
    && !InsidePair(source, a) && !InsidePair(source, b)
  }

  predicate InsideTerminator(source: Text, offset: nat)
    requires offset <= |source|
  {
    offset > 0 && source[offset - 1] == 0x0D && Terminator(source, offset - 1)
  }

  // The line ends here, its newline included.
  predicate EndsLine(source: Text, offset: nat, line: int)
    requires offset <= |source|
  {
    if offset > 0 && source[offset - 1] == 0x0A then NewlinesBefore(source, offset) == line
    else offset == |source| && NewlinesBefore(source, offset) + 1 == line
  }

  // --- lines ---

  lemma LineStartIs(source: Text, lines: seq<nat>, line: nat)
    requires AreLines(source, lines, |source|) && 1 <= line <= |lines|
    ensures lines[line - 1] <= |source| && LineOf(lines, lines[line - 1]) == line
  {
    LineAround(source, lines, lines[line - 1]);
  }

  // An offset up to the end of a line's text is in that line.
  lemma TextIs(source: Text, lines: seq<nat>, line: nat, offset: nat)
    requires AreLines(source, lines, |source|) && 1 <= line <= |lines| && lines[line - 1] <= offset
    ensures offset < ContentEnd(source, lines, line) <==>
      offset < |source| && LineOf(lines, offset) == line && !Terminator(source, offset)
    ensures offset <= ContentEnd(source, lines, line) <==>
      && offset <= |source| && LineOf(lines, offset) == line
      && (offset == 0 || !(source[offset - 1] == 0x0D && Terminator(source, offset - 1)))
  {
    if offset <= |source| {
      LineAround(source, lines, offset);
      NewlineEnds(source, lines, line, offset);
      if offset < |source| {
        NewlineEnds(source, lines, line, offset + 1);
      }
    }
  }

  lemma NewlineEnds(source: Text, lines: seq<nat>, line: nat, offset: nat)
    requires AreLines(source, lines, |source|) && 1 <= line <= |lines| && lines[line - 1] <= offset <= |source|
    ensures var end := if line < |lines| then lines[line] - 1 else |source|;
      && (offset <= end <==> LineOf(lines, offset) == line)
      && (lines[line - 1] <= offset < end ==> source[offset] != 0x0A)
      && lines[line - 1] <= end && (line < |lines| ==> end < |source| && source[end] == 0x0A)
  {
    LineAround(source, lines, offset);
    if line < |lines| {
      assert lines[line - 1] < lines[line];
      assert LineStart(source, lines[line]);
    }
    if offset < |source| && source[offset] == 0x0A {
      assert LineStart(source, offset + 1);
      var k :| 0 <= k < |lines| && lines[k] == offset + 1;
      assert k >= line;
    }
  }

  lemma LinesCounted(source: Text, lines: seq<nat>)
    requires AreLines(source, lines, |source|)
    ensures PhysicalLines(source, lines) == LineCount(source) && |lines| == NewlinesBefore(source, |source|) + 1
  {
    LineIsCounted(source, lines, |source|);
    LineAround(source, lines, |source|);
    assert LineOf(lines, |source|) == |lines|;
  }

  // Where a line and a column lead, and back.
  lemma AtIs(source: Text, lines: seq<nat>, offset: nat, line: int, column: int)
    requires AreLines(source, lines, |source|) && offset <= |source|
    ensures At(source, offset, line, column) <==>
      1 <= line <= |lines| && lines[line - 1] + column - 1 == offset && column >= 1 && LineOf(lines, offset) == line
  {
    LineIsCounted(source, lines, offset);
  }

  lemma EndsLineIs(source: Text, lines: seq<nat>, line: nat, offset: nat)
    requires AreLines(source, lines, |source|) && 1 <= line <= PhysicalLines(source, lines) && offset <= |source|
    ensures EndsLine(source, offset, line) <==> offset == if line < |lines| then lines[line] else |source|
  {
    LineIsCounted(source, lines, offset);
    LinesCounted(source, lines);
    LineAround(source, lines, offset);
    if line < |lines| {
      LineStartIs(source, lines, line + 1);
      LineIsCounted(source, lines, lines[line]);
      assert LineStart(source, lines[line]);
    }
  }

  lemma StartIs(source: Text, lines: seq<nat>, line: int, column: int, a: nat)
    requires AreLines(source, lines, |source|)
    ensures a < |source| && At(source, a, line, column) && !Terminator(source, a) <==>
      1 <= line <= |lines| && 1 <= column && lines[line - 1] + column - 1 == a < ContentEnd(source, lines, line)
  {
    hide ContentEnd, LineOf, NewlinesBefore, UnitsSince, Terminator;
    if a <= |source| {
      AtIs(source, lines, a, line, column);
    }
    if 1 <= line <= |lines| && lines[line - 1] <= a {
      TextIs(source, lines, line, a);
    }
  }

  lemma EndIs(source: Text, lines: seq<nat>, line: int, column: int, b: nat)
    requires AreLines(source, lines, |source|)
    ensures && b <= |source| && At(source, b, line, column)
            && (b == 0 || !(source[b - 1] == 0x0D && Terminator(source, b - 1))) <==>
      1 <= line <= |lines| && 1 <= column && lines[line - 1] + column - 1 == b <= ContentEnd(source, lines, line)
  {
    hide ContentEnd, LineOf, NewlinesBefore, UnitsSince, Terminator;
    if b <= |source| {
      AtIs(source, lines, b, line, column);
    }
    if 1 <= line <= |lines| && lines[line - 1] <= b {
      TextIs(source, lines, line, b);
    }
  }

  lemma {:induction false} NewlinesRise(source: Text, a: nat, b: nat)
    requires a <= b <= |source|
    ensures NewlinesBefore(source, a) <= NewlinesBefore(source, b)
  {
    if a < b {
      NewlinesRise(source, a, b - 1);
    }
  }

  // What a span names it names in order.
  lemma LinesInOrder(source: Text, o: Occurrence, a: nat, b: nat)
    requires Names(source, o, a, b)
    ensures 1 <= o.start.n <= o.end.n
  {
    hide InsidePair, Terminator, UnitsSince;
    NewlinesRise(source, a, b);
    NewlinesRise(source, a, b - 1);
  }

  // What the fields say about both ends, in terms of lines.
  lemma EndsAre(source: Text, lines: seq<nat>, o: Occurrence, a: nat, b: nat)
    requires AreLines(source, lines, |source|)
    ensures PhysicalLines(source, lines) == LineCount(source) && PhysicalLines(source, lines) <= |lines|
    ensures var column := if o.column.Absent? then Whole(1) else o.column;
      Exact(o.start) && Exact(column) ==>
        (a < |source| && At(source, a, o.start.n, column.n) && !Terminator(source, a) <==>
          && 1 <= o.start.n <= |lines| && 1 <= column.n
          && lines[o.start.n - 1] + column.n - 1 == a < ContentEnd(source, lines, o.start.n))
    ensures Exact(o.end) && Exact(o.endColumn) ==>
      (b <= |source| && At(source, b, o.end.n, o.endColumn.n) && !InsideTerminator(source, b) <==>
        && 1 <= o.end.n <= |lines| && 1 <= o.endColumn.n
        && lines[o.end.n - 1] + o.endColumn.n - 1 == b <= ContentEnd(source, lines, o.end.n))
    ensures Exact(o.end) && 1 <= o.end.n <= PhysicalLines(source, lines) && b <= |source| ==>
      (EndsLine(source, b, o.end.n) <==> b == if o.end.n < |lines| then lines[o.end.n] else |source|)
  {
    LinesCounted(source, lines);
    CountsLines(source, lines);
    hide ContentEnd, LineOf, NewlinesBefore, UnitsSince, Terminator, AreLines, PhysicalLines, At, EndsLine, LineCount;
    var column := if o.column.Absent? then Whole(1) else o.column;
    if Exact(o.start) && Exact(column) {
      StartIs(source, lines, o.start.n, column.n, a);
    }
    if Exact(o.end) && Exact(o.endColumn) {
      EndIs(source, lines, o.end.n, o.endColumn.n, b);
    }
    if Exact(o.end) && 1 <= o.end.n <= PhysicalLines(source, lines) && b <= |source| {
      EndsLineIs(source, lines, o.end.n, b);
    }
  }

  // The program resolves an occurrence to the offsets that its fields name, and to nothing else.
  lemma RangeIs(source: Text, lines: seq<nat>, o: Occurrence, a: nat, b: nat)
    requires AreLines(source, lines, |source|)
    ensures SourceRange(source, o, lines) == Range(a, b) <==> Names(source, o, a, b)
  {
    if Names(source, o, a, b) {
      LinesInOrder(source, o, a, b);
    }
    SafeIsExact();
    EndsAre(source, lines, o, a, b);
    hide ContentEnd, LineOf, NewlinesBefore, UnitsSince, Terminator, InsidePair, AreLines, PhysicalLines, At, EndsLine;
    hide Safe, Exact, InsideTerminator, LineCount;
    if SourceRange(source, o, lines) == Range(a, b) {
      assert Names(source, o, a, b);
    } else {
      assert !Names(source, o, a, b);
    }
  }

  lemma SafeIsExact()
    ensures forall f :: Safe(f) <==> Exact(f)
    ensures forall f :: Safe(f) ==> f.Whole?
  {
  }

  lemma CountsLines(source: Text, lines: seq<nat>)
    ensures PhysicalLines(source, lines) <= |lines|
  {
  }
}
