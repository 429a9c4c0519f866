// Inline suppression comments and the list they leave
// (tools/cleanup/generate_cleanup_json.cpp parseInlineSuppressions).
module Suppressions {
  import opened Wrappers
  import opened Codec
  import opened Lexer
  import opened Search
  import Positions
  import Sorting

  datatype Family = Cleanup | Cpd

  datatype Detector = Duplo | CpdDetector

  datatype Kind = Single | Range

  datatype Suppression = Suppression(kind: Kind, detectors: set<Detector>, marker: nat, start: nat, end: nat,
    reason: Text)

  datatype Error = Nested(line: nat) | Unmatched(line: nat) | Unterminated(line: nat) | Overlapping(line: nat)

  datatype Result<T> = Ok(value: T) | Err(error: Error)

  // A comment of the source.
  datatype Comment = Comment(offset: nat, text: Text)

  // ---------------------------------------------------------------------------
  // Markers
  // ---------------------------------------------------------------------------

  datatype Marker = Ignore(reason: Text) | Off(family: Family, reason: Text) | On(family: Family)

  // A marker, its line and the line that it would ignore, counted from 1.
  datatype Mark = Mark(line: nat, target: nat, marker: Marker)

  function Units(s: string): Text {
    seq(|s|, i requires 0 <= i < |s| => if s[i] < 128 as char then s[i] as int else 0)
  }

  function Trimmed(text: Text): Text
    decreases |text|
  {
    if text == [] then []
    else if Whitespace(text[0]) then Trimmed(text[1..])
    else if Whitespace(text[|text| - 1]) then Trimmed(text[..|text| - 1])
    else text
  }

  predicate StartsWith(text: Text, prefix: string) {
    Occurs(text, Units(prefix), 0)
  }

  predicate LineTerminator(u: CodeUnit) {
    u == '\r' as int || u == '\n' as int || u == 0x2028 || u == 0x2029
  }

  // The reason after the prefix; it is not empty and stays on one line.
  function Reason(comment: Text, prefix: string): Option<Text>
    requires StartsWith(comment, "//")
  {
    var body := Trimmed(comment[2..]);
    if !StartsWith(body, prefix) then None
    else
      var reason := Trimmed(body[|prefix|..]);
      if reason == [] || exists u :: u in reason && LineTerminator(u) then None else Some(reason)
  }

  // The prefix, and no word goes on after it.
  predicate Terminator(comment: Text, prefix: string)
    requires StartsWith(comment, "//")
  {
    var body := Trimmed(comment[2..]);
    StartsWith(body, prefix)
      && (|body| == |prefix| || !(Letter(body[|prefix|]) || Digit(body[|prefix|]) || Is(body[|prefix|], '_')))
  }

  function MarkerOf(comment: Text): Option<Marker> {
    if !StartsWith(comment, "//") then None
    else if Reason(comment, "CLEANUP-IGNORE:").Some? then Some(Ignore(Reason(comment, "CLEANUP-IGNORE:").value))
    else if Reason(comment, "CLEANUP-OFF:").Some? then Some(Off(Cleanup, Reason(comment, "CLEANUP-OFF:").value))
    else if Reason(comment, "CPD-OFF:").Some? then Some(Off(Cpd, Reason(comment, "CPD-OFF:").value))
    else if Terminator(comment, "CLEANUP-ON") then Some(On(Cleanup))
    else if Terminator(comment, "CPD-ON") then Some(On(Cpd))
    else None
  }

  // --- the comments of a source ---

  function CommentsIn(tokens: seq<Token>): seq<Comment> {
    if tokens == [] then []
    else
      var front, t := CommentsIn(tokens[..|tokens| - 1]), tokens[|tokens| - 1];
      if t.kind.Comment? then front + [Comment.Comment(t.offset, Utf16(t.text))] else front
  }

  // The comments of a C++ source.
  function CommentsOf(source: Text): seq<Comment> {
    CommentsIn(TokensFrom(source, 0, true))
  }

  // A comment is a comment token, with its place and its text.
  lemma {:induction false} CommentsHave(tokens: seq<Token>, c: Comment)
    ensures c in CommentsIn(tokens) <==>
      exists t :: t in tokens && t.kind.Comment? && c == Comment.Comment(t.offset, Utf16(t.text))
  {
    if tokens != [] {
      hide Utf16;
      var front, last := tokens[..|tokens| - 1], tokens[|tokens| - 1];
      assert tokens == front + [last];
      CommentsHave(front, c);
    }
  }

  lemma {:induction false} TilesRise(tokens: seq<Token>, from: nat, to: nat, i: nat)
    requires Tiles(tokens, from, to) && i < |tokens|
    ensures tokens[i].offset < tokens[i].end <= to
    decreases |tokens| - i
  {
    if i + 1 < |tokens| {
      TilesRise(tokens, from, to, i + 1);
      assert tokens[i + 1 - 1].end == tokens[i + 1].offset;
    }
  }

  lemma TilesFront(tokens: seq<Token>, from: nat, to: nat)
    requires Tiles(tokens, from, to) && tokens != []
    ensures Tiles(tokens[..|tokens| - 1], from, tokens[|tokens| - 1].offset)
  {
  }

  ghost predicate Before(comments: seq<Comment>, to: nat) {
    && (forall i: nat :: i < |comments| ==> comments[i].offset < to)
    && forall i: nat, j: nat :: i < j < |comments| ==> comments[i].offset <= comments[j].offset
  }

  lemma BeforeGrows(comments: seq<Comment>, to: nat, c: Comment, next: nat)
    requires Before(comments, to) && to <= c.offset < next
    ensures Before(comments + [c], next) && Before(comments, next)
  {
  }

  lemma {:induction false} CommentsRise(tokens: seq<Token>, from: nat, to: nat)
    requires Tiles(tokens, from, to)
    ensures Before(CommentsIn(tokens), to)
  {
    if tokens != [] {
      hide Utf16, Tiles, Before;
      var front, last := tokens[..|tokens| - 1], tokens[|tokens| - 1];
      TilesFront(tokens, from, to);
      TilesRise(tokens, from, to, |tokens| - 1);
      CommentsRise(front, from, last.offset);
      BeforeGrows(CommentsIn(front), last.offset, Comment.Comment(last.offset, Utf16(last.text)), to);
    }
  }

  lemma BeforeIsInSource(source: Text, comments: seq<Comment>)
    requires Before(comments, |source|)
    ensures InSource(source, comments)
  {
    forall c | c in comments
      ensures c.offset < |source|
    {
      var i: nat :| i < |comments| && comments[i] == c;
    }
  }

  // They stand in source order, and their texts are the source's own.
  lemma CommentsAreInSource(source: Text)
    ensures InSource(source, CommentsOf(source))
    ensures forall c :: c in CommentsOf(source) ==> Occurs(source, c.text, c.offset)
  {
    hide TokensFrom, Tiles, CommentsIn, Utf8, Utf16;
    var tokens := TokensFrom(source, 0, true);
    TriviaTiles(source, 0);
    CommentsRise(tokens, 0, |source|);
    BeforeIsInSource(source, CommentsIn(tokens));
    forall c | c in CommentsIn(tokens)
      ensures Occurs(source, c.text, c.offset)
    {
      CommentsHave(tokens, c);
      var t :| t in tokens && t.kind.Comment? && c == Comment.Comment(t.offset, Utf16(t.text));
      assert Spelled(source, t);
      RoundTripUnits(source[t.offset..t.end]);
    }
  }

  // --- what a marker is ---

  predicate Blank(text: Text) {
    forall i :: 0 <= i < |text| ==> Whitespace(text[i])
  }

  // A text that trimming leaves alone.
  predicate Tight(text: Text) {
    text != [] && !Whitespace(text[0]) && !Whitespace(text[|text| - 1])
  }

  lemma {:induction false} TrimmedIs(before: Text, text: Text, after: Text)
    requires Blank(before) && Tight(text) && Blank(after)
    ensures Trimmed(before + text + after) == text
    decreases |before| + |after|
  {
    hide Whitespace;
    var whole := before + text + after;
    Ends(before, text, after);
    if before != [] {
      TrimmedIs(before[1..], text, after);
    } else if after != [] {
      TrimmedIs(before, text, after[..|after| - 1]);
    }
  }

  lemma Ends(a: Text, t: Text, b: Text)
    requires t != []
    ensures var whole := a + t + b;
      && (if a == [] then whole[0] == t[0] else whole[0] == a[0] && whole[1..] == a[1..] + t + b)
      && (if b == [] then whole[|whole| - 1] == t[|t| - 1]
           else whole[|whole| - 1] == b[|b| - 1] && whole[..|whole| - 1] == a + t + b[..|b| - 1])
      && (a == [] && b == [] ==> whole == t)
  {
  }

  // A reason is read back, whatever blanks stand around it and the prefix.
  lemma ReasonReads(prefix: string, a: Text, b: Text, reason: Text, c: Text)
    requires Blank(a) && Blank(b) && Blank(c) && Tight(reason) && forall u :: u in reason ==> !LineTerminator(u)
    requires Tight(Units(prefix))
    ensures var comment := Units("//") + a + Units(prefix) + b + reason + c;
      StartsWith(comment, "//") && Reason(comment, prefix) == Some(reason)
        && Trimmed(comment[2..]) == Units(prefix) + b + reason
  {
    hide Trimmed, Units, Blank;
    var slashes, head := Units("//"), Units(prefix);
    assert |slashes| == 2 && |head| == |prefix| by {
      UnitsSize("//");
      UnitsSize(prefix);
    }
    Affixes(slashes, a, head, b, reason, c);
    TrimmedIs(a, head + b + reason, c) by {
      BothTight(head, b, reason);
    }
    TrimmedIs(b, reason, []) by {
      assert Blank([]) by {
        NothingIsBlank();
      }
    }
  }

  lemma UnitsSize(s: string)
    ensures |Units(s)| == |s|
  {
  }

  lemma NothingIsBlank()
    ensures Blank([])
  {
  }

  lemma BothTight(a: Text, b: Text, c: Text)
    requires Tight(a) && Tight(c)
    ensures Tight(a + b + c)
  {
  }

  lemma Affixes(s: Text, a: Text, h: Text, b: Text, r: Text, c: Text)
    ensures var whole := s + a + h + b + r + c;
      |s| <= |whole| && whole[..|s|] == s && whole[|s|..] == a + (h + b + r) + c && whole[0..0 + |s|] == s
    ensures var body := h + b + r; |h| <= |body| && body[0..0 + |h|] == h && body[|h|..] == b + r + []
  {
  }

  // The three markers that carry a reason.
  lemma MarkersRead(a: Text, b: Text, reason: Text, c: Text)
    requires Blank(a) && Blank(b) && Blank(c) && Tight(reason) && forall u :: u in reason ==> !LineTerminator(u)
    ensures MarkerOf(Units("//") + a + Units("CLEANUP-IGNORE:") + b + reason + c) == Some(Ignore(reason))
    ensures MarkerOf(Units("//") + a + Units("CLEANUP-OFF:") + b + reason + c) == Some(Off(Cleanup, reason))
    ensures MarkerOf(Units("//") + a + Units("CPD-OFF:") + b + reason + c) == Some(Off(Cpd, reason))
  {
    hide Trimmed;
    ReasonReads("CLEANUP-IGNORE:", a, b, reason, c);
    ReasonReads("CLEANUP-OFF:", a, b, reason, c);
    ReasonReads("CPD-OFF:", a, b, reason, c);
    NotPrefix(Units("CLEANUP-OFF:") + b + reason, "CLEANUP-IGNORE:", 8);
    NotPrefix(Units("CPD-OFF:") + b + reason, "CLEANUP-IGNORE:", 1);
    NotPrefix(Units("CPD-OFF:") + b + reason, "CLEANUP-OFF:", 1);
  }

  lemma NotPrefix(text: Text, prefix: string, k: nat)
    requires k < |text| && k < |prefix| && text[k] != Units(prefix)[k]
    ensures !StartsWith(text, prefix)
  {
    if |prefix| <= |text| {
      assert text[0..0 + |prefix|][k] == text[k];
    }
  }

  // The text of line k, counted from 0, without its newline.
  function LineText(source: Text, starts: seq<nat>, k: nat): Text
    requires k < |starts| && starts[k] <= |source|
    requires k + 1 < |starts| ==> starts[k] < starts[k + 1] <= |source|
  {
    source[starts[k]..if k + 1 < |starts| then starts[k + 1] - 1 else |source|]
  }

  // Neither blank nor a line comment.
  predicate CodeLine(source: Text, starts: seq<nat>, k: nat)
    requires k < |starts| && Positions.AreLines(source, starts, |source|)
  {
    var text := Trimmed(LineText(source, starts, k));
    text != [] && !StartsWith(text, "//")
  }

  // The first line of code from `k` on; the number of lines when there is none.
  function NextCode(source: Text, starts: seq<nat>, k: nat): (r: nat)
    requires k <= |starts| && Positions.AreLines(source, starts, |source|)
    ensures k <= r <= |starts|
    ensures forall j :: k <= j < r ==> !CodeLine(source, starts, j)
    ensures r < |starts| ==> CodeLine(source, starts, r)
    decreases |starts| - k
  {
    if k == |starts| || CodeLine(source, starts, k) then k else NextCode(source, starts, k + 1)
  }

  // A marker alone on its line ignores the next line of code, another one its own line.
  function Target(source: Text, starts: seq<nat>, line: nat, offset: nat): (r: nat)
    requires 1 <= line <= |starts| && Positions.AreLines(source, starts, |source|)
    requires starts[line - 1] <= offset <= |source|
    ensures line <= r
  {
    if Trimmed(source[starts[line - 1]..offset]) == [] then NextCode(source, starts, line) + 1 else line
  }

  // Comments in source order.
  predicate InSource(source: Text, comments: seq<Comment>) {
    && (forall c :: c in comments ==> c.offset < |source|)
    && forall i, j :: 0 <= i < j < |comments| ==> comments[i].offset <= comments[j].offset
  }

  function MarksOf(source: Text, starts: seq<nat>, comments: seq<Comment>): seq<Mark>
    requires InSource(source, comments) && Positions.AreLines(source, starts, |source|)
  {
    if comments == [] then []
    else
      var k := |comments| - 1;
      var before := MarksOf(source, starts, comments[..k]);
      Positions.LineAround(source, starts, comments[k].offset);
      var line := Positions.LineOf(starts, comments[k].offset);
      var marker := MarkerOf(comments[k].text);
      if marker.None? then before
      else before + [Mark(line, Target(source, starts, line, comments[k].offset), marker.value)]
  }

  lemma {:induction false} MarksAreInOrder(source: Text, starts: seq<nat>, comments: seq<Comment>)
    requires InSource(source, comments) && Positions.AreLines(source, starts, |source|)
    ensures InOrder(MarksOf(source, starts, comments))
    ensures forall m :: m in MarksOf(source, starts, comments) ==>
      comments != [] && m.line <= Positions.LineOf(starts, comments[|comments| - 1].offset)
  {
    hide Target, MarkerOf, Positions.LineOf;
    if comments != [] {
      var k := |comments| - 1;
      MarksAreInOrder(source, starts, comments[..k]);
      Positions.LineAround(source, starts, comments[k].offset);
      if k > 0 {
        LinesRise(starts, comments[k - 1].offset, comments[k].offset);
      }
      var before, marks := MarksOf(source, starts, comments[..k]), MarksOf(source, starts, comments);
      if marks != before {
        InOrderGrows(before, marks[|marks| - 1]);
      }
    }
  }

  lemma InOrderGrows(marks: seq<Mark>, mark: Mark)
    requires InOrder(marks) && 1 <= mark.line <= mark.target && forall m :: m in marks ==> m.line <= mark.line
    ensures InOrder(marks + [mark])
  {
  }

  lemma LinesRise(lines: seq<nat>, a: nat, b: nat)
    requires a <= b && forall j, k :: 0 <= j < k < |lines| ==> lines[j] < lines[k]
    ensures Positions.LineOf(lines, a) <= Positions.LineOf(lines, b)
  {
  }

  // The lines of markers rise, and no marker ignores a line before its own.
  predicate InOrder(marks: seq<Mark>) {
    && (forall m :: m in marks ==> 1 <= m.line <= m.target)
    && forall i, j :: 0 <= i < j < |marks| ==> marks[i].line <= marks[j].line
  }

  // ---------------------------------------------------------------------------
  // The state machine
  // ---------------------------------------------------------------------------

  datatype Scan = Scan(open: Option<Mark>, found: seq<Suppression>)

  function Detectors(family: Family): set<Detector> {
    if family == Cpd then {CpdDetector} else {Duplo, CpdDetector}
  }

  function SingleOf(mark: Mark): Suppression
    requires mark.marker.Ignore?
  {
    Suppression(Single, {Duplo, CpdDetector}, mark.line, mark.target, mark.target, mark.marker.reason)
  }

  function RangeOf(off: Mark, on: Mark): Suppression
    requires off.marker.Off?
  {
    Suppression(Range, Detectors(off.marker.family), off.line, off.line, on.line, off.marker.reason)
  }

  function Next(scan: Scan, mark: Mark): (r: Result<Scan>)
    requires scan.open.Some? ==> scan.open.value.marker.Off?
    ensures r.Ok? && r.value.open.Some? ==> r.value.open.value.marker.Off?
  {
    match mark.marker
    case Ignore(_) => Ok(Scan(scan.open, scan.found + [SingleOf(mark)]))
    case Off(_, _) => if scan.open.Some? then Err(Nested(mark.line)) else Ok(Scan(Some(mark), scan.found))
    case On(family) =>
      if scan.open.None? || scan.open.value.marker.family != family then Err(Unmatched(mark.line))
      else Ok(Scan(None, scan.found + [RangeOf(scan.open.value, mark)]))
  }

  function Scanned(marks: seq<Mark>): (r: Result<Scan>)
    ensures r.Ok? && r.value.open.Some? ==> r.value.open.value.marker.Off?
  {
    if marks == [] then Ok(Scan(None, []))
    else
      var before := Scanned(marks[..|marks| - 1]);
      if before.Err? then before else Next(before.value, marks[|marks| - 1])
  }

  predicate Earlier(a: Suppression, b: Suppression) {
    a.start < b.start || (a.start == b.start && a.end < b.end)
  }

  // The first entry from k on that begins no later than the one before it ends.
  function FirstOverlap(sorted: seq<Suppression>, k: nat): Option<Suppression>
    requires k >= 1
    decreases |sorted| - k
  {
    if k >= |sorted| then None
    else if sorted[k].start <= sorted[k - 1].end then Some(sorted[k])
    else FirstOverlap(sorted, k + 1)
  }

  function Accepted(scan: Scan): Result<seq<Suppression>> {
    if scan.open.Some? then Err(Unterminated(scan.open.value.line))
    else
      var sorted := Sorting.Sort(scan.found, Earlier);
      var overlap := FirstOverlap(sorted, 1);
      if overlap.Some? then Err(Overlapping(overlap.value.marker)) else Ok(sorted)
  }

  function Parsed(marks: seq<Mark>): Result<seq<Suppression>> {
    var scan := Scanned(marks);
    if scan.Err? then Err(scan.error) else Accepted(scan.value)
  }

  // An error is the last word.
  lemma {:induction false} ErrorLasts(source: Text, starts: seq<nat>, comments: seq<Comment>, k: nat)
    requires k <= |comments| && InSource(source, comments) && Positions.AreLines(source, starts, |source|)
    requires Scanned(MarksOf(source, starts, comments[..k])).Err?
    ensures Scanned(MarksOf(source, starts, comments)) == Scanned(MarksOf(source, starts, comments[..k]))
  {
    hide MarkerOf, Next, Target, Positions.AreLines;
    if k < |comments| {
      var front := comments[..|comments| - 1];
      assert front[..k] == comments[..k];
      ErrorLasts(source, starts, front, k);
      MarksStep(source, starts, comments, |comments| - 1);
    } else {
      assert comments[..k] == comments;
    }
  }

  // What the k-th comment does to the scan.
  lemma MarksStep(source: Text, starts: seq<nat>, comments: seq<Comment>, k: nat)
    requires k < |comments| && InSource(source, comments) && Positions.AreLines(source, starts, |source|)
    ensures var line := Positions.LineOf(starts, comments[k].offset);
      && 1 <= line <= |starts| && starts[line - 1] <= comments[k].offset
      && var before := Scanned(MarksOf(source, starts, comments[..k]));
         var marker := MarkerOf(comments[k].text);
         Scanned(MarksOf(source, starts, comments[..k + 1])) ==
         if before.Err? || marker.None? then before
         else Next(before.value, Mark(line, Target(source, starts, line, comments[k].offset), marker.value))
    ensures k + 1 == |comments| ==> comments[..k + 1] == comments
  {
    hide MarkerOf, Next, Target, Positions.AreLines;
    Positions.LineAround(source, starts, comments[k].offset);
    assert comments[..k + 1][..k] == comments[..k];
  }

  lemma LineFound(source: Text, starts: seq<nat>, line: nat, offset: nat)
    requires Positions.AreLines(source, starts, |source|) && line < |starts| && starts[line] <= offset
    requires line + 1 < |starts| ==> offset < starts[line + 1]
    ensures Positions.LineOf(starts, offset) == line + 1
  {
    assert forall k :: 0 <= k <= line ==> starts[k] <= starts[line];
  }

  // Advances to the line of the offset.
  method AdvanceLine(ghost source: Text, lines: seq<nat>, from: nat, offset: nat) returns (line: nat)
    requires Positions.AreLines(source, lines, |source|) && from < |lines| && lines[from] <= offset
    ensures line < |lines| && lines[line] <= offset && line + 1 == Positions.LineOf(lines, offset)
  {
    line := from;
    while line + 1 < |lines| && lines[line + 1] <= offset
      invariant line < |lines| && lines[line] <= offset
    {
      line := line + 1;
    }
    LineFound(source, lines, line, offset);
  }

  method ParseComments(source: Text, comments: seq<Comment>) returns (r: Result<seq<Suppression>>)
    requires InSource(source, comments)
    ensures forall starts :: Positions.AreLines(source, starts, |source|) ==>
      r == Parsed(MarksOf(source, starts, comments))
  {
    hide MarkerOf, Next, Target, Positions.AreLines, Scanned, MarksOf;
    var lines := Positions.LineStarts(source);
    LinesAreUnique(source, lines);
    var scan: Scan := Scan(None, []);
    var line: nat := 0;
    FirstLine(source, lines);
    assert Scanned(MarksOf(source, lines, comments[..0])) == Ok(scan) by {
      NoComments(source, lines, comments);
    }
    for k := 0 to |comments|
      invariant line < |lines| && (lines[line] == 0 || (k > 0 && lines[line] <= comments[k - 1].offset))
      invariant Scanned(MarksOf(source, lines, comments[..k])) == Ok(scan)
    {
      var comment := comments[k];
      line := AdvanceLine(source, lines, line, comment.offset);
      MarksStep(source, lines, comments, k);
      var marker := MarkerOf(comment.text);
      if marker.Some? {
        var next := Next(scan, Mark(line + 1, Target(source, lines, line + 1, comment.offset), marker.value));
        if next.Err? {
          ErrorLasts(source, lines, comments, k + 1);
          return Err(next.error);
        }
        scan := next.value;
      }
    }
    assert comments[..|comments|] == comments;
    r := Accepted(scan);
  }

  // The suppressions of a C++ source.
  method ParseInlineSuppressions(text: seq<Byte>) returns (r: Result<seq<Suppression>>)
    ensures var source := Utf16(text);
      forall starts :: Positions.AreLines(source, starts, |source|) ==>
        InSource(source, CommentsOf(source)) && r == Parsed(MarksOf(source, starts, CommentsOf(source)))
  {
    hide *;
    var source := ToUtf16(text);
    var tokens := TokenizeCpp(source, true);
    var comments := CollectComments(tokens);
    SourceComments(source, tokens, comments);
    r := ParseComments(source, comments);
  }

  lemma SourceComments(source: Text, tokens: seq<Token>, comments: seq<Comment>)
    requires tokens == TokensFrom(source, 0, true) && comments == CommentsIn(tokens)
    ensures comments == CommentsOf(source) && InSource(source, comments)
  {
    CommentsAreInSource(source);
  }

  method CollectComments(tokens: seq<Token>) returns (comments: seq<Comment>)
    ensures comments == CommentsIn(tokens)
  {
    hide Utf16;
    comments := [];
    for i := 0 to |tokens|
      invariant comments == CommentsIn(tokens[..i])
    {
      assert tokens[..i + 1][..i] == tokens[..i];
      if tokens[i].kind.Comment? {
        var text := ToUtf16(tokens[i].text);
        comments := comments + [Comment.Comment(tokens[i].offset, text)];
      }
    }
    assert tokens[..|tokens|] == tokens;
  }

  lemma LinesAreUnique(source: Text, lines: seq<nat>)
    requires Positions.AreLines(source, lines, |source|)
    ensures forall starts :: Positions.AreLines(source, starts, |source|) ==> starts == lines
  {
    forall starts | Positions.AreLines(source, starts, |source|)
      ensures starts == lines
    {
      SameElements(starts, lines);
    }
  }

  lemma SomeElement(s: seq<nat>)
    requires s != []
    ensures exists x: nat :: x in s
  {
    assert s[0] in s;
  }

  lemma {:induction false} SameElements(a: seq<nat>, b: seq<nat>)
    requires forall j, k :: 0 <= j < k < |a| ==> a[j] < a[k]
    requires forall j, k :: 0 <= j < k < |b| ==> b[j] < b[k]
    requires forall x: nat :: x in a <==> x in b
    ensures a == b
    decreases |a|
  {
    if a == [] {
      if b != [] {
        SomeElement(b);
      }
    } else {
      assert a[0] in b && b != [];
      var m, n := |a| - 1, |b| - 1;
      assert a[m] in b && b[n] in a;
      assert a[m] == b[n];
      forall x: nat
        ensures x in a[..m] <==> x in b[..n]
      {
        assert x in a[..m] <==> x in a && x != a[m];
        assert x in b[..n] <==> x in b && x != b[n];
      }
      SameElements(a[..m], b[..n]);
      assert a == a[..m] + [a[m]] && b == b[..n] + [b[n]];
    }
  }

  lemma FirstLine(source: Text, starts: seq<nat>)
    requires Positions.AreLines(source, starts, |source|)
    ensures |starts| >= 1 && starts[0] == 0
  {
  }

  lemma NoComments(source: Text, starts: seq<nat>, comments: seq<Comment>)
    requires InSource(source, comments) && Positions.AreLines(source, starts, |source|)
    ensures Scanned(MarksOf(source, starts, comments[..0])) == Ok(Scan(None, []))
  {
  }

  // ---------------------------------------------------------------------------
  // What is accepted
  // ---------------------------------------------------------------------------

  // The marker at j ends the region that the one at i opens.
  predicate Closes(marks: seq<Mark>, i: nat, j: nat) {
    && i < j < |marks| && marks[i].marker.Off? && marks[j].marker.On?
       && marks[i].marker.family == marks[j].marker.family
    && forall k :: i < k < j ==> marks[k].marker.Ignore?
  }

  // Every region is closed, and every terminator closes one.
  ghost predicate Paired(marks: seq<Mark>) {
    && (forall i: nat :: i < |marks| && marks[i].marker.Off? ==> Closed(marks, i))
    && (forall j: nat :: j < |marks| && marks[j].marker.On? ==> Closing(marks, j))
  }

  ghost predicate Closed(marks: seq<Mark>, i: nat) {
    exists j: nat :: Closes(marks, i, j)
  }

  ghost predicate Closing(marks: seq<Mark>, j: nat) {
    exists i: nat :: Closes(marks, i, j)
  }

  // The last region start before k, if any.
  function Opener(marks: seq<Mark>, k: nat): (i: int)
    requires k <= |marks|
    ensures -1 <= i < k
    ensures i >= 0 ==> marks[i].marker.Off?
    ensures forall j :: i < j < k ==> !marks[j].marker.Off?
  {
    if k == 0 then -1 else if marks[k - 1].marker.Off? then k - 1 else Opener(marks, k - 1)
  }

  // The suppressions of the markers: the single lines and, at their ends, the regions.
  function Entries(marks: seq<Mark>): seq<Suppression> {
    if marks == [] then []
    else
      var k := |marks| - 1;
      Entries(marks[..k]) +
      if marks[k].marker.Ignore? then [SingleOf(marks[k])]
      else if marks[k].marker.On? && Opener(marks, k) >= 0 then [RangeOf(marks[Opener(marks, k)], marks[k])]
      else []
  }

  predicate Disjoint(a: Suppression, b: Suppression) {
    a.end < b.start || b.end < a.start
  }

  predicate PairwiseDisjoint(entries: seq<Suppression>) {
    forall i, j :: 0 <= i < j < |entries| ==> Disjoint(entries[i], entries[j])
  }

  // The region at o, if any, is open; the others are closed.
  ghost predicate OpenAt(marks: seq<Mark>, o: int) {
    && -1 <= o < |marks|
    && (o >= 0 ==> marks[o].marker.Off? && forall k :: o < k < |marks| ==> marks[k].marker.Ignore?)
    && (forall i: nat :: i < |marks| && i != o && marks[i].marker.Off? ==> Closed(marks, i))
    && (forall j: nat :: j < |marks| && marks[j].marker.On? ==> Closing(marks, j))
  }

  function OpenMark(marks: seq<Mark>, o: int): Option<Mark>
    requires -1 <= o < |marks|
  {
    if o < 0 then None else Some(marks[o])
  }

  lemma ClosesInFront(marks: seq<Mark>, i: nat, j: nat)
    requires marks != []
    ensures var k := |marks| - 1; j < k ==> (Closes(marks, i, j) <==> Closes(marks[..k], i, j))
    ensures Closes(marks[..|marks| - 1], i, j) ==> Closes(marks, i, j)
  {
  }

  lemma ClosesHere(marks: seq<Mark>, o: nat)
    requires marks != [] && o < |marks| - 1 && OpenAt(marks[..|marks| - 1], o)
    requires var last := marks[|marks| - 1].marker;
      last.On? && marks[o].marker.Off? && marks[o].marker.family == last.family
    ensures Closes(marks, o, |marks| - 1)
  {
    var front := marks[..|marks| - 1];
    assert forall k :: o < k < |front| ==> front[k].marker.Ignore?;
  }

  // One marker more.
  lemma OpenAtGrows(marks: seq<Mark>, o: int, next: int)
    requires marks != [] && -1 <= o < |marks| - 1 && -1 <= next < |marks|
    requires var k := |marks| - 1; OpenAt(marks[..k], o)
    requires var k := |marks| - 1; match marks[k].marker {
      case Ignore(_) => next == o
      case Off(_, _) => o == -1 && next == k
      case On(family) => o >= 0 && marks[o].marker.family == family && next == -1
    }
    ensures OpenAt(marks, next)
  {
    hide Closes;
    var k := |marks| - 1;
    var front := marks[..k];
    if o >= 0 && marks[k].marker.On? {
      assert Closes(marks, o, k) by {
        ClosesHere(marks, o);
      }
    }
    forall i: nat | i < |marks| && i != next && marks[i].marker.Off?
      ensures Closed(marks, i)
    {
      if i == o {
        assert Closes(marks, i, k);
      } else {
        assert Closed(front, i);
        var j: nat :| Closes(front, i, j);
        ClosesInFront(marks, i, j);
      }
    }
    forall j: nat | j < |marks| && marks[j].marker.On?
      ensures Closing(marks, j)
    {
      if j == k {
        assert Closes(marks, o, k);
      } else {
        assert Closing(front, j);
        var i: nat :| Closes(front, i, j);
        ClosesInFront(marks, i, j);
        assert Closes(marks, i, j);
      }
    }
  }

  lemma LastIsNotClosed(marks: seq<Mark>)
    requires marks != []
    ensures !Closed(marks, |marks| - 1)
  {
  }

  lemma OpenAtShrinks(marks: seq<Mark>, next: int) returns (o: int)
    requires marks != [] && OpenAt(marks, next)
    ensures var k := |marks| - 1; -1 <= o < k && OpenAt(marks[..k], o)
    ensures var k := |marks| - 1; match marks[k].marker {
      case Ignore(_) => next == o
      case Off(_, _) => o == -1 && next == k
      case On(family) => o >= 0 && marks[o].marker.family == family && next == -1
    }
  {
    var k := |marks| - 1;
    match marks[k].marker {
      case Ignore(_) => o := next;
      case Off(_, _) =>
        o := -1;
        LastIsNotClosed(marks);
        assert next == k;
      case On(_) =>
        assert Closing(marks, k);
        var i: nat :| Closes(marks, i, k);
        o := i;
    }
    forall i: nat | i < k && i != o && marks[i].marker.Off?
      ensures Closed(marks[..k], i)
    {
      ClosedInFront(marks, i, o);
    }
    forall j: nat | j < k && marks[j].marker.On?
      ensures Closing(marks[..k], j)
    {
      ClosingInFront(marks, j);
    }
  }

  lemma ClosedInFront(marks: seq<Mark>, i: nat, o: int)
    requires marks != [] && Closed(marks, i) && i != o
    requires marks[|marks| - 1].marker.On? ==> o >= 0 && Closes(marks, o, |marks| - 1)
    ensures Closed(marks[..|marks| - 1], i)
  {
    var j: nat :| Closes(marks, i, j);
    assert j != |marks| - 1;
    ClosesInFront(marks, i, j);
  }

  lemma ClosingInFront(marks: seq<Mark>, j: nat)
    requires marks != [] && j < |marks| - 1 && Closing(marks, j)
    ensures Closing(marks[..|marks| - 1], j)
  {
    var i: nat :| Closes(marks, i, j);
    ClosesInFront(marks, i, j);
  }

  // The scan succeeds exactly when at most one region is open, and then it is the open one.
  lemma {:induction false} ScanKnows(marks: seq<Mark>) returns (o: int)
    requires Scanned(marks).Ok?
    ensures OpenAt(marks, o) && Scanned(marks).value.open == OpenMark(marks, o)
  {
    if marks == [] {
      o := -1;
    } else {
      var k := |marks| - 1;
      var before := ScanKnows(marks[..k]);
      o := match marks[k].marker case Ignore(_) => before case Off(_, _) => k case On(_) => -1;
      OpenAtGrows(marks, before, o);
    }
  }

  lemma {:induction false} OpenAtScans(marks: seq<Mark>, o: int)
    requires OpenAt(marks, o)
    ensures Scanned(marks).Ok? && Scanned(marks).value.open == OpenMark(marks, o)
  {
    if marks != [] {
      var before := OpenAtShrinks(marks, o);
      OpenAtScans(marks[..|marks| - 1], before);
    }
  }

  lemma OpensOnce(marks: seq<Mark>, o: int)
    requires OpenAt(marks, o)
    ensures o >= 0 ==> Opener(marks, |marks|) == o && !Paired(marks)
    ensures o < 0 ==> Paired(marks)
  {
    forall j: nat | o >= 0
      ensures !Closes(marks, o, j)
    {
    }
  }

  lemma OpenerInFront(marks: seq<Mark>, front: seq<Mark>, k: nat)
    requires k <= |front| <= |marks| && front == marks[..|front|]
    ensures Opener(front, k) == Opener(marks, k)
  {
  }

  lemma {:induction false} FoundIsEntries(marks: seq<Mark>)
    requires Scanned(marks).Ok?
    ensures Scanned(marks).value.found == Entries(marks)
  {
    if marks != [] {
      var k := |marks| - 1;
      var front := marks[..k];
      FoundIsEntries(front);
      var o := ScanKnows(front);
      OpensOnce(front, o);
      OpenerInFront(marks, front, k);
    }
  }

  // Entries end where they start or later.
  predicate Proper(entries: seq<Suppression>) {
    forall e :: e in entries ==> e.start <= e.end
  }

  lemma {:induction false} EntriesAreProper(marks: seq<Mark>)
    requires InOrder(marks)
    ensures Proper(Entries(marks))
  {
    if marks != [] {
      EntriesAreProper(marks[..|marks| - 1]);
    }
  }

  // ---------------------------------------------------------------------------
  // Overlap
  // ---------------------------------------------------------------------------

  // In order, each before the next.
  predicate Rising(entries: seq<Suppression>) {
    forall i, j :: 0 <= i < j < |entries| ==> entries[i].end < entries[j].start
  }

  lemma {:induction false} NoOverlapFrom(sorted: seq<Suppression>, k: nat)
    requires k >= 1
    ensures FirstOverlap(sorted, k).None? <==> forall i :: k <= i < |sorted| ==> sorted[i - 1].end < sorted[i].start
    decreases |sorted| - k
  {
    if k < |sorted| && sorted[k - 1].end < sorted[k].start {
      NoOverlapFrom(sorted, k + 1);
    }
  }

  lemma {:induction false} NeighboursRise(sorted: seq<Suppression>, i: nat, j: nat)
    requires Proper(sorted) && i < j < |sorted|
    requires forall n :: 1 <= n < |sorted| ==> sorted[n - 1].end < sorted[n].start
    ensures sorted[i].end < sorted[j].start
    decreases j
  {
    if i + 1 < j {
      NeighboursRise(sorted, i, j - 1);
      assert sorted[j - 1] in sorted;
      assert sorted[j - 1].end < sorted[j].start;
    } else {
      assert sorted[j - 1].end < sorted[j].start;
    }
  }

  // Whatever the order, entries are pairwise disjoint when each stands once and meets no other.
  ghost predicate Apart(entries: multiset<Suppression>) {
    && (forall a :: a in entries ==> entries[a] == 1)
    && (forall a, b :: a in entries && b in entries && a != b ==> Disjoint(a, b))
  }

  lemma PairwiseIsApart(entries: seq<Suppression>)
    requires Proper(entries)
    ensures PairwiseDisjoint(entries) <==> Apart(multiset(entries))
  {
    if PairwiseDisjoint(entries) {
      forall a | a in multiset(entries)
        ensures multiset(entries)[a] == 1
      {
        if multiset(entries)[a] > 1 {
          TwiceOverlaps(entries, a);
        }
      }
      forall a, b | a in multiset(entries) && b in multiset(entries) && a != b
        ensures Disjoint(a, b)
      {
        assert a in entries && b in entries;
        var i :| 0 <= i < |entries| && entries[i] == a;
        var j :| 0 <= j < |entries| && entries[j] == b;
        assert if i < j then Disjoint(entries[i], entries[j]) else Disjoint(entries[j], entries[i]);
      }
    }
    if Apart(multiset(entries)) {
      forall i, j | 0 <= i < j < |entries|
        ensures Disjoint(entries[i], entries[j])
      {
        assert entries[i] in multiset(entries) && entries[j] in multiset(entries);
        if entries[i] == entries[j] {
          Sorting.TwiceCounts(entries, i, j);
          assert false;
        }
      }
    }
  }

  lemma TwiceOverlaps(entries: seq<Suppression>, a: Suppression)
    requires Proper(entries) && multiset(entries)[a] > 1
    ensures !PairwiseDisjoint(entries)
  {
    var i, j := Sorting.Twice(entries, a);
    assert a in entries;
    assert !Disjoint(entries[i], entries[j]);
  }

  lemma SortedRises(entries: seq<Suppression>)
    requires Proper(entries)
    ensures var sorted := Sorting.Sort(entries, Earlier);
      && (FirstOverlap(sorted, 1).None? <==> PairwiseDisjoint(entries))
      && (FirstOverlap(sorted, 1).None? ==> Rising(sorted))
  {
    hide Sorting.Sort;
    var sorted := Sorting.Sort(entries, Earlier);
    Sorting.SortSorts(entries, Earlier);
    Sorting.SortKeeps(entries, Earlier);
    PairwiseIsApart(entries);
    PairwiseIsApart(sorted);
    NoOverlapFrom(sorted, 1);
    if FirstOverlap(sorted, 1).None? {
      forall i, j | 0 <= i < j < |sorted|
        ensures sorted[i].end < sorted[j].start
      {
        NeighboursRise(sorted, i, j);
      }
    }
    if PairwiseDisjoint(sorted) {
      forall i | 1 <= i < |sorted|
        ensures sorted[i - 1].end < sorted[i].start
      {
        assert Disjoint(sorted[i - 1], sorted[i]);
        assert !Earlier(sorted[i], sorted[i - 1]);
        assert sorted[i] in sorted;
      }
    }
  }

  // The parser accepts exactly the markers whose regions pair up and whose suppressions are
  // pairwise disjoint, and its list is all of them in order.
  lemma ParserAccepts(marks: seq<Mark>)
    requires InOrder(marks)
    ensures Parsed(marks).Ok? <==> Paired(marks) && PairwiseDisjoint(Entries(marks))
    ensures Parsed(marks).Ok? ==>
      && multiset(Parsed(marks).value) == multiset(Entries(marks))
      && Rising(Parsed(marks).value) && Proper(Parsed(marks).value)
  {
    hide Sorting.Sort, Entries, OpenAt, PairwiseDisjoint;
    EntriesAreProper(marks);
    SortedRises(Entries(marks));
    Sorting.SortKeeps(Entries(marks), Earlier);
    if Scanned(marks).Ok? {
      var o := ScanKnows(marks);
      OpensOnce(marks, o);
      FoundIsEntries(marks);
    }
    if Paired(marks) {
      PairedIsClosed(marks);
      OpenAtScans(marks, -1);
      FoundIsEntries(marks);
    }
  }

  // The same of every C++ source and its comments.
  lemma SourceAccepted(source: Text, starts: seq<nat>)
    requires Positions.AreLines(source, starts, |source|)
    ensures InSource(source, CommentsOf(source))
    ensures var marks := MarksOf(source, starts, CommentsOf(source));
      && InOrder(marks)
      && (Parsed(marks).Ok? <==> Paired(marks) && PairwiseDisjoint(Entries(marks)))
      && (Parsed(marks).Ok? ==>
        && multiset(Parsed(marks).value) == multiset(Entries(marks))
        && Rising(Parsed(marks).value) && Proper(Parsed(marks).value))
  {
    hide *;
    CommentsAreInSource(source);
    MarksAreInOrder(source, starts, CommentsOf(source));
    ParserAccepts(MarksOf(source, starts, CommentsOf(source)));
  }

  lemma PairedIsClosed(marks: seq<Mark>)
    requires Paired(marks)
    ensures OpenAt(marks, -1)
  {
  }
}
