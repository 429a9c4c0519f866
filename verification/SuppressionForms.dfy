// Which comments are suppression markers and what their suppressions are, without reference to
// how the program reads them (tools/cleanup/generate_cleanup_json.cpp parseInlineSuppressions).
module SuppressionForms {
  import opened Wrappers
  import opened Codec
  import opened Lexer
  import opened LexicalGrammar
  import opened Search
  import opened Suppressions
  import Positions
  import Sorting

  // ---------------------------------------------------------------------------
  // The five forms of a marker
  // ---------------------------------------------------------------------------

  // Two slashes, blanks, and the prefix at `at`.
  ghost predicate Prefixed(comment: Text, prefix: string, at: nat) {
    && Reads(comment, 0, "//") && 2 <= at && Reads(comment, at, prefix)
    && forall k :: 2 <= k < at ==> BlankUnit(comment[k])
  }

  // After the prefix, between blanks, the reason: it is not empty, starts and ends with other
  // units than blanks, and has no line terminator.
  ghost predicate ReasonAt(comment: Text, from: nat, start: nat, end: nat) {
    && from <= start < end <= |comment|
    && (forall k :: from <= k < start || end <= k < |comment| ==> BlankUnit(comment[k]))
    && !BlankUnit(comment[start]) && !BlankUnit(comment[end - 1])
    && forall k :: start <= k < end ==> comment[k] !in [0x0A, 0x0D, 0x2028, 0x2029]
  }

  ghost predicate HasReason(comment: Text, prefix: string, reason: Text) {
    exists at: nat, start: nat, end: nat ::
      Prefixed(comment, prefix, at) && ReasonAt(comment, at + |prefix|, start, end) && reason == comment[start..end]
  }

  // After the prefix, no letter, digit or underscore.
  ghost predicate Terminates(comment: Text, prefix: string) {
    exists at: nat ::
      && Prefixed(comment, prefix, at)
      && (at + |prefix| < |comment| ==> comment[at + |prefix|] == 0x24 || !WordPart(comment[at + |prefix|]))
  }

  ghost predicate IsMarker(comment: Text, m: Marker) {
    match m
    case Ignore(reason) => HasReason(comment, "CLEANUP-IGNORE:", reason)
    case Off(Cleanup, reason) => HasReason(comment, "CLEANUP-OFF:", reason)
    case Off(Cpd, reason) => HasReason(comment, "CPD-OFF:", reason)
    case On(Cleanup) => Terminates(comment, "CLEANUP-ON")
    case On(Cpd) => Terminates(comment, "CPD-ON")
  }

  // ---------------------------------------------------------------------------
  // Trimming
  // ---------------------------------------------------------------------------

  // The text between the blanks at both ends.
  ghost predicate Core(text: Text, start: nat, end: nat) {
    && start <= end <= |text|
    && (forall k :: 0 <= k < start || end <= k < |text| ==> BlankUnit(text[k]))
    && (start < end ==> !BlankUnit(text[start]) && !BlankUnit(text[end - 1]))
  }

  lemma {:induction false} TrimmedCore(text: Text) returns (start: nat, end: nat)
    ensures Core(text, start, end) && Trimmed(text) == text[start..end]
    decreases |text|
  {
    hide Whitespace, BlankUnit;
    start, end := 0, |text|;
    if text != [] {
      Classes(text[0]);
      Classes(text[|text| - 1]);
      if Whitespace(text[0]) {
        var s, e := TrimmedCore(text[1..]);
        start, end := s + 1, e + 1;
        assert text[1..][s..e] == text[start..end];
        forall k | 0 <= k < start || end <= k < |text|
          ensures BlankUnit(text[k])
        {
          assert k > 0 ==> text[1..][k - 1] == text[k];
        }
      } else if Whitespace(text[|text| - 1]) {
        start, end := TrimmedCore(text[..|text| - 1]);
        assert text[..|text| - 1][start..end] == text[start..end];
        forall k | 0 <= k < start || end <= k < |text|
          ensures BlankUnit(text[k])
        {
          assert k < |text| - 1 ==> text[..|text| - 1][k] == text[k];
        }
      }
    }
  }

  // ---------------------------------------------------------------------------
  // The program's markers are exactly these
  // ---------------------------------------------------------------------------

  // A prefix of printable ASCII characters.
  predicate Printable(prefix: string) {
    prefix != [] && forall k :: 0 <= k < |prefix| ==> '!' <= prefix[k] <= '~'
  }

  lemma StartsReads(text: Text, prefix: string)
    requires forall k :: 0 <= k < |prefix| ==> prefix[k] < 128 as char
    ensures StartsWith(text, prefix) <==> Reads(text, 0, prefix)
  {
    OccursStands(text, Units(prefix), 0);
    var units := Units(prefix);
    assert forall k :: 0 <= k < |prefix| ==> units[k] == prefix[k] as int;
  }

  lemma PrintableUnit(u: CodeUnit)
    requires 0x21 <= u <= 0x7E
    ensures !BlankUnit(u)
  {
  }

  // What a comment holds between the slashes and the blanks at its end.
  ghost predicate Body(comment: Text, start: nat, end: nat) {
    && Reads(comment, 0, "//") && 2 <= start <= end <= |comment|
    && (forall k :: 2 <= k < start || end <= k < |comment| ==> BlankUnit(comment[k]))
    && (start < end ==> !BlankUnit(comment[start]) && !BlankUnit(comment[end - 1]))
  }

  lemma BodyOf(comment: Text) returns (start: nat, end: nat)
    requires Reads(comment, 0, "//")
    ensures Body(comment, start, end) && Trimmed(comment[2..]) == comment[start..end]
  {
    hide Trimmed, BlankUnit;
    var s, e := TrimmedCore(comment[2..]);
    start, end := s + 2, e + 2;
    forall k | 2 <= k < start || end <= k < |comment|
      ensures BlankUnit(comment[k])
    {
      assert comment[2..][k - 2] == comment[k];
    }
  }

  lemma PrefixedIs(comment: Text, prefix: string, start: nat, end: nat, at: nat)
    requires Body(comment, start, end) && Printable(prefix)
    ensures Prefixed(comment, prefix, at) <==> at == start && StartsWith(comment[start..end], prefix)
    ensures Prefixed(comment, prefix, at) ==> at + |prefix| <= end
  {
    hide BlankUnit, StartsWith;
    var body := comment[start..end];
    StartsReads(body, prefix);
    if Prefixed(comment, prefix, at) {
      assert comment[at] == prefix[0] as int && comment[at + |prefix| - 1] == prefix[|prefix| - 1] as int;
      PrintableUnit(comment[at]);
      PrintableUnit(comment[at + |prefix| - 1]);
      assert forall k :: 0 <= k < |prefix| ==> comment[at + k] == prefix[k] as int;
      assert start <= at && at + |prefix| - 1 < end;
      assert at < end;
      assert at <= start;
      forall k | 0 <= k < |prefix|
        ensures body[k] == prefix[k] as int
      {
        assert body[k] == comment[start + k];
      }
    }
    if Reads(body, 0, prefix) {
      forall k | 0 <= k < |prefix|
        ensures comment[start + k] == prefix[k] as int
      {
        assert body[0 + k] == comment[start + k];
      }
    }
  }

  lemma ReasonIs(comment: Text, prefix: string, reason: Text)
    requires StartsWith(comment, "//") && Printable(prefix)
    ensures Reason(comment, prefix) == Some(reason) <==> HasReason(comment, prefix, reason)
  {
    hide Trimmed, StartsWith, Prefixed;
    StartsReads(comment, "//");
    var start, end := BodyOf(comment);
    forall at: nat
      ensures Prefixed(comment, prefix, at) <==> at == start && StartsWith(comment[start..end], prefix)
      ensures Prefixed(comment, prefix, at) ==> at + |prefix| <= end
    {
      PrefixedIs(comment, prefix, start, end, at);
    }
    assert Prefixed(comment, prefix, start) <==> StartsWith(comment[start..end], prefix);
    if StartsWith(comment[start..end], prefix) {
      ReasonAfter(comment, prefix, start, end, reason);
    }
  }

  lemma ReasonAfter(comment: Text, prefix: string, start: nat, end: nat, reason: Text)
    requires Body(comment, start, end) && start + |prefix| <= end
    ensures var read := Trimmed(comment[start..end][|prefix|..]);
      (reason == read && read != [] && forall u :: u in read ==> !LineTerminator(u)) <==>
      exists s: nat, e: nat :: ReasonAt(comment, start + |prefix|, s, e) && reason == comment[s..e]
  {
    hide Trimmed, BlankUnit;
    var from := start + |prefix|;
    var rest := comment[start..end][|prefix|..];
    assert rest == comment[from..end];
    var s, e := TrimmedCore(rest);
    var a, b := from + s, from + e;
    assert Trimmed(rest) == comment[a..b];
    forall k | from <= k < a || b <= k < |comment|
      ensures BlankUnit(comment[k])
    {
      assert k < end ==> rest[k - from] == comment[k];
    }
    forall other: nat, otherEnd: nat | ReasonAt(comment, from, other, otherEnd)
      ensures other == a && otherEnd == b
    {
      OneReason(comment, from, a, b, other, otherEnd);
    }
    assert (forall u :: u in comment[a..b] ==> !LineTerminator(u)) <==>
      forall k :: a <= k < b ==> comment[k] !in [0x0A, 0x0D, 0x2028, 0x2029] by {
      TerminatorFree(comment, a, b);
    }
    ReasonThere(comment, from, a, b);
  }

  ghost predicate Between(comment: Text, from: nat, a: nat, b: nat) {
    && from <= a <= b <= |comment|
    && (forall k :: from <= k < a || b <= k < |comment| ==> BlankUnit(comment[k]))
    && (a < b ==> !BlankUnit(comment[a]) && !BlankUnit(comment[b - 1]))
  }

  lemma OneReason(comment: Text, from: nat, a: nat, b: nat, start: nat, end: nat)
    requires Between(comment, from, a, b) && ReasonAt(comment, from, start, end)
    ensures start == a && end == b
  {
    hide BlankUnit;
    assert a <= start && end <= b;
    assert start <= a && b <= end;
  }

  lemma ReasonThere(comment: Text, from: nat, a: nat, b: nat)
    requires Between(comment, from, a, b)
    ensures a < b && (forall k :: a <= k < b ==> comment[k] !in [0x0A, 0x0D, 0x2028, 0x2029]) <==>
      ReasonAt(comment, from, a, b)
  {
    hide BlankUnit;
  }

  lemma TerminatorFree(text: Text, a: nat, b: nat)
    requires a <= b <= |text|
    ensures (forall u :: u in text[a..b] ==> !LineTerminator(u)) <==>
      forall k :: a <= k < b ==> text[k] !in [0x0A, 0x0D, 0x2028, 0x2029]
  {
    forall k | a <= k < b
      ensures text[k] in text[a..b]
    {
      assert text[a..b][k - a] == text[k];
    }
  }

  lemma TerminatorIs(comment: Text, prefix: string)
    requires StartsWith(comment, "//") && Printable(prefix)
    ensures Terminator(comment, prefix) <==> Terminates(comment, prefix)
  {
    hide Trimmed, StartsWith, Prefixed;
    StartsReads(comment, "//");
    var start, end := BodyOf(comment);
    forall at: nat
      ensures Prefixed(comment, prefix, at) <==> at == start && StartsWith(comment[start..end], prefix)
      ensures Prefixed(comment, prefix, at) ==> at + |prefix| <= end
    {
      PrefixedIs(comment, prefix, start, end, at);
    }
    assert Prefixed(comment, prefix, start) <==> StartsWith(comment[start..end], prefix);
    if start + |prefix| <= end {
      NoWordAfter(comment, prefix, start, end);
    }
  }

  // Where the body ends, a blank or nothing follows.
  lemma NoWordAfter(comment: Text, prefix: string, start: nat, end: nat)
    requires Body(comment, start, end) && start + |prefix| <= end
    ensures var body, next := comment[start..end], start + |prefix|;
      (|body| == |prefix| || !(Letter(body[|prefix|]) || Digit(body[|prefix|]) || Is(body[|prefix|], '_'))) <==>
      (next < |comment| ==> comment[next] == 0x24 || !WordPart(comment[next]))
  {
    hide BlankUnit, WordPart, Letter, Digit, Is;
    var next := start + |prefix|;
    if next < |comment| {
      WordOrDollar(comment[next]);
      BlankIsNoWord(comment[next]);
    }
  }

  lemma WordOrDollar(u: CodeUnit)
    ensures Letter(u) || Digit(u) || Is(u, '_') <==> u != 0x24 && WordPart(u)
  {
  }

  lemma BlankIsNoWord(u: CodeUnit)
    ensures BlankUnit(u) ==> !WordPart(u)
  {
  }

  lemma SamePrefixes(comment: Text, p: string, q: string, a: nat, b: nat, k: nat)
    requires Printable(p) && Printable(q) && k < |p| && k < |q|
    requires Prefixed(comment, p, a) && Prefixed(comment, q, b)
    ensures p[k] == q[k]
  {
    hide BlankUnit;
    assert comment[a + 0] == p[0] as int && comment[b + 0] == q[0] as int;
    PrintableUnit(comment[a]);
    PrintableUnit(comment[b]);
    assert a == b;
    assert comment[a + k] == p[k] as int && comment[b + k] == q[k] as int;
  }

  // Two prefixes in one comment do not differ at any place.
  lemma PrefixesDiffer(comment: Text, p: string, q: string, k: nat)
    requires Printable(p) && Printable(q) && k < |p| && k < |q|
    ensures forall a: nat, b: nat :: Prefixed(comment, p, a) && Prefixed(comment, q, b) ==> p[k] == q[k]
  {
    hide Prefixed;
    forall a: nat, b: nat | Prefixed(comment, p, a) && Prefixed(comment, q, b)
      ensures p[k] == q[k]
    {
      SamePrefixes(comment, p, q, a, b, k);
    }
  }

  ghost predicate SomePrefix(comment: Text, prefix: string) {
    exists at: nat :: Prefixed(comment, prefix, at)
  }

  // At most one of the five prefixes stands in a comment.
  lemma OnePrefix(comment: Text)
    ensures SomePrefix(comment, "CLEANUP-IGNORE:") ==>
      && !SomePrefix(comment, "CLEANUP-OFF:") && !SomePrefix(comment, "CPD-OFF:")
      && !SomePrefix(comment, "CLEANUP-ON") && !SomePrefix(comment, "CPD-ON")
    ensures SomePrefix(comment, "CLEANUP-OFF:") ==>
      !SomePrefix(comment, "CPD-OFF:") && !SomePrefix(comment, "CLEANUP-ON") && !SomePrefix(comment, "CPD-ON")
    ensures SomePrefix(comment, "CPD-OFF:") ==> !SomePrefix(comment, "CLEANUP-ON") && !SomePrefix(comment, "CPD-ON")
    ensures SomePrefix(comment, "CLEANUP-ON") ==> !SomePrefix(comment, "CPD-ON")
  {
    hide Prefixed;
    PrefixesDiffer(comment, "CLEANUP-IGNORE:", "CLEANUP-OFF:", 8);
    PrefixesDiffer(comment, "CLEANUP-IGNORE:", "CPD-OFF:", 1);
    PrefixesDiffer(comment, "CLEANUP-IGNORE:", "CLEANUP-ON", 8);
    PrefixesDiffer(comment, "CLEANUP-IGNORE:", "CPD-ON", 1);
    PrefixesDiffer(comment, "CLEANUP-OFF:", "CPD-OFF:", 1);
    PrefixesDiffer(comment, "CLEANUP-OFF:", "CLEANUP-ON", 9);
    PrefixesDiffer(comment, "CLEANUP-OFF:", "CPD-ON", 1);
    PrefixesDiffer(comment, "CPD-OFF:", "CLEANUP-ON", 1);
    PrefixesDiffer(comment, "CPD-OFF:", "CPD-ON", 5);
    PrefixesDiffer(comment, "CLEANUP-ON", "CPD-ON", 1);
  }

  lemma FormsArePrefixed(comment: Text, prefix: string)
    ensures Terminates(comment, prefix) ==> SomePrefix(comment, prefix)
    ensures forall reason :: HasReason(comment, prefix, reason) ==> SomePrefix(comment, prefix)
    ensures SomePrefix(comment, prefix) ==> Reads(comment, 0, "//")
  {
    hide ReasonAt;
  }

  // A comment has a marker exactly when it has that form.
  lemma MarkerIs(comment: Text, m: Marker)
    ensures MarkerOf(comment) == Some(m) <==> IsMarker(comment, m)
  {
    hide StartsWith, Reason, Terminator, HasReason, Terminates, SomePrefix;
    StartsReads(comment, "//");
    OnePrefix(comment);
    FormsArePrefixed(comment, "CLEANUP-IGNORE:");
    FormsArePrefixed(comment, "CLEANUP-OFF:");
    FormsArePrefixed(comment, "CPD-OFF:");
    FormsArePrefixed(comment, "CLEANUP-ON");
    FormsArePrefixed(comment, "CPD-ON");
    if StartsWith(comment, "//") {
      TerminatorIs(comment, "CLEANUP-ON");
      TerminatorIs(comment, "CPD-ON");
      forall reason
        ensures Reason(comment, "CLEANUP-IGNORE:") == Some(reason) <==> HasReason(comment, "CLEANUP-IGNORE:", reason)
        ensures Reason(comment, "CLEANUP-OFF:") == Some(reason) <==> HasReason(comment, "CLEANUP-OFF:", reason)
        ensures Reason(comment, "CPD-OFF:") == Some(reason) <==> HasReason(comment, "CPD-OFF:", reason)
      {
        ReasonIs(comment, "CLEANUP-IGNORE:", reason);
        ReasonIs(comment, "CLEANUP-OFF:", reason);
        ReasonIs(comment, "CPD-OFF:", reason);
      }
    }
  }

  // ---------------------------------------------------------------------------
  // The lines that markers speak of
  // ---------------------------------------------------------------------------

  // Line k of the source, counted from 1, is the part [start, end), without its newline.
  ghost predicate IsLine(source: Text, starts: seq<nat>, k: nat, start: nat, end: nat) {
    && 1 <= k <= |starts| && start == starts[k - 1] && start <= end <= |source|
    && (if end == |source| then k == |starts| else source[end] == 0x0A && k < |starts| && starts[k] == end + 1)
  }

  // It has something other than blanks, and that is no line comment.
  ghost predicate HasCode(source: Text, start: nat, end: nat)
    requires end <= |source|
  {
    exists at: nat ::
      && start <= at < end && !BlankUnit(source[at])
      && (forall k :: start <= k < at ==> BlankUnit(source[k]))
      && !(at + 2 <= end && Reads(source, at, "//"))
  }

  // Line k exists and has code.
  ghost predicate LineHasCode(source: Text, starts: seq<nat>, k: nat) {
    exists start: nat, end: nat :: IsLine(source, starts, k, start, end) && HasCode(source, start, end)
  }

  // The line that an ignoring comment at the offset speaks of: its own when something stands
  // before it there, otherwise the first later one with code, or the one after the last.
  ghost predicate SpeaksOf(source: Text, starts: seq<nat>, line: nat, offset: nat, target: nat)
    requires 1 <= line <= |starts| && starts[line - 1] <= offset <= |source|
  {
    if exists k :: starts[line - 1] <= k < offset && !BlankUnit(source[k]) then target == line
    else
      && line < target <= |starts| + 1
      && (forall k: nat :: line < k < target ==> !LineHasCode(source, starts, k))
      && (target <= |starts| ==> LineHasCode(source, starts, target))
  }

  lemma CommentReads(text: Text, start: nat, end: nat)
    requires Core(text, start, end)
    ensures StartsWith(text[start..end], "//") <==> start + 2 <= |text| && Reads(text, start, "//")
  {
    hide BlankUnit, StartsWith;
    var core := text[start..end];
    StartsReads(core, "//");
    if Reads(core, 0, "//") {
      assert core[0 + 0] == text[start + 0] && core[0 + 1] == text[start + 1];
    }
    if Reads(text, start, "//") {
      assert text[start + 0] == "//"[0] as int && text[start + 1] == "//"[1] as int;
      PrintableUnit(0x2F);
      assert start + 1 < end;
      assert core[0 + 0] == text[start + 0] && core[0 + 1] == text[start + 1];
    }
  }

  lemma CodeIs(source: Text, start: nat, end: nat)
    requires start <= end <= |source|
    ensures var text := Trimmed(source[start..end]);
      text != [] && !StartsWith(text, "//") <==> HasCode(source, start, end)
  {
    hide Trimmed, BlankUnit, StartsWith;
    var line := source[start..end];
    var s, e := TrimmedCore(line);
    assert forall k :: start <= k < end ==> line[k - start] == source[k];
    forall at | start <= at < end && !BlankUnit(source[at]) && forall k :: start <= k < at ==> BlankUnit(source[k])
      ensures s < e && at == start + s
    {
      assert line[at - start] == source[at];
      assert s < e ==> source[start + s] == line[s];
    }
    if s < e {
      assert source[start + s] == line[s];
      assert line[s..e] != [];
      CommentReads(line, s, e);
      SlashesIn(source, start, end, s);
    }
  }

  lemma SlashesIn(source: Text, start: nat, end: nat, s: nat)
    requires start + s <= end <= |source|
    ensures s + 2 <= |source[start..end]| && Reads(source[start..end], s, "//") <==>
      start + s + 2 <= end && Reads(source, start + s, "//")
  {
    if start + s + 2 <= end {
      assert source[start..end][s + 0] == source[start + s + 0] && source[start..end][s + 1] == source[start + s + 1];
    }
  }

  lemma CodeLineIs(source: Text, starts: seq<nat>, k: nat)
    requires Positions.AreLines(source, starts, |source|) && k < |starts|
    ensures CodeLine(source, starts, k) <==> LineHasCode(source, starts, k + 1)
  {
    hide Trimmed, HasCode, StartsWith;
    var start, end := starts[k], if k + 1 < |starts| then starts[k + 1] - 1 else |source|;
    CodeIs(source, start, end);
    assert IsLine(source, starts, k + 1, start, end) by {
      assert k + 1 < |starts| ==> Positions.LineStart(source, starts[k + 1]);
    }
  }

  // The program finds the line that the comment speaks of.
  lemma TargetIs(source: Text, starts: seq<nat>, line: nat, offset: nat, target: nat)
    requires 1 <= line <= |starts| && Positions.AreLines(source, starts, |source|)
    requires starts[line - 1] <= offset <= |source|
    ensures Target(source, starts, line, offset) == target <==> SpeaksOf(source, starts, line, offset, target)
  {
    hide Trimmed, Positions.AreLines, CodeLine, LineHasCode, BlankUnit;
    forall k: nat | k < |starts|
      ensures CodeLine(source, starts, k) <==> LineHasCode(source, starts, k + 1)
    {
      CodeLineIs(source, starts, k);
    }
    var before := source[starts[line - 1]..offset];
    var s, e := TrimmedCore(before);
    assert Trimmed(before) == [] <==> s == e;
    assert forall k :: starts[line - 1] <= k < offset ==> before[k - starts[line - 1]] == source[k];
    assert s < e ==> before[s] == source[starts[line - 1] + s];
    if s == e {
      var next := NextCode(source, starts, line);
      forall k: nat | line < k <= next
        ensures !LineHasCode(source, starts, k)
      {
        assert !CodeLine(source, starts, k - 1);
      }
      assert next < |starts| ==> LineHasCode(source, starts, next + 1);
    }
  }

  predicate Increasing(places: seq<nat>) {
    forall j, k :: 0 <= j < k < |places| ==> places[j] < places[k]
  }

  // The mark says what the comment's marker is, on which line it stands and of which it speaks.
  ghost predicate IsMark(source: Text, starts: seq<nat>, c: Comment, mark: Mark) {
    && IsMarker(c.text, mark.marker)
    && 1 <= mark.line <= |starts| && starts[mark.line - 1] <= c.offset <= |source|
    && (mark.line < |starts| ==> c.offset < starts[mark.line])
    && SpeaksOf(source, starts, mark.line, c.offset, mark.target)
  }

  ghost predicate NoMarker(text: Text) {
    forall m :: !IsMarker(text, m)
  }

  // The marks are those of the comments with a marker, in their order.
  ghost predicate AreMarks(source: Text, starts: seq<nat>, comments: seq<Comment>, places: seq<nat>, marks: seq<Mark>) {
    && |places| == |marks| && Increasing(places)
    && (forall k :: 0 <= k < |places| ==>
          places[k] < |comments| && IsMark(source, starts, comments[places[k]], marks[k]))
    && (forall i: nat :: i < |comments| && i !in places ==> NoMarker(comments[i].text))
  }

  lemma AreMarksGrow(
      source: Text, starts: seq<nat>, comments: seq<Comment>, places: seq<nat>, marks: seq<Mark>, mark: Option<Mark>)
    requires comments != [] && AreMarks(source, starts, comments[..|comments| - 1], places, marks)
    requires var c := comments[|comments| - 1];
      if mark.None? then NoMarker(c.text) else IsMark(source, starts, c, mark.value)
    ensures if mark.None? then AreMarks(source, starts, comments, places, marks)
      else AreMarks(source, starts, comments, places + [|comments| - 1], marks + [mark.value])
  {
    hide IsMark, NoMarker;
    var k := |comments| - 1;
    var front, more := comments[..k], places + [k];
    assert forall i :: 0 <= i < k ==> front[i] == comments[i];
    assert forall i :: i in more <==> i in places || i == k;
  }

  lemma {:induction false} MarksAre(source: Text, starts: seq<nat>, comments: seq<Comment>) returns (places: seq<nat>)
    requires InSource(source, comments) && Positions.AreLines(source, starts, |source|)
    ensures AreMarks(source, starts, comments, places, MarksOf(source, starts, comments))
  {
    hide IsMarker, MarkerOf, Target, SpeaksOf, Positions.LineOf, AreMarks;
    if comments == [] {
      places := [];
      NoMarks(source, starts);
    } else {
      var k := |comments| - 1;
      var c := comments[k];
      places := MarksAre(source, starts, comments[..k]);
      Positions.LineAround(source, starts, c.offset);
      var line := Positions.LineOf(starts, c.offset);
      forall m
        ensures MarkerOf(c.text) == Some(m) <==> IsMarker(c.text, m)
      {
        MarkerIs(c.text, m);
      }
      var marks, marker := MarksOf(source, starts, comments[..k]), MarkerOf(c.text);
      if marker.Some? {
        var target := Target(source, starts, line, c.offset);
        TargetIs(source, starts, line, c.offset, target);
        AreMarksGrow(source, starts, comments, places, marks, Some(Mark(line, target, marker.value)));
        places := places + [k];
      } else {
        AreMarksGrow(source, starts, comments, places, marks, None);
      }
    }
  }

  lemma NoMarks(source: Text, starts: seq<nat>)
    ensures AreMarks(source, starts, [], [], [])
  {
  }

  // A single line for both detectors, or the region from its opening marker to this one; a
  // CPD region is for the CPD detector alone.
  ghost predicate IsEntry(marks: seq<Mark>, n: nat, e: Suppression)
    requires n < |marks|
  {
    var mark := marks[n];
    match mark.marker
    case Ignore(reason) =>
      && e.kind == Single && e.detectors == {Duplo, CpdDetector} && e.marker == mark.line
      && e.start == mark.target && e.end == mark.target && e.reason == reason
    case Off(_, _) => false
    case On(family) => exists i: nat :: Closes(marks, i, n) && IsRegion(marks[i], mark, family, e)
  }

  predicate IsRegion(off: Mark, on: Mark, family: Family, e: Suppression)
    requires off.marker.Off?
  {
    && e.kind == Range && e.marker == off.line && e.start == off.line && e.end == on.line
    && e.reason == off.marker.reason
    && CpdDetector in e.detectors && (Duplo in e.detectors <==> family == Cleanup)
  }

  lemma CloserOpens(marks: seq<Mark>, i: nat, j: nat)
    requires Closes(marks, i, j)
    ensures Opener(marks, j) == i
  {
  }

  // The suppressions are those of the single-line markers and the closed regions, in the order
  // of the markers that complete them.
  ghost predicate AreEntries(marks: seq<Mark>, places: seq<nat>, entries: seq<Suppression>) {
    && |places| == |entries| && Increasing(places)
    && (forall k :: 0 <= k < |places| ==> places[k] < |marks| && IsEntry(marks, places[k], entries[k]))
    && (forall n: nat :: n < |marks| && n !in places ==> marks[n].marker.Off?)
  }

  lemma AreEntriesGrow(marks: seq<Mark>, places: seq<nat>, entries: seq<Suppression>, e: Option<Suppression>)
    requires marks != [] && AreEntries(marks[..|marks| - 1], places, entries)
    requires var k := |marks| - 1; if e.None? then marks[k].marker.Off? else IsEntry(marks, k, e.value)
    ensures if e.None? then AreEntries(marks, places, entries)
      else AreEntries(marks, places + [|marks| - 1], entries + [e.value])
  {
    hide IsEntry;
    var k := |marks| - 1;
    var front, more := marks[..k], places + [k];
    forall n: nat, other | n < k && IsEntry(front, n, other)
      ensures IsEntry(marks, n, other)
    {
      EntryInFront(marks, n, other);
    }
    assert forall i :: 0 <= i < k ==> front[i] == marks[i];
    assert forall i :: i in more <==> i in places || i == k;
  }

  lemma {:induction false} EntriesAre(marks: seq<Mark>) returns (places: seq<nat>)
    requires forall j: nat :: j < |marks| && marks[j].marker.On? ==> Suppressions.Closing(marks, j)
    ensures AreEntries(marks, places, Entries(marks))
  {
    hide Closes, Opener, IsEntry, AreEntries, SingleOf, RangeOf;
    if marks == [] {
      places := [];
      NoEntries();
    } else {
      var k := |marks| - 1;
      var front := marks[..k];
      forall j: nat | j < k && marks[j].marker.On?
        ensures Suppressions.Closing(front, j)
      {
        ClosingInFront(marks, j);
      }
      places := EntriesAre(front);
      if marks[k].marker.Off? {
        assert Entries(marks) == Entries(front);
        AreEntriesGrow(marks, places, Entries(front), None);
      } else {
        var e := LastEntry(marks);
        AreEntriesGrow(marks, places, Entries(front), Some(e));
        places := places + [k];
      }
    }
  }

  lemma NoEntries()
    ensures AreEntries([], [], [])
  {
  }

  lemma EntryInFront(marks: seq<Mark>, n: nat, e: Suppression)
    requires marks != [] && n < |marks| - 1 && IsEntry(marks[..|marks| - 1], n, e)
    ensures IsEntry(marks, n, e)
  {
    var front := marks[..|marks| - 1];
    if marks[n].marker.On? {
      var i: nat :| Closes(front, i, n) && IsRegion(front[i], front[n], marks[n].marker.family, e);
      ClosesInFront(marks, i, n);
    }
  }

  lemma LastEntry(marks: seq<Mark>) returns (e: Suppression)
    requires marks != [] && !marks[|marks| - 1].marker.Off?
    requires marks[|marks| - 1].marker.On? ==> Suppressions.Closing(marks, |marks| - 1)
    ensures var k := |marks| - 1; Entries(marks) == Entries(marks[..k]) + [e] && IsEntry(marks, k, e)
  {
    hide Closes, Opener;
    var k := |marks| - 1;
    if marks[k].marker.On? {
      var i: nat :| Closes(marks, i, k);
      CloserOpens(marks, i, k);
      ClosesSame(marks, i, k);
      e := RangeOf(marks[i], marks[k]);
      assert IsRegion(marks[i], marks[k], marks[k].marker.family, e);
    } else {
      e := SingleOf(marks[k]);
    }
  }

  lemma ClosesSame(marks: seq<Mark>, i: nat, j: nat)
    requires Closes(marks, i, j)
    ensures i < j < |marks| && marks[i].marker.Off? && marks[j].marker.On?
    ensures marks[i].marker.family == marks[j].marker.family
  {
  }

  // ---------------------------------------------------------------------------
  // Which error is reported
  // ---------------------------------------------------------------------------

  // The first k markers are fine, with the region at o still open, if any; the next one opens a
  // region inside it, or closes none of its family.
  ghost predicate FailsAt(marks: seq<Mark>, k: nat, error: Error) {
    && k < |marks|
    && exists o: int ::
         && OpenAt(marks[..k], o)
         && match marks[k].marker
            case Ignore(_) => false
            case Off(_, _) => o >= 0 && error == Nested(marks[k].line)
            case On(family) =>
              (o < 0 || marks[o].marker.family != family) && error == Unmatched(marks[k].line)
  }

  lemma OneOpen(marks: seq<Mark>, a: int, b: int)
    requires OpenAt(marks, a) && OpenAt(marks, b)
    ensures a == b
  {
    OpenAtScans(marks, a);
    OpenAtScans(marks, b);
    OpensOnce(marks, a);
    OpensOnce(marks, b);
  }

  lemma {:induction false} ScanFails(marks: seq<Mark>, error: Error)
    ensures Suppressions.Scanned(marks) == Err(error) <==> exists k: nat :: FailsAt(marks, k, error)
  {
    hide FailsAt, Next, OpenAt;
    if marks != [] {
      var last := |marks| - 1;
      var front := marks[..last];
      ScanFails(front, error);
      forall k: nat
        ensures k < last ==> (FailsAt(marks, k, error) <==> FailsAt(front, k, error))
        ensures FailsAt(marks, k, error) ==> k <= last
        ensures FailsAt(front, k, error) ==> k < last
      {
        EarlierFails(marks, k, error);
      }
      if Suppressions.Scanned(front).Ok? {
        var o := ScanKnows(front);
        LastFails(marks, o, error);
      } else {
        FailedBefore(marks, error);
      }
    } else {
      NothingFails(error);
    }
  }

  lemma NothingFails(error: Error)
    ensures forall k: nat :: !FailsAt([], k, error)
  {
  }

  lemma EarlierFails(marks: seq<Mark>, k: nat, error: Error)
    requires marks != []
    ensures var front := marks[..|marks| - 1];
      && (k < |front| ==> (FailsAt(marks, k, error) <==> FailsAt(front, k, error)))
      && (FailsAt(marks, k, error) ==> k <= |front|) && (FailsAt(front, k, error) ==> k < |front|)
  {
    hide OpenAt;
    var front := marks[..|marks| - 1];
    if k < |front| {
      assert marks[..k] == front[..k];
      forall o | OpenAt(front[..k], o)
        ensures -1 <= o < k
      {
        OpenIsThere(front[..k], o);
      }
    }
  }

  lemma FailedBefore(marks: seq<Mark>, error: Error)
    requires marks != [] && Suppressions.Scanned(marks[..|marks| - 1]).Err?
    ensures !FailsAt(marks, |marks| - 1, error)
  {
    hide OpenAt, Suppressions.Scanned;
    var front := marks[..|marks| - 1];
    forall o | OpenAt(front, o)
      ensures Suppressions.Scanned(front).Ok?
    {
      OpenAtScans(front, o);
    }
  }

  lemma LastFails(marks: seq<Mark>, o: int, error: Error)
    requires marks != [] && OpenAt(marks[..|marks| - 1], o) && Suppressions.Scanned(marks[..|marks| - 1]).Ok?
    requires Suppressions.Scanned(marks[..|marks| - 1]).value.open == OpenMark(marks[..|marks| - 1], o)
    ensures var k := |marks| - 1;
      FailsAt(marks, k, error) <==> Next(Suppressions.Scanned(marks[..k]).value, marks[k]) == Err(error)
  {
    hide OpenAt, Suppressions.Scanned;
    var front := marks[..|marks| - 1];
    OpenIsThere(front, o);
    forall other | OpenAt(front, other)
      ensures other == o
    {
      OneOpen(front, o, other);
    }
  }

  lemma OpenIsThere(marks: seq<Mark>, o: int)
    requires OpenAt(marks, o)
    ensures -1 <= o < |marks|
  {
  }

  lemma {:induction false} OverlapIsThere(sorted: seq<Suppression>, from: nat) returns (k: nat)
    requires from >= 1 && FirstOverlap(sorted, from).Some?
    ensures from <= k < |sorted| && FirstOverlap(sorted, from) == Some(sorted[k])
      && sorted[k].start <= sorted[k - 1].end
    decreases |sorted| - from
  {
    if sorted[from].start <= sorted[from - 1].end {
      k := from;
    } else {
      k := OverlapIsThere(sorted, from + 1);
    }
  }

  // By first line, then by last line.
  predicate Follows(a: Suppression, b: Suppression) {
    a.start < b.start || (a.start == b.start && a.end <= b.end)
  }

  // A region that no marker closes is reported where it opens, two suppressions that meet at the
  // later one of them; other errors where the markers fail.
  lemma ErrorIs(marks: seq<Mark>, error: Error)
    requires InOrder(marks) && Parsed(marks) == Err(error)
    ensures match error
      case Nested(_) => exists k: nat :: FailsAt(marks, k, error)
      case Unmatched(_) => exists k: nat :: FailsAt(marks, k, error)
      case Unterminated(line) => exists o: nat :: OpenAt(marks, o) && line == marks[o].line
      case Overlapping(line) => exists a, b ::
        multiset{a, b} <= multiset(Entries(marks)) && !Disjoint(a, b) && Follows(a, b) && b.marker == line
  {
    hide OpenAt, FailsAt, Entries;
    ScanFails(marks, error);
    if Suppressions.Scanned(marks).Ok? {
      var o := ScanKnows(marks);
      FoundIsEntries(marks);
      OpenIsThere(marks, o);
      if o >= 0 {
        assert OpenAt(marks, o as nat) && error == Unterminated(marks[o].line);
      } else {
        OverlapIs(marks, error);
      }
    } else {
      FailureKinds(marks, error);
    }
  }

  lemma FailureKinds(marks: seq<Mark>, error: Error)
    requires exists k: nat :: FailsAt(marks, k, error)
    ensures error.Nested? || error.Unmatched?
  {
  }

  lemma OverlapIs(marks: seq<Mark>, error: Error)
    requires InOrder(marks) && Suppressions.Scanned(marks).Ok? && Suppressions.Scanned(marks).value.open.None?
    requires Parsed(marks) == Err(error)
    ensures error.Overlapping? && exists a, b ::
      multiset{a, b} <= multiset(Entries(marks)) && !Disjoint(a, b) && Follows(a, b) && b.marker == error.line
  {
    hide Suppressions.Scanned, Entries, Sorting.Sort, Disjoint, Earlier, Follows, InOrder;
    FoundIsEntries(marks);
    var entries := Entries(marks);
    var sorted := Sorting.Sort(entries, Earlier);
    EntriesAreProper(marks);
    SortedNeighbours(entries);
    var k := OverlapIsThere(sorted, 1);
    NeighboursMeet(sorted, k);
  }

  lemma SortedNeighbours(entries: seq<Suppression>)
    requires Proper(entries)
    ensures var sorted := Sorting.Sort(entries, Earlier);
      && Proper(sorted) && multiset(sorted) == multiset(entries)
      && forall k :: 1 <= k < |sorted| ==> Follows(sorted[k - 1], sorted[k])
  {
    hide Sorting.Sort;
    Sorting.SortSorts(entries, Earlier);
    Sorting.SortKeeps(entries, Earlier);
    var sorted := Sorting.Sort(entries, Earlier);
    assert forall k :: 1 <= k < |sorted| ==> !Earlier(sorted[k], sorted[k - 1]);
  }

  lemma NeighboursMeet(sorted: seq<Suppression>, k: nat)
    requires 1 <= k < |sorted| && Proper(sorted) && Follows(sorted[k - 1], sorted[k])
    requires sorted[k].start <= sorted[k - 1].end
    ensures multiset{sorted[k - 1], sorted[k]} <= multiset(sorted) && !Disjoint(sorted[k - 1], sorted[k])
  {
    var a, b := sorted[k - 1], sorted[k];
    assert sorted == sorted[..k - 1] + [a, b] + sorted[k + 1..];
    assert a in sorted && b in sorted;
  }
}
