// The C++ lexer of the duplicate-code tool (tools/cleanup/cpd_patterns.cpp).
module Lexer {
  import opened Basics
  import opened Codec
  import opened Search

  type Text = seq<CodeUnit>

  predicate Is(u: CodeUnit, c: char) {
    u == c as int
  }

  predicate Digit(u: CodeUnit) {
    '0' as int <= u <= '9' as int
  }

  predicate Letter(u: CodeUnit) {
    'a' as int <= u <= 'z' as int || 'A' as int <= u <= 'Z' as int
  }

  predicate WordUnit(u: CodeUnit) {
    Letter(u) || Digit(u) || Is(u, '_') || Is(u, '$')
  }

  predicate NumberUnit(u: CodeUnit) {
    Letter(u) || Digit(u) || Is(u, '_') || Is(u, '.') || Is(u, '\'')
  }

  predicate Whitespace(u: CodeUnit) {
    || u == 0x20 || 0x09 <= u <= 0x0D || u == 0xA0 || u == 0x1680 || 0x2000 <= u <= 0x200A
    || u == 0x2028 || u == 0x2029 || u == 0x202F || u == 0x205F || u == 0x3000 || u == 0xFEFF
  }

  // The two units at offset, as source.substr(offset, 2) compares them.
  predicate Two(source: Text, offset: nat, a: char, b: char) {
    offset + 1 < |source| && Is(source[offset], a) && Is(source[offset + 1], b)
  }

  // The end of the longest run of units of one class that starts at `from`.
  function RunEnd(source: Text, from: nat, member: CodeUnit -> bool): (end: nat)
    requires from <= |source|
    ensures from <= end <= |source|
    ensures forall k :: from <= k < end ==> member(source[k])
    ensures end < |source| ==> !member(source[end])
    decreases |source| - from
  {
    if from < |source| && member(source[from]) then RunEnd(source, from + 1, member) else from
  }

  function LineEnd(source: Text, from: nat): (end: nat)
    requires from <= |source|
    ensures from <= end <= |source|
  {
    var end := Find<CodeUnit>(source, ['\n' as int], from);
    if end < 0 then |source| else end
  }

  // ---------------------------------------------------------------------------
  // Quoted literals
  // ---------------------------------------------------------------------------

  // The position after the closing delimiter, scanning from `at`; 0 when it is missing.
  function Closing(source: Text, delimiter: CodeUnit, at: nat): (end: nat)
    ensures end != 0 ==> at < end <= |source|
    decreases |source| - at
  {
    if at >= |source| then 0
    else if source[at] == delimiter then at + 1
    else if Is(source[at], '\\') then Closing(source, delimiter, at + 2)
    else Closing(source, delimiter, at + 1)
  }

  // `quote` itself when there is no match.
  function QuotedEnd(source: Text, quote: nat): (end: nat)
    requires quote < |source|
    ensures quote <= end <= |source|
  {
    var end := Closing(source, source[quote], quote + 1);
    if end == 0 then quote else end
  }

  method QuotedEndScan(source: Text, quote: nat) returns (result: nat)
    requires quote < |source|
    ensures result == QuotedEnd(source, quote)
  {
    var delimiter := source[quote];
    var end := quote + 1;
    while end < |source|
      invariant quote < end
      invariant Closing(source, delimiter, quote + 1) == Closing(source, delimiter, end)
    {
      if source[end] == delimiter {
        return end + 1;
      }
      if Is(source[end], '\\') {
        end := end + 1;
        if end == |source| {
          break;
        }
      }
      end := end + 1;
    }
    result := quote;
  }

  // The body of a quoted literal: units other than the delimiter and the backslash, and
  // backslashes followed by any unit at all.
  predicate QuotedBody(body: Text, delimiter: CodeUnit) {
    if body == [] then true
    else if Is(body[0], '\\') && delimiter != body[0] then |body| >= 2 && QuotedBody(body[2..], delimiter)
    else body[0] != delimiter && QuotedBody(body[1..], delimiter)
  }

  lemma {:induction false} ClosingIsBody(source: Text, delimiter: CodeUnit, at: nat, end: nat)
    requires at < end <= |source| && !Is(delimiter, '\\')
    ensures Closing(source, delimiter, at) == end <==>
      source[end - 1] == delimiter && QuotedBody(source[at..end - 1], delimiter)
    decreases |source| - at
  {
    var body := source[at..end - 1];
    if body == [] {
      if Is(source[at], '\\') || source[at] != delimiter {
        assert Closing(source, delimiter, at) != end;
      }
    } else if source[at] == delimiter {
    } else if Is(source[at], '\\') {
      if |body| >= 2 {
        ClosingIsBody(source, delimiter, at + 2, end);
        assert body[2..] == source[at + 2..end - 1];
      } else {
        assert end == at + 2;
      }
    } else {
      ClosingIsBody(source, delimiter, at + 1, end);
      assert body[1..] == source[at + 1..end - 1];
    }
  }

  // A quoted literal is the delimiter, the one body that fits, and the delimiter.
  lemma QuotedIsLiteral(source: Text, quote: nat, end: nat)
    requires quote + 1 < end <= |source| && !Is(source[quote], '\\')
    ensures QuotedEnd(source, quote) == end
       <==> source[end - 1] == source[quote] && QuotedBody(source[quote + 1..end - 1], source[quote])
  {
    ClosingIsBody(source, source[quote], quote + 1, end);
  }

  // ---------------------------------------------------------------------------
  // Raw strings
  // ---------------------------------------------------------------------------

  function StringQuote(source: Text, offset: nat): (quote: nat)
    requires offset < |source|
    ensures offset <= quote <= offset + 2 && quote <= |source|
  {
    if Two(source, offset, 'u', '8') then offset + 2
    else if Is(source[offset], 'u') || Is(source[offset], 'U') || Is(source[offset], 'L') then offset + 1
    else offset
  }

  const MAX_DELIMITER: nat := 16

  // What a raw-string delimiter may not contain.
  predicate NoDelimiter(u: CodeUnit) {
    Is(u, ' ') || Is(u, ')') || Is(u, '\\') || Is(u, '\t') || Is(u, '\r') || Is(u, '\n')
  }

  // The position of the opening parenthesis, or -1.
  function Opening(source: Text, start: nat, at: nat): (opening: int)
    requires start <= at <= |source|
    ensures opening >= 0 ==> at <= opening < |source| && opening - start <= MAX_DELIMITER && Is(source[opening], '(')
    ensures opening >= 0 ==> forall k :: at <= k < opening ==> !NoDelimiter(source[k]) && !Is(source[k], '(')
    ensures opening < 0 ==> opening == -1
    decreases |source| - at
  {
    if at == |source| || at - start > MAX_DELIMITER then -1
    else if Is(source[at], '(') then at
    else if NoDelimiter(source[at]) then -1
    else Opening(source, start, at + 1)
  }

  lemma OpeningStep(source: Text, start: nat, at: nat)
    requires start <= at <= |source|
    ensures Opening(source, start, at) ==
      if at == |source| || at - start > MAX_DELIMITER then -1
      else if Is(source[at], '(') then at
      else if NoDelimiter(source[at]) then -1
      else Opening(source, start, at + 1)
  {
  }

  function RawClose(delimiter: Text): Text {
    [')' as int] + delimiter + ['"' as int]
  }

  // `offset` itself when no raw string starts there.
  function RawStringEnd(source: Text, offset: nat): (end: nat)
    requires offset < |source|
    ensures offset <= end <= |source|
  {
    var prefix := StringQuote(source, offset);
    if !Two(source, prefix, 'R', '"') then offset
    else
      var start := prefix + 2;
      var opening := Opening(source, start, start);
      if opening < 0 then offset
      else
        var close := RawClose(source[start..opening]);
        var end := Find<CodeUnit>(source, close, opening + 1);
        if end < 0 then offset else end + |close|
  }

  method RawStringScan(source: Text, offset: nat) returns (end: nat)
    requires offset < |source|
    ensures end == RawStringEnd(source, offset)
  {
    hide StringQuote, Two, Opening, RawClose, Is, NoDelimiter, Find;
    var prefix := StringQuote(source, offset);
    if !Two(source, prefix, 'R', '"') {
      return offset;
    }
    TwoFits(source, prefix, 'R', '"');
    var start := prefix + 2;
    var opening := start;
    while opening < |source| && opening - start <= MAX_DELIMITER && !Is(source[opening], '(')
      invariant start <= opening <= |source|
      invariant Opening(source, start, start) == Opening(source, start, opening)
    {
      OpeningStep(source, start, opening);
      if NoDelimiter(source[opening]) {
        return offset;
      }
      opening := opening + 1;
    }
    OpeningStep(source, start, opening);
    if opening == |source| || opening - start > MAX_DELIMITER {
      return offset;
    }
    var close := RawClose(source[start..opening]);
    var found := Find<CodeUnit>(source, close, opening + 1);
    end := if found < 0 then offset else found + |close|;
  }

  // A raw string ends at the first place where its own delimiter closes it.
  lemma RawStringIsLiteral(source: Text, offset: nat)
    requires offset < |source| && RawStringEnd(source, offset) != offset
    ensures var start, end := StringQuote(source, offset) + 2, RawStringEnd(source, offset);
      exists opening :: start <= opening <= start + MAX_DELIMITER && opening < end <= |source|
        && (forall k :: start <= k < opening ==> !NoDelimiter(source[k]))
        && var close := RawClose(source[start..opening]);
           && opening + 1 <= end - |close| && Occurs(source, close, end - |close|)
           && forall k :: opening < k < end - |close| ==> !Occurs(source, close, k)
  {
    var start := StringQuote(source, offset) + 2;
    var opening := Opening(source, start, start);
    assert start <= opening;
  }

  // ---------------------------------------------------------------------------
  // One token
  // ---------------------------------------------------------------------------

  datatype Kind = Code | Blank | Comment | Literal

  datatype Scanned = Scanned(end: nat, kind: Kind)

  predicate DoubledOperator(source: Text, offset: nat) {
    || Two(source, offset, ':', ':') || Two(source, offset, '-', '>') || Two(source, offset, '=', '=')
       || Two(source, offset, '!', '=')
    || Two(source, offset, '<', '=') || Two(source, offset, '>', '=') || Two(source, offset, '&', '&')
       || Two(source, offset, '|', '|')
    || Two(source, offset, '+', '+') || Two(source, offset, '-', '-') || Two(source, offset, '<', '<')
       || Two(source, offset, '>', '>')
  }

  // The end of the string or character literal at offset; offset itself when none starts.
  function LiteralEnd(source: Text, offset: nat): (end: nat)
    requires offset < |source|
    ensures offset <= end <= |source|
  {
    var raw := RawStringEnd(source, offset);
    var quote := StringQuote(source, offset);
    if raw != offset then raw
    else if quote < |source| && Is(source[quote], '"') && QuotedEnd(source, quote) != quote
      then QuotedEnd(source, quote)
    else if Is(source[offset], '\'') then QuotedEnd(source, offset)
    else offset
  }

  function Scan(source: Text, offset: nat): (s: Scanned)
    requires offset < |source|
    ensures offset < s.end <= |source|
  {
    var u := source[offset];
    if Whitespace(u) then Scanned(RunEnd(source, offset, Whitespace), Blank)
    else if Two(source, offset, '/', '/') then Scanned(LineEnd(source, offset + 2), Comment)
    else if Two(source, offset, '/', '*') then
      var end := Find<CodeUnit>(source, ['*' as int, '/' as int], offset + 2);
      Scanned(if end < 0 then |source| else end + 2, Comment)
    else if LiteralEnd(source, offset) != offset then Scanned(LiteralEnd(source, offset), Literal)
    else if Digit(u) then Scanned(RunEnd(source, offset + 1, NumberUnit), Code)
    else if Letter(u) || Is(u, '_') || Is(u, '$') then Scanned(RunEnd(source, offset + 1, WordUnit), Code)
    else Scanned(if DoubledOperator(source, offset) then offset + 2 else offset + 1,
                 if Is(u, '"') || Is(u, '\'') then Literal else Code)
  }

  method ScanRun(source: Text, from: nat, member: CodeUnit -> bool) returns (end: nat)
    requires from <= |source|
    ensures end == RunEnd(source, from, member)
  {
    end := from;
    while end < |source| && member(source[end])
      invariant from <= end <= |source|
      invariant RunEnd(source, end, member) == RunEnd(source, from, member)
    {
      end := end + 1;
    }
  }

  // The literal at the offset, as LiteralEnd gives it.
  method ScanLiteral(source: Text, offset: nat) returns (end: nat)
    requires offset < |source|
    ensures end == LiteralEnd(source, offset)
  {
    hide RawStringEnd, QuotedEnd, StringQuote, Is;
    end := RawStringScan(source, offset);
    if end != offset {
      return end;
    }
    var quote := StringQuote(source, offset);
    if quote < |source| && Is(source[quote], '"') {
      var close := QuotedEndScan(source, quote);
      if close != quote {
        return close;
      }
    }
    if Is(source[offset], '\'') {
      end := QuotedEndScan(source, offset);
    }
  }

  method ScanToken(source: Text, offset: nat) returns (end: nat, kind: Kind)
    requires offset < |source|
    ensures Scanned(end, kind) == Scan(source, offset)
  {
    hide RunEnd, Whitespace, Find, LiteralEnd, DoubledOperator, Is, Two, Digit, Letter;
    kind := Code;
    var u := source[offset];
    if Whitespace(u) {
      end := ScanRun(source, offset, Whitespace);
      kind := Blank;
    } else if Two(source, offset, '/', '/') {
      TwoFits(source, offset, '/', '/');
      end := LineEnd(source, offset + 2);
      kind := Comment;
    } else if Two(source, offset, '/', '*') {
      var close := Find<CodeUnit>(source, ['*' as int, '/' as int], offset + 2);
      end := if close < 0 then |source| else close + 2;
      kind := Comment;
    } else {
      end := ScanLiteral(source, offset);
      if end != offset {
        kind := Literal;
      } else if Digit(u) {
        end := ScanRun(source, offset + 1, NumberUnit);
      } else if Letter(u) || Is(u, '_') || Is(u, '$') {
        end := ScanRun(source, offset + 1, WordUnit);
      } else {
        end := offset + 1;
        if DoubledOperator(source, offset) {
          end := end + 1;
        }
        if Is(u, '"') || Is(u, '\'') {
          kind := Literal;
        }
      }
    }
  }

  lemma TwoFits(source: Text, offset: nat, a: char, b: char)
    requires Two(source, offset, a, b)
    ensures offset + 2 <= |source|
  {
  }

  // ---------------------------------------------------------------------------
  // The token list
  // ---------------------------------------------------------------------------

  datatype Token = Token(text: seq<Byte>, offset: nat, end: nat, kind: Kind)

  predicate Trivia(kind: Kind) {
    kind.Blank? || kind.Comment?
  }

  function TokenAt(source: Text, offset: nat): (t: Token)
    requires offset < |source|
    ensures t.offset == offset && offset < t.end <= |source|
  {
    var s := Scan(source, offset);
    Token(Utf8(source[offset..s.end]), offset, s.end, s.kind)
  }

  function TokensFrom(source: Text, offset: nat, trivia: bool): seq<Token>
    requires offset <= |source|
    decreases |source| - offset
  {
    if offset == |source| then []
    else
      var t := TokenAt(source, offset);
      (if trivia || !Trivia(t.kind) then [t] else []) + TokensFrom(source, t.end, trivia)
  }

  lemma TokensStep(source: Text, offset: nat, trivia: bool)
    requires offset < |source|
    ensures var s := Scan(source, offset);
      var t := Token(Utf8(source[offset..s.end]), offset, s.end, s.kind);
      && offset < s.end <= |source|
      && TokensFrom(source, offset, trivia)
         == if trivia || (!s.kind.Blank? && !s.kind.Comment?) then [t] + TokensFrom(source, s.end, trivia)
            else TokensFrom(source, s.end, trivia)
  {
    hide Scan, Utf8;
  }

  method TokenizeCpp(source: Text, trivia: bool) returns (result: seq<Token>)
    ensures result == TokensFrom(source, 0, trivia)
  {
    hide *;
    result := [];
    var offset := 0;
    while offset < |source|
      invariant 0 <= offset <= |source|
      invariant TokensFrom(source, 0, trivia) == result + TokensFrom(source, offset, trivia)
    {
      var end, kind := ScanToken(source, offset);
      var text := FromUtf16(source[offset..end]);
      TokensStep(source, offset, trivia);
      var token := Token(text, offset, end, kind);
      Associate(result, [token], TokensFrom(source, end, trivia));
      if trivia || (kind != Blank && kind != Comment) {
        result := result + [token];
      }
      offset := end;
    }
    NoTokens(source, trivia);
    assert result + [] == result;
  }

  lemma NoTokens(source: Text, trivia: bool)
    ensures TokensFrom(source, |source|, trivia) == []
  {
  }

  // ---------------------------------------------------------------------------
  // The tokens tile the source
  // ---------------------------------------------------------------------------

  // The tokens are non-empty, touch end to start, and span from `from` to `to`.
  predicate Tiles(tokens: seq<Token>, from: nat, to: nat) {
    && (tokens == [] ==> from == to)
    && (tokens != [] ==> tokens[0].offset == from && tokens[|tokens| - 1].end == to)
    && (forall i :: 0 <= i < |tokens| ==> tokens[i].offset < tokens[i].end)
    && (forall i :: 0 < i < |tokens| ==> tokens[i - 1].end == tokens[i].offset)
  }

  predicate Spelled(source: Text, t: Token) {
    t.offset <= t.end <= |source| && t.text == Utf8(source[t.offset..t.end])
  }

  lemma {:induction false} TriviaTiles(source: Text, offset: nat)
    requires offset <= |source|
    ensures Tiles(TokensFrom(source, offset, true), offset, |source|)
    ensures forall t :: t in TokensFrom(source, offset, true) ==> Spelled(source, t)
    decreases |source| - offset
  {
    hide TokenAt, Tiles, Spelled;
    if offset < |source| {
      var t := TokenAt(source, offset);
      TriviaTiles(source, t.end);
      TokenIsSpelled(source, offset);
      TilesGrow(t, TokensFrom(source, t.end, true), |source|);
    } else {
      NothingTiles(|source|);
    }
  }

  lemma NothingTiles(to: nat)
    ensures Tiles([], to, to)
  {
  }

  lemma TilesGrow(t: Token, tokens: seq<Token>, to: nat)
    requires t.offset < t.end && Tiles(tokens, t.end, to)
    ensures Tiles([t] + tokens, t.offset, to)
  {
    var all := [t] + tokens;
    forall i | 0 < i < |all|
      ensures all[i - 1].end == all[i].offset && all[i].offset < all[i].end
    {
      assert all[i] == tokens[i - 1];
      assert i > 1 ==> all[i - 1] == tokens[i - 1 - 1];
    }
  }

  lemma TokenIsSpelled(source: Text, offset: nat)
    requires offset < |source|
    ensures Spelled(source, TokenAt(source, offset))
  {
    hide Scan, Utf8;
  }

  function Reread(tokens: seq<Token>): Text {
    if tokens == [] then [] else Utf16(tokens[0].text) + Reread(tokens[1..])
  }

  // Reading back the texts of the tokens, trivia included, gives the source.
  lemma {:induction false} RereadIsSource(source: Text, offset: nat)
    requires offset <= |source|
    ensures Reread(TokensFrom(source, offset, true)) == source[offset..]
    decreases |source| - offset
  {
    hide Scan, Utf8, Utf16;
    if offset < |source| {
      var t := TokenAt(source, offset);
      var rest := TokensFrom(source, t.end, true);
      RereadIsSource(source, t.end);
      RoundTripUnits(source[offset..t.end]);
      assert ([t] + rest)[1..] == rest;
      assert source[offset..t.end] + source[t.end..] == source[offset..];
    }
  }

  // Without trivia the list is the list with trivia, less its blanks and comments.
  function Significant(tokens: seq<Token>): seq<Token> {
    if tokens == [] then []
    else (if Trivia(tokens[0].kind) then [] else [tokens[0]]) + Significant(tokens[1..])
  }

  lemma {:induction false} SignificantTokens(source: Text, offset: nat)
    requires offset <= |source|
    ensures TokensFrom(source, offset, false) == Significant(TokensFrom(source, offset, true))
    decreases |source| - offset
  {
    hide Scan, Utf8;
    if offset < |source| {
      var t := TokenAt(source, offset);
      SignificantTokens(source, t.end);
      assert ([t] + TokensFrom(source, t.end, true))[1..] == TokensFrom(source, t.end, true);
    }
  }

  // --- the texts as bytes ---

  function Texts(tokens: seq<Token>): seq<Byte> {
    if tokens == [] then [] else tokens[0].text + Texts(tokens[1..])
  }

  // How many token starts after `offset` stand inside a surrogate pair.
  function SplitPairs(source: Text, offset: nat): nat
    requires offset <= |source|
    decreases |source| - offset
  {
    if offset == |source| then 0
    else
      var end := TokenAt(source, offset).end;
      (if InsidePair(source, end) then 1 else 0) + SplitPairs(source, end)
  }

  predicate InsidePair(source: Text, at: nat) {
    0 < at < |source| && HighSurrogate(source[at - 1]) && LowSurrogate(source[at])
  }

  lemma {:induction false} TextsLength(source: Text, offset: nat)
    requires offset <= |source|
    ensures |Texts(TokensFrom(source, offset, true))| == |Utf8(source[offset..])| + 2 * SplitPairs(source, offset)
    ensures SplitPairs(source, offset) == 0 ==> Texts(TokensFrom(source, offset, true)) == Utf8(source[offset..])
    decreases |source| - offset
  {
    hide Scan, Utf8;
    if offset < |source| {
      var t := TokenAt(source, offset);
      var rest := TokensFrom(source, t.end, true);
      TextsLength(source, t.end);
      assert ([t] + rest)[1..] == rest;
      var a, b := source[offset..t.end], source[t.end..];
      assert a + b == source[offset..];
      Utf8Joins(a, b);
      assert SplitsPair(a, b) <==> InsidePair(source, t.end);
    } else {
      EmptyText(source);
    }
  }

  lemma EmptyText(source: Text)
    ensures Utf8(source[|source|..]) == []
  {
  }

  predicate PairAt(source: Text, p: nat) {
    p + 1 < |source| && HighSurrogate(source[p]) && LowSurrogate(source[p + 1])
  }

  // A comment or a literal among the tokens has both halves of the pair at p.
  ghost predicate KeepsPair(tokens: seq<Token>, p: nat) {
    exists t :: t in tokens && (t.kind.Comment? || t.kind.Literal?) && t.offset <= p && p + 2 <= t.end
  }

  lemma RunHas(source: Text, from: nat, member: CodeUnit -> bool, p: nat)
    requires from <= p < |source| && p < RunEnd(source, from, member)
    ensures member(source[p])
  {
  }

  // Other tokens have no surrogate before their last unit.
  lemma CodeHasNoPair(source: Text, offset: nat, p: nat)
    requires offset <= p < |source| && p + 2 <= Scan(source, offset).end
    requires Scan(source, offset).kind.Code? || Scan(source, offset).kind.Blank?
    ensures !HighSurrogate(source[p])
  {
    hide LiteralEnd, RunEnd;
    var u := source[offset];
    if Whitespace(u) {
      RunHas(source, offset, Whitespace, p);
    } else if p > offset {
      if Digit(u) {
        RunHas(source, offset + 1, NumberUnit, p);
      } else if Letter(u) || Is(u, '_') || Is(u, '$') {
        RunHas(source, offset + 1, WordUnit, p);
      }
    }
  }

  lemma {:induction false} TokensStartLater(source: Text, offset: nat)
    requires offset <= |source|
    ensures forall t :: t in TokensFrom(source, offset, true) ==> offset <= t.offset < t.end <= |source|
    decreases |source| - offset
  {
    hide TokenAt;
    if offset < |source| {
      TokensStartLater(source, TokenAt(source, offset).end);
    }
  }

  // What the first token means for the pair at p.
  lemma FirstKeepsPair(source: Text, offset: nat, p: nat)
    requires offset <= p && PairAt(source, p)
    ensures var t := TokenAt(source, offset);
      if t.end <= p
        then KeepsPair(TokensFrom(source, offset, true), p) <==> KeepsPair(TokensFrom(source, t.end, true), p)
      else KeepsPair(TokensFrom(source, offset, true), p) <==> t.end != p + 1
  {
    hide TokensFrom, Scan, Utf8;
    var t := TokenAt(source, offset);
    var rest := TokensFrom(source, t.end, true);
    TokensHead(source, offset);
    TokensStartLater(source, t.end);
    if t.end > p + 1 && (t.kind.Code? || t.kind.Blank?) {
      CodeHasNoPair(source, offset, p);
    }
  }

  lemma TokensHead(source: Text, offset: nat)
    requires offset < |source|
    ensures var t := TokenAt(source, offset);
      forall x :: x in TokensFrom(source, offset, true) <==> x == t || x in TokensFrom(source, t.end, true)
  {
    hide TokenAt;
  }

  ghost predicate AllKept(source: Text, offset: nat)
    requires offset <= |source|
  {
    forall p: nat :: offset <= p && PairAt(source, p) ==> KeepsPair(TokensFrom(source, offset, true), p)
  }

  lemma AllKeptStep(source: Text, offset: nat)
    requires offset < |source|
    ensures var end := TokenAt(source, offset).end;
      AllKept(source, offset) <==> !InsidePair(source, end) && AllKept(source, end)
  {
    hide TokenAt, TokensFrom, KeepsPair;
    var end := TokenAt(source, offset).end;
    if InsidePair(source, end) {
      FirstKeepsPair(source, offset, end - 1);
    } else {
      forall p: nat | end <= p && PairAt(source, p)
        ensures KeepsPair(TokensFrom(source, offset, true), p) <==> KeepsPair(TokensFrom(source, end, true), p)
      {
        FirstKeepsPair(source, offset, p);
      }
      forall p: nat | offset <= p < end && PairAt(source, p)
        ensures KeepsPair(TokensFrom(source, offset, true), p)
      {
        FirstKeepsPair(source, offset, p);
      }
    }
  }

  lemma {:induction false} NoPairIsSplit(source: Text, offset: nat)
    requires offset <= |source|
    ensures SplitPairs(source, offset) == 0 <==> AllKept(source, offset)
    decreases |source| - offset
  {
    hide TokenAt, TokensFrom, KeepsPair, AllKept;
    if offset < |source| {
      NoPairIsSplit(source, TokenAt(source, offset).end);
      AllKeptStep(source, offset);
    } else {
      NothingToKeep(source);
    }
  }

  lemma NothingToKeep(source: Text)
    ensures AllKept(source, |source|)
  {
  }

  // The texts join to the source's bytes exactly when every surrogate pair lies in a comment
  // or a literal.
  lemma TextsAreSource(source: Text)
    ensures Texts(TokensFrom(source, 0, true)) == Utf8(source) <==>
      forall p: nat :: PairAt(source, p) ==> KeepsPair(TokensFrom(source, 0, true), p)
  {
    hide Texts, TokensFrom, SplitPairs;
    TextsLength(source, 0);
    assert source[0..] == source;
    NoPairIsSplit(source, 0);
  }

  // A pair that stands for itself is written as two tokens, in six bytes instead of four.
  lemma LonePairIsSplit(high: CodeUnit, low: CodeUnit)
    requires HighSurrogate(high) && LowSurrogate(low)
    ensures Texts(TokensFrom([high, low], 0, true)) != Utf8([high, low])
  {
    hide TokensFrom;
    var source: Text := [high, low];
    assert PairAt(source, 0);
    assert LiteralEnd(source, 0) == 0;
    assert TokenAt(source, 0).end == 1;
    FirstKeepsPair(source, 0, 0);
    TextsAreSource(source);
  }

  // --- edges of significant tokens ---

  // A significant token starts and ends with a unit that is not white space.
  lemma SignificantEdges(source: Text, offset: nat)
    requires offset < |source| && !Trivia(Scan(source, offset).kind)
    ensures !Whitespace(source[offset]) && !Whitespace(source[Scan(source, offset).end - 1])
  {
    hide LiteralEnd, RunEnd, DoubledOperator, Whitespace;
    var u, end := source[offset], Scan(source, offset).end;
    if LiteralEnd(source, offset) != offset {
      LiteralEdge(source, offset);
      NoBlank(source[end - 1]);
    } else if Digit(u) {
      WordEdge(source, offset, NumberUnit);
      NoBlank(source[end - 1]);
    } else if Letter(u) || Is(u, '_') || Is(u, '$') {
      WordEdge(source, offset, WordUnit);
      NoBlank(source[end - 1]);
    } else if DoubledOperator(source, offset) {
      OperatorEdge(source, offset);
      NoBlank(source[end - 1]);
    }
  }

  lemma NoBlank(u: CodeUnit)
    ensures Is(u, '"') || Is(u, '\'') || NumberUnit(u) || WordUnit(u) ==> !Whitespace(u)
    ensures 0x21 <= u <= 0x7E ==> !Whitespace(u)
  {
  }

  lemma WordEdge(source: Text, offset: nat, member: CodeUnit -> bool)
    requires offset < |source|
    ensures var end := RunEnd(source, offset + 1, member); end == offset + 1 || member(source[end - 1])
  {
  }

  lemma OperatorEdge(source: Text, offset: nat)
    requires DoubledOperator(source, offset)
    ensures offset + 2 <= |source| && 0x21 <= source[offset + 1] <= 0x7E
  {
  }

  lemma LiteralEdge(source: Text, offset: nat)
    requires offset < |source| && LiteralEnd(source, offset) != offset
    ensures var end := LiteralEnd(source, offset);
      Is(source[end - 1], '"') || Is(source[end - 1], '\'')
  {
    var raw := RawStringEnd(source, offset);
    var quote := StringQuote(source, offset);
    if raw != offset {
      RawStringIsLiteral(source, offset);
    } else {
      ClosingEndsWithDelimiter(source, source[offset], offset + 1);
      if quote < |source| {
        ClosingEndsWithDelimiter(source, source[quote], quote + 1);
      }
    }
  }

  lemma {:induction false} ClosingEndsWithDelimiter(source: Text, delimiter: CodeUnit, at: nat)
    ensures Closing(source, delimiter, at) != 0 ==> source[Closing(source, delimiter, at) - 1] == delimiter
    decreases |source| - at
  {
    if at < |source| && source[at] != delimiter {
      ClosingEndsWithDelimiter(source, delimiter, at + 1);
      ClosingEndsWithDelimiter(source, delimiter, at + 2);
    }
  }
}
