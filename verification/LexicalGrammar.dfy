// What the tokens of a C++ source are, without reference to how the lexer finds them: the
// lexer's tokens are exactly these (tools/cleanup/cpd_patterns.cpp tokenizeCpp).
module LexicalGrammar {
  import opened Codec
  import opened Lexer
  import opened Search

  // ---------------------------------------------------------------------------
  // Texts and classes of units
  // ---------------------------------------------------------------------------

  predicate Reads(source: Text, at: nat, text: string) {
    at + |text| <= |source| && forall k :: 0 <= k < |text| ==> source[at + k] == text[k] as int
  }

  predicate Stands(source: Text, at: nat, part: Text) {
    at + |part| <= |source| && forall k :: 0 <= k < |part| ==> source[at + k] == part[k]
  }

  // White space and line terminators (ECMA-262, sections 12.2 and 12.3).
  const BLANKS: seq<int> := [
    0x09, 0x0A, 0x0B, 0x0C, 0x0D, 0x20, 0xA0, 0x1680, 0x2000, 0x2001, 0x2002, 0x2003, 0x2004, 0x2005, 0x2006, 0x2007,
    0x2008, 0x2009, 0x200A, 0x2028, 0x2029, 0x202F, 0x205F, 0x3000, 0xFEFF]

  predicate BlankUnit(u: CodeUnit) {
    u in BLANKS
  }

  // 0 to 9
  predicate DigitUnit(u: CodeUnit) {
    0x30 <= u <= 0x39
  }

  // A to Z, a to z, _ and $
  predicate WordStart(u: CodeUnit) {
    0x41 <= u <= 0x5A || 0x61 <= u <= 0x7A || u == 0x5F || u == 0x24
  }

  predicate WordPart(u: CodeUnit) {
    WordStart(u) || DigitUnit(u)
  }

  // Letters, digits, _ . and '
  predicate NumberPart(u: CodeUnit) {
    (WordPart(u) && u != 0x24) || u == 0x2E || u == 0x27
  }

  const OPERATORS: seq<string> := ["::", "->", "==", "!=", "<=", ">=", "&&", "||", "++", "--", "<<", ">>"]

  const PREFIXES: seq<string> := ["", "u8", "u", "U", "L"]

  // ---------------------------------------------------------------------------
  // The forms of a token
  // ---------------------------------------------------------------------------

  // The longest run of such units from `from` on.
  ghost predicate Run(source: Text, from: nat, end: nat, member: CodeUnit -> bool) {
    && from <= end <= |source|
    && (forall k :: from <= k < end ==> member(source[k]))
    && (end < |source| ==> !member(source[end]))
  }

  ghost predicate First(source: Text, part: Text, from: nat, at: nat) {
    from <= at && Stands(source, at, part) && forall k :: from <= k < at ==> !Stands(source, k, part)
  }

  // Up to the next newline, or to the end of the source.
  ghost predicate LineComment(source: Text, offset: nat, end: nat) {
    Run(source, offset + 2, end, u => u != 0x0A)
  }

  // Through the first closing mark after the opening one, or to the end of the source.
  ghost predicate BlockComment(source: Text, offset: nat, end: nat) {
    if exists at: nat :: offset + 2 <= at && Reads(source, at, "*/")
    then end >= 2 && First(source, [0x2A, 0x2F], offset + 2, end - 2)
    else end == |source|
  }

  // prefix R" delimiter ( ... ) delimiter ", up to the first such close.
  ghost predicate RawStringWith(source: Text, offset: nat, prefix: string, opening: nat, end: nat) {
    var start := offset + |prefix| + 2;
    && Reads(source, offset, prefix + "R\"")
    && start <= opening <= start + 16 && opening < |source| && source[opening] == 0x28
    && (forall k :: start <= k < opening ==> source[k] !in [0x28, 0x20, 0x29, 0x5C, 0x09, 0x0D, 0x0A])
    && var close := [0x29] + source[start..opening] + [0x22];
       end >= |close| && First(source, close, opening + 1, end - |close|)
  }

  ghost predicate RawString(source: Text, offset: nat, end: nat) {
    exists prefix, opening :: prefix in PREFIXES && RawStringWith(source, offset, prefix, opening, end)
  }

  // A delimiter, a body that fits, and the delimiter.
  ghost predicate Quoted(source: Text, quote: nat, end: nat, delimiter: CodeUnit) {
    && quote + 1 < end <= |source|
    && source[quote] == delimiter && source[end - 1] == delimiter
    && QuotedBody(source[quote + 1..end - 1], delimiter)
  }

  ghost predicate PrefixedString(source: Text, offset: nat, end: nat) {
    exists prefix :: prefix in PREFIXES && Reads(source, offset, prefix) && Quoted(source, offset + |prefix|, end, 0x22)
  }

  // A raw string; without one, a string; without one, a character between apostrophes.
  ghost predicate LiteralToken(source: Text, offset: nat, end: nat) {
    if exists e: nat :: RawString(source, offset, e) then RawString(source, offset, end)
    else if exists e: nat :: PrefixedString(source, offset, e) then PrefixedString(source, offset, end)
    else Quoted(source, offset, end, 0x27)
  }

  // The token at the offset: the first form that applies.
  ghost predicate IsToken(source: Text, offset: nat, end: nat, kind: Kind)
    requires offset < |source|
  {
    var u := source[offset];
    if BlankUnit(u) then kind == Blank && Run(source, offset, end, BlankUnit)
    else if Reads(source, offset, "//") then kind == Comment && LineComment(source, offset, end)
    else if Reads(source, offset, "/*") then kind == Comment && BlockComment(source, offset, end)
    else if exists e: nat :: LiteralToken(source, offset, e) then kind == Literal && LiteralToken(source, offset, end)
    else if DigitUnit(u) then kind == Code && Run(source, offset, end, NumberPart)
    else if WordStart(u) then kind == Code && Run(source, offset, end, WordPart)
    else
      && end == offset + (if exists op :: op in OPERATORS && Reads(source, offset, op) then 2 else 1)
      && kind == if u == 0x22 || u == 0x27 then Literal else Code
  }

  // ---------------------------------------------------------------------------
  // The lexer's helpers find them
  // ---------------------------------------------------------------------------

  lemma Classes(u: CodeUnit)
    ensures Whitespace(u) <==> BlankUnit(u)
    ensures Digit(u) <==> DigitUnit(u)
    ensures Letter(u) || Is(u, '_') || Is(u, '$') <==> WordStart(u)
    ensures WordUnit(u) <==> WordPart(u)
    ensures NumberUnit(u) <==> NumberPart(u)
  {
  }

  lemma TwoReads(source: Text, offset: nat, a: char, b: char)
    ensures Two(source, offset, a, b) <==> Reads(source, offset, [a, b])
  {
    assert [a, b][0] == a && [a, b][1] == b;
  }

  lemma OneStands(source: Text, at: nat, u: CodeUnit)
    ensures Stands(source, at, [u]) <==> at < |source| && source[at] == u
  {
    assert [u][0] == u;
  }

  lemma TwoStand(source: Text, at: nat, part: Text, text: string)
    requires |part| == |text| == 2 && part[0] == text[0] as int && part[1] == text[1] as int
    ensures Stands(source, at, part) <==> Reads(source, at, text)
  {
  }

  lemma {:induction false} RunIs(source: Text, from: nat, f: CodeUnit -> bool, g: CodeUnit -> bool, end: nat)
    requires from <= |source| && forall u: CodeUnit :: f(u) == g(u)
    ensures RunEnd(source, from, f) == end <==> Run(source, from, end, g)
  {
    var e := RunEnd(source, from, f);
    assert Run(source, from, e, g);
    assert end < e ==> from <= end ==> f(source[end]);
    assert e < end <= |source| ==> !g(source[e]);
  }

  lemma OccursStands(source: Text, part: Text, at: nat)
    ensures Occurs(source, part, at) <==> Stands(source, at, part)
  {
    if at + |part| <= |source| {
      if Stands(source, at, part) {
        assert source[at..at + |part|] == part;
      }
      var slice := source[at..at + |part|];
      assert forall k :: 0 <= k < |part| ==> slice[k] == source[at + k];
    }
  }

  // The first place of a part, as the search finds it.
  lemma FindFirst(source: Text, part: Text, from: nat, at: nat)
    ensures Find(source, part, from) == at <==> First(source, part, from, at)
    ensures Find(source, part, from) < 0 <==> forall k :: from <= k ==> !Stands(source, k, part)
  {
    hide Stands, Occurs;
    forall k: nat
      ensures Occurs(source, part, k) <==> Stands(source, k, part)
    {
      OccursStands(source, part, k);
    }
    var found := Find(source, part, from);
    if First(source, part, from, at) {
      FindIs(source, part, from, at);
    }
  }

  lemma LineCommentIs(source: Text, offset: nat, end: nat)
    requires offset + 2 <= |source|
    ensures LineEnd(source, offset + 2) == end <==> LineComment(source, offset, end)
  {
    hide Find;
    var e := LineEnd(source, offset + 2);
    forall k: nat
      ensures Stands(source, k, [0x0A]) <==> k < |source| && source[k] == 0x0A
    {
      OneStands(source, k, 0x0A);
    }
    FindFirst(source, [0x0A], offset + 2, e);
    hide Stands;
    assert LineComment(source, offset, e);
    if LineComment(source, offset, end) {
      assert end <= e && e <= end;
    }
  }

  lemma BlockCommentIs(source: Text, offset: nat, end: nat)
    requires offset + 2 <= |source|
    ensures var found := Find<CodeUnit>(source, ['*' as int, '/' as int], offset + 2);
      (if found < 0 then |source| else found + 2) == end <==> BlockComment(source, offset, end)
  {
    hide Find;
    var part: Text := [0x2A, 0x2F];
    forall k: nat
      ensures Stands(source, k, part) <==> Reads(source, k, "*/")
    {
      TwoStand(source, k, part, "*/");
    }
    FindFirst(source, part, offset + 2, if end >= 2 then end - 2 else 0);
    hide Stands, Reads;
    var found := Find(source, part, offset + 2);
    if found >= 0 {
      FindFirst(source, part, offset + 2, found);
    }
  }

  lemma OperatorsListed(source: Text, offset: nat)
    ensures (exists op :: op in OPERATORS && Reads(source, offset, op)) <==>
      || Reads(source, offset, "::") || Reads(source, offset, "->") || Reads(source, offset, "==")
      || Reads(source, offset, "!=") || Reads(source, offset, "<=") || Reads(source, offset, ">=")
      || Reads(source, offset, "&&") || Reads(source, offset, "||") || Reads(source, offset, "++")
      || Reads(source, offset, "--") || Reads(source, offset, "<<") || Reads(source, offset, ">>")
  {
    hide Reads;
    assert "::" in OPERATORS && "->" in OPERATORS && "==" in OPERATORS && "!=" in OPERATORS;
    assert "<=" in OPERATORS && ">=" in OPERATORS && "&&" in OPERATORS && "||" in OPERATORS;
    assert "++" in OPERATORS && "--" in OPERATORS && "<<" in OPERATORS && ">>" in OPERATORS;
  }

  lemma OperatorIs(source: Text, offset: nat)
    ensures DoubledOperator(source, offset) <==> exists op :: op in OPERATORS && Reads(source, offset, op)
  {
    OperatorsListed(source, offset);
    hide Two, Reads, OPERATORS;
    TwoReads(source, offset, ':', ':');
    TwoReads(source, offset, '-', '>');
    TwoReads(source, offset, '=', '=');
    TwoReads(source, offset, '!', '=');
    TwoReads(source, offset, '<', '=');
    TwoReads(source, offset, '>', '=');
    TwoReads(source, offset, '&', '&');
    TwoReads(source, offset, '|', '|');
    TwoReads(source, offset, '+', '+');
    TwoReads(source, offset, '-', '-');
    TwoReads(source, offset, '<', '<');
    TwoReads(source, offset, '>', '>');
    assert "::" == [':', ':'] && "->" == ['-', '>'] && "==" == ['=', '='] && "!=" == ['!', '='];
    assert "<=" == ['<', '='] && ">=" == ['>', '='] && "&&" == ['&', '&'] && "||" == ['|', '|'];
    assert "++" == ['+', '+'] && "--" == ['-', '-'] && "<<" == ['<', '<'] && ">>" == ['>', '>'];
  }

  // ---------------------------------------------------------------------------
  // Literals
  // ---------------------------------------------------------------------------

  lemma ReadsJoins(source: Text, at: nat, a: string, b: string)
    ensures Reads(source, at, a + b) <==> Reads(source, at, a) && Reads(source, at + |a|, b)
  {
    var whole := a + b;
    if Reads(source, at, whole) {
      assert forall k :: 0 <= k < |a| ==> whole[k] == a[k];
      assert forall k :: 0 <= k < |b| ==> whole[|a| + k] == b[k];
    }
  }

  // The prefix that the lexer takes.
  function PrefixAt(source: Text, offset: nat): (prefix: string)
    requires offset < |source|
    ensures prefix in PREFIXES
  {
    if Two(source, offset, 'u', '8') then "u8"
    else if Is(source[offset], 'u') then "u"
    else if Is(source[offset], 'U') then "U"
    else if Is(source[offset], 'L') then "L"
    else ""
  }

  lemma PrefixIsThere(source: Text, offset: nat)
    requires offset < |source|
    ensures Reads(source, offset, PrefixAt(source, offset))
    ensures offset + |PrefixAt(source, offset)| == StringQuote(source, offset)
  {
  }

  // Before a mark that continues no prefix, no other prefix stands.
  lemma PrefixIs(source: Text, offset: nat, prefix: string, mark: CodeUnit)
    requires offset < |source| && prefix in PREFIXES && Reads(source, offset, prefix)
    requires offset + |prefix| < |source| && source[offset + |prefix|] == mark && (mark == 0x52 || mark == 0x22)
    ensures prefix == PrefixAt(source, offset)
  {
    if prefix != "" {
      assert source[offset] == prefix[0] as int;
    }
    if prefix == "u8" {
      assert source[offset + 1] == prefix[1] as int;
    }
  }

  // The opening parenthesis, by what stands before it.
  lemma {:induction false} OpeningIs(source: Text, start: nat, at: nat, opening: nat)
    requires start <= at <= |source|
    ensures Opening(source, start, at) == opening <==>
      && at <= opening <= start + 16 && opening < |source| && source[opening] == 0x28
      && forall k :: at <= k < opening ==> source[k] !in [0x28, 0x20, 0x29, 0x5C, 0x09, 0x0D, 0x0A]
    decreases |source| - at
  {
    OpeningStep(source, start, at);
    if at < |source| && at - start <= 16 && source[at] !in [0x28, 0x20, 0x29, 0x5C, 0x09, 0x0D, 0x0A] {
      OpeningIs(source, start, at + 1, opening);
    }
  }

  lemma RawCloseIs(delimiter: Text)
    ensures RawClose(delimiter) == [0x29] + delimiter + [0x22]
  {
  }

  lemma RawStringIs(source: Text, offset: nat, end: nat)
    requires offset < |source|
    ensures RawStringEnd(source, offset) == end && end != offset <==> RawString(source, offset, end)
  {
    hide Opening, Stands, Find, Reads, RawClose, StringQuote;
    var prefix := PrefixAt(source, offset);
    PrefixIsThere(source, offset);
    ReadsJoins(source, offset, prefix, "R\"");
    var quote := StringQuote(source, offset);
    TwoReads(source, quote, 'R', '"');
    assert ['R', '"'] == "R\"";
    if RawString(source, offset, end) {
      var other, opening :| other in PREFIXES && RawStringWith(source, offset, other, opening, end);
      OnlyPrefix(source, offset, other);
    }
    if Two(source, quote, 'R', '"') {
      RawAfter(source, offset, prefix, quote + 2, end);
    }
  }

  lemma OnlyPrefix(source: Text, offset: nat, prefix: string)
    requires offset < |source| && prefix in PREFIXES && Reads(source, offset, prefix + "R\"")
    ensures prefix == PrefixAt(source, offset)
  {
    ReadsJoins(source, offset, prefix, "R\"");
    assert source[offset + |prefix|] == "R\""[0] as int;
    PrefixIs(source, offset, prefix, 0x52);
  }

  // What follows the opening quote of a raw string.
  lemma RawAfter(source: Text, offset: nat, prefix: string, start: nat, end: nat)
    requires offset < |source| && start == offset + |prefix| + 2 && Two(source, start - 2, 'R', '"')
    requires Reads(source, offset, prefix + "R\"") && StringQuote(source, offset) == start - 2
    ensures RawStringEnd(source, offset) == end && end != offset <==>
      exists opening :: RawStringWith(source, offset, prefix, opening, end)
  {
    hide Opening, Stands, Find, Reads, RawClose, StringQuote, Two, First;
    TwoFits(source, start - 2, 'R', '"');
    var opening := Opening(source, start, start);
    forall other | RawStringWith(source, offset, prefix, other, end)
      ensures other == opening
    {
      OpeningIs(source, start, start, other);
    }
    if opening >= 0 {
      OpeningIs(source, start, start, opening);
      var close := RawClose(source[start..opening]);
      RawCloseIs(source[start..opening]);
      FindFirst(source, close, opening + 1, if end >= |close| then end - |close| else 0);
      var found := Find(source, close, opening + 1);
      if found >= 0 {
        FindFirst(source, close, opening + 1, found);
        assert RawStringWith(source, offset, prefix, opening, found + |close|);
      }
      assert end < |close| ==> !RawStringWith(source, offset, prefix, opening, end);
    }
  }

  lemma QuotedIs(source: Text, quote: nat, end: nat)
    requires quote < |source| && (source[quote] == 0x22 || source[quote] == 0x27)
    ensures QuotedEnd(source, quote) == end && end != quote <==> Quoted(source, quote, end, source[quote])
  {
    hide Closing;
    if quote + 1 < end <= |source| {
      QuotedIsLiteral(source, quote, end);
    }
  }

  lemma PrefixedStringIs(source: Text, offset: nat, end: nat)
    requires offset < |source|
    ensures var quote := StringQuote(source, offset);
      PrefixedString(source, offset, end) <==>
        quote < |source| && source[quote] == 0x22 && QuotedEnd(source, quote) == end && end != quote
  {
    hide QuotedEnd, StringQuote, Reads, QuotedBody;
    var prefix := PrefixAt(source, offset);
    PrefixIsThere(source, offset);
    var quote := StringQuote(source, offset);
    if quote < |source| && source[quote] == 0x22 {
      QuotedIs(source, quote, end);
    }
    forall other | other in PREFIXES && Reads(source, offset, other) && Quoted(source, offset + |other|, end, 0x22)
      ensures other == prefix
    {
      PrefixIs(source, offset, other, 0x22);
    }
  }

  // ---------------------------------------------------------------------------
  // The lexer's tokens are exactly these
  // ---------------------------------------------------------------------------

  // Without a literal, the lexer looks for one in vain.
  lemma LiteralIs(source: Text, offset: nat, end: nat)
    requires offset < |source|
    ensures LiteralEnd(source, offset) == end && end != offset <==> LiteralToken(source, offset, end)
  {
    hide RawStringEnd, QuotedEnd, StringQuote, RawString, PrefixedString, Quoted;
    var quote := StringQuote(source, offset);
    forall e: nat
      ensures RawStringEnd(source, offset) == e && e != offset <==> RawString(source, offset, e)
      ensures PrefixedString(source, offset, e) <==>
        quote < |source| && source[quote] == 0x22 && QuotedEnd(source, quote) == e && e != quote
      ensures Quoted(source, offset, e, 0x27) <==>
        source[offset] == 0x27 && QuotedEnd(source, offset) == e && e != offset
    {
      RawStringIs(source, offset, e);
      PrefixedStringIs(source, offset, e);
      ApostropheIs(source, offset, e);
    }
    QuoteOnly(source, offset);
    var raw := RawStringEnd(source, offset);
    assert raw != offset ==> RawString(source, offset, raw);
    assert quote < |source| && source[quote] == 0x22 && QuotedEnd(source, quote) != quote ==>
      PrefixedString(source, offset, QuotedEnd(source, quote));
  }

  lemma ApostropheIs(source: Text, offset: nat, end: nat)
    requires offset < |source|
    ensures Quoted(source, offset, end, 0x27) <==>
      source[offset] == 0x27 && QuotedEnd(source, offset) == end && end != offset
  {
    hide QuotedEnd, QuotedBody;
    if source[offset] == 0x27 {
      QuotedIs(source, offset, end);
    }
  }

  lemma QuoteOnly(source: Text, offset: nat)
    requires offset < |source|
    ensures source[offset] == 0x27 ==> StringQuote(source, offset) == offset
    ensures forall u: CodeUnit :: Is(u, '"') <==> u == 0x22
    ensures forall u: CodeUnit :: Is(u, '\'') <==> u == 0x27
  {
  }

  lemma ScanIsToken(source: Text, offset: nat, end: nat, kind: Kind)
    requires offset < |source|
    ensures Scan(source, offset) == Scanned(end, kind) <==> IsToken(source, offset, end, kind)
  {
    hide RunEnd, Whitespace, LiteralEnd, DoubledOperator, Is, Two, Digit, Letter, Find, LineEnd;
    hide Run, BlankUnit, LiteralToken, DigitUnit, WordStart, LineComment, BlockComment, Reads, OPERATORS;
    var u := source[offset];
    ClassesOf();
    TwoReads(source, offset, '/', '/');
    TwoReads(source, offset, '/', '*');
    assert ['/', '/'] == "//" && ['/', '*'] == "/*";
    QuoteOnly(source, offset);
    if Whitespace(u) {
      RunIs(source, offset, Whitespace, BlankUnit, end);
    } else if Two(source, offset, '/', '/') {
      TwoFits(source, offset, '/', '/');
      LineCommentIs(source, offset, end);
    } else if Two(source, offset, '/', '*') {
      TwoFits(source, offset, '/', '*');
      BlockCommentIs(source, offset, end);
    } else {
      forall e: nat
        ensures LiteralEnd(source, offset) == e && e != offset <==> LiteralToken(source, offset, e)
      {
        LiteralIs(source, offset, e);
      }
      var literal := LiteralEnd(source, offset);
      assert literal != offset ==> LiteralToken(source, offset, literal);
      RunAfter(source, offset, NumberUnit, NumberPart, end);
      RunAfter(source, offset, WordUnit, WordPart, end);
      OperatorIs(source, offset);
    }
  }

  lemma ClassesOf()
    ensures forall u: CodeUnit :: Whitespace(u) == BlankUnit(u)
    ensures forall u: CodeUnit :: Digit(u) == DigitUnit(u)
    ensures forall u: CodeUnit :: (Letter(u) || Is(u, '_') || Is(u, '$')) == WordStart(u)
    ensures forall u: CodeUnit :: WordUnit(u) == WordPart(u)
    ensures forall u: CodeUnit :: NumberUnit(u) == NumberPart(u)
    ensures forall u: CodeUnit :: DigitUnit(u) ==> NumberPart(u)
    ensures forall u: CodeUnit :: WordStart(u) ==> WordPart(u)
  {
    forall u: CodeUnit
      ensures Whitespace(u) == BlankUnit(u) && Digit(u) == DigitUnit(u)
      ensures (Letter(u) || Is(u, '_') || Is(u, '$')) == WordStart(u)
      ensures WordUnit(u) == WordPart(u) && NumberUnit(u) == NumberPart(u)
    {
      Classes(u);
    }
  }

  // The lexer runs on from the second unit.
  lemma RunAfter(source: Text, offset: nat, f: CodeUnit -> bool, g: CodeUnit -> bool, end: nat)
    requires offset < |source| && forall u: CodeUnit :: f(u) == g(u)
    ensures g(source[offset]) ==> (RunEnd(source, offset + 1, f) == end <==> Run(source, offset, end, g))
  {
    hide RunEnd;
    RunIs(source, offset + 1, f, g, end);
  }

  // ---------------------------------------------------------------------------
  // Token lists
  // ---------------------------------------------------------------------------

  // Tokens of the grammar that touch end to start from `from` to the end of the source.
  ghost predicate Tokenized(source: Text, tokens: seq<Token>, from: nat) {
    && Tiles(tokens, from, |source|)
    && forall t :: t in tokens ==>
         t.offset < |source| && Spelled(source, t) && IsToken(source, t.offset, t.end, t.kind)
  }

  // The lexer's list with trivia is the one way to cut the source into such tokens.
  lemma {:induction false} TokensAreTokenized(source: Text, tokens: seq<Token>, from: nat)
    requires from <= |source|
    ensures Tokenized(source, tokens, from) <==> tokens == TokensFrom(source, from, true)
    decreases |source| - from
  {
    hide IsToken, Tiles, Scan, Spelled;
    if from == |source| {
      NothingTokenized(source, tokens);
    } else {
      var t := TokenAt(source, from);
      var rest := TokensFrom(source, t.end, true);
      ScanIsToken(source, from, t.end, t.kind);
      TokenIsSpelled(source, from);
      TokensAreTokenized(source, rest, t.end);
      TilesGrow(t, rest, |source|);
      if Tokenized(source, tokens, from) {
        FirstTokenized(source, tokens, from);
        TokensAreTokenized(source, tokens[1..], t.end);
        assert tokens == [tokens[0]] + tokens[1..];
      }
    }
  }

  lemma NothingTokenized(source: Text, tokens: seq<Token>)
    ensures Tokenized(source, tokens, |source|) <==> tokens == []
  {
    hide IsToken;
    assert tokens != [] ==> tokens[0] in tokens;
  }

  lemma FirstTokenized(source: Text, tokens: seq<Token>, from: nat)
    requires from < |source| && Tokenized(source, tokens, from)
    ensures tokens != [] && tokens[0] == TokenAt(source, from) && Tokenized(source, tokens[1..], tokens[0].end)
  {
    hide IsToken, Scan, Utf8;
    var t := tokens[0];
    assert t in tokens;
    ScanIsToken(source, from, t.end, t.kind);
    assert forall x :: x in tokens[1..] ==> x in tokens;
  }
}
