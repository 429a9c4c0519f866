// Splitting a compile command into words (tools/cleanup/audit_includes.cpp).
module CommandWords {
  import opened Basics
  import opened Codec
  import opened Lexer

  const BACKSLASH: CodeUnit := '\\' as int
  const APOSTROPHE: CodeUnit := '\'' as int
  const QUOTE: CodeUnit := '"' as int
  const SPACE: CodeUnit := ' ' as int

  datatype Split<T> = Words(words: seq<T>) | UnterminatedEscape | UnterminatedQuote

  function Prepend<T>(word: T, s: Split<T>): Split<T> {
    if s.Words? then Words([word] + s.words) else s
  }

  // The words of u, when `word` has been collected so far: inside the quotes `quote`
  // (0 for none), and with the word `started`.
  function SplitFrom(u: Text, quote: CodeUnit, word: Text, started: bool): Split<Text>
    decreases |u|
  {
    if u == [] then
      if quote != 0 then UnterminatedQuote else if started then Words([word]) else Words([])
    else if u[0] == BACKSLASH && quote != APOSTROPHE then
      if |u| == 1 then UnterminatedEscape else SplitFrom(u[2..], quote, word + [u[1]], true)
    else if quote != 0 && u[0] == quote then SplitFrom(u[1..], 0, word, started)
    else if quote == 0 && (u[0] == APOSTROPHE || u[0] == QUOTE) then SplitFrom(u[1..], u[0], word, true)
    else if quote == 0 && Whitespace(u[0]) then
      var rest := SplitFrom(u[1..], 0, [], false);
      if started then Prepend(word, rest) else rest
    else SplitFrom(u[1..], quote, word + [u[0]], true)
  }

  function Encoded(words: seq<Text>): (r: seq<seq<Byte>>)
    ensures |r| == |words|
    ensures forall i :: 0 <= i < |r| ==> r[i] == Utf8(words[i])
  {
    seq(|words|, i requires 0 <= i < |words| => Utf8(words[i]))
  }

  function EncodedSplit(s: Split<Text>): Split<seq<Byte>> {
    match s
    case Words(words) => Words(Encoded(words))
    case UnterminatedEscape => UnterminatedEscape
    case UnterminatedQuote => UnterminatedQuote
  }

  // The words of a command line, or the error that the program reports.
  function CommandSplit(command: seq<Byte>): Split<seq<Byte>> {
    EncodedSplit(SplitFrom(Utf16(command), 0, [], false))
  }

  // The words found before the rest of the text.
  function Before(prior: seq<Text>, s: Split<Text>): Split<Text> {
    if s.Words? then Words(prior + s.words) else s
  }

  method CommandWords(command: seq<Byte>) returns (r: Split<seq<Byte>>)
    ensures r == CommandSplit(command)
  {
    hide Utf8, Utf16, Whitespace, SplitFrom;
    var units := ToUtf16(command);
    NothingBefore(SplitFrom(units, 0, [], false));
    assert units[0..] == units;
    var result: seq<seq<Byte>> := [];
    ghost var found: seq<Text> := [];
    var word: Text := [];
    var quote: CodeUnit := 0;
    var started := false;
    var i := 0;
    while i < |units|
      invariant 0 <= i <= |units|
      invariant result == Encoded(found)
      invariant SplitFrom(units, 0, [], false) == Before(found, SplitFrom(units[i..], quote, word, started))
    {
      SplitStep(units, i, quote, word, started, found);
      var u := units[i];
      if u == BACKSLASH && quote != APOSTROPHE {
        i := i + 1;
        if i == |units| {
          return UnterminatedEscape;
        }
        word := word + [units[i]];
        started := true;
      } else if quote != 0 && u == quote {
        quote := 0;
      } else if quote == 0 && (u == APOSTROPHE || u == QUOTE) {
        quote := u;
        started := true;
      } else if quote == 0 && Whitespace(u) {
        if started {
          var text := FromUtf16(word);
          result := result + [text];
          found := found + [word];
        }
        word := [];
        started := false;
      } else {
        word := word + [u];
        started := true;
      }
      i := i + 1;
    }
    assert units[i..] == [];
    SplitEnds(quote, word, started);
    if quote != 0 {
      return UnterminatedQuote;
    }
    if started {
      var text := FromUtf16(word);
      result := result + [text];
    }
    r := Words(result);
  }

  lemma NothingBefore(s: Split<Text>)
    ensures Before([], s) == s
  {
  }

  lemma SplitEnds(quote: CodeUnit, word: Text, started: bool)
    ensures SplitFrom([], quote, word, started) ==
      if quote != 0 then UnterminatedQuote else if started then Words([word]) else Words([])
  {
  }

  lemma SplitStep(units: Text, i: nat, quote: CodeUnit, word: Text, started: bool, found: seq<Text>)
    requires i < |units|
    ensures var u := units[i];
      Before(found, SplitFrom(units[i..], quote, word, started)) ==
      if u == BACKSLASH && quote != APOSTROPHE then
        if i + 1 == |units| then UnterminatedEscape
        else Before(found, SplitFrom(units[i + 2..], quote, word + [units[i + 1]], true))
      else if quote != 0 && u == quote then Before(found, SplitFrom(units[i + 1..], 0, word, started))
      else if quote == 0 && (u == APOSTROPHE || u == QUOTE) then Before(found, SplitFrom(units[i + 1..], u, word, true))
      else if quote == 0 && Whitespace(u) then
        Before(if started then found + [word] else found, SplitFrom(units[i + 1..], 0, [], false))
      else Before(found, SplitFrom(units[i + 1..], quote, word + [u], true))
  {
    hide Whitespace;
    var s := units[i..];
    assert s[1..] == units[i + 1..];
    if |s| >= 2 {
      assert s[2..] == units[i + 2..];
    }
    var rest := SplitFrom(units[i + 1..], 0, [], false);
    if rest.Words? {
      assert found + ([word] + rest.words) == found + [word] + rest.words;
    }
  }

  // ---------------------------------------------------------------------------
  // Quoting
  // ---------------------------------------------------------------------------

  // A word between apostrophes; an apostrophe inside leaves them, is escaped, and enters
  // them again (POSIX.1-2017 Shell Command Language, sections 2.2.1 and 2.2.2).
  function QuotedBody<T(==)>(w: seq<T>, apostrophe: T, backslash: T): seq<T> {
    if w == [] then []
    else
      (if w[0] == apostrophe then [apostrophe, backslash, apostrophe, apostrophe] else [w[0]])
      + QuotedBody(w[1..], apostrophe, backslash)
  }

  function Quoted<T(==)>(w: seq<T>, apostrophe: T, backslash: T): seq<T> {
    [apostrophe] + QuotedBody(w, apostrophe, backslash) + [apostrophe]
  }

  // The quoted words, joined by spaces.
  function Line<T(==)>(ws: seq<seq<T>>, apostrophe: T, backslash: T, space: T): seq<T> {
    if ws == [] then []
    else if |ws| == 1 then Quoted(ws[0], apostrophe, backslash)
    else Quoted(ws[0], apostrophe, backslash) + [space] + Line(ws[1..], apostrophe, backslash, space)
  }

  function UnitLine(ws: seq<Text>): Text {
    Line<CodeUnit>(ws, APOSTROPHE, BACKSLASH, SPACE)
  }

  function ByteLine(ws: seq<seq<Byte>>): seq<Byte> {
    Line<Byte>(ws, APOSTROPHE, BACKSLASH, SPACE)
  }

  // The quoted form of a body, up to its closing apostrophe and what follows.
  function Tail(w: Text, rest: Text): Text {
    QuotedBody<CodeUnit>(w, APOSTROPHE, BACKSLASH) + [APOSTROPHE] + rest
  }

  lemma TailStep(w: Text, rest: Text)
    ensures w == [] ==> Tail(w, rest) == [APOSTROPHE] + rest
    ensures w != [] ==>
      Tail(w, rest) ==
        if w[0] == APOSTROPHE then [APOSTROPHE, BACKSLASH, APOSTROPHE, APOSTROPHE] + Tail(w[1..], rest)
        else [w[0]] + Tail(w[1..], rest)
  {
  }

  lemma PlainSplits(u: CodeUnit, tail: Text, word: Text)
    requires u != APOSTROPHE
    ensures SplitFrom([u] + tail, APOSTROPHE, word, true) == SplitFrom(tail, APOSTROPHE, word + [u], true)
  {
    hide Whitespace;
    assert ([u] + tail)[1..] == tail;
  }

  lemma QuoteEnds(rest: Text, word: Text)
    ensures SplitFrom([APOSTROPHE] + rest, APOSTROPHE, word, true) == SplitFrom(rest, 0, word, true)
  {
    hide Whitespace;
    assert ([APOSTROPHE] + rest)[1..] == rest;
  }

  lemma {:induction false} BodySplits(w: Text, rest: Text, word: Text)
    ensures SplitFrom(Tail(w, rest), APOSTROPHE, word, true) == SplitFrom(rest, 0, word + w, true)
    decreases |w|
  {
    hide *;
    TailStep(w, rest);
    if w == [] {
      QuoteEnds(rest, word);
      assert word + w == word;
    } else {
      BodySplits(w[1..], rest, word + [w[0]]);
      assert word + [w[0]] + w[1..] == word + w;
      if w[0] == APOSTROPHE {
        EscapedApostrophe(Tail(w[1..], rest), word);
      } else {
        PlainSplits(w[0], Tail(w[1..], rest), word);
      }
    }
  }

  lemma EscapedApostrophe(tail: Text, word: Text)
    ensures SplitFrom([APOSTROPHE, BACKSLASH, APOSTROPHE, APOSTROPHE] + tail, APOSTROPHE, word, true)
         == SplitFrom(tail, APOSTROPHE, word + [APOSTROPHE], true)
  {
    var a := [APOSTROPHE, BACKSLASH, APOSTROPHE, APOSTROPHE] + tail;
    var b := [BACKSLASH, APOSTROPHE, APOSTROPHE] + tail;
    var c := [APOSTROPHE] + tail;
    assert a[1..] == b && b[2..] == c && c[1..] == tail;
    assert SplitFrom(a, APOSTROPHE, word, true) == SplitFrom(b, 0, word, true);
    assert SplitFrom(b, 0, word, true) == SplitFrom(c, 0, word + [APOSTROPHE], true);
  }

  lemma QuotedSplits(w: Text, rest: Text)
    ensures SplitFrom(Quoted<CodeUnit>(w, APOSTROPHE, BACKSLASH) + rest, 0, [], false) == SplitFrom(rest, 0, w, true)
  {
    hide SplitFrom;
    assert Quoted<CodeUnit>(w, APOSTROPHE, BACKSLASH) + rest == [APOSTROPHE] + Tail(w, rest);
    QuoteStarts(Tail(w, rest));
    BodySplits(w, rest, []);
    assert [] + w == w;
  }

  lemma QuoteStarts(tail: Text)
    ensures SplitFrom([APOSTROPHE] + tail, 0, [], false) == SplitFrom(tail, APOSTROPHE, [], true)
  {
    hide Whitespace;
    assert ([APOSTROPHE] + tail)[1..] == tail;
  }

  // Splitting undoes quoting, for every list of words over the code units.
  lemma {:induction false} UnitLineSplits(ws: seq<Text>)
    ensures SplitFrom(UnitLine(ws), 0, [], false) == Words(ws)
    decreases |ws|
  {
    if |ws| == 1 {
      QuotedSplits(ws[0], []);
      assert Quoted<CodeUnit>(ws[0], APOSTROPHE, BACKSLASH) + [] == UnitLine(ws);
    } else if |ws| > 1 {
      var rest := [SPACE] + UnitLine(ws[1..]);
      QuotedSplits(ws[0], rest);
      assert Quoted<CodeUnit>(ws[0], APOSTROPHE, BACKSLASH) + rest == UnitLine(ws);
      assert rest[1..] == UnitLine(ws[1..]);
      UnitLineSplits(ws[1..]);
      assert [ws[0]] + ws[1..] == ws;
    }
  }

  // --- the same for bytes ---

  // Only the apostrophe's own encoding contains the byte of an apostrophe.
  lemma {:induction false} PlainBytes(bytes: seq<Byte>, rest: seq<Byte>)
    requires APOSTROPHE !in bytes
    ensures QuotedBody<Byte>(bytes + rest, APOSTROPHE, BACKSLASH) ==
      bytes + QuotedBody<Byte>(rest, APOSTROPHE, BACKSLASH)
    decreases |bytes|
  {
    if bytes == [] {
      assert bytes + rest == rest;
    } else {
      assert (bytes + rest)[1..] == bytes[1..] + rest;
      PlainBytes(bytes[1..], rest);
    }
  }

  lemma EncodedApostrophe(p: Point)
    ensures p == APOSTROPHE ==> EncodePoint(p) == [APOSTROPHE]
    ensures p != APOSTROPHE ==> APOSTROPHE !in EncodePoint(p)
  {
  }

  lemma Ascii(u: CodeUnit, rest: Text)
    requires u < 0x80
    ensures Utf8([u] + rest) == [u] + Utf8(rest)
  {
    assert ([u] + rest)[1..] == rest;
  }

  lemma {:induction false} BodyEncodes(w: Text)
    ensures Utf8(QuotedBody<CodeUnit>(w, APOSTROPHE, BACKSLASH)) == QuotedBody<Byte>(Utf8(w), APOSTROPHE, BACKSLASH)
    decreases |w|
  {
    if w != [] {
      var n, p := FirstLength(w), FirstPoint(w);
      Utf8Step(w);
      BodyEncodes(w[n..]);
      EncodedApostrophe(p);
      var tail := QuotedBody<CodeUnit>(w[n..], APOSTROPHE, BACKSLASH);
      if w[0] == APOSTROPHE {
        EscapeEncodes(tail);
        assert Utf8(w)[1..] == Utf8(w[1..]);
      } else {
        BodyTakesPoint(w);
        PlainBytes(EncodePoint(p), Utf8(w[n..]));
      }
    }
  }

  lemma EscapeEncodes(tail: Text)
    ensures Utf8([APOSTROPHE, BACKSLASH, APOSTROPHE, APOSTROPHE] + tail) ==
      [APOSTROPHE, BACKSLASH, APOSTROPHE, APOSTROPHE] + Utf8(tail)
  {
    hide Utf8;
    Ascii(APOSTROPHE, [BACKSLASH, APOSTROPHE, APOSTROPHE] + tail);
    Ascii(BACKSLASH, [APOSTROPHE, APOSTROPHE] + tail);
    Ascii(APOSTROPHE, [APOSTROPHE] + tail);
    Ascii(APOSTROPHE, tail);
    assert [APOSTROPHE, BACKSLASH, APOSTROPHE, APOSTROPHE] + tail ==
      [APOSTROPHE] + ([BACKSLASH, APOSTROPHE, APOSTROPHE] + tail);
    assert [BACKSLASH, APOSTROPHE, APOSTROPHE] + tail == [BACKSLASH] + ([APOSTROPHE, APOSTROPHE] + tail);
    assert [APOSTROPHE, APOSTROPHE] + tail == [APOSTROPHE] + ([APOSTROPHE] + tail);
  }

  // A quoted body keeps the surrogate pairs of the word together, and makes no new one.
  lemma BodyTakesPoint(w: Text)
    requires w != [] && w[0] != APOSTROPHE
    ensures var n := FirstLength(w);
      var tail := QuotedBody<CodeUnit>(w[n..], APOSTROPHE, BACKSLASH);
      && QuotedBody<CodeUnit>(w, APOSTROPHE, BACKSLASH) == w[..n] + tail
      && Utf8(w[..n] + tail) == EncodePoint(FirstPoint(w)) + Utf8(tail)
  {
    hide *;
    var n := FirstLength(w);
    var tail := QuotedBody<CodeUnit>(w[n..], APOSTROPHE, BACKSLASH);
    BodyHead(w);
    var u := w[..n] + tail;
    assert u[n..] == tail;
    BodyStarts(w[n..]);
    SameFirst(w, tail);
    Utf8Step(u);
  }

  lemma BodyStep(w: Text)
    requires w != [] && w[0] != APOSTROPHE
    ensures QuotedBody<CodeUnit>(w, APOSTROPHE, BACKSLASH) ==
      [w[0]] + QuotedBody<CodeUnit>(w[1..], APOSTROPHE, BACKSLASH)
  {
  }

  lemma BodyHead(w: Text)
    requires w != [] && w[0] != APOSTROPHE
    ensures var n := FirstLength(w);
      QuotedBody<CodeUnit>(w, APOSTROPHE, BACKSLASH) == w[..n] + QuotedBody<CodeUnit>(w[n..], APOSTROPHE, BACKSLASH)
  {
    hide QuotedBody;
    BodyStep(w);
    if StartsWithPair(w) {
      BodyStep(w[1..]);
      assert w[1..][1..] == w[2..];
      assert w[..2] == [w[0]] + [w[1]];
      Associate([w[0]], [w[1]], QuotedBody<CodeUnit>(w[2..], APOSTROPHE, BACKSLASH));
    } else {
      assert w[..1] == [w[0]];
    }
  }

  lemma BodyStarts(w: Text)
    ensures var body := QuotedBody<CodeUnit>(w, APOSTROPHE, BACKSLASH);
      if w == [] then body == [] else body != [] && body[0] == w[0]
  {
  }

  // The first point does not change when what follows starts alike.
  lemma SameFirst(w: Text, tail: Text)
    requires w != [] && var n := FirstLength(w); if n == |w| then tail == [] else tail != [] && tail[0] == w[n]
    ensures var n := FirstLength(w); FirstLength(w[..n] + tail) == n && FirstPoint(w[..n] + tail) == FirstPoint(w)
  {
    hide Combine;
  }

  lemma QuotedEncodes(w: Text, rest: Text)
    requires rest == [] || rest[0] == SPACE
    ensures Utf8(Quoted<CodeUnit>(w, APOSTROPHE, BACKSLASH) + rest) ==
      Quoted<Byte>(Utf8(w), APOSTROPHE, BACKSLASH) + Utf8(rest)
  {
    hide Utf8, QuotedBody;
    var body := QuotedBody<CodeUnit>(w, APOSTROPHE, BACKSLASH);
    BodyEncodes(w);
    Ascii(APOSTROPHE, rest);
    Utf8Joins(body, [APOSTROPHE] + rest);
    Ascii(APOSTROPHE, body + ([APOSTROPHE] + rest));
    assert Quoted<CodeUnit>(w, APOSTROPHE, BACKSLASH) + rest == [APOSTROPHE] + (body + ([APOSTROPHE] + rest));
    var bytes := QuotedBody<Byte>(Utf8(w), APOSTROPHE, BACKSLASH);
    assert Quoted<Byte>(Utf8(w), APOSTROPHE, BACKSLASH) + Utf8(rest) ==
      [APOSTROPHE] + (bytes + ([APOSTROPHE] + Utf8(rest)));
  }

  lemma {:induction false} LineEncodes(ws: seq<Text>)
    ensures Utf8(UnitLine(ws)) == ByteLine(Encoded(ws))
    decreases |ws|
  {
    hide Utf8, Quoted;
    EmptyEncodes();
    if |ws| == 1 {
      QuotedEncodes(ws[0], []);
      assert Quoted<CodeUnit>(ws[0], APOSTROPHE, BACKSLASH) + [] == UnitLine(ws);
      assert Quoted<Byte>(Utf8(ws[0]), APOSTROPHE, BACKSLASH) + [] == Quoted<Byte>(Utf8(ws[0]), APOSTROPHE, BACKSLASH);
    } else if |ws| > 1 {
      var rest := [SPACE] + UnitLine(ws[1..]);
      QuotedEncodes(ws[0], rest);
      Ascii(SPACE, UnitLine(ws[1..]));
      LineEncodes(ws[1..]);
      assert Quoted<CodeUnit>(ws[0], APOSTROPHE, BACKSLASH) + rest == UnitLine(ws);
      assert Encoded(ws)[1..] == Encoded(ws[1..]);
    }
  }

  lemma EmptyEncodes()
    ensures Utf8([]) == []
  {
  }

  function Decoded(words: seq<seq<Byte>>): (r: seq<Text>)
    ensures |r| == |words|
  {
    seq(|words|, i requires 0 <= i < |words| => Utf16(words[i]))
  }

  // The words that come back from their quoted forms are exactly the lists of WTF-8
  // strings: among them every list of valid UTF-8 strings, empty ones included.
  lemma CommandWordsRoundTrip(words: seq<seq<Byte>>)
    ensures CommandSplit(ByteLine(words)) == Words(words) <==> forall i :: 0 <= i < |words| ==> ValidWtf8(words[i])
  {
    hide Utf8, Utf16, SplitFrom, Line, ValidWtf8;
    if forall i :: 0 <= i < |words| ==> ValidWtf8(words[i]) {
      var ws := Decoded(words);
      forall i | 0 <= i < |words|
        ensures Encoded(ws)[i] == words[i]
      {
        RoundTripBytes(words[i]);
      }
      assert Encoded(ws) == words;
      LineEncodes(ws);
      RoundTripUnits(UnitLine(ws));
      UnitLineSplits(ws);
    }
    if CommandSplit(ByteLine(words)) == Words(words) {
      var s := SplitFrom(Utf16(ByteLine(words)), 0, [], false);
      forall i | 0 <= i < |words|
        ensures ValidWtf8(words[i])
      {
        assert words[i] == Utf8(s.words[i]);
        WriterOutput(s.words[i]);
      }
    }
  }

  // A word that is no text does not come back.
  lemma InvalidWordIsLost()
    ensures CommandSplit(ByteLine([[0xFF]])) != Words([[0xFF]])
  {
    hide CommandSplit, ByteLine;
    CommandWordsRoundTrip([[0xFF]]);
    assert !ValidWtf8([0xFF]);
    assert [[0xFF]][0] == [0xFF];
  }
}
