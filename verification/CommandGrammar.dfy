// The command lines of CommandWords as concrete syntax: bare, escaped and quoted pieces between
// blanks (tools/cleanup/audit_includes.cpp commandWords).
module CommandGrammar {
  import opened Codec
  import opened Lexer
  import opened LexicalGrammar
  import opened CommandWords

  // Inside double quotes: a unit that stands for itself, or any unit after a backslash.
  datatype Inner = Same(u: CodeUnit) | After(u: CodeUnit)

  datatype Atom =
    | Gap(u: CodeUnit)                 // a blank outside quotes
    | Bare(u: CodeUnit)                // stands for itself
    | Escape(u: CodeUnit)              // after a backslash
    | Single(text: Text)               // between apostrophes
    | Double(parts: seq<Inner>)        // between double quotes

  predicate ProperInner(i: Inner) {
    i.Same? ==> i.u != 0x22 && i.u != 0x5C
  }

  predicate Proper(a: Atom) {
    match a
    case Gap(u) => BlankUnit(u)
    case Bare(u) => !BlankUnit(u) && u !in [0x22, 0x27, 0x5C]
    case Escape(_) => true
    case Single(text) => 0x27 !in text
    case Double(parts) => forall i :: i in parts ==> ProperInner(i)
  }

  // --- how atoms are spelled ---

  function InnerText(parts: seq<Inner>): Text {
    if parts == [] then []
    else (if parts[0].Same? then [parts[0].u] else [0x5C, parts[0].u]) + InnerText(parts[1..])
  }

  function Spelling(a: Atom): Text {
    match a
    case Gap(u) => [u]
    case Bare(u) => [u]
    case Escape(u) => [0x5C, u]
    case Single(text) => [0x27] + text + [0x27]
    case Double(parts) => [0x22] + InnerText(parts) + [0x22]
  }

  function Spelled(atoms: seq<Atom>): Text {
    if atoms == [] then [] else Spelling(atoms[0]) + Spelled(atoms[1..])
  }

  // --- what they mean ---

  function InnerValue(parts: seq<Inner>): Text {
    if parts == [] then [] else [parts[0].u] + InnerValue(parts[1..])
  }

  function Value(a: Atom): Text {
    match a
    case Gap(_) => []
    case Bare(u) => [u]
    case Escape(u) => [u]
    case Single(text) => text
    case Double(parts) => InnerValue(parts)
  }

  function Values(atoms: seq<Atom>): Text {
    if atoms == [] then [] else Value(atoms[0]) + Values(atoms[1..])
  }

  // The number of atoms up to the next gap.
  function WordLength(atoms: seq<Atom>): (n: nat)
    ensures n <= |atoms|
    ensures forall k :: 0 <= k < n ==> !atoms[k].Gap?
    ensures n < |atoms| ==> atoms[n].Gap?
  {
    if atoms == [] || atoms[0].Gap? then 0 else 1 + WordLength(atoms[1..])
  }

  // A word is what the atoms between two gaps stand for, be it empty.
  function Meaning(atoms: seq<Atom>): seq<Text> {
    if atoms == [] then []
    else if atoms[0].Gap? then Meaning(atoms[1..])
    else [Values(atoms[..WordLength(atoms)])] + Meaning(atoms[WordLength(atoms)..])
  }

  ghost predicate AllProper(atoms: seq<Atom>) {
    forall a :: a in atoms ==> Proper(a)
  }

  // ---------------------------------------------------------------------------
  // The split of a spelled line
  // ---------------------------------------------------------------------------

  // The words of the atoms, when `word` has been collected so far.
  function Collected(atoms: seq<Atom>, word: Text, started: bool): seq<Text> {
    if atoms == [] then (if started then [word] else [])
    else if atoms[0].Gap? then (if started then [word] else []) + Collected(atoms[1..], [], false)
    else Collected(atoms[1..], word + Value(atoms[0]), true)
  }

  lemma GapCollects(atoms: seq<Atom>, word: Text, started: bool)
    requires atoms == [] || atoms[0].Gap?
    ensures Collected(atoms, word, started) == (if started then [word] else []) + Collected(atoms, [], false)
  {
    if atoms != [] {
      assert [] + Collected(atoms[1..], [], false) == Collected(atoms[1..], [], false);
    }
  }

  lemma {:induction false} StartedCollects(atoms: seq<Atom>, word: Text)
    ensures var n := WordLength(atoms);
      Collected(atoms, word, true) == [word + Values(atoms[..n])] + Collected(atoms[n..], [], false)
    decreases |atoms|
  {
    var n := WordLength(atoms);
    if n == 0 {
      GapCollects(atoms, word, true);
      assert atoms[..0] == [] && atoms[0..] == atoms && word + [] == word;
    } else {
      hide Value;
      var rest := atoms[1..];
      StartedCollects(rest, word + Value(atoms[0]));
      assert atoms[..n][1..] == rest[..n - 1] && atoms[n..] == rest[n - 1..];
      assert word + Value(atoms[0]) + Values(rest[..n - 1]) == word + Values(atoms[..n]);
    }
  }

  lemma {:induction false} FreshCollects(atoms: seq<Atom>)
    ensures Collected(atoms, [], false) == Meaning(atoms)
    decreases |atoms|
  {
    hide Value;
    if atoms != [] {
      if atoms[0].Gap? {
        FreshCollects(atoms[1..]);
        assert [] + Collected(atoms[1..], [], false) == Collected(atoms[1..], [], false);
      } else {
        var n, rest := WordLength(atoms), atoms[1..];
        StartedCollects(rest, [] + Value(atoms[0]));
        assert atoms[..n][1..] == rest[..n - 1] && atoms[n..] == rest[n - 1..];
        assert [] + Value(atoms[0]) + Values(rest[..n - 1]) == Values(atoms[..n]);
        FreshCollects(atoms[n..]);
      }
    }
  }

  // --- one atom ---

  lemma {:induction false} SingleSplits(text: Text, rest: Text, word: Text)
    requires 0x27 !in text
    ensures SplitFrom(text + [0x27] + rest, 0x27, word, true) == SplitFrom(rest, 0, word + text, true)
    decreases |text|
  {
    hide Whitespace;
    var u := text + [0x27] + rest;
    if text == [] {
      assert u[1..] == rest && word + text == word;
    } else {
      assert u[1..] == text[1..] + [0x27] + rest;
      SingleSplits(text[1..], rest, word + [text[0]]);
      assert word + [text[0]] + text[1..] == word + text;
    }
  }

  lemma {:induction false} DoubleSplits(parts: seq<Inner>, rest: Text, word: Text)
    requires forall i :: i in parts ==> ProperInner(i)
    ensures SplitFrom(InnerText(parts) + [0x22] + rest, 0x22, word, true) ==
      SplitFrom(rest, 0, word + InnerValue(parts), true)
    decreases |parts|
  {
    hide Whitespace;
    var u := InnerText(parts) + [0x22] + rest;
    if parts == [] {
      assert u[1..] == rest && word + InnerValue(parts) == word;
    } else {
      var i, tail := parts[0], InnerText(parts[1..]) + [0x22] + rest;
      assert i in parts;
      DoubleSplits(parts[1..], rest, word + [i.u]);
      assert word + [i.u] + InnerValue(parts[1..]) == word + InnerValue(parts);
      if i.Same? {
        assert u == [i.u] + tail && u[1..] == tail;
      } else {
        assert u == [0x5C, i.u] + tail && u[2..] == tail;
      }
    }
  }

  lemma AtomSplits(a: Atom, rest: Text, word: Text, started: bool)
    requires Proper(a)
    ensures SplitFrom(Spelling(a) + rest, 0, word, started) ==
      if a.Gap? then (if started then Prepend(word, SplitFrom(rest, 0, [], false)) else SplitFrom(rest, 0, [], false))
      else SplitFrom(rest, 0, word + Value(a), true)
  {
    hide BlankUnit, Whitespace;
    var u := Spelling(a) + rest;
    match a {
      case Gap(x) =>
        Classes(x);
        BlankIsOrdinary(x);
        assert u[1..] == rest;
      case Bare(x) =>
        Classes(x);
        assert u[1..] == rest;
      case Escape(x) =>
        assert u[2..] == rest;
      case Single(text) =>
        assert u[1..] == text + [0x27] + rest;
        SingleSplits(text, rest, word);
      case Double(parts) =>
        assert u[1..] == InnerText(parts) + [0x22] + rest;
        DoubleSplits(parts, rest, word);
    }
  }

  lemma BlankIsOrdinary(u: CodeUnit)
    requires BlankUnit(u)
    ensures u !in [0x22, 0x27, 0x5C]
  {
  }

  lemma {:induction false} AtomsSplit(atoms: seq<Atom>, word: Text, started: bool)
    requires AllProper(atoms)
    ensures SplitFrom(Spelled(atoms), 0, word, started) == Words(Collected(atoms, word, started))
    decreases |atoms|
  {
    hide SplitFrom, Spelling, Value, Proper;
    if atoms == [] {
      SplitEnds(0, word, started);
    } else {
      var a, later := atoms[0], atoms[1..];
      assert a in atoms;
      AtomSplits(a, Spelled(later), word, started);
      if a.Gap? {
        AtomsSplit(later, [], false);
      } else {
        AtomsSplit(later, word + Value(a), true);
      }
    }
  }

  // ---------------------------------------------------------------------------
  // Lines that end too early
  // ---------------------------------------------------------------------------

  // What is left open at the end of a line: nothing, a quotation, or a backslash with nothing
  // after it, outside or inside double quotes.
  datatype Open =
    | Closed
    | InSingle(text: Text)
    | InDouble(parts: seq<Inner>)
    | Dangling
    | DanglingInside(parts: seq<Inner>)

  predicate ProperOpen(o: Open) {
    match o
    case InSingle(text) => 0x27 !in text
    case InDouble(parts) => forall i :: i in parts ==> ProperInner(i)
    case DanglingInside(parts) => forall i :: i in parts ==> ProperInner(i)
    case _ => true
  }

  function OpenText(o: Open): Text {
    match o
    case Closed => []
    case InSingle(text) => [0x27] + text
    case InDouble(parts) => [0x22] + InnerText(parts)
    case Dangling => [0x5C]
    case DanglingInside(parts) => [0x22] + InnerText(parts) + [0x5C]
  }

  datatype Line = Line(atoms: seq<Atom>, open: Open)

  ghost predicate ProperLine(line: Line) {
    AllProper(line.atoms) && ProperOpen(line.open)
  }

  function LineText(line: Line): Text {
    Spelled(line.atoms) + OpenText(line.open)
  }

  function LineMeaning(line: Line): Split<Text> {
    match line.open
    case Closed => Words(Meaning(line.atoms))
    case InSingle(_) => UnterminatedQuote
    case InDouble(_) => UnterminatedQuote
    case Dangling => UnterminatedEscape
    case DanglingInside(_) => UnterminatedEscape
  }

  lemma {:induction false} SingleOpens(text: Text, word: Text)
    requires 0x27 !in text
    ensures SplitFrom(text, 0x27, word, true) == UnterminatedQuote
    decreases |text|
  {
    hide Whitespace;
    if text != [] {
      SingleOpens(text[1..], word + [text[0]]);
    }
  }

  lemma {:induction false} DoubleOpens(parts: seq<Inner>, dangling: bool, word: Text)
    requires forall i :: i in parts ==> ProperInner(i)
    ensures SplitFrom(InnerText(parts) + if dangling then [0x5C] else [], 0x22, word, true) ==
      if dangling then UnterminatedEscape else UnterminatedQuote
    decreases |parts|
  {
    hide Whitespace;
    var end := if dangling then [0x5C] else [];
    var u := InnerText(parts) + end;
    if parts == [] {
      assert u == end;
    } else {
      var i, tail := parts[0], InnerText(parts[1..]) + end;
      assert i in parts;
      DoubleOpens(parts[1..], dangling, word + [i.u]);
      if i.Same? {
        assert u == [i.u] + tail && u[1..] == tail;
      } else {
        assert u == [0x5C, i.u] + tail && u[2..] == tail;
      }
    }
  }

  lemma OpenFails(o: Open, word: Text, started: bool)
    requires ProperOpen(o) && !o.Closed?
    ensures SplitFrom(OpenText(o), 0, word, started) == LineMeaning(Line([], o))
  {
    hide Whitespace;
    var u := OpenText(o);
    match o {
      case InSingle(text) =>
        assert u[1..] == text;
        SingleOpens(text, word);
      case InDouble(parts) =>
        assert u[1..] == InnerText(parts) + [];
        DoubleOpens(parts, false, word);
      case DanglingInside(parts) =>
        assert u[1..] == InnerText(parts) + [0x5C];
        DoubleOpens(parts, true, word);
      case _ =>
    }
  }

  lemma {:induction false} AtomsThenOpen(atoms: seq<Atom>, o: Open, word: Text, started: bool)
    requires AllProper(atoms) && ProperOpen(o) && !o.Closed?
    ensures SplitFrom(Spelled(atoms) + OpenText(o), 0, word, started) == LineMeaning(Line(atoms, o))
    decreases |atoms|
  {
    hide SplitFrom, Spelling, Value, Proper, OpenText, ProperOpen;
    if atoms == [] {
      OpenFails(o, word, started);
      assert Spelled(atoms) + OpenText(o) == OpenText(o);
    } else {
      var a, later := atoms[0], atoms[1..];
      assert a in atoms;
      var rest := Spelled(later) + OpenText(o);
      assert Spelled(atoms) + OpenText(o) == Spelling(a) + rest;
      AtomSplits(a, rest, word, started);
      if a.Gap? {
        AtomsThenOpen(later, o, [], false);
      } else {
        AtomsThenOpen(later, o, word + Value(a), true);
      }
    }
  }

  lemma LineSplits(line: Line)
    requires ProperLine(line)
    ensures SplitFrom(LineText(line), 0, [], false) == LineMeaning(line)
  {
    hide SplitFrom, Proper, Meaning;
    if line.open.Closed? {
      assert Spelled(line.atoms) + [] == Spelled(line.atoms);
      AtomsSplit(line.atoms, [], false);
      FreshCollects(line.atoms);
    } else {
      AtomsThenOpen(line.atoms, line.open, [], false);
    }
  }

  // ---------------------------------------------------------------------------
  // Every text is such a line
  // ---------------------------------------------------------------------------

  // What follows an opening double quote: its parts, and where they end.
  lemma {:induction false} InnerOf(u: Text) returns (parts: seq<Inner>, end: nat)
    ensures end <= |u| && u[..end] == InnerText(parts) && forall i :: i in parts ==> ProperInner(i)
    ensures end == |u| || u[end] == 0x22 || (u[end] == 0x5C && end + 1 == |u|)
    decreases |u|
  {
    if u == [] || u[0] == 0x22 || (u[0] == 0x5C && |u| == 1) {
      parts, end := [], 0;
    } else if u[0] == 0x5C {
      var more, n := InnerOf(u[2..]);
      parts, end := [After(u[1])] + more, n + 2;
      assert parts[1..] == more;
      assert u[..end] == [u[0], u[1]] + u[2..][..n];
    } else {
      var more, n := InnerOf(u[1..]);
      parts, end := [Same(u[0])] + more, n + 1;
      assert parts[1..] == more;
      assert u[..end] == [u[0]] + u[1..][..n];
    }
  }

  // The text up to the first apostrophe.
  lemma {:induction false} UpToApostrophe(u: Text) returns (end: nat)
    ensures end <= |u| && 0x27 !in u[..end] && (end < |u| ==> u[end] == 0x27)
    decreases |u|
  {
    end := 0;
    if u != [] && u[0] != 0x27 {
      var n := UpToApostrophe(u[1..]);
      end := n + 1;
      assert u[..end] == [u[0]] + u[1..][..n];
    }
  }

  // The atom that starts the text, or what it leaves open.
  lemma FirstAtom(u: Text) returns (a: Atom, o: Open)
    requires u != []
    ensures if o.Closed? then Proper(a) && Spelling(a) <= u else ProperOpen(o) && OpenText(o) == u
  {
    a, o := Bare(u[0]), Closed;
    if u[0] == 0x5C {
      if |u| == 1 {
        o := Dangling;
      } else {
        a := Escape(u[1]);
      }
    } else if u[0] == 0x27 {
      var end := UpToApostrophe(u[1..]);
      if end + 1 < |u| {
        a := Single(u[1..end + 1]);
        assert u[1..][..end] == u[1..end + 1];
        assert Spelling(a) == u[..end + 2];
      } else {
        o := InSingle(u[1..]);
        assert u[1..][..end] == u[1..];
      }
    } else if u[0] == 0x22 {
      a, o := FirstQuoted(u);
    } else if BlankUnit(u[0]) {
      a := Gap(u[0]);
    }
  }

  lemma FirstQuoted(u: Text) returns (a: Atom, o: Open)
    requires u != [] && u[0] == 0x22
    ensures if o.Closed? then Proper(a) && Spelling(a) <= u else ProperOpen(o) && OpenText(o) == u
  {
    var parts, end := InnerOf(u[1..]);
    a, o := Double(parts), Closed;
    assert u == [u[0]] + u[1..];
    if end + 1 == |u| {
      o := InDouble(parts);
      assert u[1..][..end] == u[1..];
    } else if u[end + 1] == 0x22 {
      assert Spelling(a) == u[..end + 2];
    } else {
      o := DanglingInside(parts);
      assert u[1..] == u[1..][..end] + [u[end + 1]];
    }
  }

  lemma {:induction false} LineOf(u: Text) returns (line: Line)
    ensures ProperLine(line) && LineText(line) == u
    decreases |u|
  {
    hide *;
    if u == [] {
      line := Line([], Closed);
      OnlyOpen(Closed);
    } else {
      var a, o := FirstAtom(u);
      if o.Closed? {
        SpellingIsSome(a);
        var later := LineOf(u[|Spelling(a)|..]);
        line := Line([a] + later.atoms, later.open);
        LineGrows(a, later, u);
      } else {
        line := Line([], o);
        OnlyOpen(o);
      }
    }
  }

  lemma OnlyOpen(o: Open)
    ensures ProperOpen(Closed) && OpenText(Closed) == []
    ensures ProperOpen(o) ==> ProperLine(Line([], o)) && LineText(Line([], o)) == OpenText(o)
  {
    assert [] + OpenText(o) == OpenText(o);
  }

  lemma LineGrows(a: Atom, later: Line, u: Text)
    requires Proper(a) && ProperLine(later) && Spelling(a) <= u && LineText(later) == u[|Spelling(a)|..]
    ensures ProperLine(Line([a] + later.atoms, later.open)) && LineText(Line([a] + later.atoms, later.open)) == u
  {
    hide Proper, ProperOpen, Spelling, OpenText;
    var atoms := [a] + later.atoms;
    assert atoms[1..] == later.atoms;
    assert Spelling(a) + Spelled(later.atoms) + OpenText(later.open) == Spelling(a) + LineText(later);
    assert u == Spelling(a) + u[|Spelling(a)|..];
  }

  lemma SpellingIsSome(a: Atom)
    ensures |Spelling(a)| >= 1
  {
  }

  // A command line splits into the words of its atoms, or fails as it ends; nothing else.
  lemma SplitIsGrammar(u: Text, r: Split<Text>)
    ensures SplitFrom(u, 0, [], false) == r <==>
      exists line :: ProperLine(line) && LineText(line) == u && LineMeaning(line) == r
  {
    hide SplitFrom, ProperLine, LineText, LineMeaning;
    var line := LineOf(u);
    LineSplits(line);
    forall other | ProperLine(other) && LineText(other) == u
      ensures SplitFrom(u, 0, [], false) == LineMeaning(other)
    {
      LineSplits(other);
    }
  }
}
