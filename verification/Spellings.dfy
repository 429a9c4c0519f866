// Brackets, scopes and statements of a token list by the bytes of its tokens: what the words
// of Scopes and Statements stand for (tools/cleanup/cpd_patterns.cpp SourceIndex).
module Spellings {
  import opened Codec
  import opened Lexer
  import opened Brackets
  import opened Scopes
  import opened Statements

  // ---------------------------------------------------------------------------
  // The words of the scans
  // ---------------------------------------------------------------------------

  predicate Spells(text: seq<Byte>, s: string) {
    |text| == |s| && forall i :: 0 <= i < |s| ==> text[i] == s[i] as int
  }

  function WordOf(text: seq<Byte>): Scopes.Word {
    if Spells(text, "(") then Bracketed(Open(Round))
    else if Spells(text, "[") then Bracketed(Open(Square))
    else if Spells(text, "{") then Bracketed(Open(Curly))
    else if Spells(text, ")") then Bracketed(Close(Round))
    else if Spells(text, "]") then Bracketed(Close(Square))
    else if Spells(text, "}") then Bracketed(Close(Curly))
    else if Spells(text, ";") then Semicolon
    else if Spells(text, "else") || Spells(text, "try") || Spells(text, "do") || Spells(text, ":") then Introducer
    else OtherWord
  }

  function WordsOf(tokens: seq<Token>): (words: seq<Scopes.Word>)
    ensures |words| == |tokens|
  {
    seq(|tokens|, i requires 0 <= i < |tokens| => WordOf(tokens[i].text))
  }

  // ---------------------------------------------------------------------------
  // The texts
  // ---------------------------------------------------------------------------

  // ( [ { and ) ] }
  function Left(b: Bracket): seq<Byte> {
    match b
    case Round => [0x28]
    case Square => [0x5B]
    case Curly => [0x7B]
  }

  function Right(b: Bracket): seq<Byte> {
    match b
    case Round => [0x29]
    case Square => [0x5D]
    case Curly => [0x7D]
  }

  const SEMICOLON: seq<Byte> := [0x3B]

  // else try do :
  const INTRODUCERS: seq<seq<Byte>> := [[0x65, 0x6C, 0x73, 0x65], [0x74, 0x72, 0x79], [0x64, 0x6F], [0x3A]]

  predicate IsLeft(text: seq<Byte>) {
    text == Left(Round) || text == Left(Square) || text == Left(Curly)
  }

  predicate IsRight(text: seq<Byte>) {
    text == Right(Round) || text == Right(Square) || text == Right(Curly)
  }

  lemma WordsAreSpelled(text: seq<Byte>)
    ensures forall b :: WordOf(text) == Bracketed(Open(b)) <==> text == Left(b)
    ensures forall b :: WordOf(text) == Bracketed(Close(b)) <==> text == Right(b)
    ensures WordOf(text) == Semicolon <==> text == SEMICOLON
    ensures WordOf(text) == Introducer <==> text in INTRODUCERS
    ensures WordOf(text) != Bracketed(Plain)
  {
    assert Spells(text, "(") <==> text == [0x28];
    assert Spells(text, "[") <==> text == [0x5B];
    assert Spells(text, "{") <==> text == [0x7B];
    assert Spells(text, ")") <==> text == [0x29];
    assert Spells(text, "]") <==> text == [0x5D];
    assert Spells(text, "}") <==> text == [0x7D];
    assert Spells(text, ";") <==> text == [0x3B];
    assert Spells(text, ":") <==> text == [0x3A];
    assert Spells(text, "do") <==> text == [0x64, 0x6F];
    assert Spells(text, "try") <==> text == [0x74, 0x72, 0x79];
    assert Spells(text, "else") <==> text == [0x65, 0x6C, 0x73, 0x65];
  }

  function SymbolsIn(tokens: seq<Token>): (s: seq<Symbol>)
    ensures |s| == |tokens|
  {
    SymbolsOf(WordsOf(tokens))
  }

  lemma SymbolAt(tokens: seq<Token>, i: nat)
    requires i < |tokens|
    ensures var text, symbol := tokens[i].text, SymbolsIn(tokens)[i];
      && (forall b :: symbol == Open(b) <==> text == Left(b))
      && (forall b :: symbol == Close(b) <==> text == Right(b))
      && (symbol.Open? <==> IsLeft(text)) && (symbol.Close? <==> IsRight(text))
      && (symbol == Plain <==> !IsLeft(text) && !IsRight(text))
  {
    hide WordOf;
    WordsAreSpelled(tokens[i].text);
    var symbol := SymbolsIn(tokens)[i];
    assert symbol == SymbolOf(WordOf(tokens[i].text));
    if symbol.Open? {
      assert symbol == Open(symbol.bracket);
    } else if symbol.Close? {
      assert symbol == Close(symbol.bracket);
    }
    assert symbol != Open(Round) && symbol != Open(Square) && symbol != Open(Curly) ==> !symbol.Open?;
    assert symbol != Close(Round) && symbol != Close(Square) && symbol != Close(Curly) ==> !symbol.Close?;
  }

  // ---------------------------------------------------------------------------
  // Pairs
  // ---------------------------------------------------------------------------

  // Opening less closing brackets in tokens[a..b], of whatever kind.
  function Level(tokens: seq<Token>, a: nat, b: nat): int
    requires a <= b <= |tokens|
    decreases b
  {
    if a == b then 0
    else
      var text := tokens[b - 1].text;
      Level(tokens, a, b - 1) + if IsLeft(text) then 1 else if IsRight(text) then -1 else 0
  }

  // Token j is the first at which the bracket that token i opens is closed, and of its kind.
  ghost predicate Matches(tokens: seq<Token>, i: nat, j: nat) {
    && i < j < |tokens|
    && (exists b :: tokens[i].text == Left(b) && tokens[j].text == Right(b))
    && (forall m :: i < m <= j ==> Level(tokens, i, m) >= 1)
    && Level(tokens, i, j) == 1
  }

  lemma {:induction false} LevelIsNet(tokens: seq<Token>, a: nat, b: nat)
    requires a <= b <= |tokens|
    ensures Level(tokens, a, b) == Net(SymbolsIn(tokens), a, b)
    decreases b
  {
    hide SymbolsIn, IsLeft, IsRight;
    if a < b {
      SymbolAt(tokens, b - 1);
      LevelIsNet(tokens, a, b - 1);
    }
  }

  lemma MatchesArePartners(tokens: seq<Token>, i: nat, j: nat)
    ensures Matches(tokens, i, j) <==> Partners(SymbolsIn(tokens), i, j)
  {
    hide SymbolsIn, Level, Net, IsLeft, IsRight;
    if i < j < |tokens| {
      SymbolAt(tokens, i);
      SymbolAt(tokens, j);
      forall m: nat | i < m <= j
        ensures Level(tokens, i, m) == Net(SymbolsIn(tokens), i, m)
      {
        LevelIsNet(tokens, i, m);
      }
      var s := SymbolsIn(tokens);
      assert s[i].Open? ==> s[i] == Open(s[i].bracket);
    }
  }

  // ---------------------------------------------------------------------------
  // Well-formed token lists
  // ---------------------------------------------------------------------------

  // The tokens spell the nest: its groups between two brackets of their kind, its words by
  // any other texts.
  ghost predicate SpellsNest(tokens: seq<Token>, n: Nest)
    decreases n
  {
    match n
    case Empty => tokens == []
    case Word(rest) =>
      tokens != [] && !IsLeft(tokens[0].text) && !IsRight(tokens[0].text) && SpellsNest(tokens[1..], rest)
    case Group(b, inner, rest) =>
      tokens != [] && tokens[0].text == Left(b) && exists k: nat :: GroupEnds(tokens, n, k)
  }

  ghost predicate GroupEnds(tokens: seq<Token>, n: Nest, k: nat)
    requires n.Group?
    decreases n, 0
  {
    && 1 <= k < |tokens| && tokens[k].text == Right(n.bracket)
    && SpellsNest(tokens[1..k], n.inner) && SpellsNest(tokens[k + 1..], n.rest)
  }

  ghost predicate Nested(tokens: seq<Token>) {
    exists n :: SpellsNest(tokens, n)
  }

  lemma SymbolsInParts(tokens: seq<Token>, a: nat, b: nat)
    requires a <= b <= |tokens|
    ensures SymbolsIn(tokens[a..b]) == SymbolsIn(tokens)[a..b]
    ensures SymbolsIn(tokens[a..]) == SymbolsIn(tokens)[a..]
  {
    hide WordOf;
  }

  lemma GroupSymbolsAt(n: Nest, s: seq<Symbol>, k: nat)
    requires n.Group? && 1 <= k < |s| && k == 1 + |Symbols(n.inner)|
    ensures Symbols(n) == s <==>
      s[0] == Open(n.bracket) && s[1..k] == Symbols(n.inner) && s[k] == Close(n.bracket)
        && s[k + 1..] == Symbols(n.rest)
  {
    var a, b := Symbols(n.inner), Symbols(n.rest);
    var whole := [Open(n.bracket)] + a + [Close(n.bracket)] + b;
    assert whole[1..k] == a && whole[k + 1..] == b && whole[0] == Open(n.bracket) && whole[k] == Close(n.bracket);
    if s[0] == Open(n.bracket) && s[1..k] == a && s[k] == Close(n.bracket) && s[k + 1..] == b {
      assert s == [s[0]] + s[1..k] + [s[k]] + s[k + 1..];
    }
  }

  lemma GroupLength(n: Nest)
    requires n.Group?
    ensures |Symbols(n)| == 2 + |Symbols(n.inner)| + |Symbols(n.rest)|
  {
  }

  lemma {:induction false} NestIsSpelled(tokens: seq<Token>, n: Nest)
    ensures SpellsNest(tokens, n) <==> Symbols(n) == SymbolsIn(tokens)
    decreases n
  {
    hide *;
    match n
    case Empty =>
      EmptyNest(tokens);
    case Word(rest) =>
      if tokens != [] {
        NestIsSpelled(tokens[1..], rest);
      }
      WordNest(tokens, rest);
    case Group(b, inner, rest) =>
      forall k: nat | 1 <= k < |tokens|
        ensures SpellsNest(tokens[1..k], inner) <==> Symbols(inner) == SymbolsIn(tokens)[1..k]
        ensures SpellsNest(tokens[k + 1..], rest) <==> Symbols(rest) == SymbolsIn(tokens)[k + 1..]
      {
        SymbolsInParts(tokens, 1, k);
        SymbolsInParts(tokens, k + 1, |tokens|);
        NestIsSpelled(tokens[1..k], inner);
        NestIsSpelled(tokens[k + 1..], rest);
      }
      GroupNest(tokens, n);
  }

  lemma EmptyNest(tokens: seq<Token>)
    ensures SpellsNest(tokens, Empty) <==> Symbols(Empty) == SymbolsIn(tokens)
  {
  }

  lemma WordNest(tokens: seq<Token>, rest: Nest)
    requires tokens != [] ==> (SpellsNest(tokens[1..], rest) <==> Symbols(rest) == SymbolsIn(tokens[1..]))
    ensures SpellsNest(tokens, Nest.Word(rest)) <==> Symbols(Nest.Word(rest)) == SymbolsIn(tokens)
  {
    hide SymbolsIn, IsLeft, IsRight;
    var whole := Symbols(Nest.Word(rest));
    assert whole[0] == Plain && whole[1..] == Symbols(rest);
    if tokens != [] {
      SymbolAt(tokens, 0);
      SymbolsInParts(tokens, 1, |tokens|);
      assert SymbolsIn(tokens) == [SymbolsIn(tokens)[0]] + SymbolsIn(tokens)[1..];
    }
  }

  lemma GroupNest(tokens: seq<Token>, n: Nest)
    requires n.Group?
    requires forall k: nat :: 1 <= k < |tokens| ==>
      && (SpellsNest(tokens[1..k], n.inner) <==> Symbols(n.inner) == SymbolsIn(tokens)[1..k])
      && (SpellsNest(tokens[k + 1..], n.rest) <==> Symbols(n.rest) == SymbolsIn(tokens)[k + 1..])
    ensures SpellsNest(tokens, n) <==> Symbols(n) == SymbolsIn(tokens)
  {
    hide SymbolsIn, Symbols;
    var k := 1 + |Symbols(n.inner)|;
    GroupLength(n);
    if tokens != [] {
      SymbolAt(tokens, 0);
    }
    if k < |tokens| {
      SymbolAt(tokens, k);
      GroupSymbolsAt(n, SymbolsIn(tokens), k);
      assert GroupEnds(tokens, n, k) <==>
        && SymbolsIn(tokens)[k] == Close(n.bracket)
        && Symbols(n.inner) == SymbolsIn(tokens)[1..k] && Symbols(n.rest) == SymbolsIn(tokens)[k + 1..];
    }
    forall other: nat | GroupEnds(tokens, n, other)
      ensures other == k
    {
      assert Symbols(n.inner) == SymbolsIn(tokens)[1..other];
    }
  }

  lemma NestedIsWellFormed(tokens: seq<Token>)
    ensures Nested(tokens) <==> WellFormed(SymbolsIn(tokens))
  {
    hide SymbolsIn, SpellsNest;
    forall n
      ensures SpellsNest(tokens, n) <==> Symbols(n) == SymbolsIn(tokens)
    {
      NestIsSpelled(tokens, n);
    }
  }

  // ---------------------------------------------------------------------------
  // Scopes
  // ---------------------------------------------------------------------------

  predicate Has(tokens: seq<Token>, i: nat, text: seq<Byte>) {
    i < |tokens| && tokens[i].text == text
  }

  // Token i lies after the bracket at `open`, up to its partner.
  predicate Within(pairs: map<nat, nat>, open: nat, i: nat) {
    open in pairs && open < i <= pairs[open]
  }

  // Token i lies in a paired ( ) or [ ].
  ghost predicate InRoundOrSquare(tokens: seq<Token>, pairs: map<nat, nat>, i: nat) {
    exists open: nat :: (Has(tokens, open, Left(Round)) || Has(tokens, open, Left(Square))) && Within(pairs, open, i)
  }

  // A header may start after a semicolon, a closing brace or a paired opening one.
  ghost predicate HeaderBound(tokens: seq<Token>, pairs: map<nat, nat>, i: nat) {
    && !InRoundOrSquare(tokens, pairs, i)
    && (Has(tokens, i, SEMICOLON) || Has(tokens, i, Right(Curly)) || (Has(tokens, i, Left(Curly)) && i in pairs))
  }

  ghost predicate HeaderStarts(tokens: seq<Token>, pairs: map<nat, nat>, boundary: nat, open: nat) {
    && boundary <= open
    && (boundary == 0 || HeaderBound(tokens, pairs, boundary - 1))
    && forall i :: boundary <= i < open ==> !HeaderBound(tokens, pairs, i)
  }

  // A paired { outside every paired ( ) and [ ], whose header from the last bound before it
  // on is accepted.
  ghost predicate OpensScope(tokens: seq<Token>, pairs: map<nat, nat>, accepted: (nat, nat) -> bool, s: Scope) {
    && Has(tokens, s.open, Left(Curly)) && s.open in pairs && pairs[s.open] == s.end
    && !InRoundOrSquare(tokens, pairs, s.open)
    && exists boundary: nat :: HeaderStarts(tokens, pairs, boundary, s.open) && accepted(boundary, s.open)
  }

  lemma WordsHave(tokens: seq<Token>)
    ensures forall i: nat, b :: Scopes.Opens(WordsOf(tokens), i, b) <==> Has(tokens, i, Left(b))
    ensures forall i: nat, b :: Scopes.Closes(WordsOf(tokens), i, b) <==> Has(tokens, i, Right(b))
    ensures forall i: nat :: i < |tokens| ==> (WordsOf(tokens)[i].Semicolon? <==> Has(tokens, i, SEMICOLON))
    ensures forall i: nat :: i < |tokens| ==> (WordsOf(tokens)[i].Introducer? <==> tokens[i].text in INTRODUCERS)
  {
    hide WordOf;
    forall i: nat | i < |tokens|
      ensures forall b :: Scopes.Opens(WordsOf(tokens), i, b) <==> Has(tokens, i, Left(b))
      ensures forall b :: Scopes.Closes(WordsOf(tokens), i, b) <==> Has(tokens, i, Right(b))
      ensures WordsOf(tokens)[i].Semicolon? <==> Has(tokens, i, SEMICOLON)
      ensures WordsOf(tokens)[i].Introducer? <==> tokens[i].text in INTRODUCERS
    {
      WordsAreSpelled(tokens[i].text);
    }
  }

  lemma SkippedIsSpelled(tokens: seq<Token>, pairs: map<nat, nat>, i: nat)
    ensures InSkipped(WordsOf(tokens), pairs, i) <==> InRoundOrSquare(tokens, pairs, i)
  {
    hide Has, WordsOf, Scopes.Opens;
    WordsHave(tokens);
    var words := WordsOf(tokens);
    forall open: nat
      ensures Skips(words, pairs, open, i) <==>
        (Has(tokens, open, Left(Round)) || Has(tokens, open, Left(Square))) && Within(pairs, open, i)
    {
    }
  }

  lemma BoundIsSpelled(tokens: seq<Token>, pairs: map<nat, nat>, i: nat)
    ensures Bounds(WordsOf(tokens), pairs, i) <==> HeaderBound(tokens, pairs, i)
  {
    hide WordsOf, Scopes.Opens, Scopes.Closes, InSkipped, InRoundOrSquare;
    WordsHave(tokens);
    SkippedIsSpelled(tokens, pairs, i);
  }

  lemma ScopeIsSpelled(tokens: seq<Token>, pairs: map<nat, nat>, accepted: (nat, nat) -> bool, s: Scope)
    ensures ScopeAt(WordsOf(tokens), pairs, accepted, s) <==> OpensScope(tokens, pairs, accepted, s)
  {
    hide Has, WordsOf, Scopes.Opens, InSkipped, InRoundOrSquare, Bounds, HeaderBound;
    WordsHave(tokens);
    SkippedIsSpelled(tokens, pairs, s.open);
    forall i: nat
      ensures Bounds(WordsOf(tokens), pairs, i) <==> HeaderBound(tokens, pairs, i)
    {
      BoundIsSpelled(tokens, pairs, i);
    }
    forall boundary: nat
      ensures Header(WordsOf(tokens), pairs, boundary, s.open) <==> HeaderStarts(tokens, pairs, boundary, s.open)
    {
    }
  }

  // ---------------------------------------------------------------------------
  // Statements
  // ---------------------------------------------------------------------------

  // What a statement list needs to know besides the tokens: the pairs, the braces that open
  // functions and records, and the function that owns each token.
  datatype Layout = Layout(tokens: seq<Token>, pairs: map<nat, nat>, scopes: set<nat>, owners: seq<int>)

  // The brace opens a function or a record, stands in no function, or follows one of
  // ) { } ; else try do :
  predicate BlockBrace(l: Layout, i: nat)
    requires |l.owners| == |l.tokens|
  {
    && Has(l.tokens, i, Left(Curly))
    && (i in l.scopes || l.owners[i] < 0
        || (i > 0 && (l.tokens[i - 1].text in [Right(Round), Left(Curly), Right(Curly), SEMICOLON] + INTRODUCERS)))
  }

  // Parentheses, square brackets and other braces keep their statement together.
  predicate KeepsTogether(l: Layout, open: nat, i: nat)
    requires |l.owners| == |l.tokens|
  {
    && Within(l.pairs, open, i)
    && (|| Has(l.tokens, open, Left(Round)) || Has(l.tokens, open, Left(Square))
        || (Has(l.tokens, open, Left(Curly)) && !BlockBrace(l, open)))
  }

  // Statements meet at the ends of the list and after every semicolon, closing brace and
  // block brace that no such bracket keeps together with what follows.
  ghost predicate CutAt(l: Layout, at: nat)
    requires |l.owners| == |l.tokens|
  {
    || at == 0 || at == |l.tokens|
    || (&& at <= |l.tokens|
        && (Has(l.tokens, at - 1, SEMICOLON) || Has(l.tokens, at - 1, Right(Curly)) || BlockBrace(l, at - 1))
        && !KeptOn(l, at - 1))
  }

  ghost predicate KeptOn(l: Layout, i: nat)
    requires |l.owners| == |l.tokens|
  {
    exists open: nat :: KeepsTogether(l, open, i)
  }

  // [start, end) is the statement around token i.
  ghost predicate StatementAt(l: Layout, i: nat, start: nat, end: nat)
    requires |l.owners| == |l.tokens|
  {
    && start <= i < end && CutAt(l, start) && CutAt(l, end)
    && forall at: nat :: start < at < end ==> !CutAt(l, at)
  }

  function ContextOf(l: Layout): Context {
    Context(WordsOf(l.tokens), l.pairs, l.scopes, l.owners)
  }

  lemma BlockIsSpelled(l: Layout, i: nat)
    requires |l.owners| == |l.tokens|
    ensures Block(ContextOf(l), i) <==> BlockBrace(l, i)
  {
    hide WordOf;
    WordsHave(l.tokens);
    if 0 < i < |l.tokens| {
      WordsAreSpelled(l.tokens[i - 1].text);
    }
  }

  lemma GroupIsSpelled(l: Layout, open: nat, i: nat)
    requires |l.owners| == |l.tokens|
    ensures InGroup(ContextOf(l), open, i) <==> KeepsTogether(l, open, i)
  {
    hide WordsOf, Block, BlockBrace, Scopes.Opens;
    WordsHave(l.tokens);
    BlockIsSpelled(l, open);
  }

  lemma KeptIsSpelled(l: Layout, i: nat)
    requires |l.owners| == |l.tokens|
    ensures Outside(ContextOf(l), i) <==> !KeptOn(l, i)
  {
    hide WordsOf, InGroup, KeepsTogether, ContextOf;
    var c := ContextOf(l);
    ContextFits(l);
    forall open: nat
      ensures InGroup(c, open, i) <==> KeepsTogether(l, open, i)
    {
      GroupIsSpelled(l, open, i);
    }
  }

  lemma ContextFits(l: Layout)
    ensures |ContextOf(l).owners| == |l.owners| && |ContextOf(l).words| == |l.tokens|
  {
  }

  lemma EndsAreSpelled(l: Layout, i: nat)
    requires |l.owners| == |l.tokens|
    ensures Ends(ContextOf(l), i) <==>
      Has(l.tokens, i, SEMICOLON) || Has(l.tokens, i, Right(Curly)) || BlockBrace(l, i)
  {
    hide WordsOf, Block, Scopes.Opens, Scopes.Closes;
    WordsHave(l.tokens);
    BlockIsSpelled(l, i);
  }

  lemma CutIsSpelled(l: Layout, at: nat)
    requires |l.owners| == |l.tokens|
    ensures Cut(ContextOf(l), at) <==> CutAt(l, at)
  {
    hide WordsOf, BlockBrace, Has, ContextOf, Ends, Outside, KeptOn;
    ContextFits(l);
    if 0 < at <= |l.tokens| {
      EndsAreSpelled(l, at - 1);
      KeptIsSpelled(l, at - 1);
    }
  }

  lemma StatementIsSpelled(l: Layout, i: nat, start: nat, end: nat)
    requires |l.owners| == |l.tokens|
    ensures Statement(ContextOf(l), i, start, end) <==> StatementAt(l, i, start, end)
  {
    hide Cut, CutAt;
    forall at: nat
      ensures Cut(ContextOf(l), at) <==> CutAt(l, at)
    {
      CutIsSpelled(l, at);
    }
  }
}
