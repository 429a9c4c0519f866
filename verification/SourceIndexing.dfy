// The source index of the duplicate-code tool (tools/cleanup/cpd_patterns.cpp): one file's
// lines, tokens, bracket pairs, scopes, owners and statements.
module SourceIndexing {
  import opened Codec
  import opened Lexer
  import opened LexicalGrammar
  import opened Brackets
  import opened Scopes
  import opened Statements
  import opened Positions
  import opened Spellings

  class SourceIndex {
    var units: Text
    var lines: seq<nat>
    var tokens: seq<Token>
    var pairs: map<nat, nat>
    var balanced: bool
    var functions: seq<Scope>
    var records: seq<Scope>
    var owners: seq<int>
    var recordOwners: seq<int>
    var statementStarts: seq<nat>
    var statementEnds: seq<nat>

    ghost predicate Scanned()
      reads this`units, this`lines, this`tokens
    {
      AreLines(units, lines, |units|) && tokens == TokensFrom(units, 0, false)
    }

    ghost predicate Paired()
      reads this`tokens, this`pairs, this`balanced
    {
      var m := Matched(SymbolsOf(WordsOf(tokens)), |tokens|);
      pairs == m.pairs && balanced == Balanced(m)
    }

    ghost predicate Owned()
      reads this`tokens, this`pairs, this`functions, this`records, this`owners, this`recordOwners
    {
      && InOrder(functions) && FromPairs(pairs, functions) && InOrder(records) && FromPairs(pairs, records)
      && |owners| == |recordOwners| == |tokens|
      && (forall i :: 0 <= i < |tokens| ==>
           Scopes.Owns(functions, owners[i], i) && Scopes.Owns(records, recordOwners[i], i))
    }

    function TokenLayout(): Layout
      reads this`tokens, this`pairs, this`functions, this`records, this`owners
    {
      Layout(tokens, pairs,
        (set k | 0 <= k < |functions| :: functions[k].open) + (set k | 0 <= k < |records| :: records[k].open),
             owners)
    }

    ghost predicate Split()
      reads this`tokens, this`pairs, this`functions, this`records, this`owners, this`statementStarts, this`statementEnds
    {
      && |owners| == |tokens| == |statementStarts| == |statementEnds|
      && forall i :: 0 <= i < |tokens| ==> Statement(ContextOf(TokenLayout()), i, statementStarts[i], statementEnds[i])
    }

    ghost predicate Valid()
      reads this
    {
      Scanned() && Paired() && Owned() && Split()
    }

    constructor (text: seq<Byte>, headers: Headers)
      ensures Valid() && units == Utf16(text)
      ensures forall i: nat, j: nat :: i < j && i in pairs && pairs[i] == j <==> Matches(tokens, i, j)
      ensures balanced <==> Nested(tokens)
      ensures forall s :: s in functions <==> OpensScope(tokens, pairs, headers.isFunction, s)
      ensures forall s :: s in records <==> OpensScope(tokens, pairs, headers.isRecord, s)
    {
      new;
      hide *;
      units := ToUtf16(text);
      lines := LineStarts(units);
      tokens := TokenizeCpp(units, false);
      IsScanned();
      IndexPairs();
      IndexScopes(headers);
      SplitStatements();
      IsValid();
      BracketsAreSound();
    }

    lemma IsScanned()
      requires AreLines(units, lines, |units|) && tokens == TokensFrom(units, 0, false)
      ensures Scanned()
    {
    }

    lemma IsValid()
      requires Scanned() && Paired() && Owned() && Split()
      ensures Valid()
    {
    }

    method IndexScopes(headers: Headers)
      requires Paired()
      modifies this`functions, this`records, this`owners, this`recordOwners
      ensures Owned()
      ensures forall s :: s in functions <==> OpensScope(tokens, pairs, headers.isFunction, s)
      ensures forall s :: s in records <==> OpensScope(tokens, pairs, headers.isRecord, s)
    {
      hide Matched, ScopesFrom, ScopeAt, OpensScope, WordsOf, SymbolsOf, Scopes.Owns, InOrder, Balanced;
      functions, records := IndexFunctions(WordsOf(tokens), pairs, headers);
      ScopesAreInOrder(WordsOf(tokens), headers.isFunction);
      ScopesAreInOrder(WordsOf(tokens), headers.isRecord);
      ScopesAreFound(headers);
      owners := ScopeOwners(functions, |tokens|);
      recordOwners := ScopeOwners(records, |tokens|);
    }

    lemma ScopesAreFound(headers: Headers)
      requires Paired()
      ensures forall s :: s in ScopesFrom(WordsOf(tokens), pairs, headers.isFunction, 0, 0) <==>
        OpensScope(tokens, pairs, headers.isFunction, s)
      ensures forall s :: s in ScopesFrom(WordsOf(tokens), pairs, headers.isRecord, 0, 0) <==>
        OpensScope(tokens, pairs, headers.isRecord, s)
    {
      hide Matched, ScopesFrom, ScopeAt, OpensScope, WordsOf, SymbolsOf, Balanced;
      PairsAreLaminar(SymbolsOf(WordsOf(tokens)));
      forall s: Scope
        ensures s in ScopesFrom(WordsOf(tokens), pairs, headers.isFunction, 0, 0) <==>
          OpensScope(tokens, pairs, headers.isFunction, s)
        ensures s in ScopesFrom(WordsOf(tokens), pairs, headers.isRecord, 0, 0) <==>
          OpensScope(tokens, pairs, headers.isRecord, s)
      {
        ScopesAre(WordsOf(tokens), pairs, headers.isFunction, s);
        ScopesAre(WordsOf(tokens), pairs, headers.isRecord, s);
        ScopeIsSpelled(tokens, pairs, headers.isFunction, s);
        ScopeIsSpelled(tokens, pairs, headers.isRecord, s);
      }
    }

    method SplitStatements()
      requires Paired() && Owned()
      modifies this`statementStarts, this`statementEnds
      ensures Split()
    {
      hide Matched, WordsOf, SymbolsOf, Scopes.Owns, InOrder, Laminar, Balanced, Statement;
      PairsAreLaminar(SymbolsOf(WordsOf(tokens)));
      statementStarts, statementEnds := IndexStatements(ContextOf(TokenLayout()));
    }

    method IndexPairs()
      modifies this`pairs, this`balanced
      ensures Paired()
      ensures forall i: nat, j: nat :: i < j && i in pairs && pairs[i] == j <==> Matches(tokens, i, j)
      ensures balanced <==> Nested(tokens)
    {
      hide Matched, WordsOf, SymbolsOf, Matches, Nested;
      var s := SymbolsOf(WordsOf(tokens));
      var stack: seq<nat> := [];
      pairs, balanced := map[], true;
      NothingMatched(s);
      for index := 0 to |tokens|
        invariant Matching(stack, pairs, balanced) == Matched(s, index)
      {
        MatchedNext(s, index);
        var symbol := s[index];
        if symbol.Open? {
          stack := stack + [index];
        } else if symbol.Close? {
          if stack == [] {
            balanced := false;
            continue;
          }
          var open := stack[|stack| - 1];
          stack := stack[..|stack| - 1];
          if s[open] != Open(symbol.bracket) {
            balanced := false;
            continue;
          }
          pairs := pairs[open := index];
          pairs := pairs[index := open];
        }
      }
      balanced := balanced && stack == [];
      BracketsAreSound();
    }

    static lemma NothingMatched(s: seq<Symbol>)
      ensures Matched(s, 0) == Matching([], map[], true)
    {
    }

    // The source range of an occurrence, as token indices.
    function RangeOf(o: Occurrence): Range
      requires Valid()
      reads this
    {
      TokenRange(units, lines, tokens, o)
    }

    function OccurrenceAt(start: nat, end: nat): Occurrence
      requires Valid() && start < end <= |tokens|
      reads this
    {
      SignificantOrdered(units, 0);
      RangeOfOccurrence(units, lines, tokens, start, end);
      OccurrenceOf(lines, tokens, start, end)
    }

    // Resolving the occurrence of tokens[start..end] gives that range back, exactly when
    // its last token keeps to one line and neither end stands inside a surrogate pair.
    lemma OccurrencesResolve(start: nat, end: nat)
      requires Valid() && start < end <= |tokens| && SafeFields(OccurrenceAt(start, end))
      ensures tokens[end - 1].offset <= tokens[end - 1].end <= |units|
      ensures RangeOf(OccurrenceAt(start, end))
           == if Resolvable(units, tokens[start], tokens[end - 1]) then Range(start, end) else Invalid
    {
      SignificantOrdered(units, 0);
      RangeOfOccurrence(units, lines, tokens, start, end);
    }

    // What a reader of the index may rely on, whatever the source text is; brackets, scopes and
    // statements are told by the bytes of the tokens.
    lemma IndexIsSound()
      requires Valid()
      ensures Reread(TokensFrom(units, 0, true)) == units && tokens == Significant(TokensFrom(units, 0, true))
      ensures Tokenized(units, TokensFrom(units, 0, true), 0)
      ensures Laminar(SymbolsIn(tokens), pairs)
      ensures forall i: nat, j: nat :: i < j && i in pairs && pairs[i] == j <==> Matches(tokens, i, j)
      ensures balanced <==> Nested(tokens)
      ensures forall i, k :: 0 <= i < |tokens| && 0 <= k < |functions| && Encloses(functions[k], i) ==>
        Innermost(functions, owners[i], k)
      ensures forall i, k :: 0 <= i < |tokens| && 0 <= k < |records| && Encloses(records[k], i) ==>
        Innermost(records, recordOwners[i], k)
      ensures forall i :: 0 <= i < |tokens| ==> StatementAt(TokenLayout(), i, statementStarts[i], statementEnds[i])
      ensures forall open, i: nat :: 0 <= open < i < |tokens| && KeepsTogether(TokenLayout(), open, i) ==>
        statementStarts[i] <= open && pairs[open] < statementEnds[i]
    {
      hide *;
      TokensAreSound();
      PairsAreIndexed();
      BracketsAreSound();
      ScopesAreSound();
      StatementsAreSound();
      GroupsAreSound();
    }

    lemma PairsAreIndexed()
      requires Valid()
      ensures Paired()
    {
    }

    lemma TokensAreSound()
      requires Valid()
      ensures Reread(TokensFrom(units, 0, true)) == units && tokens == Significant(TokensFrom(units, 0, true))
      ensures Tokenized(units, TokensFrom(units, 0, true), 0)
    {
      hide Tokenized, Paired, Owned, Split;
      TokensAreTokenized(units, TokensFrom(units, 0, true), 0);
      RereadIsSource(units, 0);
      assert units[0..] == units;
      SignificantTokens(units, 0);
    }

    lemma BracketsAreSound()
      requires Paired()
      ensures Laminar(SymbolsIn(tokens), pairs)
      ensures forall i: nat, j: nat :: i < j && i in pairs && pairs[i] == j <==> Matches(tokens, i, j)
      ensures balanced <==> Nested(tokens)
    {
      hide Matches, Nested, Matched, WordsOf, SymbolsOf, Partners, WellFormed, Balanced, Laminar;
      var s := SymbolsIn(tokens);
      PairsAreLaminar(s);
      BalancedIsWellFormed(s);
      NestedIsWellFormed(tokens);
      forall i: nat, j: nat
        ensures i < j && i in pairs && pairs[i] == j <==> Matches(tokens, i, j)
      {
        PairsArePartners(s, i, j);
        MatchesArePartners(tokens, i, j);
      }
    }

    lemma ScopesAreSound()
      requires Valid()
      ensures forall i, k :: 0 <= i < |tokens| && 0 <= k < |functions| && Encloses(functions[k], i) ==>
        Innermost(functions, owners[i], k)
      ensures forall i, k :: 0 <= i < |tokens| && 0 <= k < |records| && Encloses(records[k], i) ==>
        Innermost(records, recordOwners[i], k)
    {
      hide Matched, SymbolsOf, WordsOf, Split, Scanned, InOrder, FromPairs, Balanced;
      var s := SymbolsOf(WordsOf(tokens));
      forall i, k | 0 <= i < |tokens| && 0 <= k < |functions| && Encloses(functions[k], i)
        ensures Innermost(functions, owners[i], k)
      {
        OwnerIsInnermost(s, functions, owners[i], i, k);
      }
      forall i, k | 0 <= i < |tokens| && 0 <= k < |records| && Encloses(records[k], i)
        ensures Innermost(records, recordOwners[i], k)
      {
        OwnerIsInnermost(s, records, recordOwners[i], i, k);
      }
    }

    lemma StatementsAreSound()
      requires Valid()
      ensures |owners| == |tokens| == |statementStarts| == |statementEnds|
      ensures forall i :: 0 <= i < |tokens| ==> StatementAt(TokenLayout(), i, statementStarts[i], statementEnds[i])
    {
      hide Matched, Statement, StatementAt, ContextOf, WordsOf, Owned, Scanned, Paired;
      forall i | 0 <= i < |tokens|
        ensures StatementAt(TokenLayout(), i, statementStarts[i], statementEnds[i])
      {
        StatementIsSpelled(TokenLayout(), i, statementStarts[i], statementEnds[i]);
      }
    }

    lemma GroupsAreSound()
      requires Valid()
      ensures |owners| == |tokens| == |statementStarts| == |statementEnds|
      ensures forall open, i: nat :: 0 <= open < i < |tokens| && KeepsTogether(TokenLayout(), open, i) ==>
        statementStarts[i] <= open && pairs[open] < statementEnds[i]
    {
      hide Matched, Statement, Block, WordsOf, Owned, Scanned, KeepsTogether, Scopes.Opens;
      var c := ContextOf(TokenLayout());
      PairsAreLaminar(SymbolsOf(WordsOf(tokens)));
      forall open: nat, i: nat | open < i < |tokens| && KeepsTogether(TokenLayout(), open, i)
        ensures open in pairs && statementStarts[i] <= open && pairs[open] < statementEnds[i]
      {
        GroupIsSpelled(TokenLayout(), open, i);
        GroupInStatement(c, open, i, statementStarts[i], statementEnds[i]);
      }
    }
  }
}
