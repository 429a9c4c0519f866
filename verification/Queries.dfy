// The query parser of the log tool (tools/logging/log_query_runtime.cpp), from tokens to
// expression trees.
module Queries {
  import opened Wrappers

  datatype Token = Token(text: string, quoted: bool)

  datatype Value = Null | Bool(flag: bool) | Number(number: int) | Text(text: string)

  datatype Expression =
    | All
    | Term(text: string)
    | Has(field: string)
    | Compare(op: string, field: string, expected: Value)
    | Not(operand: Expression)
    | And(operands: seq<Expression>)
    | Or(operands: seq<Expression>)

  datatype QueryError =
    | NestingExceeded
    | UnexpectedEnd
    | Expected(word: string, token: nat)
    | HasRequiresField
    | ExpectedTerm(received: string)
    | ComparisonRequiresField
    | ComparisonRequiresValue
    | BadLiteral(text: string)
    | RequiresNumber(op: string)
    | BadPattern(pattern: string)
    | UnexpectedToken(text: string)

  // Case folding, string escapes, number syntax and conversion, the field-name expression
  // and the regular-expression compiler are library code; numbers stand for themselves.
  datatype Library = Library(
    fold: string -> string,
    unquote: string -> Option<string>,
    isNumber: string -> bool,
    number: string -> Option<int>,
    isField: string -> bool,
    display: Value -> string,
    compiles: string -> bool)

  const MAX_DEPTH: nat := 32

  const OPERATORS: seq<string> := ["=", "!=", ":", "~", "!~", ">", ">=", "<", "<="]
  const ORDERINGS: seq<string> := [">", ">=", "<", "<="]

  predicate Punctuation(text: string) {
    text == "(" || text == ")" || text in OPERATORS
  }

  // What a search term or a field may not be, once folded.
  predicate Reserved(text: string) {
    text == "and" || text == "or" || text == ")" || text in OPERATORS
  }

  function Scalar(lib: Library, t: Token): Option<Value> {
    if t.quoted then
      var s := lib.unquote(t.text);
      if s.Some? then Some(Text(s.value)) else None
    else if t.text == "true" then Some(Bool(true))
    else if t.text == "false" then Some(Bool(false))
    else if t.text == "null" then Some(Null)
    else if lib.isNumber(t.text) then
      var n := lib.number(t.text);
      if n.Some? then Some(Number(n.value)) else None
    else Some(Text(t.text))
  }

  // The end-of-input escape is spelled \z by the compiler and \Z by queries.
  function NativePattern(pattern: string): string {
    if pattern == [] then []
    else if pattern[0] == '\\' && |pattern| > 1 then
      ['\\', if pattern[1] == 'Z' then 'z' else pattern[1]] + NativePattern(pattern[2..])
    else [pattern[0]] + NativePattern(pattern[1..])
  }

  datatype Compared = Compared(expected: Value) | Rejected(error: QueryError)

  // The value of a comparison, or the reason that it is refused.
  function ComparedValue(lib: Library, op: string, t: Token): Compared {
    if !t.quoted && Punctuation(t.text) then Rejected(ComparisonRequiresValue)
    else
      var v := Scalar(lib, t);
      if v.None? then Rejected(BadLiteral(t.text))
      else if op in ORDERINGS && !v.value.Number? then Rejected(RequiresNumber(op))
      else if op == "~" || op == "!~" then
        var pattern := NativePattern(lib.display(v.value));
        if lib.compiles(pattern) then Compared(Text(pattern)) else Rejected(BadPattern(pattern))
      else Compared(v.value)
  }

  // ---------------------------------------------------------------------------
  // The recursive descent as functions of the token index
  // ---------------------------------------------------------------------------

  datatype Parsed = Done(tree: Expression, next: nat) | Failed(error: QueryError)

  predicate Peek(lib: Library, ts: seq<Token>, i: nat, word: string) {
    i < |ts| && !ts[i].quoted && lib.fold(ts[i].text) == word
  }

  function Joined(parts: seq<Expression>, disjunction: bool): Expression
    requires parts != []
  {
    if |parts| == 1 then parts[0] else if disjunction then Or(parts) else And(parts)
  }

  function ParseOr(lib: Library, ts: seq<Token>, i: nat, d: nat): (r: Parsed)
    requires i <= |ts|
    ensures r.Done? ==> i < r.next <= |ts|
    decreases |ts| - i, 3
  {
    var first := ParseAnd(lib, ts, i, d);
    if first.Failed? then first else OrRest(lib, ts, first.next, d, [first.tree])
  }

  function OrRest(lib: Library, ts: seq<Token>, i: nat, d: nat, parts: seq<Expression>): (r: Parsed)
    requires i <= |ts| && parts != []
    ensures r.Done? ==> i <= r.next <= |ts|
    decreases |ts| - i, 3
  {
    if Peek(lib, ts, i, "or") then
      var part := ParseAnd(lib, ts, i + 1, d);
      if part.Failed? then part else OrRest(lib, ts, part.next, d, parts + [part.tree])
    else Done(Joined(parts, true), i)
  }

  function ParseAnd(lib: Library, ts: seq<Token>, i: nat, d: nat): (r: Parsed)
    requires i <= |ts|
    ensures r.Done? ==> i < r.next <= |ts|
    decreases |ts| - i, 2
  {
    var first := Primary(lib, ts, i, d);
    if first.Failed? then first else AndRest(lib, ts, first.next, d, [first.tree])
  }

  function AndRest(lib: Library, ts: seq<Token>, i: nat, d: nat, parts: seq<Expression>): (r: Parsed)
    requires i <= |ts| && parts != []
    ensures r.Done? ==> i <= r.next <= |ts|
    decreases |ts| - i, 1
  {
    if i < |ts| && !Peek(lib, ts, i, "or") && !Peek(lib, ts, i, ")") then
      var part := Primary(lib, ts, if Peek(lib, ts, i, "and") then i + 1 else i, d);
      if part.Failed? then part else AndRest(lib, ts, part.next, d, parts + [part.tree])
    else Done(Joined(parts, false), i)
  }

  function Primary(lib: Library, ts: seq<Token>, i: nat, d: nat): (r: Parsed)
    requires i <= |ts|
    ensures r.Done? ==> i < r.next <= |ts|
    decreases |ts| - i, 0
  {
    if d > MAX_DEPTH then Failed(NestingExceeded)
    else if Peek(lib, ts, i, "not") then
      var operand := Primary(lib, ts, i + 1, d + 1);
      if operand.Failed? then operand else Done(Not(operand.tree), operand.next)
    else if Peek(lib, ts, i, "(") then
      var body := ParseOr(lib, ts, i + 1, d + 1);
      if body.Failed? then body
      else if Peek(lib, ts, body.next, ")") then Done(body.tree, body.next + 1)
      else Failed(Expected(")", body.next + 1))
    else if Peek(lib, ts, i, "has") then HasPrimary(lib, ts, i)
    else if i == |ts| then Failed(UnexpectedEnd)
    else TermPrimary(lib, ts, i)
  }

  lemma PeekedIsThere(lib: Library, ts: seq<Token>, i: nat, word: string)
    requires Peek(lib, ts, i, word)
    ensures i < |ts|
  {
  }

  // The branches of a primary.
  lemma PrimaryStep(lib: Library, ts: seq<Token>, i: nat, d: nat)
    requires i <= |ts|
    ensures Primary(lib, ts, i, d) ==
      if d > MAX_DEPTH then Failed(NestingExceeded)
      else if Peek(lib, ts, i, "not") then
        var operand := Primary(lib, ts, i + 1, d + 1);
        if operand.Failed? then operand else Done(Not(operand.tree), operand.next)
      else if Peek(lib, ts, i, "(") then
        var body := ParseOr(lib, ts, i + 1, d + 1);
        if body.Failed? then body
        else if Peek(lib, ts, body.next, ")") then Done(body.tree, body.next + 1)
        else Failed(Expected(")", body.next + 1))
      else if Peek(lib, ts, i, "has") then HasPrimary(lib, ts, i)
      else if i == |ts| then Failed(UnexpectedEnd)
      else TermPrimary(lib, ts, i)
  {
    hide Peek, ParseOr, HasPrimary, TermPrimary;
  }

  function HasPrimary(lib: Library, ts: seq<Token>, i: nat): (r: Parsed)
    requires i < |ts|
    ensures r.Done? ==> i < r.next <= |ts|
  {
    if !Peek(lib, ts, i + 1, "(") then Failed(Expected("(", i + 2))
    else if i + 2 == |ts| then Failed(UnexpectedEnd)
    else if ts[i + 2].quoted || !lib.isField(ts[i + 2].text) then Failed(HasRequiresField)
    else if !Peek(lib, ts, i + 3, ")") then Failed(Expected(")", i + 4))
    else Done(Has(ts[i + 2].text), i + 4)
  }

  function TermPrimary(lib: Library, ts: seq<Token>, i: nat): (r: Parsed)
    requires i < |ts|
    ensures r.Done? ==> i < r.next <= |ts|
  {
    var t := ts[i];
    if !t.quoted && Reserved(lib.fold(t.text)) then Failed(ExpectedTerm(t.text))
    else if i + 1 < |ts| && !ts[i + 1].quoted && ts[i + 1].text in OPERATORS then
      if t.quoted || !lib.isField(t.text) then Failed(ComparisonRequiresField)
      else if i + 2 == |ts| then Failed(UnexpectedEnd)
      else
        var v := ComparedValue(lib, ts[i + 1].text, ts[i + 2]);
        if v.Rejected? then Failed(v.error) else Done(Compare(ts[i + 1].text, t.text, v.expected), i + 3)
    else if t.text == "*" && !t.quoted then Done(All, i + 1)
    else
      var v := if t.quoted then Scalar(lib, t) else Some(Text(t.text));
      if v.None? then Failed(BadLiteral(t.text)) else Done(Term(v.value.text), i + 1)
  }

  function Parse(lib: Library, ts: seq<Token>): Parsed {
    if ts == [] then Done(All, 0)
    else
      var r := ParseOr(lib, ts, 0, 0);
      if r.Done? && r.next != |ts| then Failed(UnexpectedToken(ts[r.next].text)) else r
  }

  // ---------------------------------------------------------------------------
  // The parser object
  // ---------------------------------------------------------------------------

  datatype Outcome = Tree(tree: Expression) | Error(error: QueryError)

  datatype Taken = Taken(token: Token) | NoToken

  class QueryParser {
    const lib: Library
    const tokens: seq<Token>
    var index: nat

    constructor (lib: Library, tokens: seq<Token>)
      ensures this.lib == lib && this.tokens == tokens && index == 0
    {
      this.lib := lib;
      this.tokens := tokens;
      index := 0;
    }

    // The outcome and the new index are those of a parse.
    predicate Reports(o: Outcome, r: Parsed)
      reads this
    {
      match o
      case Tree(tree) => r == Done(tree, index)
      case Error(error) => r == Failed(error)
    }

    method PeekWord(word: string) returns (found: bool)
      ensures found == Peek(lib, tokens, index, word)
    {
      found := index < |tokens| && !tokens[index].quoted && lib.fold(tokens[index].text) == word;
    }

    method Take() returns (t: Taken)
      requires index <= |tokens|
      modifies this`index
      ensures if old(index) == |tokens| then t == NoToken && index == old(index)
              else t == Taken(tokens[old(index)]) && index == old(index) + 1
    {
      if index == |tokens| {
        return NoToken;
      }
      index := index + 1;
      t := Taken(tokens[index - 1]);
    }

    method Require(word: string) returns (ok: bool)
      requires index <= |tokens|
      modifies this`index
      ensures ok == Peek(lib, tokens, old(index), word)
      ensures index == if ok then old(index) + 1 else old(index)
    {
      ok := PeekWord(word);
      if ok {
        index := index + 1;
      }
    }

    method ParseQuery() returns (o: Outcome)
      requires index == 0
      modifies this`index
      ensures Reports(o, Parse(lib, tokens))
    {
      if |tokens| == 0 {
        return Tree(All);
      }
      o := Disjunction(0);
      if o.Tree? && index != |tokens| {
        return Error(UnexpectedToken(tokens[index].text));
      }
    }

    method Disjunction(d: nat) returns (o: Outcome)
      requires index <= |tokens|
      modifies this`index
      ensures Reports(o, ParseOr(lib, tokens, old(index), d))
      ensures index <= |tokens|
      decreases |tokens| - index, 3
    {
      hide Primary, ParseAnd, AndRest;
      o := Conjunction(d);
      if o.Error? {
        return;
      }
      var parts := [o.tree];
      var more := PeekWord("or");
      while more
        invariant old(index) < index <= |tokens|
        invariant parts != [] && more == Peek(lib, tokens, index, "or")
        invariant ParseOr(lib, tokens, old(index), d) == OrRest(lib, tokens, index, d, parts)
        decreases |tokens| - index
      {
        var _ := Take();
        o := Conjunction(d);
        if o.Error? {
          return;
        }
        parts := parts + [o.tree];
        more := PeekWord("or");
      }
      o := Tree(if |parts| == 1 then parts[0] else Or(parts));
    }

    method Conjunction(d: nat) returns (o: Outcome)
      requires index <= |tokens|
      modifies this`index
      ensures Reports(o, ParseAnd(lib, tokens, old(index), d))
      ensures index <= |tokens|
      decreases |tokens| - index, 2
    {
      hide Primary, ParseOr, OrRest;
      o := PrimaryTerm(d);
      if o.Error? {
        return;
      }
      var parts := [o.tree];
      while true
        invariant old(index) < index <= |tokens|
        invariant parts != []
        invariant ParseAnd(lib, tokens, old(index), d) == AndRest(lib, tokens, index, d, parts)
        decreases |tokens| - index
      {
        var atOr := PeekWord("or");
        var atClose := PeekWord(")");
        if index == |tokens| || atOr || atClose {
          break;
        }
        var word := PeekWord("and");
        if word {
          var _ := Take();
        }
        o := PrimaryTerm(d);
        if o.Error? {
          return;
        }
        parts := parts + [o.tree];
      }
      o := Tree(if |parts| == 1 then parts[0] else And(parts));
    }

    method PrimaryTerm(d: nat) returns (o: Outcome)
      requires index <= |tokens|
      modifies this`index
      ensures Reports(o, Primary(lib, tokens, old(index), d))
      ensures index <= |tokens|
      decreases |tokens| - index, 0
    {
      hide Primary, ParseOr, HasPrimary, TermPrimary, Peek;
      PrimaryStep(lib, tokens, index, d);
      if d > MAX_DEPTH {
        return Error(NestingExceeded);
      }
      var found := PeekWord("not");
      if found {
        PeekedIsThere(lib, tokens, index, "not");
        var _ := Take();
        o := PrimaryTerm(d + 1);
        if o.Tree? {
          o := Tree(Not(o.tree));
        }
        return;
      }
      found := PeekWord("(");
      if found {
        PeekedIsThere(lib, tokens, index, "(");
        var _ := Take();
        o := Disjunction(d + 1);
        if o.Tree? {
          var closed := Require(")");
          if !closed {
            return Error(Expected(")", index + 1));
          }
        }
        return;
      }
      found := PeekWord("has");
      if found {
        PeekedIsThere(lib, tokens, index, "has");
        o := HasTerm();
        return;
      }
      if index == |tokens| {
        return Error(UnexpectedEnd);
      }
      o := SearchTerm();
    }

    method HasTerm() returns (o: Outcome)
      requires index < |tokens|
      modifies this`index
      ensures Reports(o, HasPrimary(lib, tokens, old(index)))
      ensures index <= |tokens|
    {
      var _ := Take();
      var entered := Require("(");
      if !entered {
        return Error(Expected("(", index + 1));
      }
      var t := Take();
      if t.NoToken? {
        return Error(UnexpectedEnd);
      }
      if t.token.quoted || !lib.isField(t.token.text) {
        return Error(HasRequiresField);
      }
      var closed := Require(")");
      if !closed {
        return Error(Expected(")", index + 1));
      }
      o := Tree(Has(t.token.text));
    }

    method SearchTerm() returns (o: Outcome)
      requires index < |tokens|
      modifies this`index
      ensures Reports(o, TermPrimary(lib, tokens, old(index)))
      ensures index <= |tokens|
    {
      var taken := Take();
      var t := taken.token;
      if !t.quoted && Reserved(lib.fold(t.text)) {
        return Error(ExpectedTerm(t.text));
      }
      if index < |tokens| && !tokens[index].quoted {
        var op := tokens[index].text;
        if op in OPERATORS {
          if t.quoted || !lib.isField(t.text) {
            return Error(ComparisonRequiresField);
          }
          var _ := Take();
          var v := Take();
          if v.NoToken? {
            return Error(UnexpectedEnd);
          }
          var compared := Expectation(op, v.token);
          if compared.Rejected? {
            return Error(compared.error);
          }
          return Tree(Compare(op, t.text, compared.expected));
        }
      }
      if t.text == "*" && !t.quoted {
        return Tree(All);
      }
      if t.quoted {
        var v := Scalar(lib, t);
        if v.None? {
          return Error(BadLiteral(t.text));
        }
        return Tree(Term(v.value.text));
      }
      o := Tree(Term(t.text));
    }

    method Expectation(op: string, t: Token) returns (c: Compared)
      ensures c == ComparedValue(lib, op, t)
    {
      if !t.quoted && Punctuation(t.text) {
        return Rejected(ComparisonRequiresValue);
      }
      var v := Scalar(lib, t);
      if v.None? {
        return Rejected(BadLiteral(t.text));
      }
      if op in ORDERINGS && !v.value.Number? {
        return Rejected(RequiresNumber(op));
      }
      if op == "~" || op == "!~" {
        var pattern := lib.display(v.value);
        var native := "";
        var k := 0;
        while k < |pattern|
          invariant 0 <= k <= |pattern|
          invariant NativePattern(pattern) == native + NativePattern(pattern[k..])
        {
          ghost var rest := pattern[k..];
          if pattern[k] == '\\' && k + 1 < |pattern| {
            native := native + ['\\'];
            native := native + [if pattern[k + 1] == 'Z' then 'z' else pattern[k + 1]];
            k := k + 1;
            assert pattern[k + 1..] == rest[2..];
          } else {
            native := native + [pattern[k]];
            assert pattern[k + 1..] == rest[1..];
          }
          k := k + 1;
        }
        assert native + NativePattern(pattern[k..]) == native;
        if !lib.compiles(native) {
          return Rejected(BadPattern(native));
        }
        return Compared(Text(native));
      }
      c := Compared(v.value);
    }
  }
}
