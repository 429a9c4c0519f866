// What the words of a query denote, without reference to how the parser reads them
// (tools/logging/log_query_runtime.cpp scalar and QueryParser::primary).
module QueryValues {
  import opened Wrappers
  import opened Queries

  // ---------------------------------------------------------------------------
  // Words
  // ---------------------------------------------------------------------------

  predicate IsOrdering(text: string) {
    text == ">" || text == ">=" || text == "<" || text == "<="
  }

  predicate IsPattern(text: string) {
    text == "~" || text == "!~"
  }

  predicate IsOperator(text: string) {
    text == "=" || text == "!=" || text == ":" || IsPattern(text) || IsOrdering(text)
  }

  predicate Bare(t: Token) {
    !t.quoted && (t.text == "(" || t.text == ")" || IsOperator(t.text))
  }

  lemma OperatorsAre(text: string)
    ensures text in OPERATORS <==> IsOperator(text)
    ensures text in ORDERINGS <==> IsOrdering(text)
    ensures Punctuation(text) <==> text == "(" || text == ")" || IsOperator(text)
    ensures Reserved(text) <==> text == "and" || text == "or" || text == ")" || IsOperator(text)
  {
  }

  // ---------------------------------------------------------------------------
  // Values
  // ---------------------------------------------------------------------------

  // A quoted token is the text in its quotes, a bare one the constant or the number that it
  // spells, or itself.
  ghost predicate Denotes(lib: Library, t: Token, v: Value) {
    if t.quoted then v.Text? && lib.unquote(t.text) == Some(v.text)
    else
      match v
      case Bool(flag) => t.text == if flag then "true" else "false"
      case Null => t.text == "null"
      case Number(n) => !Constant(t.text) && lib.isNumber(t.text) && lib.number(t.text) == Some(n)
      case Text(text) => !Constant(t.text) && !lib.isNumber(t.text) && text == t.text
  }

  predicate Constant(text: string) {
    text == "true" || text == "false" || text == "null"
  }

  lemma ScalarIs(lib: Library, t: Token, v: Value)
    ensures Scalar(lib, t) == Some(v) <==> Denotes(lib, t, v)
  {
  }

  // ---------------------------------------------------------------------------
  // Patterns
  // ---------------------------------------------------------------------------

  // How many backslashes stand in a row before place k.
  function Backslashes(pattern: string, k: nat): nat
    requires k <= |pattern|
  {
    if k > 0 && pattern[k - 1] == '\\' then 1 + Backslashes(pattern, k - 1) else 0
  }

  predicate Escaped(pattern: string, k: nat)
    requires k <= |pattern|
  {
    Backslashes(pattern, k) % 2 == 1
  }

  // Every escaped Z becomes z; nothing else changes.
  function EndsRewritten(pattern: string): (r: string)
    ensures |r| == |pattern|
  {
    seq(|pattern|, k requires 0 <= k < |pattern| => if pattern[k] == 'Z' && Escaped(pattern, k) then 'z'
      else pattern[k])
  }

  lemma {:induction false} BackslashesAfter(pattern: string, n: nat, k: nat)
    requires n <= k <= |pattern| && (n == 0 || pattern[n - 1] != '\\' || Backslashes(pattern, n) % 2 == 0)
    ensures Backslashes(pattern, k) % 2 == Backslashes(pattern[n..], k - n) % 2
  {
    if k > n {
      assert pattern[n..][k - n - 1] == pattern[k - 1];
      BackslashesAfter(pattern, n, k - 1);
    }
  }

  lemma RewrittenAfter(pattern: string, n: nat)
    requires n <= |pattern| && Backslashes(pattern, n) % 2 == 0
    ensures EndsRewritten(pattern) == EndsRewritten(pattern)[..n] + EndsRewritten(pattern[n..])
  {
    hide Backslashes, EndsRewritten;
    var all, later := EndsRewritten(pattern), EndsRewritten(pattern[n..]);
    forall k | n <= k < |pattern|
      ensures all[k] == later[k - n]
    {
      RewrittenAt(pattern, n, k);
    }
    assert all[n..] == later;
  }

  lemma RewrittenAt(pattern: string, n: nat, k: nat)
    requires n <= k < |pattern| && Backslashes(pattern, n) % 2 == 0
    ensures EndsRewritten(pattern)[k] == EndsRewritten(pattern[n..])[k - n]
  {
    BackslashesAfter(pattern, n, k);
    hide Backslashes;
    assert pattern[n..][k - n] == pattern[k];
  }

  lemma {:induction false} NativeIsRewritten(pattern: string)
    ensures NativePattern(pattern) == EndsRewritten(pattern)
    decreases |pattern|
  {
    if pattern != [] {
      if pattern[0] == '\\' && |pattern| > 1 {
        NativeIsRewritten(pattern[2..]);
        assert Backslashes(pattern, 0) == 0 && Backslashes(pattern, 1) == 1;
        assert Backslashes(pattern, 2) % 2 == 0;
        RewrittenAfter(pattern, 2);
        assert EndsRewritten(pattern)[..2] == ['\\', if pattern[1] == 'Z' then 'z' else pattern[1]];
      } else {
        NativeIsRewritten(pattern[1..]);
        assert Backslashes(pattern, 0) == 0;
        if |pattern| > 1 {
          RewrittenAfter(pattern, 1);
          assert EndsRewritten(pattern)[..1] == [pattern[0]];
        }
      }
    }
  }

  // ---------------------------------------------------------------------------
  // Compared values
  // ---------------------------------------------------------------------------

  // The value that a comparison with this operator expects of this token.
  ghost predicate Expects(lib: Library, op: string, t: Token, v: Value) {
    && !Bare(t)
    && if IsPattern(op) then
         exists w :: Denotes(lib, t, w) && v == Text(EndsRewritten(lib.display(w))) && lib.compiles(v.text)
       else Denotes(lib, t, v) && (IsOrdering(op) ==> v.Number?)
  }

  lemma ExpectedIs(lib: Library, op: string, t: Token, v: Value)
    ensures ComparedValue(lib, op, t) == Compared(v) <==> Expects(lib, op, t, v)
  {
    hide Scalar, NativePattern, EndsRewritten, OPERATORS, Punctuation, Denotes;
    OperatorsAre(t.text);
    OperatorsAre(op);
    forall w
      ensures Scalar(lib, t) == Some(w) <==> Denotes(lib, t, w)
    {
      ScalarIs(lib, t, w);
    }
    if Scalar(lib, t).Some? {
      NativeIsRewritten(lib.display(Scalar(lib, t).value));
    }
  }

  // Why a token is refused: bare punctuation; a broken literal; an ordering against something
  // other than a number; a pattern that does not compile.
  ghost predicate Refuses(lib: Library, op: string, t: Token, error: QueryError) {
    if Bare(t) then error == ComparisonRequiresValue
    else if forall w :: !Denotes(lib, t, w) then error == BadLiteral(t.text)
    else if IsOrdering(op) then (forall w :: Denotes(lib, t, w) ==> !w.Number?) && error == RequiresNumber(op)
    else
      && IsPattern(op)
      && exists w :: Denotes(lib, t, w)
           && !lib.compiles(EndsRewritten(lib.display(w))) && error == BadPattern(EndsRewritten(lib.display(w)))
  }

  lemma RefusedIs(lib: Library, op: string, t: Token, error: QueryError)
    ensures ComparedValue(lib, op, t) == Rejected(error) <==> Refuses(lib, op, t, error)
  {
    hide Scalar, NativePattern, EndsRewritten, OPERATORS, Punctuation, Denotes;
    OperatorsAre(t.text);
    OperatorsAre(op);
    forall w
      ensures Scalar(lib, t) == Some(w) <==> Denotes(lib, t, w)
    {
      ScalarIs(lib, t, w);
    }
    if Scalar(lib, t).Some? {
      NativeIsRewritten(lib.display(Scalar(lib, t).value));
      assert Denotes(lib, t, Scalar(lib, t).value);
    }
  }
}
