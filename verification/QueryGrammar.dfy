// The query language as concrete syntax, independent of how the parser of Queries works:
// the parser accepts exactly the token sequences of this grammar, and returns the tree
// that the syntax spells.
module QueryGrammar {
  import opened Wrappers
  import opened Queries
  import opened QueryValues

  // An `and` may be left out, parentheses may be redundant, and keywords may be spelled
  // in any case that folds to them.  Comparisons and searches carry what their tokens denote.
  datatype Disjunction = Disjunction(head: Conjunction, tail: OrTail)
  datatype OrTail = NoOr | OrMore(word: Token, item: Conjunction, tail: OrTail)
  datatype Conjunction = Conjunction(head: Atom, tail: AndTail)
  datatype AndTail = NoAnd | AndMore(word: Option<Token>, item: Atom, tail: AndTail)
  datatype Atom =
    | Negation(word: Token, operand: Atom)
    | Group(open: Token, body: Disjunction, close: Token)
    | HasField(word: Token, open: Token, field: Token, close: Token)
    | Comparison(field: Token, op: Token, expected: Token, value: Value)
    | Search(term: Token, text: string)

  // --- the tokens ---

  function OrTokens(c: Disjunction): (ts: seq<Token>)
    ensures |ts| >= 1
  {
    AndTokens(c.head) + OrTailTokens(c.tail)
  }

  function OrTailTokens(c: OrTail): seq<Token> {
    match c
    case NoOr => []
    case OrMore(word, item, tail) => [word] + AndTokens(item) + OrTailTokens(tail)
  }

  function AndTokens(c: Conjunction): (ts: seq<Token>)
    ensures |ts| >= 1
  {
    AtomTokens(c.head) + AndTailTokens(c.tail)
  }

  function AndTailTokens(c: AndTail): seq<Token> {
    match c
    case NoAnd => []
    case AndMore(word, item, tail) => (if word.Some? then [word.value] else []) + AtomTokens(item) + AndTailTokens(tail)
  }

  function AtomTokens(c: Atom): (ts: seq<Token>)
    ensures |ts| >= 1
  {
    match c
    case Negation(word, operand) => [word] + AtomTokens(operand)
    case Group(open, body, close) => [open] + OrTokens(body) + [close]
    case HasField(word, open, field, close) => [word, open, field, close]
    case Comparison(field, op, expected, _) => [field, op, expected]
    case Search(term, _) => [term]
  }

  // --- the tree ---

  function OrTree(lib: Library, c: Disjunction): Expression {
    Joined([AndTree(lib, c.head)] + OrTrees(lib, c.tail), true)
  }

  function OrTrees(lib: Library, c: OrTail): seq<Expression> {
    match c
    case NoOr => []
    case OrMore(_, item, tail) => [AndTree(lib, item)] + OrTrees(lib, tail)
  }

  function AndTree(lib: Library, c: Conjunction): Expression {
    Joined([AtomTree(lib, c.head)] + AndTrees(lib, c.tail), false)
  }

  function AndTrees(lib: Library, c: AndTail): seq<Expression> {
    match c
    case NoAnd => []
    case AndMore(_, item, tail) => [AtomTree(lib, item)] + AndTrees(lib, tail)
  }

  function AtomTree(lib: Library, c: Atom): Expression {
    match c
    case Negation(_, operand) => Not(AtomTree(lib, operand))
    case Group(_, body, _) => OrTree(lib, body)
    case HasField(_, _, field, _) => Has(field.text)
    case Comparison(field, op, _, value) => Compare(op.text, field.text, value)
    case Search(term, text) => if term.text == "*" && !term.quoted then All else Term(text)
  }

  // --- what makes the syntax well formed at nesting depth d ---

  predicate Word(lib: Library, t: Token, word: string) {
    !t.quoted && lib.fold(t.text) == word
  }

  // A bare token that does not open one of the other forms.
  predicate Plain(lib: Library, t: Token) {
    var w := lib.fold(t.text);
    w !in ["not", "has", "and", "or", "(", ")"] && !IsOperator(w)
  }

  ghost predicate OrFits(lib: Library, c: Disjunction, d: nat) {
    AndFits(lib, c.head, d) && OrTailFits(lib, c.tail, d)
  }

  ghost predicate OrTailFits(lib: Library, c: OrTail, d: nat) {
    match c
    case NoOr => true
    case OrMore(word, item, tail) => Word(lib, word, "or") && AndFits(lib, item, d) && OrTailFits(lib, tail, d)
  }

  ghost predicate AndFits(lib: Library, c: Conjunction, d: nat) {
    AtomFits(lib, c.head, d) && AndTailFits(lib, c.tail, d)
  }

  ghost predicate AndTailFits(lib: Library, c: AndTail, d: nat) {
    match c
    case NoAnd => true
    case AndMore(word, item, tail) =>
      (word.Some? ==> Word(lib, word.value, "and")) && AtomFits(lib, item, d) && AndTailFits(lib, tail, d)
  }

  ghost predicate AtomFits(lib: Library, c: Atom, d: nat) {
    && d <= 32
    && match c
       case Negation(word, operand) => Word(lib, word, "not") && AtomFits(lib, operand, d + 1)
       case Group(open, body, close) => Word(lib, open, "(") && OrFits(lib, body, d + 1) && Word(lib, close, ")")
       case HasField(word, open, field, close) =>
         && Word(lib, word, "has") && Word(lib, open, "(") && Word(lib, close, ")")
         && !field.quoted && lib.isField(field.text)
       case Comparison(field, op, expected, value) =>
         && !field.quoted && Plain(lib, field) && lib.isField(field.text)
         && !op.quoted && IsOperator(op.text) && Expects(lib, op.text, expected, value)
       case Search(term, text) =>
         if term.quoted then lib.unquote(term.text) == Some(text) else Plain(lib, term) && text == term.text
  }

  // Case folding leaves the operators alone.
  ghost predicate FoldsOperators(lib: Library) {
    forall op :: IsOperator(op) ==> lib.fold(op) == op
  }

  // c's tokens stand at position i.
  predicate At(ts: seq<Token>, i: nat, part: seq<Token>) {
    i + |part| <= |ts| && ts[i..i + |part|] == part
  }

  lemma AtParts(ts: seq<Token>, i: nat, a: seq<Token>, b: seq<Token>)
    requires At(ts, i, a + b)
    ensures At(ts, i, a) && At(ts, i + |a|, b)
  {
    assert (a + b)[..|a|] == a && (a + b)[|a|..] == b;
    assert ts[i..i + |a|] == ts[i..i + |a + b|][..|a|];
    assert ts[i + |a|..i + |a| + |b|] == ts[i..i + |a + b|][|a|..];
  }

  lemma AtToken(ts: seq<Token>, i: nat, t: Token)
    requires At(ts, i, [t])
    ensures i < |ts| && ts[i] == t
  {
    assert ts[i..i + 1][0] == t;
  }

  // What may come after an atom: nothing that would make it a comparison.
  predicate AfterAtom(ts: seq<Token>, j: nat) {
    j < |ts| ==> ts[j].quoted || !IsOperator(ts[j].text)
  }

  predicate AfterAnd(lib: Library, ts: seq<Token>, j: nat) {
    j >= |ts| || Peek(lib, ts, j, "or") || Peek(lib, ts, j, ")")
  }

  predicate AfterOr(lib: Library, ts: seq<Token>, j: nat) {
    j >= |ts| || Peek(lib, ts, j, ")")
  }

  // ---------------------------------------------------------------------------
  // Everything in the grammar is parsed as its tree
  // ---------------------------------------------------------------------------

  // The first token of an atom opens an atom and nothing else.
  lemma AtomStarts(lib: Library, c: Atom, d: nat)
    requires FoldsOperators(lib) && AtomFits(lib, c, d)
    ensures var t := AtomTokens(c)[0];
      t.quoted || (lib.fold(t.text) != "or" && lib.fold(t.text) != "and" && lib.fold(t.text) != ")"
        && !IsOperator(t.text))
  {
    var t := AtomTokens(c)[0];
    assert IsOperator(t.text) ==> lib.fold(t.text) == t.text;
  }

  lemma NotOperators()
    ensures !IsOperator("or") && !IsOperator("and") && !IsOperator(")")
  {
  }

  lemma {:induction false} AtomParses(lib: Library, ts: seq<Token>, i: nat, c: Atom, d: nat)
    requires FoldsOperators(lib) && AtomFits(lib, c, d) && At(ts, i, AtomTokens(c))
    requires AfterAtom(ts, i + |AtomTokens(c)|)
    ensures Primary(lib, ts, i, d) == Done(AtomTree(lib, c), i + |AtomTokens(c)|)
    decreases c
  {
    hide Primary, AtomFits, At, AfterAtom, OrTree, OrTokens, ParseOr, FoldsOperators;
    match c
    case Negation(word, operand) =>
      NegationParts(lib, ts, i, c, d);
      AtomParses(lib, ts, i + 1, operand, d + 1);
    case Group(open, body, close) =>
      GroupParts(lib, ts, i, c, d);
      OrParses(lib, ts, i + 1, body, d + 1);
    case _ =>
      WordParses(lib, ts, i, c, d);
  }

  lemma NegationParts(lib: Library, ts: seq<Token>, i: nat, c: Atom, d: nat)
    requires AtomFits(lib, c, d) && At(ts, i, AtomTokens(c)) && c.Negation?
    ensures At(ts, i + 1, AtomTokens(c.operand)) && AtomFits(lib, c.operand, d + 1)
    ensures var r := Primary(lib, ts, i + 1, d + 1);
      Primary(lib, ts, i, d) == if r.Done? then Done(Not(r.tree), r.next) else r
  {
    AtParts(ts, i, [c.word], AtomTokens(c.operand));
    AtToken(ts, i, c.word);
  }

  lemma GroupParts(lib: Library, ts: seq<Token>, i: nat, c: Atom, d: nat)
    requires AtomFits(lib, c, d) && At(ts, i, AtomTokens(c)) && c.Group?
    ensures At(ts, i + 1, OrTokens(c.body)) && OrFits(lib, c.body, d + 1)
    ensures AfterOr(lib, ts, i + 1 + |OrTokens(c.body)|)
    ensures ParseOr(lib, ts, i + 1, d + 1) == Done(OrTree(lib, c.body), i + 1 + |OrTokens(c.body)|)
        ==> Primary(lib, ts, i, d) == Done(OrTree(lib, c.body), i + 2 + |OrTokens(c.body)|)
  {
    hide OrTokens, OrTree, OrFits, ParseOr;
    AtParts(ts, i, [c.open] + OrTokens(c.body), [c.close]);
    AtParts(ts, i, [c.open], OrTokens(c.body));
    AtToken(ts, i, c.open);
    AtToken(ts, i + 1 + |OrTokens(c.body)|, c.close);
  }

  lemma WordParses(lib: Library, ts: seq<Token>, i: nat, c: Atom, d: nat)
    requires AtomFits(lib, c, d) && At(ts, i, AtomTokens(c)) && !c.Negation? && !c.Group?
    requires AfterAtom(ts, i + |AtomTokens(c)|)
    ensures Primary(lib, ts, i, d) == Done(AtomTree(lib, c), i + |AtomTokens(c)|)
  {
    hide ComparedValue, Expects, OPERATORS, Reserved, IsOperator;
    match c
    case HasField(word, open, field, close) =>
      assert ts[i] == ts[i..i + 4][0] && ts[i + 1] == ts[i..i + 4][1] && ts[i + 2] == ts[i..i + 4][2]
        && ts[i + 3] == ts[i..i + 4][3];
    case Comparison(field, op, expected, value) =>
      assert ts[i] == ts[i..i + 3][0] && ts[i + 1] == ts[i..i + 3][1] && ts[i + 2] == ts[i..i + 3][2];
      OperatorsAre(lib.fold(field.text));
      OperatorsAre(op.text);
      ExpectedIs(lib, op.text, expected, value);
    case Search(term, text) =>
      AtToken(ts, i, term);
      OperatorsAre(lib.fold(term.text));
      if i + 1 < |ts| {
        OperatorsAre(ts[i + 1].text);
      }
  }

  lemma {:induction false} AndParses(lib: Library, ts: seq<Token>, i: nat, c: Conjunction, d: nat)
    requires FoldsOperators(lib) && AndFits(lib, c, d) && At(ts, i, AndTokens(c))
    requires AfterAnd(lib, ts, i + |AndTokens(c)|)
    ensures ParseAnd(lib, ts, i, d) == Done(AndTree(lib, c), i + |AndTokens(c)|)
    decreases c
  {
    hide Primary, AtomTokens, AtomTree, AtomFits, AndTailFits, AndTailTokens, Joined, AndRest, At;
    var n := |AtomTokens(c.head)|;
    AtParts(ts, i, AtomTokens(c.head), AndTailTokens(c.tail));
    AndTailFollows(lib, ts, i + n, c.tail, d);
    AtomParses(lib, ts, i, c.head, d);
    AndTailParses(lib, ts, i + n, c.tail, d, [AtomTree(lib, c.head)]);
  }

  // What stands where a conjunction goes on does not turn the atom before it into a
  // comparison.
  lemma AndTailFollows(lib: Library, ts: seq<Token>, i: nat, c: AndTail, d: nat)
    requires FoldsOperators(lib) && AndTailFits(lib, c, d) && At(ts, i, AndTailTokens(c))
    requires AfterAnd(lib, ts, i + |AndTailTokens(c)|)
    ensures AfterAtom(ts, i)
    ensures c.AndMore? ==> i < |ts| && !Peek(lib, ts, i, "or") && !Peek(lib, ts, i, ")")
    ensures c.AndMore? ==> (Peek(lib, ts, i, "and") <==> c.word.Some?)
  {
    NotOperators();
    if c.AndMore? {
      AtomStarts(lib, c.item, d);
      assert AndTailTokens(c)[0] == if c.word.Some? then c.word.value else AtomTokens(c.item)[0];
      assert ts[i] == ts[i..i + |AndTailTokens(c)|][0];
    }
  }

  lemma AndTailParts(lib: Library, ts: seq<Token>, i: nat, c: AndTail, d: nat, parts: seq<Expression>)
    requires FoldsOperators(lib) && AndTailFits(lib, c, d) && At(ts, i, AndTailTokens(c)) && c.AndMore? && parts != []
    requires AfterAnd(lib, ts, i + |AndTailTokens(c)|)
    ensures var j := if c.word.Some? then i + 1 else i;
      var k := j + |AtomTokens(c.item)|;
      && At(ts, j, AtomTokens(c.item)) && AtomFits(lib, c.item, d) && AfterAtom(ts, k)
      && At(ts, k, AndTailTokens(c.tail)) && AndTailFits(lib, c.tail, d)
      && k + |AndTailTokens(c.tail)| == i + |AndTailTokens(c)|
      && var part := Primary(lib, ts, j, d);
         AndRest(lib, ts, i, d, parts) ==
           if part.Failed? then part else AndRest(lib, ts, part.next, d, parts + [part.tree])
  {
    hide Primary, ParseOr, AtomTokens, AtomFits, At, AndRest;
    var w := if c.word.Some? then [c.word.value] else [];
    var k := i + |w| + |AtomTokens(c.item)|;
    AndTailFollows(lib, ts, i, c, d);
    AtParts(ts, i, w + AtomTokens(c.item), AndTailTokens(c.tail));
    AtParts(ts, i, w, AtomTokens(c.item));
    AndTailFollows(lib, ts, k, c.tail, d);
    AndRestStep(lib, ts, i, d, parts);
  }

  lemma {:induction false} AndTailParses(
      lib: Library, ts: seq<Token>, i: nat, c: AndTail, d: nat, parts: seq<Expression>)
    requires FoldsOperators(lib) && AndTailFits(lib, c, d) && At(ts, i, AndTailTokens(c)) && parts != []
    requires AfterAnd(lib, ts, i + |AndTailTokens(c)|)
    ensures AndRest(lib, ts, i, d, parts) == Done(Joined(parts + AndTrees(lib, c), false), i + |AndTailTokens(c)|)
    decreases c
  {
    hide *;
    match c
    case NoAnd =>
      AndTailEnds(lib, ts, i, c, d, parts);
    case AndMore(word, item, tail) =>
      AndTailParts(lib, ts, i, c, d, parts);
      AndTailTrees(lib, c, parts);
      var j := if word.Some? then i + 1 else i;
      AtomParses(lib, ts, j, item, d);
      AndTailParses(lib, ts, j + |AtomTokens(item)|, tail, d, parts + [AtomTree(lib, item)]);
  }

  lemma AndTailEnds(lib: Library, ts: seq<Token>, i: nat, c: AndTail, d: nat, parts: seq<Expression>)
    requires c.NoAnd? && At(ts, i, AndTailTokens(c)) && parts != [] && AfterAnd(lib, ts, i + |AndTailTokens(c)|)
    ensures AndTailTokens(c) == [] && AndTrees(lib, c) == [] && parts + [] == parts
    ensures AndRest(lib, ts, i, d, parts) == Done(Joined(parts, false), i)
  {
    hide Primary, Joined, Peek;
  }

  lemma AndTailTrees(lib: Library, c: AndTail, parts: seq<Expression>)
    requires c.AndMore?
    ensures parts + [AtomTree(lib, c.item)] + AndTrees(lib, c.tail) == parts + AndTrees(lib, c)
  {
    hide AtomTree;
  }

  lemma AndRestStep(lib: Library, ts: seq<Token>, i: nat, d: nat, parts: seq<Expression>)
    requires i < |ts| && !Peek(lib, ts, i, "or") && !Peek(lib, ts, i, ")") && parts != []
    ensures var part := Primary(lib, ts, if Peek(lib, ts, i, "and") then i + 1 else i, d);
      AndRest(lib, ts, i, d, parts) ==
        if part.Failed? then part else AndRest(lib, ts, part.next, d, parts + [part.tree])
  {
    hide Primary, Peek;
  }

  lemma {:induction false} OrParses(lib: Library, ts: seq<Token>, i: nat, c: Disjunction, d: nat)
    requires FoldsOperators(lib) && OrFits(lib, c, d) && At(ts, i, OrTokens(c))
    requires AfterOr(lib, ts, i + |OrTokens(c)|)
    ensures ParseOr(lib, ts, i, d) == Done(OrTree(lib, c), i + |OrTokens(c)|)
    decreases c
  {
    hide ParseAnd, AndTokens, AndTree, AndFits, Joined, OrRest;
    var n := |AndTokens(c.head)|;
    AtParts(ts, i, AndTokens(c.head), OrTailTokens(c.tail));
    OrTailFollows(lib, ts, i + n, c.tail, d);
    AndParses(lib, ts, i, c.head, d);
    OrTailParses(lib, ts, i + n, c.tail, d, [AndTree(lib, c.head)]);
  }

  lemma OrTailFollows(lib: Library, ts: seq<Token>, i: nat, c: OrTail, d: nat)
    requires OrTailFits(lib, c, d) && At(ts, i, OrTailTokens(c))
    requires AfterOr(lib, ts, i + |OrTailTokens(c)|)
    ensures AfterAnd(lib, ts, i)
    ensures Peek(lib, ts, i, "or") <==> c.OrMore?
  {
    if c.OrMore? {
      assert OrTailTokens(c)[0] == c.word;
      assert ts[i] == ts[i..i + |OrTailTokens(c)|][0];
    }
  }

  lemma OrTailParts(lib: Library, ts: seq<Token>, i: nat, c: OrTail, d: nat, parts: seq<Expression>)
    requires OrTailFits(lib, c, d) && At(ts, i, OrTailTokens(c)) && c.OrMore? && parts != []
    requires AfterOr(lib, ts, i + |OrTailTokens(c)|)
    ensures var k := i + 1 + |AndTokens(c.item)|;
      && At(ts, i + 1, AndTokens(c.item)) && AndFits(lib, c.item, d) && AfterAnd(lib, ts, k)
      && At(ts, k, OrTailTokens(c.tail)) && OrTailFits(lib, c.tail, d)
      && k + |OrTailTokens(c.tail)| == i + |OrTailTokens(c)|
      && var part := ParseAnd(lib, ts, i + 1, d);
         OrRest(lib, ts, i, d, parts) ==
           if part.Failed? then part else OrRest(lib, ts, part.next, d, parts + [part.tree])
  {
    hide ParseAnd, AndTokens, AndFits, At;
    OrTailFollows(lib, ts, i, c, d);
    AtParts(ts, i, [c.word] + AndTokens(c.item), OrTailTokens(c.tail));
    AtParts(ts, i, [c.word], AndTokens(c.item));
    OrTailFollows(lib, ts, i + 1 + |AndTokens(c.item)|, c.tail, d);
  }

  lemma {:induction false} OrTailParses(lib: Library, ts: seq<Token>, i: nat, c: OrTail, d: nat, parts: seq<Expression>)
    requires FoldsOperators(lib) && OrTailFits(lib, c, d) && At(ts, i, OrTailTokens(c)) && parts != []
    requires AfterOr(lib, ts, i + |OrTailTokens(c)|)
    ensures OrRest(lib, ts, i, d, parts) == Done(Joined(parts + OrTrees(lib, c), true), i + |OrTailTokens(c)|)
    decreases c
  {
    hide *;
    match c
    case NoOr =>
      OrTailEnds(lib, ts, i, c, d, parts);
    case OrMore(word, item, tail) =>
      OrTailParts(lib, ts, i, c, d, parts);
      OrTailTrees(lib, c, parts);
      AndParses(lib, ts, i + 1, item, d);
      OrTailParses(lib, ts, i + 1 + |AndTokens(item)|, tail, d, parts + [AndTree(lib, item)]);
  }

  lemma OrTailEnds(lib: Library, ts: seq<Token>, i: nat, c: OrTail, d: nat, parts: seq<Expression>)
    requires c.NoOr? && At(ts, i, OrTailTokens(c)) && parts != [] && AfterOr(lib, ts, i + |OrTailTokens(c)|)
    ensures OrTailTokens(c) == [] && OrTrees(lib, c) == [] && parts + [] == parts
    ensures OrRest(lib, ts, i, d, parts) == Done(Joined(parts, true), i)
  {
    hide ParseAnd, Joined;
  }

  lemma OrTailTrees(lib: Library, c: OrTail, parts: seq<Expression>)
    requires c.OrMore?
    ensures parts + [AndTree(lib, c.item)] + OrTrees(lib, c.tail) == parts + OrTrees(lib, c)
  {
    hide AndTree;
  }

  // ---------------------------------------------------------------------------
  // Everything that is parsed is in the grammar
  // ---------------------------------------------------------------------------

  lemma {:induction false} AtomParsed(lib: Library, ts: seq<Token>, i: nat, d: nat) returns (c: Atom)
    requires i <= |ts| && Primary(lib, ts, i, d).Done?
    ensures var r := Primary(lib, ts, i, d);
      AtomFits(lib, c, d) && AtomTokens(c) == ts[i..r.next] && AtomTree(lib, c) == r.tree
    decreases |ts| - i, 0
  {
    hide Primary, HasPrimary, TermPrimary, ParseOr, Plain, ComparedValue, Expects;
    PrimaryStep(lib, ts, i, d);
    var r := Primary(lib, ts, i, d);
    if Peek(lib, ts, i, "not") {
      var operand := AtomParsed(lib, ts, i + 1, d + 1);
      c := Negation(ts[i], operand);
      assert ts[i..r.next] == [ts[i]] + ts[i + 1..r.next];
    } else if Peek(lib, ts, i, "(") {
      var body := OrParsed(lib, ts, i + 1, d + 1);
      c := Group(ts[i], body, ts[r.next - 1]);
      assert ts[i..r.next] == [ts[i]] + ts[i + 1..r.next - 1] + [ts[r.next - 1]];
    } else {
      assert r == if Peek(lib, ts, i, "has") then HasPrimary(lib, ts, i) else TermPrimary(lib, ts, i);
      c := WordParsed(lib, ts, i, d);
    }
  }

  lemma WordParsed(lib: Library, ts: seq<Token>, i: nat, d: nat) returns (c: Atom)
    requires i < |ts| && d <= 32 && !Peek(lib, ts, i, "not") && !Peek(lib, ts, i, "(")
    requires (if Peek(lib, ts, i, "has") then HasPrimary(lib, ts, i) else TermPrimary(lib, ts, i)).Done?
    ensures var r := if Peek(lib, ts, i, "has") then HasPrimary(lib, ts, i) else TermPrimary(lib, ts, i);
      AtomFits(lib, c, d) && AtomTokens(c) == ts[i..r.next] && AtomTree(lib, c) == r.tree
  {
    hide ComparedValue, Expects, OPERATORS, Reserved, IsOperator;
    OperatorsAre(lib.fold(ts[i].text));
    if Peek(lib, ts, i, "has") {
      c := HasField(ts[i], ts[i + 1], ts[i + 2], ts[i + 3]);
      assert ts[i..i + 4] == [ts[i], ts[i + 1], ts[i + 2], ts[i + 3]];
    } else if TermPrimary(lib, ts, i).tree.Compare? {
      var value := TermPrimary(lib, ts, i).tree.expected;
      OperatorsAre(ts[i + 1].text);
      ExpectedIs(lib, ts[i + 1].text, ts[i + 2], value);
      c := Comparison(ts[i], ts[i + 1], ts[i + 2], value);
      assert ts[i..i + 3] == [ts[i], ts[i + 1], ts[i + 2]];
    } else {
      var tree := TermPrimary(lib, ts, i).tree;
      c := Search(ts[i], if tree.Term? then tree.text else ts[i].text);
      assert ts[i..i + 1] == [ts[i]];
    }
  }

  lemma {:induction false} AndParsed(lib: Library, ts: seq<Token>, i: nat, d: nat) returns (c: Conjunction)
    requires i <= |ts| && ParseAnd(lib, ts, i, d).Done?
    ensures var r := ParseAnd(lib, ts, i, d);
      AndFits(lib, c, d) && AndTokens(c) == ts[i..r.next] && AndTree(lib, c) == r.tree
    decreases |ts| - i, 2
  {
    hide Primary, AndRest, AtomTokens, AtomTree, AtomFits, AndTailTokens, AndTailFits, Joined;
    var first := Primary(lib, ts, i, d);
    var r := ParseAnd(lib, ts, i, d);
    var head := AtomParsed(lib, ts, i, d);
    var tail := AndTailParsed(lib, ts, first.next, d, [first.tree]);
    c := Conjunction(head, tail);
    assert ts[i..r.next] == ts[i..first.next] + ts[first.next..r.next];
  }

  lemma {:induction false} AndTailParsed(lib: Library, ts: seq<Token>, i: nat, d: nat, parts: seq<Expression>)
    returns (c: AndTail)
    requires i <= |ts| && parts != [] && AndRest(lib, ts, i, d, parts).Done?
    ensures var r := AndRest(lib, ts, i, d, parts);
      AndTailFits(lib, c, d) && AndTailTokens(c) == ts[i..r.next] && Joined(parts + AndTrees(lib, c), false) == r.tree
    decreases |ts| - i, 1
  {
    hide Primary, AtomTokens, AtomTree, AtomFits, Joined;
    var r := AndRest(lib, ts, i, d, parts);
    if i < |ts| && !Peek(lib, ts, i, "or") && !Peek(lib, ts, i, ")") {
      var found := Peek(lib, ts, i, "and");
      var j := if found then i + 1 else i;
      var word := if found then Some(ts[i]) else None;
      var part := Primary(lib, ts, j, d);
      var item := AtomParsed(lib, ts, j, d);
      var tail := AndTailParsed(lib, ts, part.next, d, parts + [part.tree]);
      c := AndMore(word, item, tail);
      AndRestStep(lib, ts, i, d, parts);
      Slices(ts, i, j, part.next, r.next);
      assert parts + [part.tree] + AndTrees(lib, tail) == parts + AndTrees(lib, c);
    } else {
      c := NoAnd;
      assert parts + AndTrees(lib, c) == parts;
    }
  }

  lemma Slices(ts: seq<Token>, i: nat, j: nat, k: nat, n: nat)
    requires i <= j <= i + 1 && j <= k <= n <= |ts| && i < |ts|
    ensures ts[i..n] == (if i < j then [ts[i]] else []) + ts[j..k] + ts[k..n]
  {
  }

  lemma {:induction false} OrParsed(lib: Library, ts: seq<Token>, i: nat, d: nat) returns (c: Disjunction)
    requires i <= |ts| && ParseOr(lib, ts, i, d).Done?
    ensures var r := ParseOr(lib, ts, i, d);
      OrFits(lib, c, d) && OrTokens(c) == ts[i..r.next] && OrTree(lib, c) == r.tree
    decreases |ts| - i, 4
  {
    hide ParseAnd, OrRest, AndTokens, AndTree, AndFits, OrTailTokens, OrTailFits, Joined;
    var first := ParseAnd(lib, ts, i, d);
    var r := ParseOr(lib, ts, i, d);
    var head := AndParsed(lib, ts, i, d);
    var tail := OrTailParsed(lib, ts, first.next, d, [first.tree]);
    c := Disjunction(head, tail);
    assert ts[i..r.next] == ts[i..first.next] + ts[first.next..r.next];
  }

  lemma {:induction false} OrTailParsed(lib: Library, ts: seq<Token>, i: nat, d: nat, parts: seq<Expression>)
    returns (c: OrTail)
    requires i <= |ts| && parts != [] && OrRest(lib, ts, i, d, parts).Done?
    ensures var r := OrRest(lib, ts, i, d, parts);
      OrTailFits(lib, c, d) && OrTailTokens(c) == ts[i..r.next] && Joined(parts + OrTrees(lib, c), true) == r.tree
    decreases |ts| - i, 3
  {
    hide ParseAnd, AndTokens, AndTree, AndFits, Joined;
    var r := OrRest(lib, ts, i, d, parts);
    if Peek(lib, ts, i, "or") {
      var part := ParseAnd(lib, ts, i + 1, d);
      var item := AndParsed(lib, ts, i + 1, d);
      var tail := OrTailParsed(lib, ts, part.next, d, parts + [part.tree]);
      c := OrMore(ts[i], item, tail);
      assert ts[i..r.next] == [ts[i]] + ts[i + 1..part.next] + ts[part.next..r.next];
      assert parts + [part.tree] + OrTrees(lib, tail) == parts + OrTrees(lib, c);
    } else {
      c := NoOr;
      assert parts + OrTrees(lib, c) == parts;
    }
  }

  // The parser accepts exactly the token sequences of the grammar, each with the tree that it
  // spells, and no tokens at all, which ask for everything; no sequence spells two trees.
  lemma ParserIsGrammar(lib: Library, ts: seq<Token>, tree: Expression)
    requires FoldsOperators(lib)
    ensures Parse(lib, ts) == Done(tree, |ts|) <==>
      if ts == [] then tree == All
      else exists c :: OrFits(lib, c, 0) && OrTokens(c) == ts && OrTree(lib, c) == tree
  {
    if ts != [] && Parse(lib, ts) == Done(tree, |ts|) {
      var c := OrParsed(lib, ts, 0, 0);
      assert ts[0..|ts|] == ts;
    }
    forall c | OrFits(lib, c, 0) && OrTokens(c) == ts && OrTree(lib, c) == tree
      ensures Parse(lib, ts) == Done(tree, |ts|)
    {
      assert At(ts, 0, OrTokens(c));
      OrParses(lib, ts, 0, c, 0);
    }
  }
}
