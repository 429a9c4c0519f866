// Printing a query tree with as few parentheses as possible, and parsing it back.
module QueryPrinter {
  import opened Basics
  import opened Wrappers
  import opened Queries
  import opened QueryValues
  import opened QueryGrammar

  // What a query asks: everything, some style, a field that is there, a comparison of a field
  // with a value or with a pattern, and their combinations.
  datatype Shape =
    | Everything
    | Words(text: string)
    | HasField(name: string)
    | Compares(op: string, field: string, value: Value)
    | Matches(negated: bool, field: string, pattern: string)
    | Negated(operand: Shape)
    | AllOf(parts: seq<Shape>)
    | AnyOf(parts: seq<Shape>)

  // How texts and numbers are written, and whether conjunctions spell their `and`.
  datatype Style = Style(words: bool, quote: string -> string, digits: int -> string)

  // Texts and numbers are read as they are written.
  ghost predicate Writes(lib: Library, style: Style) {
    && (forall text :: lib.unquote(style.quote(text)) == Some(text))
    && (forall n :: Reads(lib, style.digits(n), n))
    && (forall text :: lib.display(Text(text)) == text)
  }

  predicate Reads(lib: Library, digits: string, n: int) {
    lib.isNumber(digits) && lib.number(digits) == Some(n) && !Constant(digits) && !Bare(Token(digits, false))
  }

  predicate Canonical(lib: Library, q: Shape) {
    match q
    case Everything => true
    case Words(_) => true
    case HasField(name) => lib.isField(name)
    case Compares(op, field, value) =>
      && lib.isField(field) && Plain(lib, Token(field, false))
      && IsOperator(op) && !IsPattern(op) && (IsOrdering(op) ==> value.Number?)
    case Matches(_, field, pattern) =>
      lib.isField(field) && Plain(lib, Token(field, false)) && lib.compiles(EndsRewritten(pattern))
    case Negated(operand) => Canonical(lib, operand)
    case AllOf(parts) => |parts| >= 2 && forall q :: q in parts ==> Canonical(lib, q)
    case AnyOf(parts) => |parts| >= 2 && forall q :: q in parts ==> Canonical(lib, q)
  }

  function Meaning(q: Shape): Expression {
    match q
    case Everything => All
    case Words(text) => Term(text)
    case HasField(name) => Has(name)
    case Compares(op, field, value) => Compare(op, field, value)
    case Matches(negated, field, pattern) => Compare(if negated then "!~" else "~", field, Text(EndsRewritten(pattern)))
    case Negated(operand) => Not(Meaning(operand))
    case AllOf(parts) => And(Meanings(parts))
    case AnyOf(parts) => Or(Meanings(parts))
  }

  function Meanings(qs: seq<Shape>): (es: seq<Expression>)
    ensures |es| == |qs|
  {
    if qs == [] then [] else [Meaning(qs[0])] + Meanings(qs[1..])
  }

  const OPEN := Token("(", false)
  const CLOSE := Token(")", false)
  const NOT := Token("not", false)
  const AND := Token("and", false)
  const OR := Token("or", false)
  const HAS := Token("has", false)
  const STAR := Token("*", false)

  function ValueToken(style: Style, v: Value): Token {
    match v
    case Text(text) => Token(style.quote(text), true)
    case Bool(flag) => Token(if flag then "true" else "false", false)
    case Null => Token("null", false)
    case Number(n) => Token(style.digits(n), false)
  }

  function AtomOf(q: Shape, style: Style): Atom
    decreases q, 0
  {
    match q
    case Everything => Search(STAR, "*")
    case Words(text) => Search(Token(style.quote(text), true), text)
    case HasField(name) => Atom.HasField(HAS, OPEN, Token(name, false), CLOSE)
    case Compares(op, field, value) =>
      Comparison(Token(field, false), Token(op, false), ValueToken(style, value), value)
    case Matches(negated, field, pattern) =>
      Comparison(Token(field, false), Token(if negated then "!~" else "~", false), ValueToken(style, Text(pattern)),
        Text(EndsRewritten(pattern)))
    case Negated(operand) => Negation(NOT, AtomOf(operand, style))
    case AllOf(parts) => Group(OPEN, Disjunction(AndOf(parts, style), NoOr), CLOSE)
    case AnyOf(parts) => Group(OPEN, OrOf(parts, style), CLOSE)
  }

  function AndOf(parts: seq<Shape>, style: Style): Conjunction
    decreases parts, 0
  {
    if parts == [] then Conjunction(Search(OPEN, []), NoAnd)
    else Conjunction(AtomOf(parts[0], style), AndTailOf(parts[1..], style))
  }

  function AndTailOf(parts: seq<Shape>, style: Style): AndTail
    decreases parts, 0
  {
    if parts == [] then NoAnd
    else AndMore(if style.words then Some(AND) else None, AtomOf(parts[0], style), AndTailOf(parts[1..], style))
  }

  // An `all` needs no parentheses inside an `any`.
  function ItemOf(q: Shape, style: Style): Conjunction
    decreases q, 1
  {
    if q.AllOf? then AndOf(q.parts, style) else Conjunction(AtomOf(q, style), NoAnd)
  }

  function OrOf(parts: seq<Shape>, style: Style): Disjunction
    decreases parts, 0
  {
    if parts == [] then Disjunction(Conjunction(Search(OPEN, []), NoAnd), NoOr)
    else Disjunction(ItemOf(parts[0], style), OrTailOf(parts[1..], style))
  }

  function OrTailOf(parts: seq<Shape>, style: Style): OrTail
    decreases parts, 0
  {
    if parts == [] then NoOr else OrMore(OR, ItemOf(parts[0], style), OrTailOf(parts[1..], style))
  }

  function Printed(q: Shape, style: Style): Disjunction {
    if q.AnyOf? then OrOf(q.parts, style) else Disjunction(ItemOf(q, style), NoOr)
  }

  // How many parentheses and negations enclose the deepest leaf of q printed as an atom,
  // as an item of an `or`, and on its own.
  function AtomDepth(q: Shape): nat
    decreases q, 0
  {
    match q
    case Negated(operand) => 1 + AtomDepth(operand)
    case AllOf(parts) => 1 + AllDepth(parts)
    case AnyOf(parts) => 1 + AnyDepth(parts)
    case _ => 0
  }

  function AllDepth(parts: seq<Shape>): nat
    decreases parts, 0
  {
    if parts == [] then 0 else Max(AtomDepth(parts[0]), AllDepth(parts[1..]))
  }

  function ItemDepth(q: Shape): nat
    decreases q, 1
  {
    if q.AllOf? then AllDepth(q.parts) else AtomDepth(q)
  }

  function AnyDepth(parts: seq<Shape>): nat
    decreases parts, 0
  {
    if parts == [] then 0 else Max(ItemDepth(parts[0]), AnyDepth(parts[1..]))
  }

  function Depth(q: Shape): nat {
    if q.AnyOf? then AnyDepth(q.parts) else ItemDepth(q)
  }

  const WORDS: seq<string> := ["(", ")", "not", "and", "or", "has", "*"]

  ghost predicate FoldsWords(lib: Library) {
    && FoldsOperators(lib)
    && forall w :: w in WORDS ==> lib.fold(w) == w
  }

  lemma WordTokens(lib: Library)
    requires FoldsWords(lib)
    ensures Word(lib, OPEN, "(") && Word(lib, CLOSE, ")") && Word(lib, NOT, "not") && Word(lib, AND, "and")
      && Word(lib, OR, "or") && Word(lib, HAS, "has") && lib.fold("*") == "*"
  {
    assert "(" in WORDS && ")" in WORDS && "not" in WORDS && "and" in WORDS && "or" in WORDS && "has" in WORDS;
    assert "*" in WORDS;
  }

  // Every value is read back from the token that writes it.
  lemma ValueIsRead(lib: Library, style: Style, v: Value)
    requires Writes(lib, style)
    ensures var t := ValueToken(style, v); Denotes(lib, t, v) && !Bare(t) && Scalar(lib, t) == Some(v)
  {
    hide Scalar;
    var t := ValueToken(style, v);
    match v {
      case Number(n) =>
        assert Reads(lib, style.digits(n), n);
      case _ =>
    }
    ScalarIs(lib, t, v);
  }

  // A leaf is spelled by a form of the grammar.
  predicate IsLeaf(q: Shape) {
    !q.Negated? && !q.AllOf? && !q.AnyOf?
  }

  lemma LeafFits(lib: Library, q: Shape, style: Style, d: nat)
    requires FoldsWords(lib) && Writes(lib, style) && Canonical(lib, q) && IsLeaf(q) && d <= 32
    ensures AtomFits(lib, AtomOf(q, style), d)
    ensures AtomTree(lib, AtomOf(q, style)) == Meaning(q)
  {
    hide EndsRewritten, Denotes, Bare;
    WordTokens(lib);
    match q {
      case Compares(op, field, value) =>
        ValueIsRead(lib, style, value);
      case Matches(_, field, pattern) =>
        ValueIsRead(lib, style, Text(pattern));
        assert lib.display(Text(pattern)) == pattern;
      case _ =>
    }
  }

  lemma OneItem(lib: Library, c: Conjunction)
    ensures OrTree(lib, Disjunction(c, NoOr)) == AndTree(lib, c)
  {
  }

  lemma {:induction false} AtomOfFits(lib: Library, q: Shape, style: Style, d: nat)
    requires FoldsWords(lib) && Writes(lib, style) && Canonical(lib, q) && d + AtomDepth(q) <= 32
    ensures AtomFits(lib, AtomOf(q, style), d)
    ensures AtomTree(lib, AtomOf(q, style)) == Meaning(q)
    decreases q, 0
  {
    WordTokens(lib);
    match q
    case Negated(operand) =>
      AtomOfFits(lib, operand, style, d + 1);
    case AllOf(parts) =>
      AndOfFits(lib, parts, style, d + 1);
      OneItem(lib, AndOf(parts, style));
    case AnyOf(parts) =>
      OrOfFits(lib, parts, style, d + 1);
    case _ =>
      LeafFits(lib, q, style, d);
  }

  lemma {:induction false} AndOfFits(lib: Library, parts: seq<Shape>, style: Style, d: nat)
    requires FoldsWords(lib) && Writes(lib, style) && |parts| >= 2 && (forall q :: q in parts ==> Canonical(lib, q))
    requires d + AllDepth(parts) <= 32
    ensures AndFits(lib, AndOf(parts, style), d)
    ensures AndTree(lib, AndOf(parts, style)) == And(Meanings(parts))
    decreases parts, 0
  {
    AtomOfFits(lib, parts[0], style, d);
    AndTailOfFits(lib, parts[1..], style, d);
  }

  lemma {:induction false} AndTailOfFits(lib: Library, parts: seq<Shape>, style: Style, d: nat)
    requires FoldsWords(lib) && Writes(lib, style) && (forall q :: q in parts ==> Canonical(lib, q))
    requires d + AllDepth(parts) <= 32
    ensures AndTailFits(lib, AndTailOf(parts, style), d)
    ensures AndTrees(lib, AndTailOf(parts, style)) == Meanings(parts)
    decreases parts, 0
  {
    WordTokens(lib);
    if parts != [] {
      AtomOfFits(lib, parts[0], style, d);
      AndTailOfFits(lib, parts[1..], style, d);
    }
  }

  lemma {:induction false} ItemOfFits(lib: Library, q: Shape, style: Style, d: nat)
    requires FoldsWords(lib) && Writes(lib, style) && Canonical(lib, q) && d + ItemDepth(q) <= 32
    ensures AndFits(lib, ItemOf(q, style), d)
    ensures AndTree(lib, ItemOf(q, style)) == Meaning(q)
    decreases q, 1
  {
    if q.AllOf? {
      AndOfFits(lib, q.parts, style, d);
    } else {
      AtomOfFits(lib, q, style, d);
    }
  }

  lemma {:induction false} OrOfFits(lib: Library, parts: seq<Shape>, style: Style, d: nat)
    requires FoldsWords(lib) && Writes(lib, style) && |parts| >= 2 && (forall q :: q in parts ==> Canonical(lib, q))
    requires d + AnyDepth(parts) <= 32
    ensures OrFits(lib, OrOf(parts, style), d)
    ensures OrTree(lib, OrOf(parts, style)) == Or(Meanings(parts))
    decreases parts, 0
  {
    ItemOfFits(lib, parts[0], style, d);
    OrTailOfFits(lib, parts[1..], style, d);
  }

  lemma {:induction false} OrTailOfFits(lib: Library, parts: seq<Shape>, style: Style, d: nat)
    requires FoldsWords(lib) && Writes(lib, style) && (forall q :: q in parts ==> Canonical(lib, q))
    requires d + AnyDepth(parts) <= 32
    ensures OrTailFits(lib, OrTailOf(parts, style), d)
    ensures OrTrees(lib, OrTailOf(parts, style)) == Meanings(parts)
    decreases parts, 0
  {
    WordTokens(lib);
    if parts != [] {
      ItemOfFits(lib, parts[0], style, d);
      OrTailOfFits(lib, parts[1..], style, d);
    }
  }

  // Parsing undoes printing, and consumes every token, with and without `and` words.
  lemma PrintedParses(lib: Library, q: Shape, style: Style)
    requires FoldsWords(lib) && Writes(lib, style) && Canonical(lib, q) && Depth(q) <= 32
    ensures var ts := OrTokens(Printed(q, style)); Parse(lib, ts) == Done(Meaning(q), |ts|)
  {
    var c := Printed(q, style);
    if q.AnyOf? {
      OrOfFits(lib, q.parts, style, 0);
    } else {
      ItemOfFits(lib, q, style, 0);
      OneItem(lib, ItemOf(q, style));
    }
    assert OrFits(lib, c, 0) && OrTree(lib, c) == Meaning(q);
    ParserIsGrammar(lib, OrTokens(c), Meaning(q));
  }
}
