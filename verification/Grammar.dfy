/** The infix language the calculator is for, as an independent reference for the shunting-yard loop. */
module Grammar {
  import opened Wrappers
  import opened Numbers
  import opened Stackx
  import opened Types
  import opened Tokenizer
  import opened Validation
  import opened ShuntingYard

  /**
   Four left-associative operators on two levels, brackets anywhere, also redundant ones:

     Expr   = Expr ("+" | "-") Term | Term
     Term   = Term ("*" | "/") Factor | Factor
     Factor = literal | "(" Expr ")"
   */
  datatype Infix =
    | Literal(text: string)
    | Bracketed(inner: Infix)
    | Binary(left: Infix, op: string, right: Infix)

  /** The level of an operator: 1 in Expr, 2 in Term, 0 for anything else. */
  function OperatorLevel(op: string): nat {
    if op == "+" || op == "-" then 1 else if op == "*" || op == "/" then 2 else 0
  }

  /** 1 for an Expr that is not a Term, 2 for a Term that is not a Factor, 3 for a Factor. */
  function Level(e: Infix): nat {
    if e.Binary? then OperatorLevel(e.op) else 3
  }

  /** e is a derivation of the grammar, and its literals are numbers. */
  predicate WellFormed(e: Infix) {
    match e
    case Literal(text) => IsLiteral(text) && ParseFloat(text).Some?
    case Bracketed(inner) => WellFormed(inner)
    case Binary(l, op, r) =>
      && (if op == "+" || op == "-" then Level(l) >= 1 && Level(r) >= 2
          else (op == "*" || op == "/") && Level(l) >= 2 && Level(r) >= 3)
      && WellFormed(l) && WellFormed(r)
  }

  /** The calculator has the operators of the grammar, with its levels for precedences. */
  lemma LevelsArePrecedences(op: string)
    ensures IsOp(op) <==> OperatorLevel(op) > 0
    ensures Precedence(op) == OperatorLevel(op)
  {
  }

  function Tokens(e: Infix): seq<Token>
    requires WellFormed(e)
  {
    match e
    case Literal(text) => [Number(ParseFloat(text).value)]
    case Bracketed(inner) => [LEFT_BRACKET] + Tokens(inner) + [RIGHT_BRACKET]
    case Binary(l, op, r) => Tokens(l) + [Symbol(op)] + Tokens(r)
  }

  /** The abstract tree of a derivation: brackets are gone. */
  function Abstract(e: Infix): Tree
    requires WellFormed(e)
  {
    match e
    case Literal(text) => Leaf(Number(ParseFloat(text).value))
    case Bracketed(inner) => Abstract(inner)
    case Binary(l, op, r) => Node(op, Abstract(l), Abstract(r))
  }

  lemma AbstractIsFormula(e: Infix)
    requires WellFormed(e)
    ensures IsFormula(Abstract(e)) && Numeric(Abstract(e))
  {
    if e.Binary? {
      LevelsArePrecedences(e.op);
    }
  }

  function Reverse(s: seq<Token>): seq<Token> {
    if s == [] then [] else [Top(s)] + Reverse(Below(s))
  }

  lemma {:induction false} ReverseOfCons(t: Token, s: seq<Token>)
    ensures Reverse([t] + s) == Reverse(s) + [t]
    decreases |s|
  {
    if s == [] {
      assert Below([t] + s) == [];
    } else {
      assert Below([t] + s) == [t] + Below(s);
      ReverseOfCons(t, Below(s));
    }
  }

  /** Nothing below this point of the stack moves to the output. */
  predicate Stops(base: seq<Token>, moves: Token -> bool) {
    base == [] || !moves(Top(base))
  }

  /** Draining pops exactly the suffix of movable operators, in reverse. */
  lemma {:induction false} DrainSuffix(base: seq<Token>, ops: seq<Token>, rpn: seq<Token>, moves: Token -> bool)
    requires Stops(base, moves)
    requires forall t :: t in ops ==> moves(t)
    ensures Drain(Yard(base + ops, rpn), moves) == Yard(base, rpn + Reverse(ops))
    decreases |ops|
  {
    if ops == [] {
      assert base + ops == base && rpn + Reverse(ops) == rpn;
    } else {
      assert Below(base + ops) == base + Below(ops);
      DrainSuffix(base, Below(ops), rpn + [Top(ops)], moves);
      assert rpn + Reverse(ops) == (rpn + [Top(ops)]) + Reverse(Below(ops));
    }
  }

  lemma {:induction false} ShiftAllConcat(y: Yard, a: seq<Token>, b: seq<Token>)
    ensures ShiftAll(y, a + b) == ShiftAll(ShiftAll(y, a), b)
    decreases |a|
  {
    if a == [] {
      assert a + b == b;
    } else {
      assert (a + b)[1..] == a[1..] + b;
      ShiftAllConcat(Shift(y, a[0]), a[1..], b);
    }
  }

  lemma ShiftOne(y: Yard, t: Token)
    ensures ShiftAll(y, [t]) == Shift(y, t)
  {
    assert [t][1..] == [];
  }

  predicate Pending(ops: seq<Token>, level: nat) {
    forall t :: t in ops ==> t.Symbol? && IsOp(t.text) && Precedence(t.text) >= level
  }

  /** What reading `tokens` did: `out` was written, `ops` of at least `level` were left on the stack. */
  predicate Reads(y: Yard, tokens: seq<Token>, out: seq<Token>, ops: seq<Token>, level: nat) {
    && ShiftAll(y, tokens) == Yard(y.ops + ops, y.rpn + out)
    && Pending(ops, level)
  }

  lemma {:induction false} ReadBracketed(y: Yard, inner: seq<Token>, out: seq<Token>, ops: seq<Token>)
    requires Reads(Yard(y.ops + [LEFT_BRACKET], y.rpn), inner, out, ops, 0)
    ensures ShiftAll(y, [LEFT_BRACKET] + inner + [RIGHT_BRACKET]) == Yard(y.ops, y.rpn + (out + Reverse(ops)))
  {
    var start := Yard(y.ops + [LEFT_BRACKET], y.rpn);
    ShiftAllConcat(y, [LEFT_BRACKET] + inner, [RIGHT_BRACKET]);
    ShiftAllConcat(y, [LEFT_BRACKET], inner);
    ShiftOne(y, LEFT_BRACKET);
    ShiftOne(ShiftAll(start, inner), RIGHT_BRACKET);
    DrainSuffix(start.ops, ops, y.rpn + out, NotLeftBracket());
    assert Below(start.ops) == y.ops;
    Assoc(y.rpn, out, Reverse(ops));
  }

  lemma ReadOperator(y: Yard, left: seq<Token>, out: seq<Token>, ops: seq<Token>, op: string)
    requires IsOp(op) && Reads(y, left, out, ops, Precedence(op))
    requires Stops(y.ops, NotBelow(op))
    ensures ShiftAll(y, left + [Symbol(op)]) == Yard(y.ops + [Symbol(op)], y.rpn + (out + Reverse(ops)))
  {
    ShiftAllConcat(y, left, [Symbol(op)]);
    ShiftOne(ShiftAll(y, left), Symbol(op));
    DrainSuffix(y.ops, ops, y.rpn + out, NotBelow(op));
    Assoc(y.rpn, out, Reverse(ops));
  }

  lemma {:induction false} ReadBinary(
    y: Yard, head: seq<Token>, right: seq<Token>, out1: seq<Token>, op: string, out2: seq<Token>, ops2: seq<Token>)
    requires IsOp(op) && ShiftAll(y, head) == Yard(y.ops + [Symbol(op)], y.rpn + out1)
    requires Reads(Yard(y.ops + [Symbol(op)], y.rpn + out1), right, out2, ops2, Precedence(op))
    ensures Reads(y, head + right, out1 + out2, [Symbol(op)] + ops2, Precedence(op))
  {
    ShiftAllConcat(y, head, right);
    Assoc(y.ops, [Symbol(op)], ops2);
    Assoc(y.rpn, out1, out2);
  }

  /**
   Reading a derivation of some level from any state whose stack top binds weaker: the derivation's
   postorder comes out, except for a few operators of at least that level left on the stack.
   */
  lemma {:induction false} ReadDerivation(e: Infix, y: Yard) returns (out: seq<Token>, ops: seq<Token>)
    requires WellFormed(e)
    requires y.ops == [] || Precedence(SymbolOf(Top(y.ops))) < Level(e)
    ensures Reads(y, Tokens(e), out, ops, Level(e))
    ensures out + Reverse(ops) == Postorder(Abstract(e))
    decreases e
  {
    match e
    case Literal(text) =>
      out, ops := Tokens(e), [];
      ShiftOne(y, out[0]);
      assert y.ops + ops == y.ops && out + Reverse(ops) == out;
    case Bracketed(inner) =>
      var out1, ops1 := ReadDerivation(inner, Yard(y.ops + [LEFT_BRACKET], y.rpn));
      ReadBracketed(y, Tokens(inner), out1, ops1);
      out, ops := out1 + Reverse(ops1), [];
      assert y.ops + ops == y.ops && out + Reverse(ops) == out;
    case Binary(l, op, r) =>
      LevelsArePrecedences(op);
      var out1, ops1 := ReadDerivation(l, y);
      ReadOperator(y, Tokens(l), out1, ops1, op);
      out1 := out1 + Reverse(ops1);
      var out2, ops2 := ReadDerivation(r, Yard(y.ops + [Symbol(op)], y.rpn + out1));
      ReadBinary(y, Tokens(l) + [Symbol(op)], Tokens(r), out1, op, out2, ops2);
      out, ops := out1 + out2, [Symbol(op)] + ops2;
      ReverseOfCons(Symbol(op), ops2);
      Assoc(out2, Reverse(ops2), [Symbol(op)]);
      Assoc(out1, out2, Reverse(ops));
      Assoc(out1, out2 + Reverse(ops2), [Symbol(op)]);
  }

  /** toRPN turns the tokens of every derivation into the postorder of its tree, and accepts it. */
  lemma ShuntingYardIsCorrect(e: Infix)
    requires WellFormed(e)
    ensures Convert(Tokens(e)) == Postorder(Abstract(e))
    ensures Accepts(Convert(Tokens(e))) && FormulaOf(Convert(Tokens(e))) == Abstract(e)
  {
    var out, ops := ReadDerivation(e, EMPTY_YARD);
    assert [] + ops == ops && [] + out == out;
    DrainSuffix([], ops, out, Anything());
    AbstractIsFormula(e);
    PostorderIsAccepted(Abstract(e));
  }

  /** The given numerals denote the numbers at the leaves of `t`. */
  predicate Spells(numeral: Num -> string, t: Tree) {
    match t
    case Leaf(Number(n)) => IsLiteral(numeral(n)) && ParseFloat(numeral(n)) == Some(n)
    case Leaf(Symbol(_)) => false
    case Node(_, l, r) => Spells(numeral, l) && Spells(numeral, r)
  }

  /** The derivation of `t` with only the brackets the grammar forces, for an operand of `level`. */
  function Print(t: Tree, level: nat, numeral: Num -> string): (e: Infix)
    requires IsFormula(t) && Spells(numeral, t)
    requires level <= 3
    ensures WellFormed(e) && Level(e) >= level && Abstract(e) == t
    decreases t, level
  {
    match t
    case Leaf(token) => Literal(numeral(token.value))
    case Node(op, l, r) =>
      LevelsArePrecedences(op);
      if OperatorLevel(op) < level then Bracketed(Print(t, 0, numeral))
      else Binary(Print(l, OperatorLevel(op), numeral), op, Print(r, OperatorLevel(op) + 1, numeral))
  }

  function Brackets(e: Infix): nat {
    match e
    case Literal(_) => 0
    case Bracketed(inner) => 1 + Brackets(inner)
    case Binary(l, _, r) => Brackets(l) + Brackets(r)
  }

  /** No derivation of a tree has fewer brackets than its printed form. */
  lemma {:induction false} PrintIsMinimal(e: Infix, level: nat, numeral: Num -> string)
    requires WellFormed(e) && Level(e) >= level && level <= 3
    requires IsFormula(Abstract(e)) && Spells(numeral, Abstract(e))
    ensures Brackets(Print(Abstract(e), level, numeral)) <= Brackets(e)
  {
    match e
    case Literal(_) =>
    case Bracketed(inner) =>
      PrintIsMinimal(inner, 0, numeral);
    case Binary(l, op, r) =>
      LevelsArePrecedences(op);
      PrintIsMinimal(l, OperatorLevel(op), numeral);
      PrintIsMinimal(r, OperatorLevel(op) + 1, numeral);
  }

  /** The lexemes of a derivation, to be written with any blanks between (or inside) them. */
  function Lexemes(e: Infix): seq<Lexeme>
    requires WellFormed(e)
  {
    match e
    case Literal(text) => [Numeral(text)]
    case Bracketed(inner) => [Sign('(')] + Lexemes(inner) + [Sign(')')]
    case Binary(l, op, r) => Lexemes(l) + [Sign(op[0])] + Lexemes(r)
  }

  lemma {:induction false} DenoteConcat(a: seq<Lexeme>, b: seq<Lexeme>)
    requires Denote(a).Some? && Denote(b).Some?
    ensures Denote(a + b) == Some(Denote(a).value + Denote(b).value)
    decreases |a|
  {
    if a == [] {
      assert a + b == b && [] + Denote(b).value == Denote(b).value;
    } else {
      assert (a + b)[1..] == a[1..] + b;
      DenoteConcat(a[1..], b);
      var front := match a[0] case Sign(c) => [Symbol([c])] case Numeral(text) => [Number(ParseFloat(text).value)];
      PrependTwice(front, Denote(a[1..]).value, Denote(b));
    }
  }

  lemma DenoteSign(c: char)
    ensures Denote([Sign(c)]) == Some([Symbol([c])])
  {
    assert [Sign(c)][1..] == [];
  }

  lemma LexingConcat(a: seq<Lexeme>, c: char, b: seq<Lexeme>)
    requires IsLexing(a) && IsLexeme(Sign(c)) && IsLexing(b)
    ensures IsLexing(a + [Sign(c)]) && IsLexing([Sign(c)] + b) && IsLexing(a + [Sign(c)] + b)
  {
  }

  lemma {:induction false} LexemesDenoteTokens(e: Infix)
    requires WellFormed(e)
    ensures IsLexing(Lexemes(e)) && Lexemes(e) != []
    ensures Denote(Lexemes(e)) == Some(Tokens(e))
  {
    match e
    case Literal(text) =>
      LiteralIsNumeral(text);
    case Bracketed(inner) =>
      LexemesDenoteTokens(inner);
      DenoteSign('(');
      DenoteSign(')');
      LexingConcat([], '(', Lexemes(inner));
      LexingConcat([Sign('(')] + Lexemes(inner), ')', []);
      DenoteConcat([Sign('(')], Lexemes(inner));
      DenoteConcat([Sign('(')] + Lexemes(inner), [Sign(')')]);
    case Binary(l, op, r) =>
      LexemesDenoteTokens(l);
      LexemesDenoteTokens(r);
      DenoteSign(op[0]);
      assert op == [op[0]];
      LexingConcat(Lexemes(l), op[0], Lexemes(r));
      DenoteConcat(Lexemes(l), [Sign(op[0])]);
      DenoteConcat(Lexemes(l) + [Sign(op[0])], Lexemes(r));
  }

  /** Writing a derivation with any blanks at all and tokenizing gives its tokens. */
  lemma TokenizeWritten(e: Infix, s: string)
    requires WellFormed(e) && Despace(s) == Text(Lexemes(e))
    ensures Lex(s, "") == Some(Tokens(e))
  {
    LexemesDenoteTokens(e);
    ExactTokens(s, Tokens(e));
  }
}
