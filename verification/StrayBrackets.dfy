/**
 What a closing bracket without partner does: Parse accepts it, and it acts as if a bracket had been
 opened at the very start.
 */
module StrayBrackets {
  import opened Wrappers
  import opened Numbers
  import opened Stackx
  import opened Types
  import opened Tokenizer
  import opened Validation
  import opened ShuntingYard
  import opened YardFacts
  import opened Grammar
  import opened Calculator
  import opened Soundness

  /** The token list of an expression followed by one more ")" is that of no expression. */
  lemma StrayClosing(x: Infix)
    requires WellFormed(x)
    ensures var tokens := Tokens(x) + [RIGHT_BRACKET];
            && Accepts(Convert(tokens)) && FormulaOf(Convert(tokens)) == Abstract(x)
            && (forall e: Infix | WellFormed(e) :: Tokens(e) != tokens)
  {
    var tokens := Tokens(x) + [RIGHT_BRACKET];
    var out, ops := ReadDerivation(x, EMPTY_YARD);
    assert Reached(Tokens(x)).ops == ops;
    StrayClosingIsIgnored(Tokens(x));
    ShuntingYardIsCorrect(x);
    DerivationIsSentence(x);
    NetConcat(Tokens(x), [RIGHT_BRACKET]);
    NetOne(RIGHT_BRACKET);
    assert LEFT_BRACKET.text[0] != RIGHT_BRACKET.text[0];
    forall e: Infix | WellFormed(e)
      ensures Tokens(e) != tokens
    {
      DerivationIsSentence(e);
    }
  }

  lemma TokenizeStrayClosing(x: Infix, s: string)
    requires WellFormed(x) && Despace(s) == Text(Lexemes(x)) + ")"
    ensures Lex(s, "") == Some(Tokens(x) + [RIGHT_BRACKET])
  {
    var ls := Lexemes(x) + [Sign(')')];
    LexemesDenoteTokens(x);
    LexingConcat(Lexemes(x), ')', []);
    DenoteSign(')');
    DenoteConcat(Lexemes(x), [Sign(')')]);
    TextConcat(Lexemes(x), [Sign(')')]);
    assert [Sign(')')][1..] == [];
    ExactTokens(s, Tokens(x) + [RIGHT_BRACKET]);
  }

  /**
   Parse accepts more than infix expressions: the text of any expression followed by one more ")",
   with any blanks, is accepted with the value of the expression, and reads as no expression.
   */
  lemma {:induction false} AcceptsMoreThanInfix(x: Infix, s: string)
    requires WellFormed(x) && Despace(s) == Text(Lexemes(x)) + ")"
    ensures Parsed(s) == Some(Postorder(Abstract(x))) && Meaning(s) == Eval(Abstract(x))
    ensures forall e: Infix | WellFormed(e) :: Lex(s, "") != Some(Tokens(e))
  {
    TokenizeStrayClosing(x, s);
    StrayClosing(x);
  }

  // ---- A closing bracket without partner brackets everything before it ----

  /** Draining over one more opening bracket at the bottom, which does not move. */
  lemma {:induction false} DrainUnder(y: Yard, moves: Token -> bool)
    requires !moves(LEFT_BRACKET)
    ensures Drain(Yard([LEFT_BRACKET] + y.ops, y.rpn), moves)
         == Yard([LEFT_BRACKET] + Drain(y, moves).ops, Drain(y, moves).rpn)
    decreases |y.ops|
  {
    var under := [LEFT_BRACKET] + y.ops;
    if y.ops != [] {
      assert Top(under) == Top(y.ops) && Below(under) == [LEFT_BRACKET] + Below(y.ops);
      if moves(Top(y.ops)) {
        DrainUnder(Yard(Below(y.ops), y.rpn + [Top(y.ops)]), moves);
      }
    } else {
      assert Top(under) == LEFT_BRACKET;
    }
  }

  lemma ShiftUnder(y: Yard, t: Token)
    requires t.Number? || IsOp(t.text) || IsBracket(t)
    requires t == RIGHT_BRACKET ==> LEFT_BRACKET in y.ops
    ensures Shift(Yard([LEFT_BRACKET] + y.ops, y.rpn), t)
         == Yard([LEFT_BRACKET] + Shift(y, t).ops, Shift(y, t).rpn)
  {
    if t == RIGHT_BRACKET {
      DrainUnder(y, NotLeftBracket());
      DrainMoves(y, NotLeftBracket());
      var d := Drain(y, NotLeftBracket());
      assert d.ops != [];
      assert Below([LEFT_BRACKET] + d.ops) == [LEFT_BRACKET] + Below(d.ops);
    } else if t == LEFT_BRACKET {
      Assoc([LEFT_BRACKET], y.ops, [t]);
    } else if t.Symbol? {
      OperatorsAreNoBrackets(t);
      DrainUnder(y, NotBelow(t.text));
      Assoc([LEFT_BRACKET], Drain(y, NotBelow(t.text)).ops, [t]);
    }
  }

  lemma NeverNegativeBelow(ts: seq<Token>)
    requires NeverNegative(ts) && ts != []
    ensures NeverNegative(Below(ts)) && Net(ts) >= 0 && Net(Below(ts)) >= 0
  {
    forall k | 0 <= k <= |Below(ts)|
      ensures Open(Below(ts), k, 0)
    {
      assert Open(ts, k, 0) && Below(ts)[..k] == ts[..k];
    }
    assert Open(ts, |ts|, 0) && ts[..|ts|] == ts;
    assert Open(ts, |ts| - 1, 0);
  }

  /** As many opening brackets are stacked as are open. */
  lemma OpenAreStacked(ts: seq<Token>)
    requires Known(ts) && NeverNegative(ts)
    ensures Count(LEFT_BRACKET, Reached(ts).ops) == Net(ts)
  {
    ReachedConserves(LEFT_BRACKET, ts);
    UnclosedIsNet(ts);
    assert Count(LEFT_BRACKET, Reached(ts).rpn) == 0;
  }

  /** Reading such tokens over an opening bracket leaves it at the bottom. */
  lemma {:induction false} ReadUnder(ts: seq<Token>)
    requires Known(ts) && NeverNegative(ts)
    ensures ShiftAll(Yard([LEFT_BRACKET], []), ts) == Yard([LEFT_BRACKET] + Reached(ts).ops, Reached(ts).rpn)
    decreases |ts|
  {
    if ts != [] {
      var before, t := Below(ts), Top(ts);
      NeverNegativeBelow(ts);
      assert Known(before) && t in ts by {
        assert forall u :: u in before ==> u in ts;
      }
      ReadUnder(before);
      ShiftAllLast(Yard([LEFT_BRACKET], []), ts);
      ShiftAllLast(EMPTY_YARD, ts);
      OpenAreStacked(before);
      NetPop(ts);
      assert LEFT_BRACKET.text[0] != RIGHT_BRACKET.text[0];
      ShiftUnder(Reached(before), t);
    }
  }

  /** After balanced tokens, a closing bracket leaves the same state with or without a partner in front. */
  lemma ClosedEitherWay(a: seq<Token>)
    requires Known(a) && Balanced(a)
    ensures Shift(Reached(a), RIGHT_BRACKET)
         == Shift(Yard([LEFT_BRACKET] + Reached(a).ops, Reached(a).rpn), RIGHT_BRACKET)
  {
    var y := Reached(a);
    OpenAreStacked(a);
    assert LEFT_BRACKET !in y.ops;
    DrainWithoutBrackets(y);
    DrainUnder(y, NotLeftBracket());
    assert [LEFT_BRACKET] + [] == [LEFT_BRACKET] && Below([LEFT_BRACKET]) == [];
  }

  /**
   A closing bracket without partner is not ignored: whatever follows, it puts everything before it
   in brackets.
   */
  lemma {:induction false} StrayClosingRegroups(a: seq<Token>, b: seq<Token>)
    requires Known(a) && Balanced(a)
    ensures Convert(a + [RIGHT_BRACKET] + b) == Convert([LEFT_BRACKET] + a + [RIGHT_BRACKET] + b)
  {
    var start := Yard([LEFT_BRACKET], []);
    ShiftAllConcat(EMPTY_YARD, a + [RIGHT_BRACKET], b);
    ShiftAllConcat(EMPTY_YARD, a, [RIGHT_BRACKET]);
    ShiftOne(Reached(a), RIGHT_BRACKET);
    ShiftAllConcat(EMPTY_YARD, [LEFT_BRACKET] + a + [RIGHT_BRACKET], b);
    ShiftAllConcat(EMPTY_YARD, [LEFT_BRACKET] + a, [RIGHT_BRACKET]);
    ShiftAllConcat(EMPTY_YARD, [LEFT_BRACKET], a);
    ShiftOne(EMPTY_YARD, LEFT_BRACKET);
    assert Shift(EMPTY_YARD, LEFT_BRACKET) == start;
    ReadUnder(a);
    ShiftOne(ShiftAll(start, a), RIGHT_BRACKET);
    ClosedEitherWay(a);
  }

  /**
   Of texts: after known tokens with balanced brackets, Parse takes a stray ")" for the end of a
   bracket opened at the very start. So "a+b)*c" is accepted and means "(a+b)*c".
   */
  lemma {:induction false} StrayClosingText(u: string, v: string)
    requires Lex(u, "").Some? && Known(Lex(u, "").value) && Balanced(Lex(u, "").value)
    ensures Parsed(u + ")" + v) == Parsed("(" + u + ")" + v)
  {
    LexAtSign(u, ')', v, "");
    LexAtSign("", '(', u + ")" + v, "");
    assert "" + "(" + (u + ")" + v) == "(" + u + ")" + v;
    if Lex(v, "").Some? {
      var a, b := Lex(u, "").value, Lex(v, "").value;
      assert [] + [LEFT_BRACKET] + (a + [RIGHT_BRACKET] + b) == [LEFT_BRACKET] + a + [RIGHT_BRACKET] + b;
      StrayClosingRegroups(a, b);
    }
  }
}
