/**
 What the conversion keeps on every input, well formed or not: the tokens, the order of the numbers,
 and a bound on the operator stack.
 */
module YardFacts {
  import opened Numbers
  import opened Stackx
  import opened Types
  import opened ShuntingYard

  predicate IsBracket(t: Token) {
    t == LEFT_BRACKET || t == RIGHT_BRACKET
  }

  /** Numbers, operators and brackets only. */
  predicate Known(tokens: seq<Token>) {
    forall t :: t in tokens ==> t.Number? || IsOp(t.text) || IsBracket(t)
  }

  function WithoutBrackets(tokens: seq<Token>): seq<Token> {
    if tokens == [] then []
    else WithoutBrackets(Below(tokens)) + if IsBracket(Top(tokens)) then [] else [Top(tokens)]
  }

  function NumbersOf(tokens: seq<Token>): seq<Token> {
    if tokens == [] then []
    else NumbersOf(Below(tokens)) + if Top(tokens).Number? then [Top(tokens)] else []
  }

  /** The opening brackets still open at the end; a closing bracket with nothing to close is ignored. */
  function Unclosed(tokens: seq<Token>): nat {
    if tokens == [] then 0
    else
      var n := Unclosed(Below(tokens));
      if Top(tokens) == LEFT_BRACKET then n + 1
      else if Top(tokens) == RIGHT_BRACKET && n > 0 then n - 1
      else n
  }

  function Reached(tokens: seq<Token>): Yard {
    ShiftAll(EMPTY_YARD, tokens)
  }

  lemma {:induction false} ShiftAllLast(y: Yard, tokens: seq<Token>)
    requires tokens != []
    ensures ShiftAll(y, tokens) == Shift(ShiftAll(y, Below(tokens)), Top(tokens))
    decreases |tokens|
  {
    if |tokens| > 1 {
      assert Below(tokens)[1..] == Below(tokens[1..]);
      ShiftAllLast(Shift(y, tokens[0]), tokens[1..]);
    } else {
      assert Below(tokens) == [] && tokens[1..] == [];
    }
  }

  /** Draining moves a suffix of the stack to the output and stops at the first token to stay. */
  lemma {:induction false} DrainMoves(y: Yard, moves: Token -> bool)
    ensures var d := Drain(y, moves);
            && d.ops <= y.ops
            && (forall i :: |d.ops| <= i < |y.ops| ==> moves(y.ops[i]))
            && (d.ops != [] ==> !moves(Top(d.ops)))
            && (forall t :: t in d.rpn ==> t in y.rpn || (t in y.ops && moves(t)))
            && |d.ops| + |d.rpn| == |y.ops| + |y.rpn|
    decreases |y.ops|
  {
    if y.ops != [] && moves(Top(y.ops)) {
      assert y.ops == Below(y.ops) + [Top(y.ops)];
      DrainMoves(Yard(Below(y.ops), y.rpn + [Top(y.ops)]), moves);
    }
  }

  lemma {:induction false} DrainKeepsNumbers(y: Yard, moves: Token -> bool)
    requires forall t :: t in y.ops ==> t.Symbol?
    ensures NumbersOf(Drain(y, moves).rpn) == NumbersOf(y.rpn)
    decreases |y.ops|
  {
    if y.ops != [] && moves(Top(y.ops)) {
      var next := Yard(Below(y.ops), y.rpn + [Top(y.ops)]);
      assert Below(next.rpn) == y.rpn && Top(y.ops) in y.ops;
      assert NumbersOf(y.rpn) + [] == NumbersOf(y.rpn);
      DrainKeepsNumbers(next, moves);
    }
  }

  lemma ShiftKeepsNumbers(y: Yard, t: Token)
    requires forall u :: u in y.ops ==> u.Symbol?
    ensures forall u :: u in Shift(y, t).ops ==> u.Symbol?
    ensures NumbersOf(Shift(y, t).rpn) == NumbersOf(y.rpn) + if t.Number? then [t] else []
  {
    assert NumbersOf(y.rpn) + [] == NumbersOf(y.rpn);
    if t.Number? {
      assert Below(y.rpn + [t]) == y.rpn;
    } else if t.text == "(" {
    } else if t.text == ")" {
      DrainMoves(y, NotLeftBracket());
      DrainKeepsNumbers(y, NotLeftBracket());
    } else {
      DrainMoves(y, NotBelow(t.text));
      DrainKeepsNumbers(y, NotBelow(t.text));
    }
  }

  /** On every token list the numbers come out in source order, and only symbols are ever stacked. */
  lemma {:induction false} NumbersKeepOrder(tokens: seq<Token>)
    ensures forall t :: t in Reached(tokens).ops ==> t.Symbol?
    ensures NumbersOf(Reached(tokens).rpn) == NumbersOf(tokens)
    ensures NumbersOf(Convert(tokens)) == NumbersOf(tokens)
    decreases |tokens|
  {
    if tokens != [] {
      NumbersKeepOrder(Below(tokens));
      ShiftAllLast(EMPTY_YARD, tokens);
      ShiftKeepsNumbers(Reached(Below(tokens)), Top(tokens));
    }
    DrainKeepsNumbers(Reached(tokens), Anything());
  }

  function Count(x: Token, s: seq<Token>): nat {
    multiset(s)[x]
  }

  lemma CountPush(x: Token, s: seq<Token>, t: Token)
    ensures Count(x, s + [t]) == Count(x, s) + if t == x then 1 else 0
  {
  }

  lemma CountPop(x: Token, s: seq<Token>)
    requires s != []
    ensures Count(x, s) == Count(x, Below(s)) + if Top(s) == x then 1 else 0
  {
    assert s == Below(s) + [Top(s)];
  }

  /** How often `x` must be on the stack or in the output once `tokens` have been read. */
  function Owed(x: Token, tokens: seq<Token>): nat {
    if x == LEFT_BRACKET then Unclosed(tokens) else Count(x, WithoutBrackets(tokens))
  }

  /** Nothing is lost or invented, and no opening bracket reaches the output. */
  predicate Conserved(x: Token, y: Yard, tokens: seq<Token>) {
    && LEFT_BRACKET !in y.rpn
    && Count(x, y.ops) + Count(x, y.rpn) == Owed(x, tokens)
  }

  lemma {:induction false} WithoutBracketsHasNone(tokens: seq<Token>)
    ensures forall t :: t in WithoutBrackets(tokens) ==> !IsBracket(t)
    decreases |tokens|
  {
    if tokens != [] {
      WithoutBracketsHasNone(Below(tokens));
    }
  }

  lemma OwedPush(x: Token, tokens: seq<Token>)
    requires tokens != []
    ensures !IsBracket(Top(tokens)) ==> Owed(x, tokens) == Owed(x, Below(tokens)) + if Top(tokens) == x then 1 else 0
    ensures IsBracket(Top(tokens)) && x != LEFT_BRACKET ==> Owed(x, tokens) == Owed(x, Below(tokens))
  {
    var before := WithoutBrackets(Below(tokens));
    assert before + [] == before;
    CountPush(x, before, Top(tokens));
  }

  lemma {:induction false} DrainCounts(x: Token, y: Yard, moves: Token -> bool)
    ensures var d := Drain(y, moves);
            Count(x, d.ops) + Count(x, d.rpn) == Count(x, y.ops) + Count(x, y.rpn)
    decreases |y.ops|
  {
    if y.ops != [] && moves(Top(y.ops)) {
      CountPop(x, y.ops);
      CountPush(x, y.rpn, Top(y.ops));
      DrainCounts(x, Yard(Below(y.ops), y.rpn + [Top(y.ops)]), moves);
    }
  }

  lemma DrainConserves(x: Token, y: Yard, moves: Token -> bool)
    requires LEFT_BRACKET !in y.rpn && !moves(LEFT_BRACKET)
    ensures var d := Drain(y, moves);
            && LEFT_BRACKET !in d.rpn
            && Count(x, d.ops) + Count(x, d.rpn) == Count(x, y.ops) + Count(x, y.rpn)
            && (d.ops != [] ==> !moves(Top(d.ops)))
  {
    DrainMoves(y, moves);
    DrainCounts(x, y, moves);
  }

  lemma CloseConserves(x: Token, y: Yard, tokens: seq<Token>)
    requires tokens != [] && Top(tokens) == RIGHT_BRACKET
    requires Conserved(x, y, Below(tokens)) && Conserved(LEFT_BRACKET, y, Below(tokens))
    ensures Conserved(x, Shift(y, RIGHT_BRACKET), tokens)
  {
    OwedPush(x, tokens);
    DrainConserves(x, y, NotLeftBracket());
    DrainConserves(LEFT_BRACKET, y, NotLeftBracket());
    var d := Drain(y, NotLeftBracket());
    assert Count(LEFT_BRACKET, d.rpn) == 0;
    if d.ops != [] {
      CountPop(x, d.ops);
      CountPop(LEFT_BRACKET, d.ops);
    }
  }

  lemma OperatorConserves(x: Token, y: Yard, op: string)
    requires IsOp(op) && LEFT_BRACKET !in y.rpn
    ensures var z := Shift(y, Symbol(op));
            && LEFT_BRACKET !in z.rpn
            && Count(x, z.ops) + Count(x, z.rpn) == Count(x, y.ops) + Count(x, y.rpn) + if x == Symbol(op) then 1 else 0
    ensures !IsBracket(Symbol(op))
  {
    assert op[0] != '(' && op[0] != ')';
    DrainConserves(x, y, NotBelow(op));
    CountPush(x, Drain(y, NotBelow(op)).ops, Symbol(op));
  }

  lemma ShiftConserves(x: Token, y: Yard, tokens: seq<Token>)
    requires tokens != [] && Known(tokens)
    requires Conserved(x, y, Below(tokens)) && Conserved(LEFT_BRACKET, y, Below(tokens))
    ensures Conserved(x, Shift(y, Top(tokens)), tokens)
  {
    var t := Top(tokens);
    assert t in tokens;
    OwedPush(x, tokens);
    if t.Number? {
      CountPush(x, y.rpn, t);
    } else if t == LEFT_BRACKET {
      CountPush(x, y.ops, t);
    } else if t == RIGHT_BRACKET {
      CloseConserves(x, y, tokens);
    } else {
      OperatorConserves(x, y, t.text);
    }
  }

  lemma {:induction false} ReachedConserves(x: Token, tokens: seq<Token>)
    requires Known(tokens)
    ensures Conserved(x, Reached(tokens), tokens)
    decreases |tokens|
  {
    if tokens != [] {
      assert forall t :: t in Below(tokens) ==> t in tokens;
      ReachedConserves(x, Below(tokens));
      ReachedConserves(LEFT_BRACKET, Below(tokens));
      ShiftAllLast(EMPTY_YARD, tokens);
      ShiftConserves(x, Reached(Below(tokens)), tokens);
    }
  }

  lemma OutputCounts(x: Token, tokens: seq<Token>)
    requires Known(tokens)
    ensures Count(x, Convert(tokens)) == Owed(x, tokens)
  {
    var y := Reached(tokens);
    ReachedConserves(x, tokens);
    DrainCounts(x, y, Anything());
    DrainMoves(y, Anything());
    assert Drain(y, Anything()).ops == [];
  }

  lemma BracketFree(tokens: seq<Token>)
    requires Known(tokens)
    ensures (forall t :: t in Convert(tokens) ==> !IsBracket(t)) <==> Unclosed(tokens) == 0
  {
    OutputCounts(LEFT_BRACKET, tokens);
    OutputCounts(RIGHT_BRACKET, tokens);
    WithoutBracketsHasNone(tokens);
    assert Count(LEFT_BRACKET, Convert(tokens)) == 0 <==> LEFT_BRACKET !in Convert(tokens);
    assert RIGHT_BRACKET !in WithoutBrackets(tokens) && RIGHT_BRACKET != LEFT_BRACKET by {
      assert RIGHT_BRACKET.text[0] != LEFT_BRACKET.text[0];
    }
    assert Count(RIGHT_BRACKET, Convert(tokens)) == 0;
  }

  /**
   Over numbers, operators and brackets the output is a permutation of the tokens that are not
   brackets, plus one "(" for each bracket left open; so it is free of brackets exactly when every
   opened bracket is closed.
   */
  lemma ConversionConserves(tokens: seq<Token>)
    requires Known(tokens)
    ensures multiset(Convert(tokens)) == multiset(WithoutBrackets(tokens))[LEFT_BRACKET := Unclosed(tokens)]
    ensures (forall t :: t in Convert(tokens) ==> !IsBracket(t)) <==> Unclosed(tokens) == 0
  {
    var out := Convert(tokens);
    forall x
      ensures multiset(out)[x] == Owed(x, tokens)
    {
      OutputCounts(x, tokens);
    }
    BracketFree(tokens);
  }

  /** Above an opening bracket, and at the bottom, precedences strictly increase. */
  predicate Increasing(ops: seq<Token>) {
    forall i :: 0 <= i < |ops| - 1 ==>
      ops[i + 1] == LEFT_BRACKET || Precedence(SymbolOf(ops[i])) < Precedence(SymbolOf(ops[i + 1]))
  }

  function Markers(ops: seq<Token>): nat {
    if ops == [] then 0 else Markers(Below(ops)) + if Top(ops) == LEFT_BRACKET then 1 else 0
  }

  lemma {:induction false} IncreasingIsShort(ops: seq<Token>)
    requires Increasing(ops)
    ensures |ops| <= 3 * Markers(ops) + if ops == [] then 0 else Precedence(SymbolOf(Top(ops))) + 1
    ensures Known(ops) && (forall t :: t in ops ==> t.Symbol? && t != RIGHT_BRACKET) ==>
              |ops| <= 3 * Markers(ops) + if ops == [] then 0 else Precedence(SymbolOf(Top(ops)))
    decreases |ops|
  {
    if |ops| > 1 {
      IncreasingIsShort(Below(ops));
      assert Top(Below(ops)) == ops[|ops| - 2] && Top(ops) in ops;
    } else if |ops| == 1 {
      assert Below(ops) == [] && Top(ops) in ops;
    }
  }

  lemma IncreasingPush(ops: seq<Token>, t: Token)
    requires Increasing(ops)
    requires ops == [] || t == LEFT_BRACKET || Precedence(SymbolOf(Top(ops))) < Precedence(SymbolOf(t))
    ensures Increasing(ops + [t])
  {
  }

  lemma DrainIncreases(y: Yard, moves: Token -> bool)
    requires Increasing(y.ops)
    ensures var d := Drain(y, moves);
            && Increasing(d.ops) && Increasing(BelowOrEmpty(d.ops))
            && (forall u :: u in d.ops ==> u in y.ops)
            && (d.ops != [] ==> !moves(Top(d.ops)))
            && |d.ops| + |d.rpn| == |y.ops| + |y.rpn|
  {
    DrainMoves(y, moves);
    assert Drain(y, moves).ops == y.ops[..|Drain(y, moves).ops|];
  }

  lemma ShiftIncreases(y: Yard, t: Token)
    requires Increasing(y.ops)
    ensures var z := Shift(y, t);
            && Increasing(z.ops)
            && (forall u :: u in z.ops ==> u in y.ops || (u == t && t != RIGHT_BRACKET))
            && |z.ops| + |z.rpn| <= |y.ops| + |y.rpn| + 1
  {
    if t == LEFT_BRACKET {
      IncreasingPush(y.ops, t);
    } else if t == RIGHT_BRACKET {
      DrainIncreases(y, NotLeftBracket());
    } else if t.Symbol? {
      DrainIncreases(y, NotBelow(t.text));
      IncreasingPush(Drain(y, NotBelow(t.text)).ops, t);
    }
  }

  lemma {:induction false} StackIncreases(tokens: seq<Token>)
    ensures Increasing(Reached(tokens).ops)
    ensures RIGHT_BRACKET !in Reached(tokens).ops
    ensures forall t :: t in Reached(tokens).ops ==> t in tokens
    ensures |Reached(tokens).ops| + |Reached(tokens).rpn| <= |tokens|
    decreases |tokens|
  {
    if tokens != [] {
      StackIncreases(Below(tokens));
      ShiftAllLast(EMPTY_YARD, tokens);
      ShiftIncreases(Reached(Below(tokens)), Top(tokens));
    }
  }

  /**
   The operator stack stays small on every input: with d brackets on it, at most 3d + 2 entries for
   numbers, operators and brackets, one more when unknown symbols occur.
   */
  lemma StackBound(tokens: seq<Token>)
    ensures |Reached(tokens).ops| <= 3 * Markers(Reached(tokens).ops) + 3
    ensures Known(tokens) ==> |Reached(tokens).ops| <= 3 * Markers(Reached(tokens).ops) + 2
    ensures |Convert(tokens)| <= |tokens|
  {
    StackIncreases(tokens);
    NumbersKeepOrder(tokens);
    var y := Reached(tokens);
    IncreasingIsShort(y.ops);
    DrainMoves(y, Anything());
  }

  lemma {:induction false} DrainWithoutBrackets(y: Yard)
    requires forall t :: t in y.ops ==> t != LEFT_BRACKET
    ensures Drain(y, NotLeftBracket()) == Drain(y, Anything()) && Drain(y, Anything()).ops == []
    decreases |y.ops|
  {
    if y.ops != [] {
      assert Top(y.ops) in y.ops && forall t :: t in Below(y.ops) ==> t in y.ops;
      DrainWithoutBrackets(Yard(Below(y.ops), y.rpn + [Top(y.ops)]));
    }
  }

  /** A closing bracket after the end of an expression changes nothing: it is not reported. */
  lemma StrayClosingIsIgnored(tokens: seq<Token>)
    requires LEFT_BRACKET !in Reached(tokens).ops
    ensures Convert(tokens + [RIGHT_BRACKET]) == Convert(tokens)
  {
    var more := tokens + [RIGHT_BRACKET];
    assert Below(more) == tokens;
    ShiftAllLast(EMPTY_YARD, more);
    DrainWithoutBrackets(Reached(tokens));
  }
}
