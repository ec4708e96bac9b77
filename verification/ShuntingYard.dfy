/**
 Conversion to Reverse Polish Notation (calc.go, toRPN): the loops over an operator stack, and the
 function they compute.
 */
module ShuntingYard {
  import opened Wrappers
  import opened Numbers
  import opened Stackx
  import opened Types
  import opened Validation

  /** The loop state of toRPN: the operator stack and the output so far. */
  datatype Yard = Yard(ops: seq<Token>, rpn: seq<Token>)

  const EMPTY_YARD := Yard([], [])

  /** Moves operators to the output for as long as the top of the stack satisfies `moves`. */
  function Drain(y: Yard, moves: Token -> bool): Yard
    decreases |y.ops|
  {
    if y.ops != [] && moves(Top(y.ops))
    then Drain(Yard(Below(y.ops), y.rpn + [Top(y.ops)]), moves)
    else y
  }

  function NotLeftBracket(): Token -> bool {
    t => SymbolOf(t) != "("
  }

  function NotBelow(op: string): Token -> bool {
    t => Precedence(SymbolOf(t)) >= Precedence(op)
  }

  function Anything(): Token -> bool {
    t => true
  }

  function Shift(y: Yard, t: Token): Yard {
    if t.Number? then
      Yard(y.ops, y.rpn + [t])
    else if t.text == "(" then
      Yard(y.ops + [t], y.rpn)
    else if t.text == ")" then
      var d := Drain(y, NotLeftBracket());
      Yard(BelowOrEmpty(d.ops), d.rpn)
    else
      var d := Drain(y, NotBelow(t.text));
      Yard(d.ops + [t], d.rpn)
  }

  function ShiftAll(y: Yard, tokens: seq<Token>): Yard
    decreases |tokens|
  {
    if tokens == [] then y else ShiftAll(Shift(y, tokens[0]), tokens[1..])
  }

  /** The list toRPN builds before validating it. */
  function Convert(tokens: seq<Token>): seq<Token> {
    Drain(ShiftAll(EMPTY_YARD, tokens), Anything()).rpn
  }

  /** The tokens toRPN pushes: all but numbers and closing brackets. */
  function Pushes(tokens: seq<Token>): (n: nat)
    ensures n <= |tokens|
  {
    if tokens == [] then 0
    else Pushes(Below(tokens)) + if Top(tokens).Number? || Top(tokens).text == ")" then 0 else 1
  }

  lemma PushesNext(tokens: seq<Token>, i: nat)
    requires i < |tokens|
    ensures Pushes(tokens[..i + 1])
         == Pushes(tokens[..i]) + if tokens[i].Number? || tokens[i].text == ")" then 0 else 1
  {
    assert Below(tokens[..i + 1]) == tokens[..i];
  }

  /** `pops` counts the pops of all the loops: every pushed token is popped once. */
  method ToRPN(tokens: seq<Token>) returns (result: Result<seq<Token>, string>, ghost pops: nat)
    ensures result == if Accepts(Convert(tokens)) then Ok(Convert(tokens)) else Err("invalid expression")
    ensures pops == Pushes(tokens) <= |tokens|
  {
    var rpn := [];
    pops := 0;
    var stack := new Stack<Token>(NO_TOKEN);
    for i := 0 to |tokens|
      invariant fresh(stack)
      invariant ShiftAll(Yard(stack.items, rpn), tokens[i..]) == ShiftAll(EMPTY_YARD, tokens)
      invariant pops + |stack.items| == Pushes(tokens[..i])
    {
      var t := tokens[i];
      ghost var y := Yard(stack.items, rpn);
      ghost var pushed := Pushes(tokens[..i]);
      assert tokens[i..][1..] == tokens[i + 1..];
      PushesNext(tokens, i);
      if t.Number? {
        rpn := rpn + [t];
      } else if t.text == "(" {
        stack.Push(t);
      } else if t.text == ")" {
        while stack.Size() > 0 && SymbolOf(stack.SafePeek()) != "("
          invariant Drain(Yard(stack.items, rpn), NotLeftBracket()) == Drain(y, NotLeftBracket())
          invariant pops + |stack.items| == pushed
          decreases |stack.items|
        {
          var op := stack.SafePop();
          rpn := rpn + [op];
          pops := pops + 1;
        }
        if stack.Size() > 0 {
          var _ := stack.SafePop();
          pops := pops + 1;
        }
      } else {
        while stack.Size() > 0 && Precedence(SymbolOf(stack.SafePeek())) >= Precedence(t.text)
          invariant Drain(Yard(stack.items, rpn), NotBelow(t.text)) == Drain(y, NotBelow(t.text))
          invariant pops + |stack.items| == pushed
          decreases |stack.items|
        {
          var op := stack.SafePop();
          rpn := rpn + [op];
          pops := pops + 1;
        }
        stack.Push(t);
      }
      assert Yard(stack.items, rpn) == Shift(y, t);
    }
    ghost var pushed := Pushes(tokens);
    assert tokens[..|tokens|] == tokens;
    while stack.Size() > 0
      invariant Drain(Yard(stack.items, rpn), Anything()).rpn == Convert(tokens)
      invariant pops + |stack.items| == pushed
      decreases |stack.items|
    {
      var op := stack.SafePop();
      rpn := rpn + [op];
      pops := pops + 1;
    }
    var ok := ValidateRPN(rpn);
    if !ok {
      return Err("invalid expression"), pops;
    }
    return Ok(rpn), pops;
  }
}
