/** Parsing (calc.go, Parse): tokenize, then convert and validate. */
module Calculator {
  import opened Wrappers
  import opened Numbers
  import opened Types
  import opened Tokenizer
  import opened Validation
  import opened ShuntingYard

  /** What Parse returns, if it accepts. */
  function Parsed(s: string): (rpn: Option<seq<Token>>)
    ensures rpn.Some? ==> Accepts(rpn.value)
  {
    match Lex(s, "")
    case None => None
    case Some(tokens) => if Accepts(Convert(tokens)) then Some(Convert(tokens)) else None
  }

  /**
   Parse returns a list exactly when the text without blanks splits into numerals and signs whose
   tokens convert to that list, and the list is the postorder of a formula.
   */
  lemma {:induction false} ParsedExactly(s: string, rpn: seq<Token>)
    ensures Parsed(s) == Some(rpn)
       <==> && (exists t :: IsFormula(t) && Postorder(t) == rpn)
            && exists ls ::
                 && IsLexing(ls) && Text(ls) == Despace(s)
                 && Denote(ls).Some? && Convert(Denote(ls).value) == rpn
  {
    ExactAcceptance(rpn);
    if Lex(s, "").Some? {
      ExactTokens(s, Lex(s, "").value);
    }
    forall ls | IsLexing(ls) && Text(ls) == Despace(s) && Denote(ls).Some?
      ensures Lex(s, "") == Denote(ls)
    {
      ExactTokens(s, Denote(ls).value);
    }
  }

  method Parse(s: string) returns (result: Result<seq<Token>, string>)
    ensures result == match Parsed(s) { case Some(rpn) => Ok(rpn) case None => Err("invalid expression") }
  {
    var tokens := Tokenize(s);
    if tokens.Err? {
      return Err(tokens.error);
    }
    ghost var pops;
    result, pops := ToRPN(tokens.value);
  }

  /** The value of an input: that of the formula whose postorder Parse returns. */
  function Meaning(s: string): Option<Num>
    requires Parsed(s).Some?
  {
    Eval(FormulaOf(Parsed(s).value))
  }
}
