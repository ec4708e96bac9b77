/** From the text a user sends to the verdict the user reads, over every run of the whole system. */
module EndToEnd {
  import opened Wrappers
  import opened Numbers
  import opened Types
  import opened Tokenizer
  import opened Validation
  import opened Grammar
  import opened Calculator
  import opened PlanMeaning
  import opened Models
  import opened Machine
  import opened Verdict
  import opened Service

  /** The goal of every stored expression is the tree of its own text. */
  ghost predicate GoalsFromTexts(r: Run) {
    forall e {:trigger e in Goals(r)} :: e in Last(r).store.expressions ==>
      && e in Goals(r)
      && Parsed(Last(r).store.expressions[e].expression).Some?
      && Goals(r)[e] == Goal(Parsed(Last(r).store.expressions[e].expression).value)
  }

  lemma {:induction false} TextsStay(r: Run)
    requires Machine.Valid(r) && UserRun(r)
    ensures GoalsFromTexts(r)
  {
    if r.Then? {
      TextsStay(r.before);
      var f := RunExplained(r.before);
      var f' := RunExplained(r);
      var s, s' := Last(r.before), r.now;
      forall e | e in s'.store.expressions
        ensures e in Goals(r) && Parsed(s'.store.expressions[e].expression).Some?
        ensures Goals(r)[e] == Goal(Parsed(s'.store.expressions[e].expression).value)
      {
        if e in s.store.expressions {
          assert e in Goals(r.before);
          StepKeepsExpression(f, s, r.action, s', e);
        } else {
          NewExpression(f, s, r.action, s', e);
        }
      }
    }
  }

  /**
   The verdict of every expression, in every run, is the value of its text: Completed holds exactly
   that value, Failed means that there is none. It holds for every text Parse accepts.
   */
  lemma {:induction false} VerdictIsMeaning(r: Run, e: string)
    requires Machine.Valid(r) && UserRun(r) && e in Last(r).store.expressions
    ensures var row := Last(r).store.expressions[e];
            && Parsed(row.expression).Some?
            && (row.status == ExprCompleted ==> row.result == Meaning(row.expression) && row.result.Some?)
            && (row.status == ExprFailed ==> row.result == None && Meaning(row.expression) == None)
            && (row.status != ExprCompleted && row.status != ExprFailed ==>
                  row.status == ExprPending && row.result == None)
  {
    TextsStay(r);
    assert e in Goals(r);
    VerdictIsValue(r, e);
    GoalKeepsMeaning(Parsed(Last(r).store.expressions[e].expression).value);
  }

  /** A run at rest has the right verdict on every expression. */
  lemma {:induction false} RestIsRight(r: Run, e: string)
    requires Machine.Valid(r) && UserRun(r) && Quiescent(Last(r)) && e in Last(r).store.expressions
    ensures var row := Last(r).store.expressions[e];
            && Parsed(row.expression).Some?
            && row.result == Meaning(row.expression)
            && row.status == (if Meaning(row.expression).Some? then ExprCompleted else ExprFailed)
  {
    QuiescentIsDecided(r, e);
    VerdictIsMeaning(r, e);
  }

  /** A text that writes a derivation of the grammar, with any blanks, means what its tree means. */
  lemma WrittenMeaning(x: Infix, text: string)
    requires WellFormed(x) && Despace(text) == Text(Lexemes(x))
    ensures Parsed(text) == Some(Postorder(Abstract(x)))
    ensures Meaning(text) == Eval(Abstract(x))
  {
    TokenizeWritten(x, text);
    ShuntingYardIsCorrect(x);
  }

  /**
   Printing any tree with minimal brackets and any blanks, then parsing, gives back the tree, as its
   postorder.
   */
  lemma TextRoundTrip(t: Tree, numeral: Num -> string, text: string)
    requires IsFormula(t) && Spells(numeral, t)
    requires Despace(text) == Text(Lexemes(Print(t, 0, numeral)))
    ensures Parsed(text) == Some(Postorder(t)) && FormulaOf(Parsed(text).value) == t
  {
    WrittenMeaning(Print(t, 0, numeral), text);
    PostorderIsAccepted(t);
  }

  /**
   End to end: for every infix expression, written with any blanks, in every run of the system, a
   Completed row holds the value of the expression's tree and a Failed row means that it has none.
   */
  lemma {:induction false} InfixVerdict(r: Run, e: string, x: Infix)
    requires Machine.Valid(r) && UserRun(r) && e in Last(r).store.expressions
    requires WellFormed(x) && Despace(Last(r).store.expressions[e].expression) == Text(Lexemes(x))
    ensures var row := Last(r).store.expressions[e];
            match row.status
            case ExprCompleted => row.result.Some? && row.result == Eval(Abstract(x))
            case ExprFailed => row.result == None && Eval(Abstract(x)) == None
            case ExprPending => row.result == None
            case ExprInProgress => false
  {
    VerdictIsMeaning(r, e);
    WrittenMeaning(x, Last(r).store.expressions[e].expression);
  }

  /** A text that writes a division by zero anywhere is never Completed; at rest it has Failed. */
  lemma {:induction false} WrittenDivisionByZero(r: Run, e: string, x: Infix, left: Tree, right: Tree)
    requires Machine.Valid(r) && UserRun(r) && e in Last(r).store.expressions
    requires WellFormed(x) && Despace(Last(r).store.expressions[e].expression) == Text(Lexemes(x))
    requires Subtree(Node("/", left, right), Abstract(x)) && Eval(right).Some? && IsZero(Eval(right).value)
    ensures Last(r).store.expressions[e].status != ExprCompleted
    ensures Quiescent(Last(r)) ==> Last(r).store.expressions[e].status == ExprFailed
  {
    if Eval(left).Some? {
      OperatorTable("/", Eval(left).value, Eval(right).value);
    }
    EvalIsStrict(Node("/", left, right), Abstract(x));
    InfixVerdict(r, e, x);
    if Quiescent(Last(r)) {
      RestIsRight(r, e);
      WrittenMeaning(x, Last(r).store.expressions[e].expression);
    }
  }

  /** Any two runs that decide the same text decide it alike. */
  lemma {:induction false} VerdictsAgree(r: Run, e: string, q: Run, d: string)
    requires Machine.Valid(r) && UserRun(r) && e in Last(r).store.expressions
    requires Machine.Valid(q) && UserRun(q) && d in Last(q).store.expressions
    requires Last(r).store.expressions[e].expression == Last(q).store.expressions[d].expression
    requires Decided(Last(r).store.expressions[e]) && Decided(Last(q).store.expressions[d])
    ensures Last(r).store.expressions[e].status == Last(q).store.expressions[d].status
    ensures Last(r).store.expressions[e].result == Last(q).store.expressions[d].result
  {
    VerdictIsMeaning(r, e);
    VerdictIsMeaning(q, d);
  }
}
