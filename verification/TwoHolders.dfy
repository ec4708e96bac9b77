/**
 A run of the service in which two workers hold the same task: the text is (a+b)*c, for any literals,
 and the submission of the sum is repeated while a worker holds the product. So the exclusive-claims
 results do need single submission.
 */
module TwoHolders {
  import opened Wrappers
  import opened Numbers
  import opened Agent
  import opened Stackx
  import opened Types
  import opened Tokenizer
  import opened Grammar
  import opened Scheduler
  import Validation
  import opened Plans
  import opened PlanMeaning
  import opened Models
  import opened Repository
  import opened Machine
  import opened Service
  import EndToEnd

  // ---- The text and its plan ----

  predicate Denotes(literal: string, n: Num) {
    IsLiteral(literal) && ParseFloat(literal) == Some(n)
  }

  function ExampleText(la: string, lb: string, lc: string): string {
    "(" + la + "+" + lb + ")*" + lc
  }

  function Example(la: string, lb: string, lc: string): Infix {
    Binary(Bracketed(Binary(Literal(la), "+", Literal(lb))), "*", Literal(lc))
  }

  predicate Blankless(s: string) {
    forall i :: 0 <= i < |s| ==> s[i] != ' '
  }

  lemma {:induction false} DespaceBlankless(s: string)
    requires Blankless(s)
    ensures Despace(s) == s
    decreases |s|
  {
    if s != "" {
      DespaceBlankless(s[1..]);
      assert [s[0]] + s[1..] == s;
    }
  }

  lemma NumeralIsBlankless(literal: string)
    requires IsLiteral(literal)
    ensures Blankless(literal)
  {
    assert forall i :: 0 <= i < |literal| ==> literal[i] in literal;
  }

  lemma BlanklessConcat(s: string, t: string)
    requires Blankless(s) && Blankless(t)
    ensures Blankless(s + t)
  {
  }

  /** Two factors may be joined by any operator. */
  lemma FactorsJoin(left: Infix, op: string, right: Infix)
    requires WellFormed(left) && WellFormed(right) && OperatorLevel(op) > 0 && !left.Binary? && !right.Binary?
    ensures WellFormed(Binary(left, op, right))
    ensures Abstract(Binary(left, op, right)) == Node(op, Abstract(left), Abstract(right))
  {
  }

  lemma ExampleIsWellFormed(la: string, lb: string, lc: string, a: Num, b: Num, c: Num)
    requires Denotes(la, a) && Denotes(lb, b) && Denotes(lc, c)
    ensures WellFormed(Example(la, lb, lc)) && Abstract(Example(la, lb, lc)) == Product(a, b, c)
  {
    var sum := Binary(Literal(la), "+", Literal(lb));
    FactorsJoin(Literal(la), "+", Literal(lb));
    assert WellFormed(Bracketed(sum)) && Abstract(Bracketed(sum)) == Sum(a, b);
    FactorsJoin(Bracketed(sum), "*", Literal(lc));
  }

  lemma ExampleIsWritten(la: string, lb: string, lc: string, a: Num, b: Num, c: Num)
    requires Denotes(la, a) && Denotes(lb, b) && Denotes(lc, c)
    requires WellFormed(Example(la, lb, lc))
    ensures Despace(ExampleText(la, lb, lc)) == Text(Lexemes(Example(la, lb, lc)))
  {
    NumeralIsBlankless(la);
    NumeralIsBlankless(lb);
    NumeralIsBlankless(lc);
    BlanklessConcat("(", la);
    BlanklessConcat("(" + la, "+");
    BlanklessConcat("(" + la + "+", lb);
    BlanklessConcat("(" + la + "+" + lb, ")*");
    BlanklessConcat("(" + la + "+" + lb + ")*", lc);
    DespaceBlankless(ExampleText(la, lb, lc));
    ExampleLexemes(la, lb, lc);
  }

  lemma OneLexeme(l: Lexeme)
    ensures Text([l]) == match l { case Numeral(text) => text case Sign(c) => [c] }
  {
    assert [l][1..] == [];
  }

  function SumLexemes(la: string, lb: string): seq<Lexeme> {
    [Numeral(la)] + [Sign('+')] + [Numeral(lb)]
  }

  function ProductLexemes(la: string, lb: string, lc: string): seq<Lexeme> {
    [Sign('(')] + SumLexemes(la, lb) + [Sign(')')] + [Sign('*')] + [Numeral(lc)]
  }

  lemma TextOfSum(la: string, lb: string)
    ensures Text(SumLexemes(la, lb)) == la + "+" + lb
  {
    OneLexeme(Numeral(la));
    OneLexeme(Numeral(lb));
    OneLexeme(Sign('+'));
    TextConcat([Numeral(la)] + [Sign('+')], [Numeral(lb)]);
    TextConcat([Numeral(la)], [Sign('+')]);
  }

  lemma TextOfProduct(la: string, lb: string, lc: string)
    ensures Text(ProductLexemes(la, lb, lc)) == ExampleText(la, lb, lc)
  {
    var sum := SumLexemes(la, lb);
    TextOfSum(la, lb);
    OneLexeme(Numeral(lc));
    OneLexeme(Sign('('));
    OneLexeme(Sign(')'));
    OneLexeme(Sign('*'));
    TextConcat([Sign('(')] + sum + [Sign(')')] + [Sign('*')], [Numeral(lc)]);
    TextConcat([Sign('(')] + sum + [Sign(')')], [Sign('*')]);
    TextConcat([Sign('(')] + sum, [Sign(')')]);
    TextConcat([Sign('(')], sum);
    assert "(" + (la + "+" + lb) == "(" + la + "+" + lb;
  }

  lemma ExampleLexemes(la: string, lb: string, lc: string)
    requires WellFormed(Example(la, lb, lc))
    ensures Text(Lexemes(Example(la, lb, lc))) == ExampleText(la, lb, lc)
  {
    var sum := Binary(Literal(la), "+", Literal(lb));
    assert Example(la, lb, lc) == Binary(Bracketed(sum), "*", Literal(lc));
    assert WellFormed(Bracketed(sum)) && WellFormed(sum);
    assert Lexemes(sum) == SumLexemes(la, lb);
    assert Lexemes(Example(la, lb, lc)) == ProductLexemes(la, lb, lc);
    TextOfProduct(la, lb, lc);
  }

  function PlanT(a: Num, b: Num): Task {
    Task("t", "", "", a, b, "+")
  }

  function PlanU(c: Num): Task {
    Task("u", "t", "", ZERO, c, "*")
  }

  function Sum(a: Num, b: Num): Tree {
    Node("+", Leaf(Number(a)), Leaf(Number(b)))
  }

  function Product(a: Num, b: Num, c: Num): Tree {
    Node("*", Sum(a, b), Leaf(Number(c)))
  }

  function ExampleRPN(a: Num, b: Num, c: Num): seq<Token> {
    [Number(a), Number(b), Symbol("+"), Number(c), Symbol("*")]
  }

  const IDS: seq<string> := ["t", "u", "v", "w", "x"]

  lemma ExamplePlan(a: Num, b: Num, c: Num)
    ensures PlanFor(ExampleRPN(a, b, c), IDS) == [PlanT(a, b), PlanU(c)]
  {
    var rpn := ExampleRPN(a, b, c);
    var s2 := Planning([], [Const(a), Const(b)]);
    var s3 := Planning([PlanT(a, b)], [Ref("t")]);
    var s4 := Planning([PlanT(a, b)], [Ref("t"), Const(c)]);
    var s5 := Planning([PlanT(a, b), PlanU(c)], [Ref("u")]);
    assert Plan1(Plan1(EMPTY_PLANNING, rpn[0], "t"), rpn[1], "t") == s2;
    assert Plan1(s2, rpn[2], "t") == s3;
    assert Plan1(s3, rpn[3], "u") == s4;
    assert Plan1(s4, rpn[4], "u") == s5;
    assert rpn[1..][1..] == rpn[2..] && rpn[2..][1..] == rpn[3..] && rpn[3..][1..] == rpn[4..] && rpn[4..][1..] == [];
    assert PlanAll(s4, rpn[4..], IDS) == s5;
    assert PlanAll(s2, rpn[2..], IDS) == s5;
    assert PlanAll(EMPTY_PLANNING, rpn, IDS) == s5;
    var plan := s5.plan;
    assert Below(plan) == [PlanT(a, b)] && Below([PlanT(a, b)]) == [];
    assert MappedAll([]) == [];
    assert MappedAll([PlanT(a, b)]) == [PlanT(a, b)];
  }

  lemma ExampleGoal(t: Tree)
    requires Validation.IsFormula(t) && Numeric(t)
    ensures Validation.Accepts(Postorder(t)) && Goal(Postorder(t)) == t
  {
    Validation.PostorderIsAccepted(t);
    GoalKeepsMeaning(Postorder(t));
  }

  /** Calculate stores the text with this plan and goal. */
  lemma ExampleFromUser(la: string, lb: string, lc: string, a: Num, b: Num, c: Num)
    requires Denotes(la, a) && Denotes(lb, b) && Denotes(lc, c)
    ensures FromUser(Create("e", ExampleText(la, lb, lc), Product(a, b, c), [PlanT(a, b), PlanU(c)], 0))
    ensures Planned([PlanT(a, b), PlanU(c)], Product(a, b, c))
  {
    var x, text, rpn := Example(la, lb, lc), ExampleText(la, lb, lc), ExampleRPN(a, b, c);
    ExampleIsWellFormed(la, lb, lc, a, b, c);
    ExampleIsWritten(la, lb, lc, a, b, c);
    EndToEnd.WrittenMeaning(x, text);
    AbstractIsFormula(x);
    assert Postorder(Sum(a, b)) == [Number(a), Number(b), Symbol("+")];
    assert Postorder(Product(a, b, c)) == rpn;
    ExampleGoal(Product(a, b, c));
    ExamplePlan(a, b, c);
    assert rpn[2].Symbol?;
    PlanForIsPlanned(rpn, IDS);
  }

  // ---- The run ----

  /** The numbers of the example, its sum, and its text. */
  datatype Values = Values(text: string, a: Num, b: Num, c: Num, sum: Num)

  function RowT(v: Values, status: TaskStatus, result: Option<Num>): TaskRow {
    TaskRow("e", None, None, Some(v.a), Some(v.b), "+", status, result, 0)
  }

  function RowU(v: Values, arg1: Option<Num>, status: TaskStatus): TaskRow {
    TaskRow("e", Some("t"), None, arg1, Some(v.c), "*", status, None, 0)
  }

  function Tables(v: Values, t: TaskRow, u: TaskRow): Store {
    Store(map["t" := t, "u" := u], map["e" := ExpressionRow(v.text, ExprPending, None, 0)])
  }

  function ClaimT(v: Values): Claim {
    Claim("t", Addition, v.a, v.b)
  }

  function ClaimU(v: Values): Claim {
    Claim("u", Multiplication, v.sum, v.c)
  }

  function Creation(v: Values): Action {
    Create("e", v.text, Product(v.a, v.b, v.c), [PlanT(v.a, v.b), PlanU(v.c)], 0)
  }

  function Stored(v: Values): System {
    System(Tables(v, RowT(v, TaskPending, None), RowU(v, None, TaskCreated)), map[], {})
  }

  function SumHeld(v: Values): System {
    System(Tables(v, RowT(v, TaskInProgress, None), RowU(v, None, TaskCreated)), map[0 := ClaimT(v)], {})
  }

  /** The sum is done and its consumer, the product, has the given status. */
  function SumDone(v: Values, status: TaskStatus, claims: map<nat, Claim>): System {
    System(Tables(v, RowT(v, TaskCompleted, Some(v.sum)), RowU(v, Some(v.sum), status)), claims, {0})
  }

  lemma StoreStep(v: Values)
    requires Planned([PlanT(v.a, v.b), PlanU(v.c)], Product(v.a, v.b, v.c))
    ensures Next(EMPTY_SYSTEM, Creation(v), Stored(v))
  {
    var plan := [PlanT(v.a, v.b), PlanU(v.c)];
    assert Below(plan) == [plan[0]] && Below([plan[0]]) == [];
    assert InsertTasks(map[], [], "e", 0) == map[];
    assert InsertTasks(map[], [plan[0]], "e", 0) == map["t" := RowT(v, TaskPending, None)];
    assert InsertTasks(map[], plan, "e", 0)
        == map["t" := RowT(v, TaskPending, None)]["u" := RowU(v, None, TaskCreated)];
  }

  lemma SumTaken(v: Values)
    ensures Next(Stored(v), Take("t", 0), SumHeld(v))
  {
    assert "t"[0] != "u"[0];
  }

  /** Submitting the sum, at any status of its consumer, makes the consumer pending. */
  lemma SumSubmitted(v: Values, s: System, t: TaskRow, u: TaskRow)
    requires Plus(v.a, v.b) == Some(v.sum) && 0 in s.claims && s.claims[0] == ClaimT(v)
    requires s.store == Tables(v, t, u) && s.submitted <= {0}
    requires t == RowT(v, t.status, t.result) && u == RowU(v, u.arg1, u.status)
    ensures Next(s, Submit(0), SumDone(v, TaskPending, s.claims))
  {
    var cmd := FinishTaskCmd("t", TaskCompleted, v.sum);
    assert CmdOf(s.claims[0]) == cmd;
    assert "t"[0] != "u"[0];
    var marked := WithFinished(s.store, cmd);
    assert Refers(marked, "u", "t");
    assert WithEnqueued(marked, "u", "t")
        == Tables(v, RowT(v, TaskCompleted, Some(v.sum)), RowU(v, Some(v.sum), TaskPending));
    assert s.submitted + {0} == {0};
  }

  lemma ProductTaken(v: Values, claims: map<nat, Claim>, ticket: nat)
    requires ticket !in claims
    ensures Next(
              SumDone(v, TaskPending, claims), Take("u", ticket),
              SumDone(v, TaskInProgress, claims[ticket := ClaimU(v)]))
  {
    assert "t"[0] != "u"[0];
  }

  lemma Appended(r: Run, a: Action, s: System)
    requires Valid(r) && UserRun(r) && Next(Last(r), a, s) && FromUser(a)
    ensures Valid(Then(r, a, s)) && UserRun(Then(r, a, s))
  {
  }

  /** The sum has been computed and submitted; the product waits for a worker. */
  lemma SumDelivered(v: Values) returns (r: Run)
    requires Plus(v.a, v.b) == Some(v.sum) && FromUser(Creation(v))
    requires Planned([PlanT(v.a, v.b), PlanU(v.c)], Product(v.a, v.b, v.c))
    ensures Valid(r) && UserRun(r) && Last(r) == SumDone(v, TaskPending, map[0 := ClaimT(v)])
  {
    StoreStep(v);
    Appended(Start, Creation(v), Stored(v));
    var r1 := Then(Start, Creation(v), Stored(v));
    SumTaken(v);
    Appended(r1, Take("t", 0), SumHeld(v));
    var r2 := Then(r1, Take("t", 0), SumHeld(v));
    SumSubmitted(v, SumHeld(v), RowT(v, TaskInProgress, None), RowU(v, None, TaskCreated));
    var done := SumDone(v, TaskPending, map[0 := ClaimT(v)]);
    Appended(r2, Submit(0), done);
    r := Then(r2, Submit(0), done);
  }

  /** Claiming the product, repeating the sum, and claiming the product again. */
  lemma ClaimedTwice(v: Values, r: Run) returns (last: Run)
    requires Plus(v.a, v.b) == Some(v.sum)
    requires Valid(r) && UserRun(r) && Last(r) == SumDone(v, TaskPending, map[0 := ClaimT(v)])
    ensures Valid(last) && UserRun(last) && !SingleSubmission(last)
    ensures Last(last) == SumDone(v, TaskInProgress, map[0 := ClaimT(v), 1 := ClaimU(v), 2 := ClaimU(v)])
  {
    var one := map[0 := ClaimT(v)];
    var two := one[1 := ClaimU(v)];
    ProductTaken(v, one, 1);
    SumSubmitted(
      v, SumDone(v, TaskInProgress, two), RowT(v, TaskCompleted, Some(v.sum)), RowU(v, Some(v.sum), TaskInProgress));
    ProductTaken(v, two, 2);
    var r4 := Then(r, Take("u", 1), SumDone(v, TaskInProgress, two));
    var r5 := Then(r4, Submit(0), SumDone(v, TaskPending, two));
    assert Valid(r4) && UserRun(r4);
    assert Valid(r5) && UserRun(r5) && !SingleSubmission(r5);
    last := Then(r5, Take("u", 2), SumDone(v, TaskInProgress, two[2 := ClaimU(v)]));
    assert two[2 := ClaimU(v)] == map[0 := ClaimT(v), 1 := ClaimU(v), 2 := ClaimU(v)];
  }

  /**
   For any three literals whose first two have a sum there is a run of the service, on the text
   (a+b)*c and with one repeated submission, in which two workers hold the product at the same time.
   */
  lemma {:induction false} RepeatedSubmissionClaimsTwice(la: string, lb: string, lc: string, a: Num, b: Num, c: Num)
    returns (r: Run, j: nat, k: nat)
    requires Denotes(la, a) && Denotes(lb, b) && Denotes(lc, c) && Plus(a, b).Some?
    ensures Valid(r) && UserRun(r) && !SingleSubmission(r)
    ensures var s := Last(r);
            && s.store.expressions.Keys == {"e"} && s.store.expressions["e"].expression == ExampleText(la, lb, lc)
            && j != k && j in s.claims && k in s.claims && j !in s.submitted && k !in s.submitted
            && s.claims[j] == s.claims[k] && s.claims[j].id in s.store.tasks
            && s.store.tasks[s.claims[j].id].status == TaskInProgress
  {
    var v := Values(ExampleText(la, lb, lc), a, b, c, Plus(a, b).value);
    ExampleFromUser(la, lb, lc, a, b, c);
    var before := SumDelivered(v);
    r := ClaimedTwice(v, before);
    j, k := 1, 2;
  }
}
