/** The number type of the calculator, its operators and what they mean. */
module Numbers {
  import opened Wrappers

  /**
   The float64 values other than NaN. The type and the constants below have no definition, so
   everything proved here holds whatever they are: no algebraic law is used. An operation whose IEEE
   result is NaN yields None, and so does a literal strconv.ParseFloat rejects.
   */
  type Num(==, 0, !new)

  const ZERO: Num
  const IsZero: Num -> bool
  const Plus: (Num, Num) -> Option<Num>
  const Minus: (Num, Num) -> Option<Num>
  const Times: (Num, Num) -> Option<Num>
  const Quotient: (Num, Num) -> Option<Num>
  const ParseFloat: string -> Option<Num>

  /** What an operator of the language means; None is NaN. */
  function Apply(op: string, a: Num, b: Num): Option<Num> {
    match op
    case "+" => Plus(a, b)
    case "-" => Minus(a, b)
    case "*" => Times(a, b)
    case "/" => if IsZero(b) then None else Quotient(a, b)
    case _ => None
  }

  /** How the service stores an operator symbol; an unknown symbol becomes the empty string. */
  function MapTaskOperation(op: string): string {
    match op
    case "+" => "+"
    case "-" => "-"
    case "*" => "*"
    case "/" => "/"
    case _ => ""
  }

  predicate IsOp(op: string) {
    op == "+" || op == "-" || op == "*" || op == "/"
  }

  function Precedence(op: string): nat {
    match op
    case "+" => 1
    case "-" => 1
    case "*" => 2
    case "/" => 2
    case _ => 0
  }

  /** Two operators stored alike mean the same: unknown ones are NaN, whatever their text. */
  lemma StoredAlike(op1: string, op2: string, a: Num, b: Num)
    requires MapTaskOperation(op1) == MapTaskOperation(op2)
    ensures Apply(op1, a, b) == Apply(op2, a, b)
    ensures !IsOp(op1) ==> Apply(op2, a, b) == None
  {
  }

  /** The four operators and no others, each with its own meaning; division by zero has none. */
  lemma OperatorTable(op: string, a: Num, b: Num)
    ensures Apply("+", a, b) == Plus(a, b)
    ensures Apply("-", a, b) == Minus(a, b)
    ensures Apply("*", a, b) == Times(a, b)
    ensures IsZero(b) ==> Apply("/", a, b) == None
    ensures !IsZero(b) ==> Apply("/", a, b) == Quotient(a, b)
    ensures op != "+" && op != "-" && op != "*" && op != "/" ==> Apply(op, a, b) == None && MapTaskOperation(op) == ""
    ensures op == "+" || op == "-" || op == "*" || op == "/" ==> MapTaskOperation(op) == op
  {
    assert "-"[0] != "+"[0] && "*"[0] != "+"[0] && "/"[0] != "+"[0];
    assert "*"[0] != "-"[0] && "/"[0] != "-"[0] && "/"[0] != "*"[0];
  }
}
