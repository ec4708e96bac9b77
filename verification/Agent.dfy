/** What a worker computes (agent.go, executeTask), from the operation code it is sent (service/map.go). */
module Agent {
  import opened Wrappers
  import opened Numbers

  datatype Operation = Unspecified | Addition | Subtraction | Multiplication | Division

  /** The code sent for a stored operation. */
  function OperationOf(stored: string): Operation {
    match stored
    case "+" => Addition
    case "-" => Subtraction
    case "*" => Multiplication
    case "/" => Division
    case _ => Unspecified
  }

  /** None is NaN. */
  function ExecuteTask(operation: Operation, arg1: Num, arg2: Num): Option<Num> {
    match operation
    case Addition => Plus(arg1, arg2)
    case Subtraction => Minus(arg1, arg2)
    case Multiplication => Times(arg1, arg2)
    case Division => if IsZero(arg2) then None else Quotient(arg1, arg2)
    case Unspecified => None
  }

  /** From token to stored text to code to result, an operator keeps its meaning. */
  lemma OperatorIsComputed(op: string, stored: string, a: Num, b: Num)
    requires MapTaskOperation(stored) == MapTaskOperation(op)
    ensures ExecuteTask(OperationOf(stored), a, b) == Apply(op, a, b)
  {
  }

  /** What a worker answers for each stored operator, in this order of operands; NaN for x / 0. */
  lemma WorkerArithmetic(op: string, a: Num, b: Num)
    ensures ExecuteTask(OperationOf("+"), a, b) == Plus(a, b)
    ensures ExecuteTask(OperationOf("-"), a, b) == Minus(a, b)
    ensures ExecuteTask(OperationOf("*"), a, b) == Times(a, b)
    ensures IsZero(b) ==> ExecuteTask(OperationOf("/"), a, b) == None
    ensures !IsZero(b) ==> ExecuteTask(OperationOf("/"), a, b) == Quotient(a, b)
    ensures op != "+" && op != "-" && op != "*" && op != "/" ==> ExecuteTask(OperationOf(op), a, b) == None
    ensures ExecuteTask(OperationOf(MapTaskOperation(op)), a, b) == ExecuteTask(OperationOf(op), a, b)
  {
    assert "-"[0] != "+"[0] && "*"[0] != "+"[0] && "/"[0] != "+"[0];
    assert "*"[0] != "-"[0] && "/"[0] != "-"[0] && "/"[0] != "*"[0];
  }
}
