/** Tokens and scheduled tasks (internal/calculator/calc/types), and the trees they denote. */
module Types {
  import opened Wrappers
  import opened Numbers

  datatype Token = Number(value: Num) | Symbol(text: string)

  /** The zero Token: not a number, with an empty symbol. */
  const NO_TOKEN := Symbol("")
  const LEFT_BRACKET := Symbol("(")
  const RIGHT_BRACKET := Symbol(")")

  /** The Symbol field, which is empty on a number token. */
  function SymbolOf(t: Token): string {
    if t.Number? then "" else t.text
  }

  lemma Assoc(a: seq<Token>, b: seq<Token>, c: seq<Token>)
    ensures (a + b) + c == a + (b + c)
  {
  }

  datatype Task = Task(
    id: string,
    parentTask1ID: string,
    parentTask2ID: string,
    arg1: Num,
    arg2: Num,
    operation: string)

  /** Expression trees over tokens. */
  datatype Tree = Leaf(token: Token) | Node(op: string, left: Tree, right: Tree)

  function Postorder(t: Tree): seq<Token> {
    match t
    case Leaf(token) => [token]
    case Node(op, l, r) => Postorder(l) + Postorder(r) + [Symbol(op)]
  }

  /** The value of a tree, strict in NaN; a leaf that is not a number has none. */
  function Eval(t: Tree): Option<Num> {
    match t
    case Leaf(Number(n)) => Some(n)
    case Leaf(Symbol(_)) => None
    case Node(op, l, r) =>
      match (Eval(l), Eval(r))
      case (Some(a), Some(b)) => Apply(op, a, b)
      case _ => None
  }

  function Size(t: Tree): nat {
    match t
    case Leaf(_) => 1
    case Node(_, l, r) => 1 + Size(l) + Size(r)
  }

  /** Every leaf is a number. */
  predicate Numeric(t: Tree) {
    match t
    case Leaf(token) => token.Number?
    case Node(_, l, r) => Numeric(l) && Numeric(r)
  }

  predicate Subtree(s: Tree, t: Tree) {
    s == t || (t.Node? && (Subtree(s, t.left) || Subtree(s, t.right)))
  }

  lemma {:induction false} SubtreeSize(s: Tree, t: Tree)
    requires Subtree(s, t)
    ensures Size(s) <= Size(t)
  {
    if s != t {
      if Subtree(s, t.left) {
        SubtreeSize(s, t.left);
      } else {
        SubtreeSize(s, t.right);
      }
    }
  }

  /** NaN anywhere inside a tree is NaN for the whole tree. */
  lemma {:induction false} EvalIsStrict(s: Tree, t: Tree)
    requires Subtree(s, t) && Eval(s) == None
    ensures Eval(t) == None
  {
    if s != t {
      if Subtree(s, t.left) {
        EvalIsStrict(s, t.left);
      } else {
        EvalIsStrict(s, t.right);
      }
    }
  }
}
