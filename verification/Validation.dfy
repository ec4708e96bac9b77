/**
 Validation of a Reverse Polish list (calc.go, validateRPN), and what exactly it accepts: the
 postorders of binary trees whose inner nodes are operators and whose leaves are any other token.
 */
module Validation {
  import opened Wrappers
  import opened Numbers
  import opened Stackx
  import opened Types

  /** The stack size after simulating `rpn` from a stack of size `d`, or None on underflow. */
  function Depth(rpn: seq<Token>, d: nat): Option<nat>
    decreases |rpn|
  {
    if rpn == [] then Some(d)
    else if !IsOp(SymbolOf(rpn[0])) then Depth(rpn[1..], d + 1)
    else if d < 2 then None
    else Depth(rpn[1..], d - 1)
  }

  predicate Accepts(rpn: seq<Token>) {
    Depth(rpn, 0) == Some(1)
  }

  method ValidateRPN(rpn: seq<Token>) returns (ok: bool)
    ensures ok <==> Accepts(rpn)
  {
    var stack := new Stack<Token>(NO_TOKEN);
    for i := 0 to |rpn|
      invariant fresh(stack)
      invariant Depth(rpn[i..], stack.Size()) == Depth(rpn, 0)
    {
      var token := rpn[i];
      assert rpn[i..][1..] == rpn[i + 1..];
      if !IsOp(SymbolOf(token)) {
        stack.Push(token);
        continue;
      }
      if stack.Size() < 2 {
        return false;
      }
      var _ := stack.SafePop();
      var _ := stack.SafePop();
      stack.Push(Symbol("$"));
    }
    return stack.Size() == 1;
  }

  /** A tree the validator can accept: operators inside, anything else at the leaves. */
  predicate IsFormula(t: Tree) {
    match t
    case Leaf(token) => !IsOp(SymbolOf(token))
    case Node(op, l, r) => IsOp(op) && IsFormula(l) && IsFormula(r)
  }

  /** The same simulation with trees on the stack. */
  function Build(rpn: seq<Token>, trees: seq<Tree>): Option<seq<Tree>>
    decreases |rpn|
  {
    if rpn == [] then Some(trees)
    else if !IsOp(SymbolOf(rpn[0])) then Build(rpn[1..], trees + [Leaf(rpn[0])])
    else if |trees| < 2 then None
    else
      var n := |trees|;
      Build(rpn[1..], trees[..n - 2] + [Node(SymbolOf(rpn[0]), trees[n - 2], trees[n - 1])])
  }

  function Postorders(trees: seq<Tree>): seq<Token> {
    if trees == [] then [] else Postorders(Below(trees)) + Postorder(Top(trees))
  }

  lemma PostordersPush(trees: seq<Tree>, t: Tree)
    ensures Postorders(trees + [t]) == Postorders(trees) + Postorder(t)
  {
    assert Below(trees + [t]) == trees;
  }

  lemma PostordersCombine(rest: seq<Tree>, op: string, l: Tree, r: Tree)
    ensures Postorders(rest + [Node(op, l, r)]) == Postorders(rest + [l] + [r]) + [Symbol(op)]
  {
    PostordersPush(rest, l);
    PostordersPush(rest + [l], r);
    PostordersPush(rest, Node(op, l, r));
  }

  lemma {:induction false} BuildMatchesDepth(rpn: seq<Token>, trees: seq<Tree>)
    ensures Depth(rpn, |trees|) == match Build(rpn, trees) { case None => None case Some(us) => Some(|us|) }
    decreases |rpn|
  {
    if rpn == [] {
    } else if !IsOp(SymbolOf(rpn[0])) {
      BuildMatchesDepth(rpn[1..], trees + [Leaf(rpn[0])]);
    } else if |trees| >= 2 {
      var n := |trees|;
      BuildMatchesDepth(rpn[1..], trees[..n - 2] + [Node(SymbolOf(rpn[0]), trees[n - 2], trees[n - 1])]);
    }
  }

  /** The trees on the stack always spell out the tokens read so far. */
  lemma {:induction false} BuildIsSound(rpn: seq<Token>, trees: seq<Tree>)
    requires forall t :: t in trees ==> IsFormula(t)
    requires Build(rpn, trees).Some?
    ensures var us := Build(rpn, trees).value;
            && (forall t :: t in us ==> IsFormula(t))
            && Postorders(us) == Postorders(trees) + rpn
    decreases |rpn|
  {
    if rpn == [] {
      assert Postorders(trees) + rpn == Postorders(trees);
      return;
    }
    assert [rpn[0]] + rpn[1..] == rpn;
    Assoc(Postorders(trees), [rpn[0]], rpn[1..]);
    if !IsOp(SymbolOf(rpn[0])) {
      PostordersPush(trees, Leaf(rpn[0]));
      BuildIsSound(rpn[1..], trees + [Leaf(rpn[0])]);
    } else {
      var n := |trees|;
      var l, r, rest := trees[n - 2], trees[n - 1], trees[..n - 2];
      PostordersCombine(rest, rpn[0].text, l, r);
      assert trees == rest + [l] + [r];
      BuildIsSound(rpn[1..], rest + [Node(rpn[0].text, l, r)]);
    }
  }

  /** Reading the postorder of a formula pushes exactly that formula. */
  lemma {:induction false} BuildOfPostorder(t: Tree, rest: seq<Token>, trees: seq<Tree>)
    requires IsFormula(t)
    ensures Build(Postorder(t) + rest, trees) == Build(rest, trees + [t])
  {
    match t
    case Leaf(token) =>
      assert ([token] + rest)[1..] == rest;
    case Node(op, l, r) =>
      var tail := [Symbol(op)] + rest;
      assert Postorder(t) + rest == Postorder(l) + (Postorder(r) + tail);
      BuildOfPostorder(l, Postorder(r) + tail, trees);
      BuildOfPostorder(r, tail, trees + [l]);
      assert tail[1..] == rest;
      var us := trees + [l] + [r];
      assert us[..|us| - 2] == trees;
  }

  /** The tree of an accepted list. */
  function FormulaOf(rpn: seq<Token>): (t: Tree)
    requires Accepts(rpn)
    ensures IsFormula(t) && Postorder(t) == rpn
  {
    BuildMatchesDepth(rpn, []);
    BuildIsSound(rpn, []);
    var us := Build(rpn, []).value;
    PostordersPush([], us[0]);
    assert us == [] + [us[0]] && Postorders([]) + rpn == rpn;
    us[0]
  }

  /** validateRPN accepts exactly the postorders of formulas. */
  lemma ExactAcceptance(rpn: seq<Token>)
    ensures Accepts(rpn) <==> exists t :: IsFormula(t) && Postorder(t) == rpn
  {
    if Accepts(rpn) {
      var t := FormulaOf(rpn);
      assert IsFormula(t) && Postorder(t) == rpn;
    }
    forall t | IsFormula(t) && Postorder(t) == rpn
      ensures Accepts(rpn)
    {
      PostorderIsAccepted(t);
    }
  }

  /** ... and the formula behind an accepted list is unique. */
  lemma PostorderIsAccepted(t: Tree)
    requires IsFormula(t)
    ensures Accepts(Postorder(t)) && FormulaOf(Postorder(t)) == t
  {
    BuildOfPostorder(t, [], []);
    assert Postorder(t) + [] == Postorder(t);
    assert [] + [t] == [t];
    BuildMatchesDepth(Postorder(t), []);
  }

  lemma PostorderIsInjective(s: Tree, t: Tree)
    requires IsFormula(s) && IsFormula(t) && Postorder(s) == Postorder(t)
    ensures s == t
  {
    PostorderIsAccepted(s);
    PostorderIsAccepted(t);
  }
}
