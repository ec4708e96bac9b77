/**
 When accepting a text means that it is an expression of the grammar: exactly when, besides being
 accepted, its brackets balance and its neighbouring tokens fit together.

 One half is an induction over derivations: the tokens of each form a Sentence, a list of fitting
 neighbours with balanced brackets that starts and ends with an operand (DerivationIsSentence). The
 other half reads a sentence from the left, as a first operand and operators with an operand each.
 A bracketed operand ends where its bracket closes (ClosingBracket), and what is inside is a sentence
 again (InnerSentence). Each operator with its operand is attached where its level belongs (Attach),
 which keeps the derivation well formed and appends exactly the tokens read.

 An accepted list is then a sentence by counting: among fitting neighbours numbers and operators
 alternate (Alternation), and acceptance leaves one number more than operators (DepthCounts), so that
 the list has to start and end with an operand.
 */
module Soundness {
  import opened Wrappers
  import opened Numbers
  import opened Stackx
  import opened Types
  import opened Tokenizer
  import opened Validation
  import opened ShuntingYard
  import opened YardFacts
  import opened Grammar
  import opened Calculator

  predicate StartsOperand(t: Token) {
    t.Number? || t == LEFT_BRACKET
  }

  predicate EndsOperand(t: Token) {
    t.Number? || t == RIGHT_BRACKET
  }

  predicate IsOperator(t: Token) {
    t.Symbol? && IsOp(t.text)
  }

  /** b may stand right after a. */
  predicate Follows(a: Token, b: Token) {
    if EndsOperand(a) then IsOperator(b) || b == RIGHT_BRACKET else StartsOperand(b)
  }

  /** The i-th token and the next one are good neighbours. */
  predicate Fits(ts: seq<Token>, i: nat)
    requires i < |ts| - 1
  {
    Follows(ts[i], ts[i + 1])
  }

  /** Some literal denotes the number; tokenize makes no others. */
  ghost predicate Spellable(t: Token) {
    t.Number? ==> exists text :: IsNumeral(text) && ParseFloat(text) == Some(t.value)
  }

  /** Numbers, operators and brackets that are good neighbours. */
  predicate Fitting(ts: seq<Token>) {
    && (forall i :: 0 <= i < |ts| ==> ts[i].Number? || IsOperator(ts[i]) || IsBracket(ts[i]))
    && (forall i {:trigger Fits(ts, i)} :: 0 <= i < |ts| - 1 ==> Fits(ts, i))
  }

  ghost predicate Legal(ts: seq<Token>) {
    Fitting(ts) && forall i :: 0 <= i < |ts| ==> Spellable(ts[i])
  }

  /** Opening minus closing brackets. */
  function Net(ts: seq<Token>): int {
    Count(LEFT_BRACKET, ts) - Count(RIGHT_BRACKET, ts)
  }

  /** At least n brackets are open after k tokens. */
  predicate Open(ts: seq<Token>, k: nat, n: int)
    requires k <= |ts|
  {
    Net(ts[..k]) >= n
  }

  /** No prefix closes more brackets than it opens. */
  predicate NeverNegative(ts: seq<Token>) {
    forall k {:trigger Open(ts, k, 0)} :: 0 <= k <= |ts| ==> Open(ts, k, 0)
  }

  predicate Balanced(ts: seq<Token>) {
    Net(ts) == 0 && NeverNegative(ts)
  }

  lemma {:induction false} CountConcat(x: Token, a: seq<Token>, b: seq<Token>)
    ensures Count(x, a + b) == Count(x, a) + Count(x, b)
    decreases |b|
  {
    if b == [] {
      assert a + b == a;
    } else {
      assert Below(a + b) == a + Below(b);
      CountConcat(x, a, Below(b));
      CountPop(x, a + b);
      CountPop(x, b);
    }
  }

  lemma CountOne(x: Token, t: Token)
    ensures Count(x, [t]) == if t == x then 1 else 0
  {
  }

  lemma NetConcat(a: seq<Token>, b: seq<Token>)
    ensures Net(a + b) == Net(a) + Net(b)
  {
    CountConcat(LEFT_BRACKET, a, b);
    CountConcat(RIGHT_BRACKET, a, b);
  }

  lemma NetOne(t: Token)
    ensures Net([t]) == if t == LEFT_BRACKET then 1 else if t == RIGHT_BRACKET then -1 else 0
  {
    CountOne(LEFT_BRACKET, t);
    CountOne(RIGHT_BRACKET, t);
    assert LEFT_BRACKET.text[0] != RIGHT_BRACKET.text[0];
  }

  lemma NetPop(ts: seq<Token>)
    requires ts != []
    ensures Net(ts)
         == Net(Below(ts)) + if Top(ts) == LEFT_BRACKET then 1 else if Top(ts) == RIGHT_BRACKET then -1 else 0
  {
    CountPop(LEFT_BRACKET, ts);
    CountPop(RIGHT_BRACKET, ts);
    assert LEFT_BRACKET.text[0] != RIGHT_BRACKET.text[0];
  }

  lemma NetSlice(ts: seq<Token>, i: nat, k: nat)
    requires i <= k <= |ts|
    ensures Net(ts[i..k]) == Net(ts[..k]) - Net(ts[..i])
  {
    assert ts[..k] == ts[..i] + ts[i..k];
    NetConcat(ts[..i], ts[i..k]);
  }

  // ---- Derivations are legal and balanced ----

  lemma BalancedConcat(a: seq<Token>, b: seq<Token>)
    requires Balanced(a) && Balanced(b)
    ensures Balanced(a + b)
  {
    NetConcat(a, b);
    forall k | 0 <= k <= |a + b|
      ensures Open(a + b, k, 0)
    {
      if k <= |a| {
        assert Open(a, k, 0);
        assert (a + b)[..k] == a[..k];
      } else {
        assert Open(b, k - |a|, 0);
        assert (a + b)[..k] == a + b[..k - |a|];
        NetConcat(a, b[..k - |a|]);
      }
    }
  }

  lemma BalancedOne(t: Token)
    requires !IsBracket(t)
    ensures Balanced([t])
  {
    NetOne(t);
    forall k | 0 <= k <= 1
      ensures Open([t], k, 0)
    {
      assert [t][..k] == if k == 0 then [] else [t];
    }
  }

  lemma BalancedWrap(inner: seq<Token>)
    requires Balanced(inner)
    ensures Balanced([LEFT_BRACKET] + inner + [RIGHT_BRACKET])
  {
    var all := [LEFT_BRACKET] + inner + [RIGHT_BRACKET];
    NetOne(LEFT_BRACKET);
    NetOne(RIGHT_BRACKET);
    NetConcat([LEFT_BRACKET], inner);
    NetConcat([LEFT_BRACKET] + inner, [RIGHT_BRACKET]);
    forall k | 0 <= k <= |all|
      ensures Open(all, k, 0)
    {
      if k == 0 {
        assert all[..k] == [];
      } else if k <= |inner| + 1 {
        assert Open(inner, k - 1, 0);
        assert all[..k] == [LEFT_BRACKET] + inner[..k - 1];
        NetConcat([LEFT_BRACKET], inner[..k - 1]);
      } else {
        assert all[..k] == all;
      }
    }
  }

  lemma LegalConcat(a: seq<Token>, b: seq<Token>)
    requires Legal(a) && Legal(b)
    requires a != [] && b != [] ==> Follows(Top(a), b[0])
    ensures Legal(a + b)
  {
    forall i | 0 <= i < |a + b| - 1
      ensures Fits(a + b, i)
    {
      if i < |a| - 1 {
        assert Fits(a, i);
      } else if i >= |a| {
        assert Fits(b, i - |a|);
      }
    }
  }

  lemma OperatorsAreNoBrackets(t: Token)
    requires IsOperator(t)
    ensures !IsBracket(t) && !StartsOperand(t) && !EndsOperand(t)
  {
    assert t.text[0] != '(' && t.text[0] != ')';
  }

  ghost predicate Sentence(ts: seq<Token>) {
    && ts != [] && Legal(ts) && Balanced(ts)
    && StartsOperand(ts[0]) && EndsOperand(Top(ts))
  }

  lemma OneIsSentence(t: Token)
    requires t.Number? && Spellable(t)
    ensures Sentence([t])
  {
    BalancedOne(t);
  }

  lemma OneIsLegal(t: Token)
    requires IsOperator(t) || IsBracket(t)
    ensures Legal([t])
  {
  }

  lemma WrapIsSentence(inner: seq<Token>)
    requires Sentence(inner)
    ensures Sentence([LEFT_BRACKET] + inner + [RIGHT_BRACKET])
  {
    assert LEFT_BRACKET.text[0] != RIGHT_BRACKET.text[0];
    BalancedWrap(inner);
    OneIsLegal(LEFT_BRACKET);
    OneIsLegal(RIGHT_BRACKET);
    LegalConcat([LEFT_BRACKET], inner);
    assert Top([LEFT_BRACKET] + inner) == Top(inner);
    LegalConcat([LEFT_BRACKET] + inner, [RIGHT_BRACKET]);
  }

  lemma LegalJoin(a: seq<Token>, t: Token, b: seq<Token>)
    requires a != [] && b != [] && Legal(a) && Legal(b) && IsOperator(t) && EndsOperand(Top(a)) && StartsOperand(b[0])
    ensures Legal(a + [t] + b)
  {
    OperatorsAreNoBrackets(t);
    OneIsLegal(t);
    LegalConcat(a, [t]);
    assert Top(a + [t]) == t;
    LegalConcat(a + [t], b);
  }

  lemma JoinIsSentence(a: seq<Token>, t: Token, b: seq<Token>)
    requires Sentence(a) && IsOperator(t) && Sentence(b)
    ensures Sentence(a + [t] + b)
  {
    OperatorsAreNoBrackets(t);
    BalancedOne(t);
    BalancedConcat(a, [t]);
    BalancedConcat(a + [t], b);
    LegalJoin(a, t, b);
    var all := a + [t] + b;
    assert all[0] == a[0] && Top(all) == Top(b);
  }

  lemma {:induction false} DerivationIsSentence(e: Infix)
    requires WellFormed(e)
    ensures Sentence(Tokens(e))
  {
    match e
    case Literal(text) =>
      LiteralIsNumeral(text);
      OneIsSentence(Tokens(e)[0]);
    case Bracketed(inner) =>
      DerivationIsSentence(inner);
      WrapIsSentence(Tokens(inner));
    case Binary(l, op, r) =>
      DerivationIsSentence(l);
      DerivationIsSentence(r);
      LevelsArePrecedences(op);
      JoinIsSentence(Tokens(l), Symbol(op), Tokens(r));
  }

  // ---- Legal, balanced lists that start and end with an operand are derivations ----

  /** Adds an operator and a factor on the right, below a weaker operator if need be. */
  function Attach(e: Infix, op: string, factor: Infix): (r: Infix)
    requires WellFormed(e) && WellFormed(factor) && OperatorLevel(op) > 0 && Level(factor) == 3
    ensures WellFormed(r) && Tokens(r) == Tokens(e) + [Symbol(op)] + Tokens(factor)
    ensures Level(r) >= if Level(e) < OperatorLevel(op) then Level(e) else OperatorLevel(op)
  {
    if e.Binary? && OperatorLevel(e.op) < OperatorLevel(op)
    then
      var right := Attach(e.right, op, factor);
      assert Tokens(e) + [Symbol(op)] + Tokens(factor)
          == Tokens(e.left) + [Symbol(e.op)] + (Tokens(e.right) + [Symbol(op)] + Tokens(factor));
      Binary(e.left, e.op, right)
    else Binary(e, op, factor)
  }

  /** Where the bracket opened at the start is closed. */
  lemma ClosingBracket(ts: seq<Token>) returns (n: nat)
    requires Balanced(ts) && ts != [] && ts[0] == LEFT_BRACKET
    ensures 2 <= n <= |ts| && Net(ts[..n]) == 0 && ts[n - 1] == RIGHT_BRACKET
    ensures forall k {:trigger Open(ts, k, 1)} :: 1 <= k < n ==> Open(ts, k, 1)
  {
    n := 1;
    assert ts[..1] == [ts[0]];
    NetOne(ts[0]);
    assert ts[..|ts|] == ts;
    while Net(ts[..n]) != 0
      invariant 1 <= n <= |ts|
      invariant forall k {:trigger Open(ts, k, 1)} :: 1 <= k < n ==> Open(ts, k, 1)
      decreases |ts| - n
    {
      assert Open(ts, n, 0);
      n := n + 1;
    }
    assert n > 1 && Open(ts, n - 1, 1);
    assert Below(ts[..n]) == ts[..n - 1];
    NetPop(ts[..n]);
  }

  lemma LegalSlice(ts: seq<Token>, i: nat, k: nat)
    requires Legal(ts) && i <= k <= |ts|
    ensures Legal(ts[i..k])
  {
    var s := ts[i..k];
    assert forall j :: 0 <= j < |s| ==> s[j] == ts[i + j];
    forall j | 0 <= j < |s| - 1
      ensures Fits(s, j)
    {
      assert Fits(ts, i + j);
    }
  }

  lemma BalancedSlice(ts: seq<Token>, i: nat, k: nat, n: int)
    requires i <= k <= |ts| && Net(ts[..i]) == n && Net(ts[..k]) == n
    requires forall j {:trigger Open(ts, j, n)} :: i <= j <= k ==> Open(ts, j, n)
    ensures Balanced(ts[i..k])
  {
    NetSlice(ts, i, k);
    forall j | 0 <= j <= k - i
      ensures Open(ts[i..k], j, 0)
    {
      assert ts[i..k][..j] == ts[i..i + j];
      NetSlice(ts, i, i + j);
      assert Open(ts, i + j, n);
    }
  }

  lemma InnerEnds(ts: seq<Token>, n: nat)
    requires Legal(ts) && 2 <= n <= |ts| && ts[0] == LEFT_BRACKET && ts[n - 1] == RIGHT_BRACKET
    ensures n > 2 && StartsOperand(ts[1]) && EndsOperand(ts[n - 2])
  {
    assert LEFT_BRACKET.text[0] != RIGHT_BRACKET.text[0];
    assert Fits(ts, 0);
    assert Fits(ts, n - 2);
  }

  lemma InnerBalanced(ts: seq<Token>, n: nat)
    requires 2 <= n <= |ts| && ts[0] == LEFT_BRACKET && ts[n - 1] == RIGHT_BRACKET && Net(ts[..n]) == 0
    requires forall k {:trigger Open(ts, k, 1)} :: 1 <= k < n ==> Open(ts, k, 1)
    ensures Balanced(ts[1..n - 1])
  {
    assert LEFT_BRACKET.text[0] != RIGHT_BRACKET.text[0];
    assert ts[..1] == [ts[0]];
    NetOne(ts[0]);
    assert Below(ts[..n]) == ts[..n - 1];
    NetPop(ts[..n]);
    BalancedSlice(ts, 1, n - 1, 1);
  }

  /** Between the first bracket and its partner stands a sentence. */
  lemma InnerSentence(ts: seq<Token>, n: nat)
    requires Legal(ts) && 2 <= n <= |ts| && ts[0] == LEFT_BRACKET && ts[n - 1] == RIGHT_BRACKET
    requires Net(ts[..n]) == 0
    requires forall k {:trigger Open(ts, k, 1)} :: 1 <= k < n ==> Open(ts, k, 1)
    ensures Sentence(ts[1..n - 1])
    ensures ts[..n] == [LEFT_BRACKET] + ts[1..n - 1] + [RIGHT_BRACKET]
  {
    InnerEnds(ts, n);
    InnerBalanced(ts, n);
    LegalSlice(ts, 1, n - 1);
    var inner := ts[1..n - 1];
    assert inner[0] == ts[1] && Top(inner) == ts[n - 2];
  }

  /** What follows a factor is nothing, or an operator and a sentence. */
  ghost predicate Tail(rest: seq<Token>) {
    rest == [] || (IsOperator(rest[0]) && Sentence(rest[1..]))
  }

  /** A closed operand is followed by an operator, not by a closing bracket, and that by an operand. */
  lemma TailStart(ts: seq<Token>, n: nat)
    requires Sentence(ts) && 1 <= n < |ts| && Net(ts[..n]) == 0 && EndsOperand(ts[n - 1])
    ensures IsOperator(ts[n]) && Net(ts[..n + 1]) == 0
    ensures n + 1 < |ts| && StartsOperand(ts[n + 1])
  {
    assert Fits(ts, n - 1);
    assert Open(ts, n + 1, 0) && Below(ts[..n + 1]) == ts[..n];
    NetPop(ts[..n + 1]);
    assert IsOperator(ts[n]);
    OperatorsAreNoBrackets(ts[n]);
    assert ts[n] != Top(ts);
    assert Fits(ts, n);
  }

  lemma SuffixSentence(ts: seq<Token>, i: nat)
    requires Sentence(ts) && i < |ts| && Net(ts[..i]) == 0 && StartsOperand(ts[i])
    ensures Sentence(ts[i..])
  {
    assert ts[..|ts|] == ts && ts[i..|ts|] == ts[i..];
    LegalSlice(ts, i, |ts|);
    BalancedSlice(ts, i, |ts|, 0);
    assert Top(ts[i..]) == Top(ts);
  }

  lemma TailSentence(ts: seq<Token>, n: nat)
    requires Sentence(ts) && 1 <= n <= |ts| && Net(ts[..n]) == 0 && EndsOperand(ts[n - 1])
    ensures Tail(ts[n..])
  {
    if n < |ts| {
      TailStart(ts, n);
      SuffixSentence(ts, n + 1);
      assert ts[n..][1..] == ts[n + 1..];
    }
  }

  lemma NumberFactor(ts: seq<Token>) returns (e: Infix)
    requires Sentence(ts) && ts[0].Number?
    ensures WellFormed(e) && Level(e) == 3 && Tokens(e) == ts[..1] && Tail(ts[1..])
  {
    assert Spellable(ts[0]);
    var text :| IsNumeral(text) && ParseFloat(text) == Some(ts[0].value);
    LiteralIsNumeral(text);
    e := Literal(text);
    assert ts[..1] == [ts[0]];
    NetOne(ts[0]);
    TailSentence(ts, 1);
  }

  /** The brackets that open a sentence, and what they enclose. */
  lemma BracketFactor(ts: seq<Token>) returns (n: nat)
    requires Sentence(ts) && !ts[0].Number?
    ensures 2 <= n <= |ts| && Sentence(ts[1..n - 1]) && Tail(ts[n..])
    ensures ts[..n] == [LEFT_BRACKET] + ts[1..n - 1] + [RIGHT_BRACKET]
  {
    n := ClosingBracket(ts);
    InnerSentence(ts, n);
    TailSentence(ts, n);
  }

  lemma {:induction false} FirstFactor(ts: seq<Token>) returns (e: Infix, n: nat)
    requires Sentence(ts)
    ensures 1 <= n <= |ts| && WellFormed(e) && Level(e) == 3 && Tokens(e) == ts[..n]
    ensures Tail(ts[n..])
    decreases |ts|, 0
  {
    if ts[0].Number? {
      e := NumberFactor(ts);
      n := 1;
    } else {
      n := BracketFactor(ts);
      var inner := Derive(ts[1..n - 1]);
      e := Bracketed(inner);
    }
  }

  lemma Regroup(a: seq<Token>, rest: seq<Token>, n: nat)
    requires rest != [] && n <= |rest| - 1
    ensures a + [rest[0]] + rest[1..][..n] + rest[1..][n..] == a + rest
  {
  }

  lemma {:induction false} Continue(e: Infix, rest: seq<Token>) returns (r: Infix)
    requires WellFormed(e) && Tail(rest)
    ensures WellFormed(r) && Tokens(r) == Tokens(e) + rest
    decreases |rest|, 1
  {
    if rest == [] {
      r := e;
      assert Tokens(e) + rest == Tokens(e);
    } else {
      var factor, n := FirstFactor(rest[1..]);
      LevelsArePrecedences(rest[0].text);
      r := Continue(Attach(e, rest[0].text, factor), rest[1..][n..]);
      Regroup(Tokens(e), rest, n);
    }
  }

  lemma Split(ts: seq<Token>, n: nat)
    requires n <= |ts|
    ensures ts[..n] + ts[n..] == ts
  {
  }

  /** Every sentence is the token list of a derivation. */
  lemma {:induction false} Derive(ts: seq<Token>) returns (e: Infix)
    requires Sentence(ts)
    ensures WellFormed(e) && Tokens(e) == ts
    decreases |ts|, 1
  {
    var factor, n := FirstFactor(ts);
    e := Continue(factor, ts[n..]);
    Split(ts, n);
  }

  // ---- Acceptance makes a legal, balanced list start and end with an operand ----

  function Operators(ts: seq<Token>): nat {
    if ts == [] then 0 else Operators(Below(ts)) + if IsOperator(Top(ts)) then 1 else 0
  }

  function Ends(ts: seq<Token>): int
    requires ts != []
  {
    (if StartsOperand(ts[0]) then 1 else 0) + (if EndsOperand(Top(ts)) then 1 else 0) - 1
  }

  /** In a legal neighbourhood, numbers and operators alternate. */
  lemma {:induction false} Alternation(ts: seq<Token>)
    requires Legal(ts) && ts != []
    ensures |NumbersOf(ts)| - Operators(ts) == Ends(ts)
    decreases |ts|
  {
    var t := Top(ts);
    assert LEFT_BRACKET.text[0] != RIGHT_BRACKET.text[0];
    if IsOperator(t) {
      OperatorsAreNoBrackets(t);
    } else if IsBracket(t) {
      assert !IsOp(t.text) by {
        assert t.text[0] == '(' || t.text[0] == ')';
      }
    }
    if |ts| == 1 {
      assert Below(ts) == [];
    } else {
      var before := Below(ts);
      LegalSlice(ts, 0, |ts| - 1);
      assert before == ts[0..|ts| - 1];
      Alternation(before);
      assert Fits(ts, |ts| - 2);
    }
  }

  lemma {:induction false} UnclosedIsNet(ts: seq<Token>)
    requires NeverNegative(ts)
    ensures Unclosed(ts) == Net(ts)
    decreases |ts|
  {
    if ts != [] {
      var before := Below(ts);
      forall k | 0 <= k <= |before|
        ensures Open(before, k, 0)
      {
        assert Open(ts, k, 0);
        assert before[..k] == ts[..k];
      }
      UnclosedIsNet(before);
      NetPop(ts);
      assert Open(ts, |ts|, 0) && ts[..|ts|] == ts;
    }
  }

  /** An accepted list has one operand more than operators. */
  lemma {:induction false} DepthCounts(rpn: seq<Token>, d: nat)
    requires Depth(rpn, d).Some?
    requires forall t :: t in rpn ==> t.Number? || IsOperator(t)
    ensures Depth(rpn, d).value == d + 2 * |NumbersOf(rpn)| - |rpn|
    decreases |rpn|
  {
    if rpn != [] {
      NumbersOfFirst(rpn);
      DepthCounts(rpn[1..], if rpn[0].Number? then d + 1 else d - 1);
    }
  }

  lemma {:induction false} NumbersOfFirst(ts: seq<Token>)
    requires ts != []
    ensures |NumbersOf(ts)| == |NumbersOf(ts[1..])| + if ts[0].Number? then 1 else 0
    decreases |ts|
  {
    if |ts| > 1 {
      assert Below(ts)[1..] == Below(ts[1..]);
      NumbersOfFirst(Below(ts));
    } else {
      assert Below(ts) == [] && ts[1..] == [];
    }
  }

  lemma {:induction false} WithoutBracketsLength(ts: seq<Token>)
    requires Legal(ts)
    ensures |WithoutBrackets(ts)| == |NumbersOf(ts)| + Operators(ts)
    decreases |ts|
  {
    if ts != [] {
      LegalSlice(ts, 0, |ts| - 1);
      assert Below(ts) == ts[0..|ts| - 1];
      WithoutBracketsLength(Below(ts));
      if IsOperator(Top(ts)) {
        OperatorsAreNoBrackets(Top(ts));
      } else if IsBracket(Top(ts)) {
        assert Top(ts).text[0] == '(' || Top(ts).text[0] == ')';
      }
    }
  }

  lemma LegalIsKnown(ts: seq<Token>)
    requires Legal(ts)
    ensures Known(ts)
  {
    forall t | t in ts
      ensures t.Number? || IsOp(t.text) || IsBracket(t)
    {
      var i :| 0 <= i < |ts| && ts[i] == t;
    }
  }

  lemma UpdateAbsent(m: multiset<Token>, x: Token)
    requires m[x] == 0
    ensures m[x := 0] == m
  {
  }

  /** With no bracket left open the output is as long as the input without brackets. */
  lemma ClosedOutput(ts: seq<Token>)
    requires Known(ts) && Unclosed(ts) == 0
    ensures |Convert(ts)| == |WithoutBrackets(ts)|
    ensures multiset(Convert(ts)) == multiset(WithoutBrackets(ts))
  {
    var rpn, rest := Convert(ts), WithoutBrackets(ts);
    ConversionConserves(ts);
    WithoutBracketsHasNone(ts);
    assert LEFT_BRACKET !in rest;
    UpdateAbsent(multiset(rest), LEFT_BRACKET);
    assert |rpn| == |multiset(rpn)| && |rest| == |multiset(rest)|;
  }

  lemma OutputTokens(ts: seq<Token>)
    requires Legal(ts) && multiset(Convert(ts)) == multiset(WithoutBrackets(ts))
    ensures forall t :: t in Convert(ts) ==> t.Number? || IsOperator(t)
  {
    WithoutBracketsHasNone(ts);
    WithoutBracketsFrom(ts);
    forall t | t in Convert(ts)
      ensures t.Number? || IsOperator(t)
    {
      assert t in multiset(Convert(ts));
      assert t in WithoutBrackets(ts) && t in ts;
      var i :| 0 <= i < |ts| && ts[i] == t;
    }
  }

  lemma AcceptedCounts(ts: seq<Token>)
    requires Legal(ts) && Balanced(ts) && Accepts(Convert(ts))
    ensures |NumbersOf(ts)| == Operators(ts) + 1
  {
    LegalIsKnown(ts);
    UnclosedIsNet(ts);
    ClosedOutput(ts);
    OutputTokens(ts);
    NumbersKeepOrder(ts);
    WithoutBracketsLength(ts);
    DepthCounts(Convert(ts), 0);
  }

  lemma {:induction false} WithoutBracketsFrom(ts: seq<Token>)
    ensures forall t :: t in WithoutBrackets(ts) ==> t in ts
    decreases |ts|
  {
    if ts != [] {
      WithoutBracketsFrom(Below(ts));
    }
  }

  /**
   A token list whose numbers come from literals is an expression of the grammar exactly when Parse
   accepts it, its brackets balance and its neighbouring tokens fit.
   */
  lemma {:induction false} ExactInfix(ts: seq<Token>)
    ensures (exists e: Infix :: WellFormed(e) && Tokens(e) == ts)
       <==> Accepts(Convert(ts)) && Legal(ts) && Balanced(ts)
  {
    forall e: Infix | WellFormed(e) && Tokens(e) == ts
      ensures Accepts(Convert(ts)) && Legal(ts) && Balanced(ts)
    {
      ShuntingYardIsCorrect(e);
      DerivationIsSentence(e);
    }
    if Accepts(Convert(ts)) && Legal(ts) && Balanced(ts) {
      AcceptedCounts(ts);
      assert ts != [] by {
        assert NumbersOf([]) == [];
      }
      Alternation(ts);
      var e := Derive(ts);
      assert WellFormed(e) && Tokens(e) == ts;
    }
  }

  /** The numbers tokenize makes come from literals. */
  lemma {:induction false} DenotedIsSpellable(ls: seq<Lexeme>)
    requires Denote(ls).Some? && forall i :: 0 <= i < |ls| ==> IsLexeme(ls[i])
    ensures forall t :: t in Denote(ls).value ==> Spellable(t)
    decreases |ls|
  {
    if ls != [] {
      assert IsLexeme(ls[0]);
      DenotedIsSpellable(ls[1..]);
    }
  }

  /**
   A text reads as an expression of the grammar exactly when Parse accepts it, its brackets balance
   and its neighbouring tokens fit; Parse itself checks neither. The meaning is then the tree's.
   */
  lemma {:induction false} ExactText(s: string)
    ensures (exists e: Infix :: WellFormed(e) && Lex(s, "") == Some(Tokens(e)))
       <==> Parsed(s).Some? && Fitting(Lex(s, "").value) && Balanced(Lex(s, "").value)
    ensures forall e: Infix :: WellFormed(e) && Lex(s, "") == Some(Tokens(e)) ==>
              Parsed(s).Some? && Meaning(s) == Eval(Abstract(e))
  {
    if Lex(s, "").Some? {
      LexDenotesLexemes(s, "");
      LexemesSpell(s, "");
      DenotedIsSpellable(LexemesOf(s, ""));
      ExactInfix(Lex(s, "").value);
    }
    forall e: Infix | WellFormed(e) && Lex(s, "") == Some(Tokens(e))
      ensures Parsed(s).Some? && Meaning(s) == Eval(Abstract(e))
    {
      ShuntingYardIsCorrect(e);
    }
  }
}
