/**
 Splitting the input into tokens (calc.go, tokenize), and what exactly it computes: blanks count for
 nothing, also inside a number, and the rest splits uniquely into maximal numerals and single signs.
 */
module Tokenizer {
  import opened Wrappers
  import opened Numbers
  import opened Types

  predicate IsDigit(c: char) {
    '0' <= c <= '9' || c == '.'
  }

  /** The characters of a number, one by one. */
  const LITERAL_CHARS: string := "0123456789."

  lemma LiteralChars(c: char)
    ensures IsDigit(c) <==> c in LITERAL_CHARS
  {
    assert LITERAL_CHARS == ['0', '1', '2', '3', '4', '5', '6', '7', '8', '9', '.'];
    if '0' <= c <= '9' {
      assert LITERAL_CHARS[c as int - '0' as int] == c;
    } else if c == '.' {
      assert LITERAL_CHARS[10] == c;
    }
  }

  /** A text over these characters. */
  predicate IsLiteral(text: string) {
    text != "" && forall i :: 0 <= i < |text| ==> text[i] in LITERAL_CHARS
  }

  lemma LiteralIsNumeral(text: string)
    ensures IsLiteral(text) <==> IsNumeral(text)
  {
    forall i | 0 <= i < |text|
      ensures text[i] in LITERAL_CHARS <==> IsDigit(text[i])
    {
      LiteralChars(text[i]);
    }
    if IsLiteral(text) {
      forall c | c in text
        ensures IsDigit(c)
      {
        var i :| 0 <= i < |text| && text[i] == c;
      }
    }
    if IsNumeral(text) {
      assert forall i :: 0 <= i < |text| ==> text[i] in text;
    }
  }

  predicate IsNumeral(text: string) {
    text != "" && (forall c :: c in text ==> IsDigit(c))
  }

  /** The tokens of `s` when the number buffer holds `buf`; None when a literal does not parse. */
  function Lex(s: string, buf: string): Option<seq<Token>>
    decreases |s|
  {
    if s == "" then
      if buf == "" then Some([])
      else if ParseFloat(buf) == None then None
      else Some([Number(ParseFloat(buf).value)])
    else if IsDigit(s[0]) then
      Lex(s[1..], buf + [s[0]])
    else if s[0] != ' ' then
      if buf == "" then
        Prepend([Symbol([s[0]])], Lex(s[1..], ""))
      else if ParseFloat(buf) == None then
        None
      else
        Prepend([Number(ParseFloat(buf).value), Symbol([s[0]])], Lex(s[1..], ""))
    else
      Lex(s[1..], buf)
  }

  function Prepend(front: seq<Token>, rest: Option<seq<Token>>): (r: Option<seq<Token>>)
    ensures front == [] ==> r == rest
    ensures rest == Some([]) ==> r == Some(front)
  {
    if rest == None then None
    else
      assert front + [] == front && [] + rest.value == rest.value;
      Some(front + rest.value)
  }

  lemma PrependTwice(a: seq<Token>, b: seq<Token>, rest: Option<seq<Token>>)
    ensures Prepend(a, Prepend(b, rest)) == Prepend(a + b, rest)
  {
    if rest.Some? {
      assert a + (b + rest.value) == (a + b) + rest.value;
    }
  }

  method Tokenize(s: string) returns (result: Result<seq<Token>, string>)
    ensures result == match Lex(s, "") { case Some(tokens) => Ok(tokens) case None => Err("invalid expression") }
  {
    var tokens: seq<Token> := [];
    var numberBuf := "";
    for i := 0 to |s|
      invariant Prepend(tokens, Lex(s[i..], numberBuf)) == Lex(s, "")
    {
      var ch := s[i];
      assert s[i..][1..] == s[i + 1..];
      ghost var rest := Lex(s[i + 1..], "");
      if '0' <= ch <= '9' || ch == '.' {
        numberBuf := numberBuf + [ch];
      } else if ch != ' ' {
        ghost var before := tokens;
        if |numberBuf| > 0 {
          var num := ParseFloat(numberBuf);
          if num == None {
            return Err("invalid expression");
          }
          tokens := tokens + [Number(num.value)];
          numberBuf := "";
          PrependTwice(before, [Number(num.value), Symbol([ch])], rest);
        } else {
          PrependTwice(before, [Symbol([ch])], rest);
        }
        tokens := tokens + [Symbol([ch])];
        assert |tokens| == |before| + 2 ==> tokens == before + [tokens[|before|], Symbol([ch])];
      }
    }
    assert s[|s|..] == "";
    if |numberBuf| > 0 {
      var num := ParseFloat(numberBuf);
      if num == None {
        return Err("invalid expression");
      }
      tokens := tokens + [Number(num.value)];
    }
    return Ok(tokens);
  }

  function Despace(s: string): string {
    if s == "" then "" else if s[0] == ' ' then Despace(s[1..]) else [s[0]] + Despace(s[1..])
  }

  datatype Lexeme = Numeral(text: string) | Sign(c: char)

  function Text(ls: seq<Lexeme>): string {
    if ls == [] then ""
    else (match ls[0] case Numeral(text) => text case Sign(c) => [c]) + Text(ls[1..])
  }

  predicate IsLexeme(l: Lexeme) {
    match l
    case Numeral(text) => IsNumeral(text)
    case Sign(c) => !IsDigit(c) && c != ' '
  }

  /** A splitting into numerals, no two of them adjacent, and signs. */
  predicate IsLexing(ls: seq<Lexeme>) {
    && (forall i :: 0 <= i < |ls| ==> IsLexeme(ls[i]))
    && (forall i :: 0 <= i < |ls| - 1 ==> ls[i].Sign? || ls[i + 1].Sign?)
  }

  function Denote(ls: seq<Lexeme>): Option<seq<Token>> {
    if ls == [] then Some([])
    else match ls[0]
      case Sign(c) => Prepend([Symbol([c])], Denote(ls[1..]))
      case Numeral(text) =>
        if ParseFloat(text) == None then None
        else Prepend([Number(ParseFloat(text).value)], Denote(ls[1..]))
  }

  function Flushed(buf: string): seq<Lexeme> {
    if buf == "" then [] else [Numeral(buf)]
  }

  /** The splitting the loop makes. */
  function LexemesOf(s: string, buf: string): seq<Lexeme>
    decreases |s|
  {
    if s == "" then Flushed(buf)
    else if IsDigit(s[0]) then LexemesOf(s[1..], buf + [s[0]])
    else if s[0] != ' ' then Flushed(buf) + ([Sign(s[0])] + LexemesOf(s[1..], ""))
    else LexemesOf(s[1..], buf)
  }

  lemma {:induction false} TextConcat(a: seq<Lexeme>, b: seq<Lexeme>)
    ensures Text(a + b) == Text(a) + Text(b)
    decreases |a|
  {
    if a == [] {
      assert a + b == b;
    } else {
      assert (a + b)[1..] == a[1..] + b;
      TextConcat(a[1..], b);
    }
  }

  lemma {:induction false} LexDenotesLexemes(s: string, buf: string)
    ensures Lex(s, buf) == Denote(LexemesOf(s, buf))
    decreases |s|
  {
    if s == "" {
    } else if IsDigit(s[0]) {
      LexDenotesLexemes(s[1..], buf + [s[0]]);
    } else if s[0] != ' ' {
      LexDenotesLexemes(s[1..], "");
      var sign := Symbol([s[0]]);
      var rest := [Sign(s[0])] + LexemesOf(s[1..], "");
      assert rest[1..] == LexemesOf(s[1..], "");
      if buf != "" {
        assert (Flushed(buf) + rest)[1..] == rest;
        assert Lex(s[1..], "") == Denote(rest[1..]);
        if ParseFloat(buf).Some? {
          PrependTwice([Number(ParseFloat(buf).value)], [sign], Lex(s[1..], ""));
          assert [Number(ParseFloat(buf).value)] + [sign] == [Number(ParseFloat(buf).value), sign];
        }
      } else {
        assert Flushed(buf) + rest == rest;
      }
    } else {
      LexDenotesLexemes(s[1..], buf);
    }
  }

  lemma {:induction false} LexemesSpell(s: string, buf: string)
    requires buf == "" || IsNumeral(buf)
    ensures Text(LexemesOf(s, buf)) == buf + Despace(s)
    ensures IsLexing(LexemesOf(s, buf))
    ensures buf != "" ==> LexemesOf(s, buf) != [] && LexemesOf(s, buf)[0].Numeral?
    decreases |s|
  {
    if s == "" {
    } else if IsDigit(s[0]) {
      LexemesSpell(s[1..], buf + [s[0]]);
      assert buf + [s[0]] + Despace(s[1..]) == buf + Despace(s);
    } else if s[0] != ' ' {
      LexemesSpell(s[1..], "");
      var rest := [Sign(s[0])] + LexemesOf(s[1..], "");
      assert rest[1..] == LexemesOf(s[1..], "");
      assert Text(rest) == Despace(s);
      if buf != "" {
        assert (Flushed(buf) + rest)[1..] == rest;
      } else {
        assert Flushed(buf) + rest == rest;
      }
    } else {
      LexemesSpell(s[1..], buf);
    }
  }

  lemma {:induction false} BlanksDoNotMatter(s: string, buf: string)
    ensures LexemesOf(s, buf) == LexemesOf(Despace(s), buf)
    decreases |s|
  {
    if s != "" {
      var rest := s[1..];
      if s[0] != ' ' {
        assert Despace(s)[0] == s[0] && Despace(s)[1..] == Despace(rest);
      }
      BlanksDoNotMatter(rest, if IsDigit(s[0]) then buf + [s[0]] else if s[0] != ' ' then "" else buf);
    }
  }

  /** Digits go to the buffer one by one. */
  lemma {:induction false} LexemesOfNumeral(digits: string, s: string, buf: string)
    requires forall c :: c in digits ==> IsDigit(c)
    ensures LexemesOf(digits + s, buf) == LexemesOf(s, buf + digits)
    decreases |digits|
  {
    if digits == "" {
      assert digits + s == s && buf + digits == buf;
    } else {
      assert (digits + s)[1..] == digits[1..] + s;
      LexemesOfNumeral(digits[1..], s, buf + [digits[0]]);
      assert buf + [digits[0]] + digits[1..] == buf + digits;
    }
  }

  lemma {:induction false} LexingIsUnique(ls: seq<Lexeme>)
    requires IsLexing(ls)
    ensures LexemesOf(Text(ls), "") == ls
    decreases |ls|
  {
    if ls != [] {
      var rest := ls[1..];
      assert forall i :: 0 <= i < |rest| ==> rest[i] == ls[i + 1];
      match ls[0]
      case Sign(c) =>
        LexingIsUnique(rest);
        assert Text(ls)[1..] == Text(rest);
        assert ls == [Sign(c)] + rest;
      case Numeral(text) =>
        LexemesOfNumeral(text, Text(rest), "");
        assert "" + text == text;
        if rest == [] {
          assert ls == [Numeral(text)];
        } else {
          var c, tail := rest[0].c, rest[1..];
          assert forall i :: 0 <= i < |tail| ==> tail[i] == rest[i + 1];
          LexingIsUnique(tail);
          assert Text(rest)[1..] == Text(tail);
          assert ls == [Numeral(text)] + ([Sign(c)] + tail);
        }
    }
  }

  /**
   tokenize yields `tokens` exactly when the input, blanks removed, splits into numerals and signs
   that denote them; the splitting is unique, so it is also the only possible answer.
   */
  lemma ExactTokens(s: string, tokens: seq<Token>)
    ensures Lex(s, "") == Some(tokens)
       <==> exists ls :: IsLexing(ls) && Text(ls) == Despace(s) && Denote(ls) == Some(tokens)
  {
    LexDenotesLexemes(s, "");
    LexemesSpell(s, "");
    var mine := LexemesOf(s, "");
    assert "" + Despace(s) == Despace(s);
    assert IsLexing(mine) && Text(mine) == Despace(s);
    forall ls | IsLexing(ls) && Text(ls) == Despace(s)
      ensures ls == mine
    {
      LexingIsUnique(ls);
      BlanksDoNotMatter(s, "");
    }
  }

  // ---- Which characters make numbers ----

  /** A nonempty text over the literal characters is one number, if the literal parser takes it, or an error. */
  lemma {:induction false} LiteralIsNumber(text: string)
    requires text != "" && forall i :: 0 <= i < |text| ==> text[i] in "0123456789."
    ensures Lex(text, "") == match ParseFloat(text) { case None => None case Some(n) => Some([Number(n)]) }
  {
    LiteralIsNumeral(text);
    LexemesOfNumeral(text, "", "");
    assert text + "" == text && "" + text == text;
    LexDenotesLexemes(text, "");
    assert [Numeral(text)][1..] == [];
  }

  /** A sign ends what is before it. */
  lemma {:induction false} LexAtSign(u: string, c: char, v: string, buf: string)
    requires !IsDigit(c) && c != ' '
    ensures Lex(u + [c] + v, buf)
         == if Lex(u, buf).None? || Lex(v, "").None? then None
            else Some(Lex(u, buf).value + [Symbol([c])] + Lex(v, "").value)
    decreases |u|
  {
    var s := u + [c] + v;
    if u == "" {
      assert s[0] == c && s[1..] == v;
      if buf != "" && ParseFloat(buf).Some? {
        assert [Number(ParseFloat(buf).value)] + [Symbol([c])] == [Number(ParseFloat(buf).value), Symbol([c])];
      }
      assert [] + [Symbol([c])] == [Symbol([c])];
    } else {
      assert s[0] == u[0] && s[1..] == u[1..] + [c] + v;
      if IsDigit(u[0]) {
        LexAtSign(u[1..], c, v, buf + [u[0]]);
      } else if u[0] == ' ' {
        LexAtSign(u[1..], c, v, buf);
      } else {
        LexAtSign(u[1..], c, v, "");
        if Lex(u[1..], "").Some? && Lex(v, "").Some? {
          var front := if buf == "" then [Symbol([u[0]])] else [Number(ParseFloat(buf).GetOr(ZERO)), Symbol([u[0]])];
          Assoc(front, Lex(u[1..], "").value + [Symbol([c])], Lex(v, "").value);
          Assoc(front, Lex(u[1..], "").value, [Symbol([c])]);
        }
      }
    }
  }

  /** Any other character but the blank is a sign of its own, wherever it stands, and splits the text. */
  lemma {:induction false} OtherIsSign(u: string, c: char, v: string)
    requires c !in "0123456789. "
    ensures Lex(u + [c] + v, "")
         == if Lex(u, "").None? || Lex(v, "").None? then None
            else Some(Lex(u, "").value + [Symbol([c])] + Lex(v, "").value)
  {
    LiteralChars(c);
    assert "0123456789. " == LITERAL_CHARS + " ";
    LexAtSign(u, c, v, "");
  }

  /** A blank is nothing, wherever it stands. */
  lemma {:induction false} BlankIsNothing(u: string, v: string, buf: string)
    ensures Lex(u + " " + v, buf) == Lex(u + v, buf)
    decreases |u|
  {
    if u == "" {
      assert (u + " " + v)[0] == ' ' && (u + " " + v)[1..] == v && u + v == v;
    } else {
      assert (u + " " + v)[1..] == u[1..] + " " + v && (u + v)[1..] == u[1..] + v;
      BlankIsNothing(u[1..], v, if IsDigit(u[0]) then buf + [u[0]] else if u[0] != ' ' then "" else buf);
    }
  }
}
