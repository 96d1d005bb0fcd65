/** jsky/postfix.js: a recursive-descent translator from infix to postfix for one-character
    operands joined by `+` and `-`. The parser reads the input one non-space character at
    a time into a shared lookahead and prints each operand, and each operator after its
    right operand; the printed lines are kept here as an output sequence. */
module Postfix {
  import opened JsText
  import opened JsValues

  /** A lookahead: one character, the empty string (`charAt` past the end after trailing
      spaces), or `null` (reading at or past the end). */
  datatype Token = Char(c: char) | Empty | NullTok

  /** What `console.log(lookahead)` prints. */
  function Show(t: Token): string {
    match t
    case Char(c) => [c]
    case Empty => ""
    case NullTok => "null"
  }

  /** The JavaScript value of a lookahead. */
  function TokenValue(t: Token): Value {
    match t
    case Char(c) => Str([c])
    case Empty => Str("")
    case NullTok => Value.Null
  }

  /** `isDigit(num)`: `!isNaN(Number(num))`. */
  predicate IsDigitToken(t: Token) {
    !IsNaN(TokenValue(t))
  }

  predicate IsOperator(t: Token) {
    t == Char('+') || t == Char('-')
  }

  /** A character counts as an operand exactly when it is a decimal digit or white space
      (`Number` of a blank string is 0); the empty string and `null` count as well, and
      the operators do not. */
  lemma IsDigitTokenCases(t: Token)
    ensures t.Char? ==> (IsDigitToken(t) <==> IsDigit(t.c) || IsSpace(t.c))
    ensures !t.Char? ==> IsDigitToken(t)
    ensures IsOperator(t) ==> !IsDigitToken(t)
  {
    if t.Char? {
      var s := [t.c];
      if IsSpace(t.c) {
        assert LeadingSpace(s) == 1;
      } else {
        assert LeadingSpace(s) == 0 && TrailingSpace(s) == 0;
        assert Trim(s) == s;
        if IsDigit(t.c) {
          assert LeadingDigits(s) == 1;
        } else if t.c == '+' || t.c == '-' {
          assert s[1..] == [];
        } else {
          assert LeadingDigits(s) == 0;
        }
      }
    }
  }

  // ---------------------------------------------------------------------------
  // Reading

  /** The loop of `read`: skip spaces from `p`; past the last character `charAt` gives the
      empty string and the position ends one past the end. */
  function SkipFrom(input: string, p: nat): (r: (Token, nat))
    requires p <= |input|
    ensures p < r.1 <= |input| + 1 && !r.0.NullTok?
    ensures r.0.Char? ==> r.1 <= |input| && r.0.c != ' '
    decreases |input| - p
  {
    if p == |input| then (Empty, p + 1)
    else if input[p] == ' ' then SkipFrom(input, p + 1)
    else (Char(input[p]), p + 1)
  }

  /** `read()` from position `pos`: the token and the new position. */
  function ReadSpec(input: string, pos: nat): (r: (Token, nat))
    ensures pos >= |input| ==> r == (NullTok, pos)
    ensures pos < |input| ==> pos < r.1 <= |input| + 1 && !r.0.NullTok?
    ensures r.0.Char? ==> r.1 <= |input| && r.0.c != ' '
  {
    if pos < |input| then SkipFrom(input, pos) else (NullTok, pos)
  }

  /** The characters of `s` other than spaces. */
  function NonSpace(s: string): string {
    if |s| == 0 then "" else (if s[0] == ' ' then "" else [s[0]]) + NonSpace(s[1..])
  }

  /** What is left to read from `pos`. */
  function Remaining(input: string, pos: nat): string {
    if pos <= |input| then NonSpace(input[pos..]) else ""
  }

  lemma {:induction false} SkipFromStream(input: string, p: nat)
    requires p <= |input|
    ensures var (t, q) := SkipFrom(input, p);
      (Remaining(input, p) != "" ==> t == Char(Remaining(input, p)[0]) && Remaining(input, q) == Remaining(input, p)[1..])
      && (Remaining(input, p) == "" ==> t == Empty && Remaining(input, q) == "")
    decreases |input| - p
  {
    if p < |input| {
      assert input[p..][1..] == input[p + 1..];
      if input[p] == ' ' {
        SkipFromStream(input, p + 1);
      }
    }
  }

  /** Each read yields the next non-space character and moves past it; once only spaces
      are left it yields the empty string or `null`. */
  lemma ReadStream(input: string, pos: nat)
    ensures var (t, q) := ReadSpec(input, pos);
      (Remaining(input, pos) != "" ==> t == Char(Remaining(input, pos)[0]) && Remaining(input, q) == Remaining(input, pos)[1..])
      && (Remaining(input, pos) == "" ==> (t == Empty || t == NullTok) && Remaining(input, q) == "")
  {
    if pos < |input| {
      SkipFromStream(input, pos);
    } else if pos == |input| {
      assert input[pos..] == [];
    }
  }

  // ---------------------------------------------------------------------------
  // Well-formed expressions

  /** The rest of an expression after its first operand: operator, operand, operator, … */
  predicate WellFormedTail(s: string) {
    |s| == 0 || (|s| >= 2 && (s[0] == '+' || s[0] == '-') && IsDigit(s[1]) && WellFormedTail(s[2..]))
  }

  /** Each operand then its operator, as printed lines. */
  function PostfixTail(s: string): (r: seq<string>)
  {
    if |s| < 2 then [] else [[s[1]], [s[0]]] + PostfixTail(s[2..])
  }

  /** Printing a well-formed tail swaps each operator with the operand after it: every
      line is one character, and the operands and the operators keep their order. */
  lemma {:induction false} PostfixTailShape(s: string)
    requires WellFormedTail(s)
    ensures |PostfixTail(s)| == |s|
    ensures forall k :: 0 <= k && 2 * k + 1 < |s| ==> PostfixTail(s)[2 * k] == [s[2 * k + 1]] && PostfixTail(s)[2 * k + 1] == [s[2 * k]]
    decreases |s|
  {
    if |s| >= 2 {
      var r, t := PostfixTail(s), s[2..];
      PostfixTailShape(t);
      forall k | 1 <= k && 2 * k + 1 < |s|
        ensures r[2 * k] == [s[2 * k + 1]] && r[2 * k + 1] == [s[2 * k]]
      {
        var m := k - 1;
        assert r[2 * k] == PostfixTail(t)[2 * m] && r[2 * k + 1] == PostfixTail(t)[2 * m + 1];
        assert t[2 * m] == s[2 * k] && t[2 * m + 1] == s[2 * k + 1];
      }
    }
  }

  // ---------------------------------------------------------------------------
  // The parser

  class Parser {
    const input: string
    var inputPosition: nat
    /** The module-level `lookahead`. */
    var lookahead: Token
    /** The lines printed so far. */
    var output: seq<string>

    /** `new Parser(input)`: position 0, then the first read into the lookahead. */
    constructor (input: string)
      ensures this.input == input && output == []
      ensures (lookahead, inputPosition) == ReadSpec(input, 0)
    {
      this.input := input;
      inputPosition := 0;
      output := [];
      new;
      lookahead := Read();
    }

    /** `read()` */
    method Read() returns (ret: Token)
      modifies this
      ensures (ret, inputPosition) == ReadSpec(input, old(inputPosition))
      ensures lookahead == old(lookahead) && output == old(output)
    {
      var pos := inputPosition;
      if pos < |input| {
        ret := Char(input[pos]);
        pos := pos + 1;
        while ret == Char(' ')
          invariant inputPosition < pos <= |input| + 1
          invariant ret.Char? ==> pos <= |input| && ret == Char(input[pos - 1])
          invariant ret == Char(' ') ==> SkipFrom(input, pos) == SkipFrom(input, old(inputPosition))
          invariant ret != Char(' ') ==> (ret, pos) == SkipFrom(input, old(inputPosition))
          decreases |input| + 1 - pos
        {
          ret := if pos < |input| then Char(input[pos]) else Empty;
          pos := pos + 1;
        }
        inputPosition := pos;
      } else {
        ret := NullTok;
      }
    }

    /** `match(t)`: on the expected token the next one is read; otherwise a syntax error
        and nothing changes. */
    method Match(t: Token) returns (ok: bool)
      modifies this
      ensures ok <==> old(lookahead) == t
      ensures ok ==> (lookahead, inputPosition) == ReadSpec(input, old(inputPosition))
      ensures !ok ==> lookahead == old(lookahead) && inputPosition == old(inputPosition)
      ensures output == old(output)
    {
      if lookahead == t {
        lookahead := Read();
        ok := true;
      } else {
        ok := false;
      }
    }

    /** `term()`: an operand is printed and consumed; anything else is a syntax error. */
    method Term() returns (ok: bool)
      modifies this
      ensures ok <==> IsDigitToken(old(lookahead))
      ensures ok ==> output == old(output) + [Show(old(lookahead))] && (lookahead, inputPosition) == ReadSpec(input, old(inputPosition))
      ensures !ok ==> output == old(output) && lookahead == old(lookahead) && inputPosition == old(inputPosition)
    {
      if IsDigitToken(lookahead) {
        output := output + [Show(lookahead)];
        ok := Match(lookahead);
      } else {
        ok := false;
      }
    }

    /** One round of the loop in `expr()` on an operator lookahead: the operator is
        matched, a term is read and printed, and then the operator is printed. */
    method Operation() returns (ok: bool)
      modifies this
      requires IsOperator(lookahead)
      ensures var (t, p) := ReadSpec(input, old(inputPosition)); (ok <==> IsDigitToken(t)) && (ok ==> output == old(output) + [Show(t), Show(old(lookahead))] && (lookahead, inputPosition) == ReadSpec(input, p)) && (!ok ==> output == old(output) && lookahead == t && inputPosition == p)
    {
      var op := lookahead;
      ok := Match(op);
      ok := Term();
      if ok {
        output := output + [Show(op)];
      }
    }

    /** `expr()`: a term, then as long as the lookahead is an operator, the operator, a
        term, and the operator printed. It stops without consuming at the first lookahead
        that is no operator. On a well-formed expression it prints the postfix form and
        reads to the end. */
    method Expr() returns (ok: bool)
      modifies this
      requires inputPosition <= |input| + 1
      ensures |output| >= |old(output)| && output[..|old(output)|] == old(output)
      ensures ok ==> !IsOperator(lookahead)
      ensures old(lookahead).Char? && IsDigit(old(lookahead).c) && WellFormedTail(Remaining(input, old(inputPosition))) ==> ok && (lookahead == Empty || lookahead == NullTok) && output == old(output) + [[old(lookahead).c]] + PostfixTail(Remaining(input, old(inputPosition)))
    {
      ghost var out0 := output;
      ghost var tail := Remaining(input, inputPosition);
      ghost var wf := lookahead.Char? && IsDigit(lookahead.c) && WellFormedTail(tail);
      ghost var first := lookahead;
      if wf {
        IsDigitTokenCases(lookahead);
        ReadStream(input, inputPosition);
      }
      ok := Term();
      if !ok {
        return;
      }
      ghost var rest := tail;
      while IsOperator(lookahead)
        invariant inputPosition <= |input| + 1
        invariant |output| >= |out0| && output[..|out0|] == out0
        invariant wf ==> WellFormedTail(rest) && output + PostfixTail(rest) == out0 + [[first.c]] + PostfixTail(tail)
        invariant wf ==> Remaining(input, inputPosition) == (if rest == "" then "" else rest[1..])
        invariant wf && rest != "" ==> lookahead == Char(rest[0])
        invariant wf && rest == "" ==> lookahead == Empty || lookahead == NullTok
        decreases |input| + 2 - inputPosition, if IsOperator(lookahead) then 1 else 0
      {
        ghost var pos, before, op := inputPosition, output, lookahead;
        if wf {
          OperatorStep(input, pos, rest);
        }
        ok := Operation();
        if !ok {
          return;
        }
        ghost var step := [Show(ReadSpec(input, pos).0), Show(op)];
        PrefixKept(out0, before, step);
        if wf {
          TailStep(rest, before, step);
          rest := rest[2..];
        }
      }
    }
  }

  lemma PrefixKept(out0: seq<string>, before: seq<string>, step: seq<string>)
    requires |before| >= |out0| && before[..|out0|] == out0
    ensures |before + step| >= |out0| && (before + step)[..|out0|] == out0
  {
    assert (before + step)[..|out0|] == before[..|out0|];
  }

  lemma TailStep(rest: string, before: seq<string>, step: seq<string>)
    requires |rest| >= 2 && step == [[rest[1]], [rest[0]]]
    ensures (before + step) + PostfixTail(rest[2..]) == before + PostfixTail(rest)
  {
  }

  /** In a well-formed expression, the operator at the head of `rest` is followed by its
      operand, and the read after that yields the next operator or the end. */
  lemma OperatorStep(input: string, pos: nat, rest: string)
    requires WellFormedTail(rest) && rest != ""
    requires Remaining(input, pos) == rest[1..]
    ensures |rest| >= 2
    ensures ReadSpec(input, pos).0 == Char(rest[1]) && IsDigitToken(ReadSpec(input, pos).0)
    ensures Show(ReadSpec(input, pos).0) == [rest[1]]
    ensures var (t, q) := ReadSpec(input, ReadSpec(input, pos).1); rest[2..] != "" ==> t == Char(rest[2]) && Remaining(input, q) == rest[3..]
    ensures var (t, q) := ReadSpec(input, ReadSpec(input, pos).1); rest[2..] == "" ==> (t == Empty || t == NullTok) && Remaining(input, q) == ""
  {
    ReadStream(input, pos);
    assert rest[1..][1..] == rest[2..];
    var (t, p) := ReadSpec(input, pos);
    IsDigitTokenCases(t);
    ReadStream(input, p);
    if |rest| > 2 {
      assert rest[2..][1..] == rest[3..];
    }
  }

  /** The program's own run: `'9 - 5 + 2'` prints `9 5 - 2 +`. */
  method Example() returns (printed: seq<string>)
    ensures printed == ["9", "5", "-", "2", "+"]
  {
    var parser := new Parser("9 - 5 + 2");
    ExampleRead(parser.input);
    ExampleRemaining(parser.input);
    ExamplePrinted();
    var ok := parser.Expr();
    printed := parser.output;
  }

  /** The first read of the example yields its first operand. */
  lemma ExampleRead(input: string)
    requires input == "9 - 5 + 2"
    ensures ReadSpec(input, 0) == (Char('9'), 1)
  {
  }

  /** After the first operand, the example holds a well-formed tail. */
  lemma ExampleRemaining(input: string)
    requires input == "9 - 5 + 2"
    ensures Remaining(input, 1) == "-5+2" && WellFormedTail("-5+2")
  {
    assert input[1..] == " - 5 + 2";
    ExampleLastSpaces();
    ExampleFirstSpaces();
    assert WellFormedTail("-5+2") by {
      assert "-5+2"[2..] == "+2" && "+2"[2..] == "";
    }
  }

  lemma ExampleLastSpaces()
    ensures NonSpace(" + 2") == "+2"
  {
    assert " + 2"[1..] == "+ 2" && "+ 2"[1..] == " 2" && " 2"[1..] == "2" && "2"[1..] == "";
    assert NonSpace("2") == "2";
    assert NonSpace(" 2") == "2";
    assert NonSpace("+ 2") == "+2";
  }

  lemma ExampleFirstSpaces()
    ensures NonSpace(" - 5 + 2") == "-5+2"
  {
    ExampleLastSpaces();
    assert " - 5 + 2"[1..] == "- 5 + 2" && "- 5 + 2"[1..] == " 5 + 2";
    assert " 5 + 2"[1..] == "5 + 2" && "5 + 2"[1..] == " + 2";
    assert NonSpace("5 + 2") == "5+2";
    assert NonSpace(" 5 + 2") == "5+2";
    assert NonSpace("- 5 + 2") == "-5+2";
  }

  /** The lines printed for the example: `9 5 - 2 +`. */
  lemma ExamplePrinted()
    ensures [["9"[0]]] + PostfixTail("-5+2") == ["9", "5", "-", "2", "+"]
  {
    assert "-5+2"[2..] == "+2" && "+2"[2..] == "";
    assert PostfixTail("+2") == [['2'], ['+']];
  }
}
