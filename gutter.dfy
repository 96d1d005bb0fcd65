/** The gutter and the per-line markup (shCore.js): `padNumber`, `figureOutLineNumbers`,
    `isLineHighlighted`, `getLineHtml`, `getLineNumbersHtml` and `getCodeLinesHtml`. The
    option lookups read a parameter map, the `params` of the highlighter. */
module Gutter {
  import opened Wrappers
  import opened JsText
  import opened JsValues
  import opened Options
  import opened Markup

  // ---------------------------------------------------------------------------
  // padNumber

  /** `n` zero characters. */
  function Zeros(n: nat): (r: string)
    ensures |r| == n && forall k :: 0 <= k < n ==> r[k] == '0'
  {
    if n == 0 then "" else "0" + Zeros(n - 1)
  }

  /** `s` with `'0'` put in front of it until it is `length` characters long. */
  function Padded(s: string, length: int): (r: string)
    ensures |r| == if length > |s| then length else |s|
    ensures r[|r| - |s|..] == s
    ensures forall k :: 0 <= k < |r| - |s| ==> r[k] == '0'
  {
    if |s| >= length then s else Zeros(length - |s|) + s
  }

  /** A zero appended to a run of zeros lengthens the run. */
  lemma {:induction false} ZerosSnoc(n: nat)
    ensures Zeros(n) + "0" == Zeros(n + 1)
  {
    if n > 0 {
      ZerosSnoc(n - 1);
      assert Zeros(n) + "0" == "0" + (Zeros(n - 1) + "0");
    }
  }

  /** One more leading zero: what each turn of `padNumber`'s loop adds. */
  lemma PaddedStep(s: string, length: int)
    requires |s| < length
    ensures Padded("0" + s, length) == Padded(s, length)
  {
    var n := length - |s| - 1;
    ZerosSnoc(n);
    if n == 0 {
      assert Padded("0" + s, length) == "0" + s;
      assert Zeros(1) == "0";
    } else {
      assert Padded("0" + s, length) == Zeros(n) + ("0" + s);
      assert Zeros(n) + ("0" + s) == (Zeros(n) + "0") + s;
    }
  }

  /** A leading zero does not change the value of a run of digits. */
  lemma {:induction false} LeadingZero(s: string)
    requires forall k :: 0 <= k < |s| ==> IsDigit(s[k])
    ensures DigitsValue("0" + s) == DigitsValue(s)
    decreases |s|
  {
    if |s| > 0 {
      var t := "0" + s;
      assert t[..|t| - 1] == "0" + s[..|s| - 1];
      assert t[|t| - 1] == s[|s| - 1];
      LeadingZero(s[..|s| - 1]);
    } else {
      assert ("0" + s)[..0] == "";
    }
  }

  /** The zeros `Padded` adds do not change the value `parseInt` reads. */
  lemma {:induction false} PaddedValue(s: string, length: int)
    requires |s| >= 1 && forall k :: 0 <= k < |s| ==> IsDigit(s[k])
    ensures var p := Padded(s, length);
      (forall k :: 0 <= k < |p| ==> IsDigit(p[k])) && DigitsValue(p) == DigitsValue(s)
    decreases length - |s|
  {
    if |s| < length {
      LeadingZero(s);
      PaddedValue("0" + s, length);
      PaddedStep(s, length);
    }
  }

  /** `padNumber(number, length)`: the number's text with zeros put in front until it is
      `length` characters long, never shortened; for a number that is not negative the
      result reads back, with `parseInt`, as the number. `number.toString()` throws for
      `undefined`, hence the precondition. */
  method PadNumber(number: Num, length: int) returns (result: string)
    requires !number.Undefined?
    ensures result == Padded(number.ToString(), length)
    ensures number.Int? && number.n >= 0 ==> ParseInt(Str(result)) == number
  {
    result := number.ToString();
    while |result| < length
      invariant Padded(result, length) == Padded(number.ToString(), length)
      decreases length - |result|
    {
      PaddedStep(result, length);
      result := "0" + result;
    }
    if number.Int? && number.n >= 0 {
      var d := NatToString(number.n);
      PaddedValue(d, length);
      NatToStringValue(number.n);
      ParseDigits(result);
    }
  }

  // ---------------------------------------------------------------------------
  // Line numbers

  /** `parseInt(this.getParam('first-line'))` */
  function FirstLine(params: map<string, Value>): (r: Num)
    ensures r.Int? || r.NaN?
  {
    ParseInt(GetParam(params, "first-line", Value.Undefined))
  }

  /** `figureOutLineNumbers(code)`: for each line of the code, its index plus the first
      line number. */
  method FigureOutLineNumbers(params: map<string, Value>, code: string) returns (lines: seq<Num>)
    ensures |lines| == |SplitLines(code)|
    ensures forall i :: 0 <= i < |lines| ==> lines[i] == FirstLine(params).Plus(i)
  {
    lines := NumberLines(FirstLine(params), |SplitLines(code)|);
  }

  /** The `eachLine` loop of `figureOutLineNumbers`: `index + firstLine` pushed for each
      of `count` lines. */
  method NumberLines(first: Num, count: nat) returns (lines: seq<Num>)
    ensures |lines| == count
    ensures forall i :: 0 <= i < count ==> lines[i] == first.Plus(i)
  {
    lines := [];
    var i := 0;
    while i < count
      invariant 0 <= i <= count && |lines| == i
      invariant forall j :: 0 <= j < i ==> lines[j] == first.Plus(j)
    {
      lines := lines + [first.Plus(i)];
      i := i + 1;
    }
  }

  /** `lineNumbers ? lineNumbers[i] : firstLine + i`; indexing past the end gives `undefined`. */
  function LineNumberAt(lineNumbers: Option<seq<Num>>, first: Num, i: nat): Num {
    match lineNumbers
    case Some(ns) => if i < |ns| then ns[i] else Num.Undefined
    case None => first.Plus(i)
  }

  /** With the numbers `figureOutLineNumbers` computed for the code, every line of the
      code gets the number the gutter shows for it. */
  lemma LineNumbersAgree(params: map<string, Value>, code: string, ns: seq<Num>, i: nat)
    requires |ns| == |SplitLines(code)|
    requires forall j :: 0 <= j < |ns| ==> ns[j] == FirstLine(params).Plus(j)
    requires i < |SplitLines(code)|
    ensures LineNumberAt(Some(ns), FirstLine(params), i) == LineNumberAt(None, FirstLine(params), i)
  {
  }

  // ---------------------------------------------------------------------------
  // isLineHighlighted

  /** `isLineHighlighted(lineNumber)`: the `highlight` option, an empty list by default, a
      value that is not an object taken as a one-element list, holds the line number's
      text (`indexOf` compares strictly, so only strings can match). `getParam` falls back
      to the default for `null`, so the option is never `null` here. */
  predicate IsLineHighlighted(params: map<string, Value>, lineNumber: Num) {
    match GetParam(params, "highlight", List([]))
    case List(items) => lineNumber.ToString() in items
    case Str(s) => s == lineNumber.ToString()
    case _ => false
  }

  /** With the default options no line is highlighted. */
  lemma NothingHighlightedByDefault(lineNumber: Num)
    ensures !IsLineHighlighted(Defaults, lineNumber)
  {
    assert GetParam(Defaults, "highlight", List([])) == List([]);
  }

  /** `highlight: [3,5]` highlights lines 3 and 5 and no other. */
  lemma HighlightList(params: map<string, Value>, n: int)
    requires "highlight" in params && params["highlight"] == List(["3", "5"])
    ensures IsLineHighlighted(params, Int(n)) <==> n == 3 || n == 5
  {
    assert ToStr(List(["3", "5"])) == "3" + "," + "5";
    assert GetParam(params, "highlight", List([])) == List(["3", "5"]);
    assert IntToString(3) == "3" && IntToString(5) == "5";
    if IntToString(n) == "3" || IntToString(n) == "5" {
      IntToStringInjective(n, if IntToString(n) == "3" then 3 else 5);
    }
  }

  /** Different integers are written differently. */
  lemma IntToStringInjective(a: int, b: int)
    requires IntToString(a) == IntToString(b)
    ensures a == b
  {
    SignOf(a);
    SignOf(b);
    var sa, sb := IntToString(a), IntToString(b);
    assert sa[0] == sb[0];
    var da, db := if a < 0 then -a else a, if b < 0 then -b else b;
    assert (a < 0) == (b < 0);
    assert NatToString(da) == NatToString(db) by {
      if a < 0 {
        assert sa[1..] == NatToString(da);
        assert sb[1..] == NatToString(db);
      }
    }
    NatToStringValue(da);
    NatToStringValue(db);
    assert da == db;
  }

  /** The text of a negative integer starts with `-`, that of any other with a digit. */
  lemma SignOf(a: int)
    ensures a < 0 <==> IntToString(a)[0] == '-'
  {
    if a >= 0 {
      assert IsDigit(NatToString(a)[0]);
    }
  }

  // ---------------------------------------------------------------------------
  // getLineHtml

  /** JavaScript's `n % 2` for a line number: the remainder takes the sign of `n`. */
  function JsMod2(n: Num): Num {
    match n
    case Int(k) => Int(if k < 0 then -((-k) % 2) else k % 2)
    case _ => NaN
  }

  /** The fourth class as written, `'alt' + lineNumber % 2 == 0 ? 1 : 2`: the operators
      group as `(('alt' + lineNumber % 2) == 0) ? 1 : 2`, a string starting with `alt`
      compared with 0. */
  function AltClassAsWritten(lineNumber: Num): string {
    if StringToNumber("alt" + JsMod2(lineNumber).ToString()) == Int(0) then "1" else "2"
  }

  /** `Number` of a text that starts with a letter is `NaN`. */
  lemma LetterFirstIsNaN(s: string)
    requires |s| > 0 && s[0] == 'a'
    ensures StringToNumber(s) == NaN
  {
    assert !IsSpace(s[0]);
    assert LeadingSpace(s) == 0;
    assert s[0..] == s;
    assert Trim(s)[0] == 'a';
  }

  /** The class as written is `2` on every line, so consecutive lines are not told apart. */
  lemma AltClassAlwaysTwo(lineNumber: Num)
    ensures AltClassAsWritten(lineNumber) == "2"
    ensures AltClassAsWritten(Int(1)) == AltClassAsWritten(Int(2))
  {
    LetterFirstIsNaN("alt" + JsMod2(lineNumber).ToString());
    LetterFirstIsNaN("alt" + JsMod2(Int(1)).ToString());
    LetterFirstIsNaN("alt" + JsMod2(Int(2)).ToString());
  }

  /** The class evidently intended, `'alt' + (lineNumber % 2 == 0 ? 1 : 2)`. */
  function AltClass(lineNumber: Num): string {
    if JsMod2(lineNumber) == Int(0) then "alt1" else "alt2"
  }

  /** Consecutive line numbers get different classes, and the classes repeat every two
      lines. */
  lemma AltClassAlternates(n: int)
    ensures AltClass(Int(n)) != AltClass(Int(n + 1))
    ensures AltClass(Int(n)) == AltClass(Int(n + 2))
  {
  }

  /** The classes of one line: `line`, its number, its index, the class meant to alternate
      (as written, always `2`), then `highlighted` and `break` when they apply. */
  function LineClasses(params: map<string, Value>, lineIndex: nat, lineNumber: Num): seq<string> {
    var base := ["line", "number" + lineNumber.ToString(), "index" + IntToString(lineIndex), AltClassAsWritten(lineNumber)];
    var highlighted := if IsLineHighlighted(params, lineNumber) then ["highlighted"] else [];
    var breaks := if lineNumber == Int(0) then ["break"] else [];
    base + highlighted + breaks
  }

  /** A line carries `line`, its number, its index and the class `2`, in that order;
      `highlighted` exactly when the `highlight` option lists it, and `break` exactly when
      its number is 0. */
  lemma LineClassesMembers(params: map<string, Value>, lineIndex: nat, lineNumber: Num)
    ensures var r := LineClasses(params, lineIndex, lineNumber);
      |r| >= 4 && r[0] == "line" && r[3] == "2"
      && r[1] == "number" + lineNumber.ToString() && r[2] == "index" + IntToString(lineIndex)
      && ("highlighted" in r <==> IsLineHighlighted(params, lineNumber))
      && ("break" in r <==> lineNumber == Int(0))
  {
    AltClassAlwaysTwo(lineNumber);
    var number, index := "number" + lineNumber.ToString(), "index" + IntToString(lineIndex);
    var highlighted, breaks := IsLineHighlighted(params, lineNumber), lineNumber == Int(0);
    var r := ["line", number, index, "2"] + (if highlighted then ["highlighted"] else []) + (if breaks then ["break"] else []);
    assert LineClasses(params, lineIndex, lineNumber) == r;
    ClassListMembers(number, index, highlighted, breaks);
  }

  /** A class list of that shape starts with its four fixed classes, and `highlighted`
      and `break` are there exactly when they were added. */
  lemma ClassListMembers(number: string, index: string, highlighted: bool, breaks: bool)
    requires |number| > 0 && number[0] == 'n' && |index| > 0 && index[0] == 'i'
    ensures var r := ["line", number, index, "2"] + (if highlighted then ["highlighted"] else []) + (if breaks then ["break"] else []);
      |r| >= 4 && r[0] == "line" && r[1] == number && r[2] == index && r[3] == "2"
      && ("highlighted" in r <==> highlighted) && ("break" in r <==> breaks)
  {
    var base := ["line", number, index, "2"];
    var r := base + (if highlighted then ["highlighted"] else []) + (if breaks then ["break"] else []);
    assert r[..4] == base;
    assert forall k :: 0 <= k < 4 ==> base[k] != "highlighted" && base[k] != "break" by {
      assert "line"[0] == 'l' && "highlighted"[0] == 'h' && "break"[0] == 'b';
    }
    assert "highlighted" != "break" by { assert "break"[0] == 'b'; }
  }

  /** `getLineHtml(lineIndex, lineNumber, code)`: the line's markup in a `div` carrying its
      classes. */
  function GetLineHtml(params: map<string, Value>, lineIndex: nat, lineNumber: Num, code: string): (r: string)
    ensures |r| >= |code| + 6 && r[|r| - 6 - |code|..|r| - 6] == code
  {
    "<div class=\"" + Join(LineClasses(params, lineIndex, lineNumber), " ") + "\">" + code + "</div>"
  }

  // ---------------------------------------------------------------------------
  // getLineNumbersHtml

  /** The padding width: `pad == true` asks for the digits of the last line number,
      `isNaN(pad)` for none, and otherwise `pad` itself is the width. */
  function PadWidth(pad: Value, first: Num, count: nat): int {
    if LooseEqualsBool(pad, true) then |first.Plus(count - 1).ToString()|
    else if IsNaN(pad) then 0
    else ToNumber(pad).n
  }

  /** What the gutter shows for a line number: the space entity for 0, the padded number
      otherwise. */
  function GutterLabel(lineNumber: Num, width: int): string {
    if lineNumber == Int(0) then Nbsp else Padded(lineNumber.ToString(), width)
  }

  /** The gutter rows for `count` lines: row `i` for line number `first + i`, its label
      padded to `width`. */
  function GutterRowsFrom(params: map<string, Value>, first: Num, width: int, count: nat): (rows: seq<string>)
    ensures |rows| == count
  {
    seq(count, i requires 0 <= i < count =>
      GetLineHtml(params, i, first.Plus(i), GutterLabel(first.Plus(i), width)))
  }

  /** The gutter rows for the code: one per line, row `i` for line number `first + i`. */
  function GutterRows(params: map<string, Value>, code: string): (rows: seq<string>)
    ensures |rows| == |SplitLines(code)|
  {
    var count := |SplitLines(code)|;
    var first := FirstLine(params);
    GutterRowsFrom(params, first, PadWidth(GetParam(params, "pad-line-numbers", Value.Undefined), first, count), count)
  }

  /** `getLineNumbersHtml(code)` as `getHtml` calls it, without line numbers: the rows for
      the lines of the code, in order. */
  method GetLineNumbersHtml(params: map<string, Value>, code: string) returns (html: string)
    ensures html == Concat(GutterRows(params, code))
  {
    var count := |SplitLines(code)|;
    var first := FirstLine(params);
    var pad := GetParam(params, "pad-line-numbers", Value.Undefined);
    var width := PadWidth(pad, first, count);
    html := LineNumberRows(params, first, width, count);
  }

  /** The loop of `getLineNumbersHtml`: one row per line, the space entity for line
      number 0 and the padded number otherwise. */
  method LineNumberRows(params: map<string, Value>, first: Num, width: int, count: nat) returns (html: string)
    ensures html == Concat(GutterRowsFrom(params, first, width, count))
  {
    ghost var rows := GutterRowsFrom(params, first, width, count);
    html := "";
    var i := 0;
    while i < count
      invariant 0 <= i <= count
      invariant html == Concat(rows[..i])
    {
      var lineNumber := first.Plus(i);
      var text := LineLabel(lineNumber, width);
      var row := GetLineHtml(params, i, lineNumber, text);
      assert row == rows[i];
      ConcatStep(rows, i, html, row);
      html := html + row;
      i := i + 1;
    }
    assert rows[..count] == rows;
  }

  /** The label of one gutter row: the space entity for line number 0, the padded number
      otherwise. */
  method LineLabel(lineNumber: Num, width: int) returns (text: string)
    requires !lineNumber.Undefined?
    ensures text == GutterLabel(lineNumber, width)
  {
    if lineNumber == Int(0) {
      text := Nbsp;
    } else {
      text := PadNumber(lineNumber, width);
    }
  }

  /** Appending row `i` to the concatenation of the rows before it. */
  lemma ConcatStep(rows: seq<string>, i: nat, acc: string, row: string)
    requires i < |rows| && acc == Concat(rows[..i]) && row == rows[i]
    ensures acc + row == Concat(rows[..i + 1])
  {
    ConcatPrefixStep(rows, i);
  }

  /** One more element of the prefix adds that element at the end. */
  lemma ConcatPrefixStep(rows: seq<string>, i: nat)
    requires i < |rows|
    ensures Concat(rows[..i + 1]) == Concat(rows[..i]) + rows[i]
  {
    assert rows[..i + 1] == rows[..i] + [rows[i]];
    ConcatAppend(rows[..i], [rows[i]]);
  }

  /** Longer numbers have at least as many digits. */
  lemma {:induction false} NatToStringLength(a: nat, b: nat)
    requires a <= b
    ensures |NatToString(a)| <= |NatToString(b)|
    decreases b
  {
    if a >= 10 {
      NatToStringLength(a / 10, b / 10);
    }
  }

  /** With the `pad-line-numbers` parameter loosely equal to `true` and a positive first
      line, the gutter pads every label to the number of digits of the last line number
      (see `GutterLabelDigits` for what a label padded that way shows). */
  lemma GutterAligned(pad: Value, f: int, count: nat)
    requires LooseEqualsBool(pad, true) && f >= 1 && count >= 1
    ensures PadWidth(pad, Int(f), count) == |NatToString(f + count - 1)|
  {
    assert Int(f).Plus(count - 1).ToString() == NatToString(f + count - 1);
  }

  /** The gutter label of a positive line number, padded to the width of a line number at
      least as large, is exactly that wide, a run of digits, and worth the line number. */
  lemma GutterLabelDigits(n: nat, last: nat, width: int)
    requires 1 <= n <= last && |NatToString(last)| == width
    ensures |GutterLabel(Int(n), width)| == width
    ensures Decimal(GutterLabel(Int(n), width), n)
  {
    NatToStringLength(n, last);
    var digits := NatToString(n);
    assert Int(n).ToString() == IntToString(n) == digits;
    assert GutterLabel(Int(n), width) == Padded(digits, width);
    PaddedNumber(n, width);
  }

  /** `s` is a run of decimal digits whose value is `n`. */
  predicate Decimal(s: string, n: nat) {
    (forall k :: 0 <= k < |s| ==> IsDigit(s[k])) && DigitsValue(s) == n
  }

  /** A natural number padded to at least its own width keeps that width, and is still a
      run of digits whose value is the number. */
  lemma PaddedNumber(n: nat, width: int)
    requires |NatToString(n)| <= width
    ensures var p := Padded(NatToString(n), width);
      |p| == width && Decimal(p, n)
  {
    PaddedValue(NatToString(n), width);
    NatToStringValue(n);
  }

  // ---------------------------------------------------------------------------
  // getCodeLinesHtml

  /** Length of the run `(&nbsp;|\s)+` at the start of `line`, in characters (0 when the
      pattern does not match). */
  function IndentRun(line: string): (n: nat)
    ensures n <= |line|
    ensures n == |line| || (!IsSpace(line[n]) && !(n + 6 <= |line| && line[n..n + 6] == Nbsp))
    ensures n == 0 <==> !(|line| > 0 && IsSpace(line[0])) && !(|line| >= 6 && line[..6] == Nbsp)
    decreases |line|
  {
    if |line| > 0 && IsSpace(line[0]) then 1 + IndentRun(line[1..])
    else if |line| >= 6 && line[..6] == Nbsp then 6 + IndentRun(line[6..])
    else 0
  }

  /** `spaces.replace(' ', sh.config.space)`: a string pattern, so only the first space is
      replaced. */
  function ReplaceFirstSpace(s: string): (r: string)
    ensures ' ' !in s ==> r == s
    ensures ' ' in s ==> exists k :: 0 <= k < |s| && s[k] == ' ' && ' ' !in s[..k] && r == s[..k] + Nbsp + s[k + 1..]
  {
    var k := IndexOfChar(s, ' ');
    if k < 0 then s else s[..k] + Nbsp + s[k + 1..]
  }

  /** The content of one code line: its indentation, if any, in its own
      `<code class="<brush> spaces">` element, then the rest of the line trimmed, or the
      space entity when nothing is left. */
  function CodeLineContent(line: string, brushName: string): (r: string)
    ensures IndentRun(line) == 0 ==> r == (if Trim(line) == "" then Nbsp else Trim(line))
    ensures var n := IndentRun(line); var rest := Trim(line[n..]); var text := if rest == "" then Nbsp else rest;
      n > 0 ==> r == "<code class=\"" + brushName + " spaces\">" + ReplaceFirstSpace(line[..n]) + "</code>" + text
    ensures |r| > 0
  {
    var n := IndentRun(line);
    var rest := Trim(line[n..]);
    var text := if |rest| == 0 then Nbsp else rest;
    if n == 0 then
      assert line[0..] == line;
      text
    else "<code class=\"" + brushName + " spaces\">" + ReplaceFirstSpace(line[..n]) + "</code>" + text
  }

  /** The rows for the given lines of markup: row `i` holds line `i` and its line number. */
  function CodeRowsFrom(params: map<string, Value>, lines: seq<string>, brushName: string, first: Num, lineNumbers: Option<seq<Num>>): (rows: seq<string>)
    ensures |rows| == |lines|
  {
    seq(|lines|, i requires 0 <= i < |lines| =>
      GetLineHtml(params, i, LineNumberAt(lineNumbers, first, i), CodeLineContent(lines[i], brushName)))
  }

  /** The rows `getCodeLinesHtml` builds: one per line of the trimmed markup, each with its
      line number. */
  function CodeRows(params: map<string, Value>, html: string, lineNumbers: Option<seq<Num>>): (rows: seq<string>)
    ensures |rows| == |SplitLines(Trim(html))|
  {
    CodeRowsFrom(params, SplitLines(Trim(html)), ToStr(GetParam(params, "brush", Value.Undefined)), FirstLine(params), lineNumbers)
  }

  /** `getCodeLinesHtml(html, lineNumbers)`: the trimmed markup split into lines, each in
      its own row. */
  method GetCodeLinesHtml(params: map<string, Value>, html: string, lineNumbers: Option<seq<Num>>) returns (result: string)
    ensures result == Concat(CodeRows(params, html, lineNumbers))
  {
    var trimmed := Trim(html);
    var lines := SplitLines(trimmed);
    var first := FirstLine(params);
    var brushName := ToStr(GetParam(params, "brush", Value.Undefined));
    result := CodeLineRows(params, lines, brushName, first, lineNumbers);
  }

  /** The loop of `getCodeLinesHtml`: each line's content in a row with its line number. */
  method CodeLineRows(params: map<string, Value>, lines: seq<string>, brushName: string, first: Num, lineNumbers: Option<seq<Num>>) returns (result: string)
    ensures result == Concat(CodeRowsFrom(params, lines, brushName, first, lineNumbers))
  {
    ghost var rows := CodeRowsFrom(params, lines, brushName, first, lineNumbers);
    result := "";
    var i := 0;
    while i < |lines|
      invariant 0 <= i <= |lines|
      invariant result == Concat(rows[..i])
    {
      var row := CodeLineRow(params, lines, brushName, first, lineNumbers, i);
      ConcatStep(rows, i, result, row);
      result := result + row;
      i := i + 1;
    }
    assert rows[..|lines|] == rows;
  }

  /** One turn of that loop: line `i`'s content in a row with its line number. */
  method CodeLineRow(params: map<string, Value>, lines: seq<string>, brushName: string, first: Num, lineNumbers: Option<seq<Num>>, i: nat)
    returns (row: string)
    requires i < |lines|
    ensures row == CodeRowsFrom(params, lines, brushName, first, lineNumbers)[i]
  {
    var lineNumber := LineNumberAt(lineNumbers, first, i);
    var content := CodeLineContent(lines[i], brushName);
    row := GetLineHtml(params, i, lineNumber, content);
  }

  /** Without line numbers given, code row `i` carries the same line number and the same
      classes as gutter row `i`. */
  lemma RowsShareClasses(params: map<string, Value>, html: string, i: nat)
    requires i < |SplitLines(Trim(html))|
    ensures LineNumberAt(None, FirstLine(params), i) == FirstLine(params).Plus(i)
    ensures var content := CodeLineContent(SplitLines(Trim(html))[i], ToStr(GetParam(params, "brush", Value.Undefined)));
      CodeRows(params, html, None)[i] == GetLineHtml(params, i, FirstLine(params).Plus(i), content)
  {
  }
}
