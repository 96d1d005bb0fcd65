/** Highlighter options (shCore.js): the built-in defaults, `merge`, `getParam` and
    `parseParams`, the scanner for `name: value;` configuration strings. The regular
    expression `parseParams` runs is written out here as a scanner that finds the same
    matches as the JavaScript engine does on it. */
module Options {
  import opened JsText
  import opened JsValues
  import opened Wrappers

  /** `sh.defaults`. */
  const Defaults: map<string, Value> := map[
    "class-name" := Str(""),
    "first-line" := Number(1),
    "pad-line-numbers" := Bool(false),
    "highlight" := Null,
    "title" := Null,
    "smart-tabs" := Bool(true),
    "tab-size" := Number(4),
    "gutter" := Bool(true),
    "auto-links" := Bool(true),
    "unindent" := Bool(true),
    "html-script" := Bool(false)
  ]

  /** `merge(obj1, obj2)`: every key of both maps, the value of `obj2` winning. */
  function Merge(obj1: map<string, Value>, obj2: map<string, Value>): (r: map<string, Value>)
    ensures r.Keys == obj1.Keys + obj2.Keys
    ensures forall k :: k in obj2 ==> r[k] == obj2[k]
    ensures forall k :: k in obj1 && k !in obj2 ==> r[k] == obj1[k]
  {
    obj1 + obj2
  }

  /** `getParam(name, defaultValue)`: the parameter, or the default when it is missing or
      null, passed through `toBoolean`. */
  function GetParam(params: map<string, Value>, name: string, default: Value): (r: Value)
    ensures name in params && params[name] != Null && params[name] != Value.Undefined ==> r == ToBoolean(params[name])
    ensures (name !in params || params[name] == Null || params[name] == Value.Undefined) ==> r == ToBoolean(default)
  {
    var v := if name in params then params[name] else Value.Undefined;
    ToBoolean(if v == Null || v == Value.Undefined then default else v)
  }

  // ---------------------------------------------------------------------------
  // parseParams: the pattern
  //   (?<name>[\w-]+)\s*:\s*(?<value>[\w-%#]+|\[.*?\]|".*?"|'.*?')\s*;?
  // applied repeatedly with the `g` flag.

  /** `[\w-]` */
  predicate IsNameChar(c: char) {
    IsWordChar(c) || c == '-'
  }

  /** `[\w-%#]`: inside a class, `\w-%` is `\w`, a literal `-` and `%`. */
  predicate IsBareValueChar(c: char) {
    IsWordChar(c) || c == '-' || c == '%' || c == '#'
  }

  /** The characters `.` does not match. */
  predicate IsLineTerminator(c: char) {
    c == '\n' || c == '\r' || c == '\U{2028}' || c == '\U{2029}'
  }

  predicate IsQuote(c: char) {
    c == '"' || c == '\''
  }

  /** End of the run of name characters starting at `i`. */
  function NameEnd(s: string, i: nat): (e: nat)
    requires i <= |s|
    ensures i <= e <= |s| && (e < |s| ==> !IsNameChar(s[e]))
    ensures forall k :: i <= k < e ==> IsNameChar(s[k])
    decreases |s| - i
  {
    if i < |s| && IsNameChar(s[i]) then NameEnd(s, i + 1) else i
  }

  /** End of the run of white space starting at `i`. */
  function SpaceEnd(s: string, i: nat): (e: nat)
    requires i <= |s|
    ensures i <= e <= |s| && (e < |s| ==> !IsSpace(s[e]))
    ensures forall k :: i <= k < e ==> IsSpace(s[k])
    decreases |s| - i
  {
    if i < |s| && IsSpace(s[i]) then SpaceEnd(s, i + 1) else i
  }

  /** End of the run of bare-value characters starting at `i`. */
  function BareEnd(s: string, i: nat): (e: nat)
    requires i <= |s|
    ensures i <= e <= |s| && (e < |s| ==> !IsBareValueChar(s[e]))
    ensures forall k :: i <= k < e ==> IsBareValueChar(s[k])
    decreases |s| - i
  {
    if i < |s| && IsBareValueChar(s[i]) then BareEnd(s, i + 1) else i
  }

  /** `.*?c` from `i`: the position just past the first `c` before any line terminator,
      or -1 when the line ends first. */
  function CloseOnLine(s: string, i: nat, c: char): (e: int)
    requires i <= |s|
    ensures e == -1 || (i < e <= |s| && s[e - 1] == c)
    ensures e != -1 ==> forall k :: i <= k < e - 1 ==> s[k] != c && !IsLineTerminator(s[k])
    decreases |s| - i
  {
    if i == |s| || IsLineTerminator(s[i]) then -1
    else if s[i] == c then i + 1
    else CloseOnLine(s, i + 1, c)
  }

  /** End of the value alternative that matches at `v`, or -1. */
  function ValueEnd(s: string, v: nat): (e: int)
    requires v <= |s|
    ensures e == -1 || v < e <= |s|
  {
    if v == |s| then -1
    else if IsBareValueChar(s[v]) then BareEnd(s, v)
    else if s[v] == '[' then CloseOnLine(s, v + 1, ']')
    else if IsQuote(s[v]) then CloseOnLine(s, v + 1, s[v])
    else -1
  }

  /** One match of the pair pattern: the `name` and raw `value` groups, and where the
      match ends. */
  datatype Pair = Pair(start: nat, name: string, raw: string, end: nat)

  /** The match of the pair pattern that starts exactly at `p`, if any. */
  function PairAt(s: string, p: nat): (m: Option<Pair>)
    requires p <= |s|
    ensures m.Some? ==> m.value.start == p && p < m.value.end <= |s| && |m.value.name| > 0
  {
    if p == |s| || !IsNameChar(s[p]) then None
    else
      var ne := NameEnd(s, p);
      var colon := SpaceEnd(s, ne);
      if colon == |s| || s[colon] != ':' then None
      else
        var v := SpaceEnd(s, colon + 1);
        var ve := ValueEnd(s, v);
        if ve == -1 then None
        else
          var after := SpaceEnd(s, ve);
          var end := if after < |s| && s[after] == ';' then after + 1 else after;
          Some(Pair(p, s[p..ne], s[v..ve], end))
  }

  /** `regex.exec(str)` with `lastIndex == from`: the leftmost match starting at or after `from`. */
  function Exec(s: string, from: nat): (m: Option<Pair>)
    requires from <= |s|
    ensures m.Some? ==> from <= m.value.start < m.value.end <= |s| && PairAt(s, m.value.start) == m
    ensures m.Some? ==> forall p :: from <= p < m.value.start ==> PairAt(s, p).None?
    ensures m.None? ==> forall p :: from <= p <= |s| ==> PairAt(s, p).None?
    decreases |s| - from
  {
    match PairAt(s, from)
    case Some(pair) => Some(pair)
    case None => if from == |s| then None else Exec(s, from + 1)
  }

  /** `value.replace(/^['"]|['"]$/g, '')`: one leading and one trailing quote character
      of either kind removed. */
  function StripQuotes(v: string): (r: string)
    ensures |v| >= 2 && IsQuote(v[0]) && IsQuote(v[|v| - 1]) ==> r == v[1..|v| - 1]
    ensures |v| > 0 && !IsQuote(v[0]) && !IsQuote(v[|v| - 1]) ==> r == v
  {
    var a := if |v| > 0 && IsQuote(v[0]) then 1 else 0;
    var b := if |v| > a && IsQuote(v[|v| - 1]) then |v| - 1 else |v|;
    v[a..b]
  }

  /** `arrayRegex.test(value)` for `^\[(.*?)\]$`. */
  predicate IsArrayText(v: string) {
    |v| >= 2 && v[0] == '[' && v[|v| - 1] == ']'
    && forall k :: 1 <= k < |v| - 1 ==> !IsLineTerminator(v[k])
  }

  /** `values.split(/\s*,\s*\/)`: split at each comma, white space around the comma
      belonging to the separator. */
  function SplitComma(s: string): (parts: seq<string>)
    ensures |parts| >= 1
    decreases |s|
  {
    var c := IndexOfChar(s, ',');
    if c < 0 then [s]
    else
      var piece := s[..c - TrailingSpace(s[..c])];
      var rest := s[c + 1..];
      [piece] + SplitComma(rest[LeadingSpace(rest)..])
  }

  /** The value stored for one match: quotes stripped, then an array text split into items. */
  function ConvertValue(raw: string): (r: Value)
    ensures r.Str? || r.List?
  {
    var value := StripQuotes(raw);
    if IsArrayText(value) then
      var inner := value[1..|value| - 1];
      List(if |inner| > 0 then SplitComma(inner) else [])
    else Str(value)
  }

  /** Every match of the pair pattern from `from` on, as the `exec` loop finds them. */
  function PairsFrom(s: string, from: nat): (ps: seq<Pair>)
    requires from <= |s|
    decreases |s| - from
  {
    match Exec(s, from)
    case None => []
    case Some(pair) => [pair] + PairsFrom(s, pair.end)
  }

  /** The object the `exec` loop builds from the pairs `ps`, later pairs overwriting
      earlier ones with the same name. */
  function Store(acc: map<string, Value>, ps: seq<Pair>): map<string, Value>
    decreases |ps|
  {
    if |ps| == 0 then acc
    else Store(acc[ps[0].name := ConvertValue(ps[0].raw)], ps[1..])
  }

  /** `parseParams(str)` (shCore.js:363-397): the `exec` loop over the pair pattern. */
  method ParseParams(str: string) returns (result: map<string, Value>)
    ensures result == Store(map[], PairsFrom(str, 0))
  {
    result := map[];
    var lastIndex := 0;
    while true
      invariant lastIndex <= |str|
      invariant Store(result, PairsFrom(str, lastIndex)) == Store(map[], PairsFrom(str, 0))
      decreases |str| - lastIndex
    {
      var m := Exec(str, lastIndex);
      if m.None? {
        break;
      }
      result := result[m.value.name := ConvertValue(m.value.raw)];
      lastIndex := m.value.end;
    }
  }

  /** The index of the last pair named `name` in `ps`, or -1. */
  function LastNamed(ps: seq<Pair>, name: string): (k: int)
    ensures -1 <= k < |ps|
    ensures k >= 0 ==> ps[k].name == name && forall j :: k < j < |ps| ==> ps[j].name != name
    ensures k == -1 ==> forall j :: 0 <= j < |ps| ==> ps[j].name != name
  {
    if |ps| == 0 then -1
    else if ps[|ps| - 1].name == name then |ps| - 1
    else LastNamed(ps[..|ps| - 1], name)
  }

  /** The stored object holds exactly the names of the pairs, each with the value of the
      last pair of that name. */
  lemma {:induction false} StoreLastWins(acc: map<string, Value>, ps: seq<Pair>, name: string)
    ensures var r := Store(acc, ps);
      && (name in r <==> name in acc || LastNamed(ps, name) >= 0)
      && (LastNamed(ps, name) >= 0 ==> r[name] == ConvertValue(ps[LastNamed(ps, name)].raw))
      && (LastNamed(ps, name) == -1 && name in acc ==> r[name] == acc[name])
    decreases |ps|
  {
    if |ps| > 0 {
      var acc' := acc[ps[0].name := ConvertValue(ps[0].raw)];
      StoreLastWins(acc', ps[1..], name);
      LastNamedTail(ps, name);
    }
  }

  lemma LastNamedTail(ps: seq<Pair>, name: string)
    requires |ps| > 0
    ensures LastNamed(ps[1..], name) >= 0 ==> LastNamed(ps, name) == LastNamed(ps[1..], name) + 1
    ensures LastNamed(ps[1..], name) == -1 ==> LastNamed(ps, name) == (if ps[0].name == name then 0 else -1)
  {
    assert forall j :: 1 <= j < |ps| ==> ps[1..][j - 1] == ps[j];
  }

  /** The configuration string of the examples below. */
  const Example := "brush" + ": " + "js" + "; " + "highlight" + ": " + "[3,5]" + "; " + "gutter" + ": " + "false"

  /** The runs around the first pair's name. */
  lemma ExampleBrushName()
    ensures NameEnd(Example, 0) == 5 && SpaceEnd(Example, 5) == 5
  {
    var s := Example;
    assert !IsNameChar(s[5]) && forall k :: 0 <= k < 5 ==> IsNameChar(s[k]);
  }

  /** The runs around the first pair's value. */
  lemma ExampleBrushValue()
    ensures SpaceEnd(Example, 6) == 7 && BareEnd(Example, 7) == 9 && SpaceEnd(Example, 9) == 9
  {
    var s := Example;
    assert IsSpace(s[6]) && !IsSpace(s[7]);
    assert !IsBareValueChar(s[9]) && forall k :: 7 <= k < 9 ==> IsBareValueChar(s[k]);
  }

  lemma ExampleBrush()
    ensures PairAt(Example, 0) == Some(Pair(0, "brush", "js", 10))
  {
    var s := Example;
    ExampleBrushName();
    ExampleBrushValue();
    assert s[5] == ':' && s[9] == ';';
    assert s[0..5] == "brush" && s[7..9] == "js";
  }

  /** No pair starts at the space after a `;`. */
  lemma ExampleGaps()
    ensures PairAt(Example, 10).None? && PairAt(Example, 28).None?
  {
    assert Example[10] == ' ' && Example[28] == ' ';
  }

  /** The runs around the second pair's name. */
  lemma ExampleHighlightName()
    ensures NameEnd(Example, 11) == 20 && SpaceEnd(Example, 20) == 20
  {
    var s := Example;
    assert !IsNameChar(s[20]) && forall k :: 11 <= k < 20 ==> IsNameChar(s[k]);
  }

  /** The runs around the second pair's value. */
  lemma ExampleHighlightValue()
    ensures SpaceEnd(Example, 21) == 22 && ValueEnd(Example, 22) == 27 && SpaceEnd(Example, 27) == 27
  {
    var s := Example;
    assert IsSpace(s[21]) && !IsSpace(s[22]);
    ExampleBracket();
    assert s[27] == ';';
  }

  lemma ExampleHighlight()
    ensures PairAt(Example, 11) == Some(Pair(11, "highlight", "[3,5]", 28))
  {
    var s := Example;
    ExampleHighlightName();
    ExampleHighlightValue();
    assert s[11] == 'h' && s[20] == ':' && s[27] == ';';
    assert s[11..20] == "highlight" && s[22..27] == "[3,5]";
  }

  lemma ExampleBracket()
    ensures ValueEnd(Example, 22) == 27
  {
    var s := Example;
    assert s[22] == '[' && s[26] == ']';
    assert CloseOnLine(s, 26, ']') == 27;
    assert CloseOnLine(s, 25, ']') == 27 by { assert s[25] == '5'; }
    assert CloseOnLine(s, 24, ']') == 27 by { assert s[24] == ','; }
    assert CloseOnLine(s, 23, ']') == 27 by { assert s[23] == '3'; }
  }

  /** The runs around the third pair's name. */
  lemma ExampleGutterName()
    ensures NameEnd(Example, 29) == 35 && SpaceEnd(Example, 35) == 35
  {
    var s := Example;
    assert !IsNameChar(s[35]) && forall k :: 29 <= k < 35 ==> IsNameChar(s[k]);
  }

  /** The runs around the third pair's value, which ends the text. */
  lemma ExampleGutterValue()
    ensures SpaceEnd(Example, 36) == 37 && BareEnd(Example, 37) == 42 && SpaceEnd(Example, 42) == 42
  {
    var s := Example;
    assert |s| == 42;
    assert IsSpace(s[36]) && !IsSpace(s[37]);
    assert forall k :: 37 <= k < 42 ==> IsBareValueChar(s[k]);
  }

  lemma ExampleGutter()
    ensures PairAt(Example, 29) == Some(Pair(29, "gutter", "false", 42))
  {
    var s := Example;
    ExampleGutterName();
    ExampleGutterValue();
    assert |s| == 42 && s[29] == 'g' && s[35] == ':';
    assert s[29..35] == "gutter" && s[37..42] == "false";
  }

  lemma ExampleArray()
    ensures ConvertValue("[3,5]") == List(["3", "5"])
  {
    ExampleSplit();
    ExampleArrayText();
  }

  /** `[3,5]` has no quotes to strip and is array text around `3,5`. */
  lemma ExampleArrayText()
    ensures StripQuotes("[3,5]") == "[3,5]" && IsArrayText("[3,5]") && "[3,5]"[1..4] == "3,5"
  {
    var v := "[3,5]";
    assert v[0] == '[' && v[4] == ']';
    assert !IsQuote(v[0]) && !IsQuote(v[4]);
    assert forall k :: 1 <= k < 4 ==> !IsLineTerminator(v[k]);
  }

  lemma ExampleSplit()
    ensures SplitComma("3,5") == ["3", "5"]
  {
    var inner := "3,5";
    assert inner[0] == '3' && inner[1] == ',';
    assert IndexOfChar(inner, ',') == 1;
    assert inner[..1] == "3";
    assert TrailingSpace("3") == 0 by { assert !IsSpace('3'); }
    assert inner[2..] == "5";
    assert LeadingSpace("5") == 0 by { assert !IsSpace('5'); }
    assert IndexOfChar("5", ',') == -1;
  }

  lemma ExamplePairs(s: string)
    requires s == Example
    ensures PairsFrom(s, 0)
         == [Pair(0, "brush", "js", 10), Pair(11, "highlight", "[3,5]", 28), Pair(29, "gutter", "false", 42)]
  {
    ExampleExecs();
    ExampleEnd();
    PairsThree(s, Pair(0, "brush", "js", 10), Pair(11, "highlight", "[3,5]", 28), Pair(29, "gutter", "false", 42));
  }

  /** Three rounds of the `exec` loop and then none. */
  lemma PairsThree(s: string, a: Pair, b: Pair, c: Pair)
    requires Exec(s, 0) == Some(a) && a.end <= |s| && Exec(s, a.end) == Some(b)
    requires b.end <= |s| && Exec(s, b.end) == Some(c) && c.end <= |s| && PairsFrom(s, c.end) == []
    ensures PairsFrom(s, 0) == [a, b, c]
  {
    PairsStep(s, b.end, c);
    PairsStep(s, a.end, b);
    PairsStep(s, 0, a);
    ConsThree(PairsFrom(s, 0), PairsFrom(s, a.end), PairsFrom(s, b.end), PairsFrom(s, c.end), a, b, c);
  }

  lemma ConsThree<T>(x: seq<T>, y: seq<T>, z: seq<T>, w: seq<T>, a: T, b: T, c: T)
    requires x == [a] + y && y == [b] + z && z == [c] + w && w == []
    ensures x == [a, b, c]
  {
  }

  /** One round of the `exec` loop: a found pair followed by the pairs after it. */
  lemma PairsStep(s: string, from: nat, pair: Pair)
    requires from <= |s| && Exec(s, from) == Some(pair)
    ensures pair.end <= |s| && PairsFrom(s, from) == [pair] + PairsFrom(s, pair.end)
  {
  }

  /** Nothing is found at the end of the example. */
  lemma ExampleEnd()
    ensures PairsFrom(Example, 42) == []
  {
    assert |Example| == 42;
    assert PairAt(Example, 42).None?;
  }

  /** Where the `exec` loop finds each pair of the example. */
  lemma ExampleExecs()
    ensures |Example| == 42
    ensures Exec(Example, 0) == Some(Pair(0, "brush", "js", 10))
    ensures Exec(Example, 10) == Some(Pair(11, "highlight", "[3,5]", 28))
    ensures Exec(Example, 28) == Some(Pair(29, "gutter", "false", 42))
  {
    ExampleBrush();
    ExampleGaps();
    ExampleHighlight();
    ExampleGutter();
    assert |Example| == 42;
    assert Exec(Example, 11) == Some(Pair(11, "highlight", "[3,5]", 28));
    assert Exec(Example, 29) == Some(Pair(29, "gutter", "false", 42));
  }

  /** Three successive pairs store their three converted values. */
  lemma StoreThree(acc: map<string, Value>, a: Pair, b: Pair, c: Pair)
    ensures Store(acc, [a, b, c]) == acc[a.name := ConvertValue(a.raw)][b.name := ConvertValue(b.raw)][c.name := ConvertValue(c.raw)]
  {
    var m1 := acc[a.name := ConvertValue(a.raw)];
    var m2 := m1[b.name := ConvertValue(b.raw)];
    var m3 := m2[c.name := ConvertValue(c.raw)];
    assert Store(m3, []) == m3;
    assert [c][1..] == [];
    assert Store(m2, [c]) == m3;
    assert [b, c][1..] == [c];
    assert Store(m1, [b, c]) == m3;
    assert [a, b, c][1..] == [b, c];
  }

  lemma ExampleStore(ps: seq<Pair>)
    requires ps == [Pair(0, "brush", "js", 10), Pair(11, "highlight", "[3,5]", 28), Pair(29, "gutter", "false", 42)]
    ensures Store(map[], ps) == map["brush" := Str("js"), "highlight" := List(["3", "5"]), "gutter" := Str("false")]
  {
    StoreThree(map[], ps[0], ps[1], ps[2]);
    assert ps == [ps[0], ps[1], ps[2]];
    var v1, v2, v3 := ConvertValue(ps[0].raw), ConvertValue(ps[1].raw), ConvertValue(ps[2].raw);
    assert v2 == List(["3", "5"]) by { ExampleArray(); }
    assert v1 == Str("js");
    assert v3 == Str("false");
    ExampleMap(v1, v2, v3);
  }

  /** `parseParams('brush: js; highlight: [3,5]; gutter: false')` yields the three options,
      the bracketed value as a list. */
  lemma ParseParamsExample(s: string)
    requires s == Example
    ensures Store(map[], PairsFrom(s, 0))
         == map["brush" := Str("js"), "highlight" := List(["3", "5"]), "gutter" := Str("false")]
  {
    ExamplePairs(s);
    ExampleStore(PairsFrom(s, 0));
  }

  lemma ExampleMap(v1: Value, v2: Value, v3: Value)
    requires v1 == Str("js") && v2 == List(["3", "5"]) && v3 == Str("false")
    ensures map["brush" := v1]["highlight" := v2]["gutter" := v3]
         == map["brush" := Str("js"), "highlight" := List(["3", "5"]), "gutter" := Str("false")]
  {
  }
}
