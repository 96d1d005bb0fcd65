/** The highlighter object (shCore.js `sh.Highlighter`): its parameters, set by `init`
    from the defaults and the caller's options, the brush's rule list, and `getHtml`,
    which runs the whole pipeline over a piece of code and frames the result. */
module Highlighter {
  import opened Wrappers
  import opened JsText
  import opened JsValues
  import opened Options
  import opened Matches
  import opened Rules
  import opened Transforms
  import opened Markup
  import opened Gutter

  const TableOpen := "<table border=\"0\" cellpadding=\"0\" cellspacing=\"0\">"
  const GutterOpen := "<td class=\"gutter\">"
  const CodeOpen := "<td class=\"code\"><div class=\"container\">"
  const Closing := "</div></td></tr></tbody></table></div>"

  /** `code.replace(/\r/g, ' ')`: every carriage return becomes a space. */
  function ReplaceCR(s: string): (r: string)
    ensures |r| == |s| && '\r' !in r
    ensures forall k :: 0 <= k < |s| && s[k] != '\r' ==> r[k] == s[k]
    ensures forall k :: 0 <= k < |s| && s[k] == '\r' ==> r[k] == ' '
  {
    if |s| == 0 then "" else [if s[0] == '\r' then ' ' else s[0]] + ReplaceCR(s[1..])
  }

  /** An element of `classes.join(' ')`: `Array.prototype.join` writes null and undefined
      as the empty string. */
  function ClassText(v: Value): string {
    if v == Null || v == Value.Undefined then "" else ToStr(v)
  }

  /** The class names of the outer `div`. */
  function ClassNames(params: map<string, Value>): seq<string> {
    var gutter := GetParam(params, "gutter", Value.Undefined);
    ["syntaxhighlighter"] + (if LooseEqualsBool(gutter, false) then ["nogutter"] else [])
      + [ClassText(GetParam(params, "class-name", Value.Undefined)), ClassText(GetParam(params, "brush", Value.Undefined))]
  }

  /** The code `getHtml` highlights: first and last blank lines trimmed, carriage returns
      turned into spaces, tabs expanded (smart or plain) and, when asked for, the common
      indent removed by `unindent` as written (see `Transforms.UnindentAsWritten`). */
  function PreparedCode(params: map<string, Value>, code: string): string {
    var c := ReplaceCR(TrimFirstAndLastLines(code));
    var tabSize := ToNumber(GetParam(params, "tab-size", Value.Undefined));
    var t := if LooseEqualsBool(GetParam(params, "smart-tabs", Value.Undefined), true)
      then SmartTabs(c, tabSize) else ReplaceTabs(c, Spaces(TabWidth(tabSize)));
    if Truthy(GetParam(params, "unindent", Value.Undefined)) then UnindentAsWritten(t) else t
  }

  /** What `figureOutLineNumbers` computes for the code: line `i` is numbered `first + i`. */
  function LineNumbersOf(params: map<string, Value>, code: string): seq<Num> {
    seq(|SplitLines(code)|, i => FirstLine(params).Plus(i))
  }

  /** The outer markup around the title, the gutter column and the code column. */
  function Frame(classes: string, title: string, gutterColumn: string, body: string): string {
    FrameHead(classes, title) + (gutterColumn + FrameTail(body))
  }

  /** The code column and the closing tags. */
  function FrameTail(body: string): string {
    CodeOpen + (body + Closing)
  }

  /** The markup before the columns. */
  function FrameHead(classes: string, title: string): string {
    "<div class=\"" + classes + "\">" + TableOpen + title + "<tbody><tr>"
  }

  /** The rows of the code column, with links when auto-links is on. */
  function CodeBody(params: map<string, Value>, code: string, markup: string, url: Regex): string {
    var lineNumbers := if Truthy(GetParam(params, "gutter", Value.Undefined)) then Some(LineNumbersOf(params, code)) else None;
    var rows := Concat(CodeRows(params, markup, lineNumbers));
    if Truthy(GetParam(params, "auto-links", Value.Undefined)) then ProcessUrls(rows, url) else rows
  }

  /** The gutter column: the line number rows when the gutter is on, nothing otherwise. */
  function GutterColumn(params: map<string, Value>, code: string): string {
    if Truthy(GetParam(params, "gutter", Value.Undefined)) then GutterOpen + Concat(GutterRows(params, code)) + "</td>" else ""
  }

  /** The page `getHtml` returns for the prepared `code` whose highlighted markup (what
      `getMatchesHtml` produced) is `markup`. */
  function Page(params: map<string, Value>, code: string, markup: string, url: Regex): string {
    Frame(Join(ClassNames(params), " "), GetTitleHtml(GetParam(params, "title", Value.Undefined)), GutterColumn(params, code), CodeBody(params, code, markup, url))
  }

  /** The part of the page before the columns. */
  function PageHead(params: map<string, Value>): string {
    FrameHead(Join(ClassNames(params), " "), GetTitleHtml(GetParam(params, "title", Value.Undefined)))
  }

  /** The first steps of `getHtml`: trimming, carriage returns, tabs and indentation. */
  method Prepare(params: map<string, Value>, code: string) returns (c: string)
    ensures c == PreparedCode(params, code)
  {
    c := ReplaceCR(TrimFirstAndLastLines(code));
    var tabSize := ToNumber(GetParam(params, "tab-size", Value.Undefined));
    if LooseEqualsBool(GetParam(params, "smart-tabs", Value.Undefined), true) {
      c := ProcessSmartTabs(c, tabSize);
    } else {
      c := ProcessTabs(c, tabSize);
    }
    if Truthy(GetParam(params, "unindent", Value.Undefined)) {
      c := UnindentLoop(c);
    }
  }

  class Highlighter {
    var params: map<string, Value>
    var regexList: seq<Rule>
    /** `sh.regexLib.url`, which `processUrls` uses. */
    const url: Regex

    /** `new Highlighter()` as a brush constructor leaves it: the brush's rules set, no
        parameters yet. */
    constructor (regexList: seq<Rule>, url: Regex)
      ensures this.regexList == regexList && this.url == url && params == map[]
    {
      this.regexList := regexList;
      this.url := url;
      params := map[];
    }

    /** `init(params)`: the caller's options over the defaults (`params || {}`). */
    method Init(p: Option<map<string, Value>>)
      modifies this
      ensures params == Merge(Defaults, if p.Some? then p.value else map[])
      ensures regexList == old(regexList)
    {
      params := Merge(Defaults, if p.Some? then p.value else map[]);
    }

    /** `getHtml(code)`: the code prepared, its matches found and resolved, rendered,
        split into rows, linked, and framed with the optional gutter column. */
    method GetHtml(code: string) returns (html: string)
      ensures exists matches :: Resolved(matches, AllMatches(PreparedCode(params, code), regexList)) && html == Page(params, PreparedCode(params, code), Render(Pieces(PreparedCode(params, code), matches, 0, GetParam(params, "brush", Str("")))), url)
    {
      var classes := ClassNames(params);
      var c := Prepare(params, code);
      var matches := FindMatches(regexList, c);
      var markup := GetMatchesHtml(c, matches, GetParam(params, "brush", Str("")));
      var body := RenderCodeBody(params, c, markup, url);
      var gutterColumn := RenderGutterColumn(params, c);
      html := Frame(Join(classes, " "), GetTitleHtml(GetParam(params, "title", Value.Undefined)), gutterColumn, body);
    }
  }

  /** The code column's rows of `getHtml`: line numbers figured out when the gutter is on,
      the rows built, and the links added. */
  method RenderCodeBody(params: map<string, Value>, code: string, markup: string, url: Regex) returns (body: string)
    ensures body == CodeBody(params, code, markup, url)
  {
    var lineNumbers: Option<seq<Num>> := None;
    if Truthy(GetParam(params, "gutter", Value.Undefined)) {
      var ns := FigureOutLineNumbers(params, code);
      assert ns == LineNumbersOf(params, code);
      lineNumbers := Some(ns);
    }
    body := GetCodeLinesHtml(params, markup, lineNumbers);
    if Truthy(GetParam(params, "auto-links", Value.Undefined)) {
      body := ProcessUrls(body, url);
    }
  }

  /** The gutter column of `getHtml`. */
  method RenderGutterColumn(params: map<string, Value>, code: string) returns (column: string)
    ensures column == GutterColumn(params, code)
  {
    column := "";
    if Truthy(GetParam(params, "gutter", Value.Undefined)) {
      var rows := GetLineNumbersHtml(params, code);
      column := GutterOpen + rows + "</td>";
    }
  }

  // ---------------------------------------------------------------------------
  // Properties of the page

  /** The `nogutter` class is added exactly when the gutter option loosely equals `false`,
      and the first class is always `syntaxhighlighter`. */
  lemma ClassNamesShape(params: map<string, Value>)
    ensures var cs := ClassNames(params);
      cs[0] == "syntaxhighlighter"
      && (|cs| == 4 <==> LooseEqualsBool(GetParam(params, "gutter", Value.Undefined), false))
      && (|cs| == 4 ==> cs[1] == "nogutter")
  {
  }

  /** A frame opens with its head and ends with its tail, the code column. */
  lemma FrameEnds(classes: string, title: string, gutterColumn: string, body: string)
    ensures var f := Frame(classes, title, gutterColumn, body);
      var head := FrameHead(classes, title);
      var tail := FrameTail(body);
      |head| + |tail| <= |f| && f[..|head|] == head && f[|f| - |tail|..] == tail
  {
    var head := FrameHead(classes, title);
    var tail := FrameTail(body);
    var f := head + (gutterColumn + tail);
    assert f[..|head|] == head;
    assert f[|f| - |tail|..] == tail;
  }

  /** The gutter opener right after the head when there is a gutter column. */
  lemma FrameWithGutter(classes: string, title: string, rows: string, body: string)
    ensures var f := Frame(classes, title, GutterOpen + rows + "</td>", body);
      var n := |FrameHead(classes, title)|;
      n + |GutterOpen| <= |f| && f[n..n + |GutterOpen|] == GutterOpen
  {
    var head := FrameHead(classes, title);
    var rest := GutterOpen + rows + "</td>" + FrameTail(body);
    var f := head + rest;
    assert f == Frame(classes, title, GutterOpen + rows + "</td>", body);
    assert rest[..|GutterOpen|] == GutterOpen;
    assert f[|head|..|head| + |GutterOpen|] == rest[..|GutterOpen|];
  }

  /** Without a gutter column the code column's opener follows the head, and it does not
      begin like the gutter opener. */
  lemma FrameWithoutGutter(classes: string, title: string, body: string)
    ensures var f := Frame(classes, title, "", body);
      var n := |FrameHead(classes, title)|;
      n + |GutterOpen| <= |f| && f[n..n + |GutterOpen|] != GutterOpen
  {
    var head := FrameHead(classes, title);
    var rest := FrameTail(body);
    var f := head + rest;
    assert f == Frame(classes, title, "", body);
    assert f[|head| + 11] == rest[11] == 'c';
    assert GutterOpen[11] == 'g';
  }

  /** With the gutter column as `getHtml` builds it (the line number rows when the gutter
      option is truthy, nothing otherwise), the column right after the head is the gutter
      exactly when the option is truthy; otherwise the code column comes first. */
  lemma FrameGutterColumn(gutterOn: bool, classes: string, title: string, rows: string, body: string)
    ensures var f := Frame(classes, title, if gutterOn then GutterOpen + rows + "</td>" else "", body);
      var n := |FrameHead(classes, title)|;
      n + |GutterOpen| <= |f| && (gutterOn <==> f[n..n + |GutterOpen|] == GutterOpen)
  {
    if gutterOn {
      FrameWithGutter(classes, title, rows, body);
    } else {
      FrameWithoutGutter(classes, title, body);
    }
  }

  /** The gutter option `"0"` (as `gutter: 0` parses) both adds the `nogutter` class and
      keeps the gutter column, since `"0" == false` while `"0"` is truthy. */
  lemma GutterZeroString(params: map<string, Value>)
    requires "gutter" in params && params["gutter"] == Str("0")
    ensures LooseEqualsBool(GetParam(params, "gutter", Value.Undefined), false)
    ensures Truthy(GetParam(params, "gutter", Value.Undefined))
  {
    assert GetParam(params, "gutter", Value.Undefined) == Str("0");
    assert Trim("0") == "0";
    assert LeadingDigits("0") == 1;
  }

  /** Splitting a text free of `c` gives lines free of `c`. */
  lemma {:induction false} SplitLinesNoChar(s: string, c: char)
    requires c !in s
    ensures forall k :: 0 <= k < |SplitLines(s)| ==> c !in SplitLines(s)[k]
    decreases |s|
  {
    var k := IndexOfChar(s, '\n');
    if k >= 0 {
      assert forall x :: x in s[k + 1..] ==> x in s;
      assert forall x :: x in s[..k] ==> x in s;
      SplitLinesNoChar(s[k + 1..], c);
    }
  }

  /** Removing the common indent adds no tab. */
  lemma UnindentNoTab(str: string)
    requires '\t' !in str
    ensures '\t' !in UnindentAsWritten(str)
  {
    var lines := SplitLines(str);
    var m := MinIndent(lines);
    SplitLinesNoChar(str, '\t');
    var d := if m > 0 then Dedent(lines, m) else lines;
    forall k | 0 <= k < |d|
      ensures '\t' !in d[k]
    {
      assert forall x :: x in d[k] ==> x in lines[k];
    }
    JoinNoChar(d, "\n", '\t');
  }

  /** The code `getHtml` highlights holds no tab, whichever way the tabs were expanded. */
  lemma PreparedNoTabs(params: map<string, Value>, code: string)
    ensures '\t' !in PreparedCode(params, code)
  {
    var c := ReplaceCR(TrimFirstAndLastLines(code));
    var tabSize := ToNumber(GetParam(params, "tab-size", Value.Undefined));
    SmartTabsNoTab(c, tabSize);
    assert '\t' !in Spaces(TabWidth(tabSize));
    var t := if LooseEqualsBool(GetParam(params, "smart-tabs", Value.Undefined), true)
      then SmartTabs(c, tabSize) else ReplaceTabs(c, Spaces(TabWidth(tabSize)));
    UnindentNoTab(t);
  }
}
