/** The text transforms shCore.js applies to the code before matching: trimming the first
    and last lines, fixed and column-aware tab expansion, removal of the common indent,
    the CDATA wrapper strip and the keyword-list-to-pattern conversion. */
module Transforms {
  import opened JsText
  import opened JsValues

  // ---------------------------------------------------------------------------
  // trimFirstAndLastLines: `str.replace(/^[ ]*[\n]+|[\n]*[ ]*$/g, '')`

  /** Length of the run of `c` in `s` starting at `from`. */
  function RunFrom(s: string, from: nat, c: char): (n: nat)
    requires from <= |s|
    ensures from + n <= |s|
    ensures forall k :: from <= k < from + n ==> s[k] == c
    ensures from + n < |s| ==> s[from + n] != c
    decreases |s| - from
  {
    if from < |s| && s[from] == c then 1 + RunFrom(s, from + 1, c) else 0
  }

  /** Length of the run of `c` in `s` ending just before `end`. */
  function RunBefore(s: string, end: nat, c: char): (n: nat)
    requires end <= |s|
    ensures n <= end
    ensures forall k :: end - n <= k < end ==> s[k] == c
    ensures n < end ==> s[end - n - 1] != c
    decreases end
  {
    if end > 0 && s[end - 1] == c then 1 + RunBefore(s, end - 1, c) else 0
  }

  /** What the first alternative `^[ ]*[\n]+` removes: spaces followed by at least one
      newline at the start of the text, with every newline of that run; nothing when the
      text does not start that way. */
  function LeadingBlankLines(s: string): (n: nat)
    ensures n <= |s|
    ensures n > 0 ==> RunFrom(s, 0, ' ') < n && (forall k :: RunFrom(s, 0, ' ') <= k < n ==> s[k] == '\n')
    ensures n > 0 ==> n == |s| || s[n] != '\n'
    ensures n == 0 <==> RunFrom(s, 0, ' ') == |s| || s[RunFrom(s, 0, ' ')] != '\n'
  {
    var a := RunFrom(s, 0, ' ');
    if a < |s| && s[a] == '\n' then a + RunFrom(s, a, '\n') else 0
  }

  /** `t` is newlines followed by spaces: what the second alternative `[\n]*[ ]*$` matches. */
  predicate BlankTail(t: string) {
    forall k :: 0 <= k < |t| ==>
      (t[k] == '\n' || t[k] == ' ') && (t[k] == ' ' ==> forall j :: k < j < |t| ==> t[j] == ' ')
  }

  /** Where the second alternative first matches: the earliest position from which only
      newlines and then spaces remain. */
  function TrailingBlankStart(s: string): (q: nat)
    ensures q <= |s| && BlankTail(s[q..])
    ensures forall p :: 0 <= p < q ==> !BlankTail(s[p..])
  {
    var t := RunBefore(s, |s|, ' ');
    var m := RunBefore(s, |s| - t, '\n');
    TrailingBlankMinimal(s, t, m);
    |s| - t - m
  }

  lemma TrailingBlankMinimal(s: string, t: nat, m: nat)
    requires t == RunBefore(s, |s|, ' ') && m == RunBefore(s, |s| - t, '\n')
    ensures BlankTail(s[|s| - t - m..])
    ensures forall p :: 0 <= p < |s| - t - m ==> !BlankTail(s[p..])
  {
    var q := |s| - t - m;
    forall p | 0 <= p < q
      ensures !BlankTail(s[p..])
    {
      var u := s[p..];
      assert u[q - 1 - p] == s[q - 1];
      if s[q - 1] == ' ' {
        assert m > 0;
        assert u[q - p] == s[q] == '\n';
      }
    }
  }

  /** A text ending in newlines then spaces keeps that shape when cut further on. */
  lemma BlankTailSuffix(s: string, q: nat, p: nat)
    requires q <= p <= |s| && BlankTail(s[q..])
    ensures BlankTail(s[p..])
  {
    forall k | 0 <= k < |s[p..]|
      ensures s[p..][k] == s[q..][k + p - q]
    {
    }
  }

  /** `trimFirstAndLastLines(str)`: the text after its leading blank lines, cut at the
      earliest point from which only newlines and then spaces follow. When the two
      removed parts overlap the result is empty. */
  function TrimFirstAndLastLines(s: string): (r: string)
    ensures LeadingBlankLines(s) + |r| <= |s|
    ensures r == s[LeadingBlankLines(s)..LeadingBlankLines(s) + |r|]
    ensures BlankTail(s[LeadingBlankLines(s) + |r|..])
    ensures forall p :: LeadingBlankLines(s) <= p < LeadingBlankLines(s) + |r| ==> !BlankTail(s[p..])
  {
    var p := LeadingBlankLines(s);
    var q := TrailingBlankStart(s);
    if q <= p then
      BlankTailSuffix(s, q, p);
      ""
    else
      s[p..q]
  }

  /** The result starts with no newline and ends with no newline. */
  lemma TrimmedEnds(s: string)
    ensures var r := TrimFirstAndLastLines(s);
      r == "" || (r[0] != '\n' && r[|r| - 1] != '\n')
  {
    var r := TrimFirstAndLastLines(s);
    var p := LeadingBlankLines(s);
    if r != "" {
      assert r[0] == s[p];
      var e := p + |r|;
      assert r[|r| - 1] == s[e - 1];
    }
  }

  /** The leading line feeds go, but a line of spaces before the trailing line feed
      survives the first pass, because the trailing pattern cannot match across it; the
      second pass removes it, so the transform is not idempotent. */
  lemma TrimNotIdempotent(s: string)
    requires s == "\n" + "\n" + "  " + "\n"
    ensures TrimFirstAndLastLines(s) == "  "
    ensures TrimFirstAndLastLines("  ") == ""
  {
    assert RunFrom(s, 0, ' ') == 0;
    assert RunFrom(s, 2, '\n') == 0;
    assert LeadingBlankLines(s) == 2;
    assert RunBefore(s, 5, ' ') == 0;
    assert RunBefore(s, 4, '\n') == 0;
    assert TrailingBlankStart(s) == 4;
    assert s[2..4] == "  ";
    var t := "  ";
    assert RunFrom(t, 0, ' ') == 2;
    assert RunBefore(t, 2, ' ') == 2;
  }

  // ---------------------------------------------------------------------------
  // processTabs

  /** `code.replace(/\t/g, tab)`. */
  function ReplaceTabs(code: string, tab: string): (r: string)
    ensures '\t' !in tab ==> '\t' !in r
    ensures '\t' !in code ==> r == code
  {
    if |code| == 0 then ""
    else (if code[0] == '\t' then tab else [code[0]]) + ReplaceTabs(code[1..], tab)
  }

  /** Replacing tabs works piece by piece ... */
  lemma {:induction false} ReplaceTabsAppend(a: string, b: string, tab: string)
    ensures ReplaceTabs(a + b, tab) == ReplaceTabs(a, tab) + ReplaceTabs(b, tab)
  {
    if |a| > 0 {
      assert (a + b)[1..] == a[1..] + b;
      ReplaceTabsAppend(a[1..], b, tab);
    } else {
      assert a + b == b;
    }
  }

  /** ... turning each tab into `tab` and keeping every other character. */
  lemma ReplaceTabsChar(c: char, tab: string)
    ensures ReplaceTabs([c], tab) == if c == '\t' then tab else [c]
  {
    assert [c][1..] == [];
  }

  /** How many times `for (var i = 0; i < tabSize; i++)` runs. */
  function TabWidth(tabSize: Num): (n: nat)
    ensures tabSize.Int? && tabSize.n > 0 ==> n == tabSize.n
    ensures !(tabSize.Int? && tabSize.n > 0) ==> n == 0
  {
    match tabSize
    case Int(n) => if n > 0 then n else 0
    case _ => 0
  }

  /** `processTabs(code, tabSize)`: every tab becomes `tabSize` spaces; none when the size
      is not a positive number. */
  method ProcessTabs(code: string, tabSize: Num) returns (r: string)
    ensures r == ReplaceTabs(code, Spaces(TabWidth(tabSize)))
  {
    var tab := "";
    var i := 0;
    var limit := if tabSize.Int? then tabSize.n else 0;
    while i < limit
      invariant 0 <= i && (i <= limit || i == 0)
      invariant |tab| == i && forall k :: 0 <= k < i ==> tab[k] == ' '
    {
      tab := tab + " ";
      i := i + 1;
    }
    assert tab == Spaces(TabWidth(tabSize));
    r := ReplaceTabs(code, tab);
  }

  // ---------------------------------------------------------------------------
  // processSmartTabs

  /** The spaces a tab at column `col` becomes: `tabSize - col % tabSize`, taken from a
      pool of 1000 spaces. A zero size gives `NaN` and a negative size a negative count;
      both take no spaces. */
  function SmartTabWidth(col: nat, tabSize: Num): (w: nat)
    ensures w <= 1000
  {
    match tabSize
    case Int(n) => if n > 0 then (if n - col % n <= 1000 then n - col % n else 1000) else 0
    case _ => 0
  }

  /** A tab moves to the next multiple of the tab size. */
  lemma TabStop(col: nat, n: int)
    requires 0 < n <= 1000
    ensures 1 <= SmartTabWidth(col, Int(n)) <= n
    ensures col + SmartTabWidth(col, Int(n)) == (col / n + 1) * n
  {
    assert col == (col / n) * n + col % n;
  }

  /** The line expanded left to right: `done` is the expanded text so far. */
  function ExpandFrom(done: string, rest: string, tabSize: Num): (r: string)
    ensures forall c :: c in r ==> c in done || c in rest || c == ' '
    ensures '\t' !in done ==> '\t' !in r
    decreases |rest|
  {
    if |rest| == 0 then done
    else if rest[0] == '\t' then ExpandFrom(done + Spaces(SmartTabWidth(|done|, tabSize)), rest[1..], tabSize)
    else ExpandFrom(done + [rest[0]], rest[1..], tabSize)
  }

  /** One line with each tab replaced by the spaces up to the next tab stop. */
  function ExpandLine(line: string, tabSize: Num): (r: string)
    ensures '\t' !in r
  {
    ExpandFrom("", line, tabSize)
  }

  /** Tab-free text passes through unchanged. */
  lemma {:induction false} ExpandPlain(done: string, t: string, rest: string, tabSize: Num)
    requires '\t' !in t
    ensures ExpandFrom(done, t + rest, tabSize) == ExpandFrom(done + t, rest, tabSize)
    decreases |t|
  {
    if |t| > 0 {
      assert (t + rest)[0] == t[0] && (t + rest)[1..] == t[1..] + rest;
      assert t[0] in t;
      assert '\t' !in t[1..] by { assert forall c :: c in t[1..] ==> c in t; }
      ExpandPlain(done + [t[0]], t[1..], rest, tabSize);
      assert done + [t[0]] + t[1..] == done + t;
    } else {
      assert t + rest == rest;
      assert done + t == done;
    }
  }

  /** A tab-free line is its own expansion. */
  lemma ExpandTabFree(line: string, tabSize: Num)
    requires '\t' !in line
    ensures ExpandLine(line, tabSize) == line
  {
    ExpandPlain("", line, "", tabSize);
    assert line + "" == line && "" + line == line;
  }

  /** The text `processSmartTabs` returns: every line expanded, joined with `"\r\n"`. */
  function SmartTabs(code: string, tabSize: Num): string {
    Join(ExpandLines(SplitLines(code), tabSize), "\r\n")
  }

  function ExpandLines(lines: seq<string>, tabSize: Num): (r: seq<string>)
    ensures |r| == |lines|
    ensures forall k :: 0 <= k < |r| ==> r[k] == ExpandLine(lines[k], tabSize)
  {
    seq(|lines|, k requires 0 <= k < |lines| => ExpandLine(lines[k], tabSize))
  }

  /** No tab is left. */
  lemma SmartTabsNoTab(code: string, tabSize: Num)
    ensures '\t' !in SmartTabs(code, tabSize)
  {
    var lines := ExpandLines(SplitLines(code), tabSize);
    JoinNoChar(lines, "\r\n", '\t');
  }

  lemma {:induction false} JoinNoChar(parts: seq<string>, sep: string, c: char)
    requires c !in sep && forall k :: 0 <= k < |parts| ==> c !in parts[k]
    ensures c !in Join(parts, sep)
  {
    if |parts| > 1 {
      JoinNoChar(parts[1..], sep, c);
    }
  }

  /** Expanding already expanded text changes nothing. */
  lemma SmartTabsIdempotent(code: string, tabSize: Num)
    ensures SmartTabs(SmartTabs(code, tabSize), tabSize) == SmartTabs(code, tabSize)
  {
    var src := SplitLines(code);
    var lines := ExpandLines(src, tabSize);
    forall k | 0 <= k < |lines|
      ensures '\n' !in lines[k]
    {
      assert '\n' !in src[k];
    }
    SplitJoinCrLf(lines);
    forall k | 0 <= k < |lines|
      ensures ExpandLine(lines[k], tabSize) == lines[k]
    {
      ExpandTabFree(lines[k], tabSize);
    }
    assert ExpandLines(lines, tabSize) == lines;
  }

  /** The space pool `processSmartTabs` builds: 50 times 20 spaces. */
  method SpacePool() returns (spaces: string)
    ensures spaces == Spaces(1000)
  {
    spaces := "";
    var i := 0;
    while i < 50
      invariant 0 <= i <= 50
      invariant |spaces| == 20 * i && forall k :: 0 <= k < |spaces| ==> spaces[k] == ' '
    {
      spaces := spaces + "                    ";
      i := i + 1;
    }
  }

  /** The number of spaces `tabSize - pos % tabSize` asks for, with JavaScript's `%`
      (the sign of the dividend) and `NaN` for a zero or missing size. */
  function SpacesWanted(pos: nat, tabSize: Num): Num {
    match tabSize
    case Int(n) => if n == 0 then NaN else if n > 0 then Int(n - pos % n) else Int(n - pos % (-n))
    case _ => NaN
  }

  /** `spaces.substr(0, count)` on the pool. */
  function TakeSpaces(pool: string, count: Num): string {
    match count
    case Int(c) => Substr(pool, 0, c)
    case _ => ""
  }

  lemma TakeSpacesWidth(pos: nat, tabSize: Num)
    ensures TakeSpaces(Spaces(1000), SpacesWanted(pos, tabSize)) == Spaces(SmartTabWidth(pos, tabSize))
  {
    var pool := Spaces(1000);
    match tabSize
    case Int(n) =>
      if n > 0 {
        var w := SmartTabWidth(pos, tabSize);
        assert Substr(pool, 0, n - pos % n) == pool[0..w];
        assert pool[0..w] == Spaces(w);
      } else if n < 0 {
        assert n - pos % (-n) < 0;
      }
    case _ =>
  }

  /** The `eachLine` callback of `processSmartTabs`: while the line has a tab, the first
      one is replaced by the spaces up to the next tab stop. */
  method ExpandTabs(line: string, tabSize: Num, pool: string) returns (r: string)
    requires pool == Spaces(1000)
    ensures r == ExpandLine(line, tabSize)
  {
    if IndexOfChar(line, '\t') == -1 {
      ExpandTabFree(line, tabSize);
      return line;
    }
    r := line;
    var pos := IndexOfChar(r, '\t');
    while pos != -1
      invariant -1 <= pos < |r| && (pos == -1 <==> '\t' !in r)
      invariant pos >= 0 ==> r[pos] == '\t' && '\t' !in r[..pos]
      invariant ExpandLine(r, tabSize) == ExpandLine(line, tabSize)
      decreases TabCount(r)
    {
      var fill := TakeSpaces(pool, SpacesWanted(pos, tabSize));
      TakeSpacesWidth(pos, tabSize);
      var next := r[..pos] + fill + r[pos + 1..];
      ExpandStep(r, pos, tabSize);
      r := next;
      pos := IndexOfChar(r, '\t');
    }
    ExpandTabFree(r, tabSize);
  }

  /** Replacing the first tab by the spaces to its tab stop keeps the expansion and
      removes one tab. */
  lemma ExpandStep(r: string, pos: nat, tabSize: Num)
    requires pos < |r| && r[pos] == '\t' && '\t' !in r[..pos]
    ensures var next := r[..pos] + Spaces(SmartTabWidth(pos, tabSize)) + r[pos + 1..];
      ExpandLine(next, tabSize) == ExpandLine(r, tabSize) && TabCount(next) < TabCount(r)
  {
    var fill := Spaces(SmartTabWidth(pos, tabSize));
    var pre, post := r[..pos], r[pos + 1..];
    assert r == pre + ("\t" + post);
    ExpandTabAt(pre, post, tabSize);
    ExpandPlain("", pre + fill, post, tabSize);
    assert "" + (pre + fill) == pre + fill;
    TabCountSplit(pre, post, fill);
    assert pre + "\t" + post == r;
  }

  lemma ExpandTabAt(pre: string, post: string, tabSize: Num)
    requires '\t' !in pre
    ensures ExpandFrom("", pre + ("\t" + post), tabSize)
         == ExpandFrom(pre + Spaces(SmartTabWidth(|pre|, tabSize)), post, tabSize)
  {
    ExpandPlain("", pre, "\t" + post, tabSize);
    assert "" + pre == pre;
    var rest := "\t" + post;
    assert rest[0] == '\t' && rest[1..] == post;
  }

  /** The number of tabs in `s`. */
  function TabCount(s: string): (n: nat)
    ensures n == 0 <==> '\t' !in s
  {
    if |s| == 0 then 0 else (if s[0] == '\t' then 1 else 0) + TabCount(s[1..])
  }

  lemma {:induction false} TabCountAppend(a: string, b: string)
    ensures TabCount(a + b) == TabCount(a) + TabCount(b)
  {
    if |a| > 0 {
      assert (a + b)[1..] == a[1..] + b;
      TabCountAppend(a[1..], b);
    } else {
      assert a + b == b;
    }
  }

  lemma TabCountSplit(pre: string, post: string, fill: string)
    requires '\t' !in fill
    ensures TabCount(pre + fill + post) < TabCount(pre + "\t" + post)
  {
    TabCountAppend(pre, fill);
    TabCountAppend(pre + fill, post);
    TabCountAppend(pre, "\t");
    TabCountAppend(pre + "\t", post);
    assert TabCount("\t") == 1;
  }

  /** `processSmartTabs(code, tabSize)`: each line's tabs expanded to the next tab stop,
      the lines joined with `"\r\n"`. */
  method ProcessSmartTabs(code: string, tabSize: Num) returns (r: string)
    ensures r == SmartTabs(code, tabSize)
  {
    var lines := SplitLines(code);
    var pool := SpacePool();
    var i := 0;
    while i < |lines|
      invariant 0 <= i <= |lines| && |lines| == |SplitLines(code)|
      invariant forall k :: 0 <= k < i ==> lines[k] == ExpandLine(SplitLines(code)[k], tabSize)
      invariant forall k :: i <= k < |lines| ==> lines[k] == SplitLines(code)[k]
    {
      var line := ExpandTabs(lines[i], tabSize, pool);
      lines := lines[i := line];
      i := i + 1;
    }
    assert lines == ExpandLines(SplitLines(code), tabSize);
    r := Join(lines, "\r\n");
  }

  // ---------------------------------------------------------------------------
  // unindent

  /** The common indent `unindent` computes: the shortest leading white space over the
      lines that are not blank, starting from 1000. */
  function MinIndent(lines: seq<string>): (m: nat)
    ensures m <= 1000
    ensures forall k :: 0 <= k < |lines| && !IsBlank(lines[k]) ==> m <= LeadingSpace(lines[k])
    ensures m == 1000 || exists k :: 0 <= k < |lines| && !IsBlank(lines[k]) && m == LeadingSpace(lines[k])
  {
    if |lines| == 0 then 1000
    else
      var m := MinIndent(lines[..|lines| - 1]);
      var last := lines[|lines| - 1];
      assert forall k :: 0 <= k < |lines| - 1 ==> lines[..|lines| - 1][k] == lines[k];
      if IsBlank(last) || m <= LeadingSpace(last) then m else LeadingSpace(last)
  }

  /** Once the minimum reaches 0, later lines cannot change it. */
  lemma MinIndentZero(lines: seq<string>, i: nat)
    requires i <= |lines| && MinIndent(lines[..i]) == 0
    ensures MinIndent(lines) == 0
  {
  }

  /** Every line with its first `m` characters removed (`substr(m)`). */
  function Dedent(lines: seq<string>, m: nat): (r: seq<string>)
    ensures |r| == |lines|
    ensures forall k :: 0 <= k < |r| ==> r[k] == SubstrFrom(lines[k], m)
  {
    seq(|lines|, k requires 0 <= k < |lines| => SubstrFrom(lines[k], m))
  }

  /** What `unindent` returns as written: the bail-out for a line without leading white
      space never fires, since `/^\s*` always matches; such a line only makes the minimum
      0, and the lines are still re-joined with `"\n"`. */
  function UnindentAsWritten(str: string): string {
    var lines := SplitLines(str);
    var m := MinIndent(lines);
    Join(if m > 0 then Dedent(lines, m) else lines, "\n")
  }

  /** `unindent(str)` as written. */
  method UnindentLoop(str: string) returns (r: string)
    ensures r == UnindentAsWritten(str)
  {
    var lines := SplitLines(str);
    var min := ScanIndent(lines);
    if min > 0 {
      lines := DedentLines(lines, min);
    }
    r := Join(lines, "\n");
  }

  /** The loop over the lines of `unindent` as written: it stops as soon as the minimum
      is 0. */
  method ScanIndent(lines: seq<string>) returns (min: nat)
    ensures min == MinIndent(lines)
  {
    min := 1000;
    var i := 0;
    while i < |lines| && min > 0
      invariant 0 <= i <= |lines| && min == MinIndent(lines[..i])
    {
      var line := lines[i];
      assert lines[..i + 1][..i] == lines[..i];
      if IsBlank(line) {
        i := i + 1;
        continue;
      }
      var indent := LeadingSpace(line);
      min := if indent < min then indent else min;
      i := i + 1;
    }
    if min == 0 {
      MinIndentZero(lines, i);
    } else {
      assert lines[..i] == lines;
    }
  }

  /** The loop `lines[i] = lines[i].substr(min)`. */
  method DedentLines(lines: seq<string>, min: nat) returns (r: seq<string>)
    ensures r == Dedent(lines, min)
  {
    r := lines;
    var j := 0;
    while j < |r|
      invariant 0 <= j <= |r| && |r| == |lines|
      invariant forall k :: 0 <= k < j ==> r[k] == SubstrFrom(lines[k], min)
      invariant forall k :: j <= k < |r| ==> r[k] == lines[k]
    {
      r := r[j := SubstrFrom(r[j], min)];
      j := j + 1;
    }
  }

  /** The unreachable bail-out is observable: an unindented line among `"\r\n"` breaks does
      not leave the text unchanged, as the comment at the bail-out promises, but turns the
      breaks into `"\n"`. */
  lemma UnindentBailOutUnreachable(str: string)
    requires str == "a" + "\r\n" + "b"
    ensures UnindentAsWritten(str) == "a" + "\n" + "b" && UnindentAsWritten(str) != str
  {
    assert IndexOfChar(str, '\n') == 2;
    assert str[1] == '\r' && str[..1] == "a";
    assert str[3..] == "b";
    assert IndexOfChar("b", '\n') == -1;
    assert SplitLines("b") == ["b"];
    assert SplitLines(str) == ["a", "b"];
    assert LeadingSpace("a") == 0;
    assert MinIndent(["a", "b"]) == 0 by {
      assert ["a", "b"][..1] == ["a"];
      assert MinIndent(["a"]) == 0 by { assert ["a"][..0] == []; }
    }
    assert Join(["a", "b"], "\n") == "a" + "\n" + "b";
    assert UnindentAsWritten(str)[1] == '\n' != str[1];
  }

  /** Some line that is not blank has no leading white space. */
  predicate HasUnindented(lines: seq<string>) {
    exists k :: 0 <= k < |lines| && !IsBlank(lines[k]) && LeadingSpace(lines[k]) == 0
  }

  /** What `unindent` evidently intends: all or nothing. */
  function UnindentSpec(str: string): string {
    var lines := SplitLines(str);
    if HasUnindented(lines) then str else Join(Dedent(lines, MinIndent(lines)), "\n")
  }

  /** `unindent(str)` with its bail-out reachable: a line that is not blank and has no
      leading white space leaves the text unchanged; otherwise every line loses the
      common indent. */
  method Unindent(str: string) returns (r: string)
    ensures r == UnindentSpec(str)
  {
    var lines := SplitLines(str);
    var min, bail := ScanIndentOrBail(lines);
    if bail {
      return str;
    }
    lines := DedentLines(lines, min);
    r := Join(lines, "\n");
  }

  /** The loop over the lines of `unindent` with its bail-out: it reports a line that is
      not blank and has no leading white space, and otherwise the common indent. */
  method ScanIndentOrBail(lines: seq<string>) returns (min: nat, bail: bool)
    ensures bail <==> HasUnindented(lines)
    ensures !bail ==> min == MinIndent(lines) && min > 0
  {
    min := 1000;
    var i := 0;
    while i < |lines| && min > 0
      invariant 0 <= i <= |lines| && min == MinIndent(lines[..i]) && min > 0
      invariant !HasUnindented(lines[..i])
    {
      var line := lines[i];
      ScanStep(lines, i);
      if IsBlank(line) {
        i := i + 1;
        continue;
      }
      var indent := LeadingSpace(line);
      if indent == 0 {
        UnindentedLater(lines, i);
        return min, true;
      }
      min := if indent < min then indent else min;
      i := i + 1;
    }
    assert lines[..i] == lines;
    bail := false;
  }

  /** One more line scanned: the minimum and the search for an unindented line. */
  lemma ScanStep(lines: seq<string>, i: nat)
    requires i < |lines|
    ensures var m := MinIndent(lines[..i]); var line := lines[i];
      MinIndent(lines[..i + 1]) == (if IsBlank(line) || m <= LeadingSpace(line) then m else LeadingSpace(line))
    ensures HasUnindented(lines[..i + 1]) <==> HasUnindented(lines[..i]) || (!IsBlank(lines[i]) && LeadingSpace(lines[i]) == 0)
  {
    var p := lines[..i + 1];
    assert p[..i] == lines[..i];
    assert forall k :: 0 <= k < i + 1 ==> p[k] == lines[k];
  }

  /** An unindented line anywhere makes the whole text bail out. */
  lemma UnindentedLater(lines: seq<string>, i: nat)
    requires i < |lines| && !IsBlank(lines[i]) && LeadingSpace(lines[i]) == 0
    ensures HasUnindented(lines)
  {
  }

  /** All or nothing: when some line that is not blank lacks leading white space the text
      is returned unchanged, and otherwise every line loses exactly the common indent,
      which is no more than any such line's indent and equal to one of them (or 1000). */
  lemma UnindentAllOrNothing(str: string)
    ensures HasUnindented(SplitLines(str)) ==> UnindentSpec(str) == str
    ensures !HasUnindented(SplitLines(str)) ==>
      var lines := SplitLines(str);
      var m := MinIndent(lines);
      m > 0 && UnindentSpec(str) == Join(Dedent(lines, m), "\n")
      && forall k :: 0 <= k < |lines| && |lines[k]| >= m ==> Dedent(lines, m)[k] == lines[k][m..]
  {
  }

  // ---------------------------------------------------------------------------
  // stripCData

  const CDataLeft := "<![CDATA["
  const CDataRight := "]]>"

  /** `stripCData(original)` as written: the end marker is looked for with `indexOf`, and
      its position compared with `length - 3`. */
  function StripCDataAsWritten(original: string): (r: string)
    ensures var copy := Trim(original);
      !StartsWith(copy, CDataLeft) && IndexOf(copy, CDataRight) != |copy| - 3 ==> r == original
    ensures var copy := Trim(original);
      var copy1 := if StartsWith(copy, CDataLeft) then copy[|CDataLeft|..] else copy;
      (StartsWith(copy, CDataLeft) && IndexOf(copy1, CDataRight) != |copy1| - 3 ==> r == copy1)
      && (EndsWith(copy1, CDataRight) && IndexOf(copy1, CDataRight) == |copy1| - 3 ==> r == copy1[..|copy1| - 3])
      && (|copy1| == 2 ==> r == "")
  {
    var copy := Trim(original);
    assert IndexOf(copy, CDataLeft) == 0 <==> StartsWith(copy, CDataLeft) by {
      assert OccursAt(copy, CDataLeft, 0) <==> StartsWith(copy, CDataLeft);
    }
    var leftFound := IndexOf(copy, CDataLeft) == 0;
    var copy1 := if leftFound then Substring(copy, |CDataLeft|, |copy|) else copy;
    var rightFound := IndexOf(copy1, CDataRight) == |copy1| - |CDataRight|;
    var copy2 := if rightFound then Substring(copy1, 0, |copy1| - |CDataRight|) else copy1;
    assert leftFound ==> copy1 == copy[|CDataLeft|..];
    assert rightFound && |copy1| >= 3 ==> copy2 == copy1[..|copy1| - 3];
    if leftFound || rightFound then copy2 else original
  }

  /** Any text of two characters without a marker is lost: `indexOf` answers -1, which is
      `2 - 3`, and `substring(0, -1)` is empty. */
  lemma StripCDataTwoChars(original: string)
    requires original == "ab"
    ensures StripCDataAsWritten(original) == ""
  {
    assert Trim(original) == original;
    assert !OccursAt(original, CDataLeft, 0);
    assert IndexOf(original, CDataRight) == -1 by {
      forall i | 0 <= i <= |original|
        ensures !OccursAt(original, CDataRight, i)
      {
      }
    }
  }

  /** `s` starts with `p`. */
  predicate StartsWith(s: string, p: string) {
    |p| <= |s| && s[..|p|] == p
  }

  /** `s` ends with `p`. */
  predicate EndsWith(s: string, p: string) {
    |p| <= |s| && s[|s| - |p|..] == p
  }

  /** `stripCData` as intended: one leading `<![CDATA[` and one trailing `]]>` removed from
      the trimmed text; the text unchanged when it has neither. */
  function StripCData(original: string): (r: string)
    ensures var copy := Trim(original);
      !StartsWith(copy, CDataLeft) && !EndsWith(copy, CDataRight) ==> r == original
  {
    var copy := Trim(original);
    var copy1 := if StartsWith(copy, CDataLeft) then copy[|CDataLeft|..] else copy;
    var copy2 := if EndsWith(copy1, CDataRight) then copy1[..|copy1| - |CDataRight|] else copy1;
    if StartsWith(copy, CDataLeft) || EndsWith(copy1, CDataRight) then copy2 else original
  }

  /** Wrapping a text in a CDATA section and stripping it gives the text back. */
  lemma StripCDataRoundTrip(x: string)
    ensures StripCData(CDataLeft + x + CDataRight) == x
  {
    var w := CDataLeft + x + CDataRight;
    assert w[0] == '<' && w[|w| - 1] == '>';
    assert LeadingSpace(w) == 0;
    assert TrailingSpace(w) == 0;
    assert Trim(w) == w;
    assert w[..|CDataLeft|] == CDataLeft;
    var copy1 := w[|CDataLeft|..];
    assert copy1 == x + CDataRight;
    assert copy1[|copy1| - |CDataRight|..] == CDataRight;
    assert copy1[..|copy1| - |CDataRight|] == x;
  }

  /** The two-character text the written version empties is kept. */
  lemma StripCDataTwoCharsKept(original: string)
    requires original == "ab"
    ensures StripCData(original) == original
  {
    assert Trim(original) == original;
  }

  // ---------------------------------------------------------------------------
  // getKeywords

  /** `str.replace(/\s+/g, '|')`: every run of white space becomes one `|`. */
  function CollapseSpaces(s: string): string
    decreases |s|
  {
    if |s| == 0 then ""
    else if IsSpace(s[0]) then "|" + CollapseSpaces(s[LeadingSpace(s)..])
    else [s[0]] + CollapseSpaces(s[1..])
  }

  /** `getKeywords(str)`: the space separated keywords as one alternation between word
      boundaries. */
  function GetKeywords(str: string): string {
    "\\b(?:" + CollapseSpaces(Trim(str)) + ")\\b"
  }

  /** A word without white space followed by white space and more words. */
  lemma {:induction false} CollapseWords(words: seq<string>)
    requires |words| >= 1
    requires forall k :: 0 <= k < |words| ==> |words[k]| > 0 && forall c :: c in words[k] ==> !IsSpace(c)
    ensures CollapseSpaces(Join(words, " ")) == Join(words, "|")
  {
    if |words| > 1 {
      var w := words[0];
      var rest := Join(words[1..], " ");
      assert forall k :: 0 <= k < |words| - 1 ==> words[1..][k] == words[k + 1];
      CollapseWords(words[1..]);
      assert Join(words, " ") == w + (" " + rest);
      CollapsePlain(w, " " + rest);
      var t := " " + rest;
      JoinStartsWith(words[1..], " ");
      assert words[1][0] in words[1];
      assert !IsSpace(t[1]);
      assert LeadingSpace(t) == 1;
      assert t[1..] == rest;
      assert CollapseSpaces(t) == "|" + CollapseSpaces(rest);
      assert Join(words, "|") == w + "|" + Join(words[1..], "|");
      assert CollapseSpaces(Join(words, " ")) == w + ("|" + Join(words[1..], "|"));
    } else {
      CollapsePlain(words[0], "");
      assert words[0] + "" == words[0];
    }
  }

  lemma JoinStartsWith(parts: seq<string>, sep: string)
    requires |parts| >= 1 && |parts[0]| > 0
    ensures |Join(parts, sep)| > 0 && Join(parts, sep)[0] == parts[0][0]
  {
  }

  lemma {:induction false} CollapsePlain(w: string, rest: string)
    requires forall c :: c in w ==> !IsSpace(c)
    ensures CollapseSpaces(w + rest) == w + CollapseSpaces(rest)
    decreases |w|
  {
    if |w| > 0 {
      assert w[0] in w;
      assert (w + rest)[0] == w[0];
      assert (w + rest)[1..] == w[1..] + rest;
      assert forall c :: c in w[1..] ==> c in w;
      CollapsePlain(w[1..], rest);
      assert CollapseSpaces(w + rest) == [w[0]] + CollapseSpaces(w[1..] + rest);
      assert [w[0]] + w[1..] == w;
    } else {
      assert w + rest == rest;
    }
  }

  /** Keywords separated by single spaces, with white space around them, become the
      alternation of those keywords. */
  lemma KeywordsAlternation(words: seq<string>, lead: nat, trail: nat)
    requires |words| >= 1
    requires forall k :: 0 <= k < |words| ==> |words[k]| > 0 && forall c :: c in words[k] ==> !IsSpace(c)
    ensures GetKeywords(Spaces(lead) + Join(words, " ") + Spaces(trail)) == "\\b(?:" + Join(words, "|") + ")\\b"
  {
    var body := Join(words, " ");
    JoinStartsWith(words, " ");
    JoinEndsWord(words, " ");
    var s := Spaces(lead) + body + Spaces(trail);
    TrimAround(lead, body, trail);
    CollapseWords(words);
  }

  lemma {:induction false} JoinEndsWord(parts: seq<string>, sep: string)
    requires |parts| >= 1 && forall k :: 0 <= k < |parts| ==> |parts[k]| > 0
    ensures |Join(parts, sep)| > 0 && Join(parts, sep)[|Join(parts, sep)| - 1] == parts[|parts| - 1][|parts[|parts| - 1]| - 1]
  {
    if |parts| > 1 {
      JoinEndsWord(parts[1..], sep);
    }
  }

  /** Trimming removes exactly the spaces around a text that starts and ends with
      something else. */
  lemma TrimAround(lead: nat, body: string, trail: nat)
    requires |body| > 0 && !IsSpace(body[0]) && !IsSpace(body[|body| - 1])
    ensures Trim(Spaces(lead) + body + Spaces(trail)) == body
  {
    var t := body + Spaces(trail);
    assert Spaces(lead) + body + Spaces(trail) == Spaces(lead) + t;
    assert t[0] == body[0];
    SpacesThen(lead, t);
    ThenSpaces(body, trail);
  }

  lemma SpacesThen(lead: nat, t: string)
    requires |t| > 0 && !IsSpace(t[0])
    ensures LeadingSpace(Spaces(lead) + t) == lead && (Spaces(lead) + t)[lead..] == t
  {
    var s := Spaces(lead) + t;
    assert forall k :: 0 <= k < lead ==> s[k] == ' ';
    assert s[lead] == t[0];
    LeadingSpaceOf(s, lead);
  }

  lemma ThenSpaces(body: string, trail: nat)
    requires |body| > 0 && !IsSpace(body[|body| - 1])
    ensures var t := body + Spaces(trail);
      TrailingSpace(t) == trail && t[..|t| - trail] == body
  {
    var t := body + Spaces(trail);
    assert forall k :: |t| - trail <= k < |t| ==> t[k] == ' ';
    assert t[|t| - trail - 1] == body[|body| - 1];
    TrailingSpaceOf(t, trail);
  }

  lemma LeadingSpaceOf(s: string, n: nat)
    requires n < |s| && (forall k :: 0 <= k < n ==> IsSpace(s[k])) && !IsSpace(s[n])
    ensures LeadingSpace(s) == n
  {
  }

  lemma TrailingSpaceOf(s: string, n: nat)
    requires n < |s| && (forall k :: |s| - n <= k < |s| ==> IsSpace(s[k])) && !IsSpace(s[|s| - n - 1])
    ensures TrailingSpace(s) == n
  {
  }
}
