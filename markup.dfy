/** Turning the matches into markup (shCore.js): `wrapLinesWithCode`, which escapes a
    fragment, keeps runs of spaces visible and wraps each line in a styled `<code>`;
    `getMatchesHtml`, which walks the code and wraps each gap and each match; the link
    pass `processUrls`; and `getTitleHtml`. */
module Markup {
  import opened Wrappers
  import opened JsText
  import opened JsValues
  import opened Matches
  import opened Resolver
  import opened Rules
  import opened Transforms

  /** `sh.config.space` */
  const Nbsp := "&nbsp;"

  // ---------------------------------------------------------------------------
  // Line counting

  /** The number of newlines in `s`. */
  function NewlineCount(s: string): nat {
    if |s| == 0 then 0 else (if s[0] == '\n' then 1 else 0) + NewlineCount(s[1..])
  }

  lemma {:induction false} NewlineCountAppend(a: string, b: string)
    ensures NewlineCount(a + b) == NewlineCount(a) + NewlineCount(b)
  {
    if |a| > 0 {
      assert (a + b)[1..] == a[1..] + b;
      NewlineCountAppend(a[1..], b);
    } else {
      assert a + b == b;
    }
  }

  lemma {:induction false} NewlineCountNone(s: string)
    requires '\n' !in s
    ensures NewlineCount(s) == 0
  {
    if |s| > 0 {
      assert forall c :: c in s[1..] ==> c in s;
      NewlineCountNone(s[1..]);
    }
  }

  /** `split(/\r?\n/)` yields one line more than there are newlines. */
  lemma {:induction false} SplitLinesCount(s: string)
    ensures |SplitLines(s)| == NewlineCount(s) + 1
    decreases |s|
  {
    var k := IndexOfChar(s, '\n');
    if k < 0 {
      NewlineCountNone(s);
    } else {
      assert s == s[..k] + ("\n" + s[k + 1..]);
      NewlineCountAppend(s[..k], "\n" + s[k + 1..]);
      NewlineCountAppend("\n", s[k + 1..]);
      NewlineCountNone(s[..k]);
      SplitLinesCount(s[k + 1..]);
    }
  }

  /** Joining `n` lines that have no newline with `"\r\n"` gives `n - 1` newlines. */
  lemma {:induction false} JoinCrLfCount(lines: seq<string>)
    requires |lines| >= 1 && forall k :: 0 <= k < |lines| ==> '\n' !in lines[k]
    ensures NewlineCount(Join(lines, "\r\n")) == |lines| - 1
  {
    NewlineCountNone(lines[0]);
    if |lines| > 1 {
      JoinCrLfCount(lines[1..]);
      NewlineCountAppend(lines[0], "\r\n");
      NewlineCountAppend(lines[0] + "\r\n", Join(lines[1..], "\r\n"));
      assert NewlineCount("\r\n") == 1;
    }
  }

  // ---------------------------------------------------------------------------
  // wrapLinesWithCode

  /** `str.replace(/</g, '&lt;')` */
  function EscapeLt(s: string): (r: string)
    ensures '<' !in r
    ensures NewlineCount(r) == NewlineCount(s)
  {
    if |s| == 0 then ""
    else
      var head := if s[0] == '<' then "&lt;" else [s[0]];
      var tail := EscapeLt(s[1..]);
      NewlineCountAppend(head, tail);
      assert NewlineCount("&lt;") == 0;
      head + tail
  }

  /** What `replace(/</g, '&lt;')` does to one character. */
  function EscapeChar(c: char): (r: string)
    ensures c == '<' ==> r == "&lt;"
    ensures c != '<' ==> r == [c]
  {
    if c == '<' then "&lt;" else [c]
  }

  /** Each `<` becomes `&lt;` and every other character is kept, in order. */
  lemma {:induction false} EscapeLtEach(s: string)
    ensures EscapeLt(s) == Concat(seq(|s|, k requires 0 <= k < |s| => EscapeChar(s[k])))
  {
    if |s| > 0 {
      EscapeLtEach(s[1..]);
      var parts := seq(|s|, k requires 0 <= k < |s| => EscapeChar(s[k]));
      assert parts[1..] == seq(|s| - 1, k requires 0 <= k < |s| - 1 => EscapeChar(s[1..][k]));
    }
  }

  lemma {:induction false} EscapeLtAppend(a: string, b: string)
    ensures EscapeLt(a + b) == EscapeLt(a) + EscapeLt(b)
  {
    if |a| > 0 {
      assert (a + b)[1..] == a[1..] + b;
      EscapeLtAppend(a[1..], b);
    } else {
      assert a + b == b;
    }
  }

  /** `m` space characters as `replace(/ {2,}/g, …)` leaves them: one space alone, and a
      longer run as `m - 1` non-breaking spaces and one space, so the width is kept and
      the line can still break there. */
  function SpaceRun(m: nat): (r: string)
    requires m >= 1
    ensures |r| >= 1 && r[|r| - 1] == ' '
    ensures forall k :: 0 <= k < |r| - 1 ==> r[k] != ' '
    ensures '\n' !in r
  {
    if m == 1 then " " else Nbsp + SpaceRun(m - 1)
  }

  /** Every maximal run of two or more spaces replaced. */
  function CollapseRuns(s: string): (r: string)
    ensures NewlineCount(r) == NewlineCount(s)
    ensures |s| > 0 && s[0] != ' ' ==> |r| > 0 && r[0] == s[0]
    decreases |s|
  {
    if |s| == 0 then ""
    else if s[0] == ' ' then
      var n := RunFrom(s, 0, ' ');
      var run := SpaceRun(n);
      var tail := CollapseRuns(s[n..]);
      NewlineCountAppend(run, tail);
      NewlineCountNone(run);
      NewlineCountAppend(s[..n], s[n..]);
      assert s == s[..n] + s[n..];
      assert '\n' !in s[..n];
      NewlineCountNone(s[..n]);
      run + tail
    else
      var tail := CollapseRuns(s[1..]);
      NewlineCountAppend([s[0]], tail);
      NewlineCountAppend([s[0]], s[1..]);
      assert s == [s[0]] + s[1..];
      [s[0]] + tail
  }

  /** No two adjacent spaces in `s`. */
  predicate NoDoubleSpace(s: string) {
    forall k :: 0 <= k < |s| - 1 ==> !(s[k] == ' ' && s[k + 1] == ' ')
  }

  /** After the replacement no two spaces are adjacent. */
  lemma {:induction false} CollapseNoDoubleSpace(s: string)
    ensures NoDoubleSpace(CollapseRuns(s))
    decreases |s|
  {
    var r := CollapseRuns(s);
    if |s| > 0 {
      if s[0] == ' ' {
        var n := RunFrom(s, 0, ' ');
        var run := SpaceRun(n);
        var tail := CollapseRuns(s[n..]);
        CollapseNoDoubleSpace(s[n..]);
        assert NoDoubleSpace(tail);
        assert r == run + tail;
        forall k | 0 <= k < |r| - 1
          ensures !(r[k] == ' ' && r[k + 1] == ' ')
        {
          if k < |run| - 1 {
            assert r[k] == run[k];
          } else if k == |run| - 1 {
            assert |tail| > 0;
            assert n < |s|;
            assert s[n..][0] == s[n] && s[n] != ' ';
            assert tail[0] == s[n];
            assert r[k + 1] == tail[0];
          } else {
            var j := k - |run|;
            assert 0 <= j < |tail| - 1;
            assert r[k] == tail[j] && r[k + 1] == tail[j + 1];
            assert !(tail[j] == ' ' && tail[j + 1] == ' ');
          }
        }
      } else {
        var tail := CollapseRuns(s[1..]);
        CollapseNoDoubleSpace(s[1..]);
        assert NoDoubleSpace(tail);
        assert r == [s[0]] + tail;
        forall k | 0 <= k < |r| - 1
          ensures !(r[k] == ' ' && r[k + 1] == ' ')
        {
          if k > 0 {
            assert r[k] == tail[k - 1] && r[k + 1] == tail[k];
            assert !(tail[k - 1] == ' ' && tail[k] == ' ');
          } else {
            assert r[0] == s[0];
          }
        }
      }
    }
  }

  /** Text with no two adjacent spaces is left as it is. */
  lemma {:induction false} CollapseSingleSpaces(s: string)
    requires NoDoubleSpace(s)
    ensures CollapseRuns(s) == s
    decreases |s|
  {
    if |s| > 0 {
      if s[0] == ' ' {
        var n := RunFrom(s, 0, ' ');
        if |s| > 1 {
          assert !(s[0] == ' ' && s[1] == ' ');
        }
        assert n == 1;
        CollapseSingleSpaces(s[1..]);
        assert s == [s[0]] + s[1..];
      } else {
        CollapseSingleSpaces(s[1..]);
        assert s == [s[0]] + s[1..];
      }
    }
  }

  /** Length of the run `(&nbsp;| )+` at the start of `line`, in characters. */
  function IndentLength(line: string): (n: nat)
    ensures n <= |line|
    decreases |line|
  {
    if |line| > 0 && line[0] == ' ' then 1 + IndentLength(line[1..])
    else if |line| >= 6 && line[..6] == Nbsp then 6 + IndentLength(line[6..])
    else 0
  }

  /** The `eachLine` callback of `wrapLinesWithCode`: an empty line stays empty, the
      leading spaces stay outside the element and the rest goes in `<code class="css">`. */
  function WrapLine(line: string, css: string): (r: string)
    ensures line == "" ==> r == ""
    ensures '\n' !in line && '\n' !in css ==> '\n' !in r
  {
    if |line| == 0 then ""
    else
      var n := IndentLength(line);
      var spaces, rest := line[..n], line[n..];
      assert forall c :: c in spaces ==> c in line;
      assert forall c :: c in rest ==> c in line;
      if |rest| == 0 then spaces
      else spaces + "<code class=\"" + css + "\">" + rest + "</code>"
  }

  function WrapLines(lines: seq<string>, css: string): (r: seq<string>)
    ensures |r| == |lines|
    ensures forall k :: 0 <= k < |r| ==> r[k] == WrapLine(lines[k], css)
  {
    seq(|lines|, k requires 0 <= k < |lines| => WrapLine(lines[k], css))
  }

  /** The text is empty or a single newline. */
  predicate IsEmptyOrNewline(str: string) {
    |str| == 0 || (|str| == 1 && str[0] == '\n')
  }

  /** `wrapLinesWithCode(str, css)` with a style name: empty text and a lone newline are
      returned as they are; otherwise `<` is escaped, runs of spaces are kept visible and
      each line is wrapped, the lines joined with `"\r\n"`. */
  function WrapLinesWithCode(str: string, css: string): (r: string)
    ensures IsEmptyOrNewline(str) ==> r == str
  {
    if IsEmptyOrNewline(str) then str
    else Join(WrapLines(SplitLines(CollapseRuns(EscapeLt(str))), css), "\r\n")
  }

  /** Line `k` of what `wrapLinesWithCode` returns is line `k` of the escaped, collapsed
      text, wrapped. */
  lemma WrapLinesSplit(str: string, css: string)
    requires !IsEmptyOrNewline(str) && '\n' !in css
    ensures SplitLines(WrapLinesWithCode(str, css)) == WrapLines(SplitLines(CollapseRuns(EscapeLt(str))), css)
  {
    var t := CollapseRuns(EscapeLt(str));
    var lines := WrapLines(SplitLines(t), css);
    forall k | 0 <= k < |lines|
      ensures '\n' !in lines[k]
    {
      assert '\n' !in SplitLines(t)[k];
    }
    SplitJoinCrLf(lines);
  }

  /** Wrapping keeps the number of lines. */
  lemma WrapKeepsLines(str: string, css: string)
    requires '\n' !in css
    ensures |SplitLines(WrapLinesWithCode(str, css))| == |SplitLines(str)|
  {
    if !IsEmptyOrNewline(str) {
      var t := CollapseRuns(EscapeLt(str));
      var lines := WrapLines(SplitLines(t), css);
      SplitLinesCount(t);
      SplitLinesCount(str);
      forall k | 0 <= k < |lines|
        ensures '\n' !in lines[k]
      {
        assert '\n' !in SplitLines(t)[k];
      }
      JoinCrLfCount(lines);
      SplitLinesCount(Join(lines, "\r\n"));
    }
  }

  /** A one-line fragment without `<`, space or newline becomes exactly one element. */
  lemma WrapWord(word: string, css: string)
    requires |word| > 0 && word != "\n" && forall c :: c in word ==> c != '<' && c != ' ' && c != '\n'
    requires |word| < 6 || word[..6] != Nbsp
    ensures WrapLinesWithCode(word, css) == "<code class=\"" + css + "\">" + word + "</code>"
  {
    assert forall k :: 0 <= k < |word| ==> word[k] in word;
    EscapeLtPlain(word);
    CollapseSingleSpaces(word);
    assert CollapseRuns(EscapeLt(word)) == word;
    assert IndexOfChar(word, '\n') == -1;
    assert SplitLines(word) == [word];
    assert IndentLength(word) == 0;
    WrapLineUnindented(word, css);
    assert WrapLines([word], css) == [WrapLine(word, css)];
  }

  /** A line without leading spaces goes whole into the `code` element. */
  lemma WrapLineUnindented(line: string, css: string)
    requires |line| > 0 && IndentLength(line) == 0
    ensures WrapLine(line, css) == "<code class=\"" + css + "\">" + line + "</code>"
  {
    var open := "<code class=\"";
    assert line[..0] + open == open;
    assert line[0..] == line;
    assert WrapLine(line, css) == line[..0] + open + css + "\">" + line[0..] + "</code>";
  }

  lemma {:induction false} EscapeLtPlain(s: string)
    requires '<' !in s
    ensures EscapeLt(s) == s
  {
    if |s| > 0 {
      assert forall c :: c in s[1..] ==> c in s;
      EscapeLtPlain(s[1..]);
      assert s == [s[0]] + s[1..];
    }
  }

  // ---------------------------------------------------------------------------
  // getMatchesHtml

  /** `getBrushNameCss(match)`: the match's brush name, or else the `brush` option, followed
      by a space; nothing when neither is set. */
  function BrushCss(matchBrush: Option<string>, brush: Value): (r: string)
    ensures matchBrush.Some? && matchBrush.value != "" ==> r == matchBrush.value + " "
    ensures (matchBrush.None? || matchBrush.value == "") && !Truthy(brush) ==> r == ""
  {
    if matchBrush.Some? && matchBrush.value != "" then matchBrush.value + " "
    else if Truthy(brush) then ToStr(brush) + " "
    else ""
  }

  /** A fragment of the code and the style it is wrapped with. */
  datatype Piece = Piece(text: string, css: string)

  /** The fragments `getMatchesHtml` wraps, from cursor `pos` on: for each match present and
      not empty, the gap before it (style `plain`) and the match itself; then the rest of
      the code. */
  function Pieces(code: string, ms: seq<Option<Match>>, pos: nat, brush: Value): seq<Piece>
    decreases |ms|
  {
    if |ms| == 0 then [Piece(SubstrFrom(code, pos), BrushCss(None, brush) + "plain")]
    else if ms[0].None? || |ms[0].value.value| == 0 then Pieces(code, ms[1..], pos, brush)
    else
      var m := ms[0].value;
      var css := BrushCss(m.brushName, brush);
      [Piece(Substr(code, pos, m.index - pos), css + "plain"), Piece(m.value, css + m.css)]
        + Pieces(code, ms[1..], m.End(), brush)
  }

  /** The markup for a list of fragments. */
  function Render(ps: seq<Piece>): string {
    if |ps| == 0 then "" else WrapLinesWithCode(ps[0].text, ps[0].css) + Render(ps[1..])
  }

  /** The text of a list of fragments. */
  function Texts(ps: seq<Piece>): string {
    if |ps| == 0 then "" else ps[0].text + Texts(ps[1..])
  }

  lemma {:induction false} RenderAppend(a: seq<Piece>, b: seq<Piece>)
    ensures Render(a + b) == Render(a) + Render(b)
  {
    if |a| > 0 {
      assert (a + b)[1..] == a[1..] + b;
      RenderAppend(a[1..], b);
      AppendAssoc(WrapLinesWithCode(a[0].text, a[0].css), Render(a[1..]), Render(b));
    } else {
      assert a + b == b;
    }
  }

  /** The gap before match `m` from cursor `pos`, and the match, as `getMatchesHtml`
      wraps them. */
  function GapPiece(code: string, m: Match, pos: nat, brush: Value): Piece {
    Piece(Substr(code, pos, m.index - pos), BrushCss(m.brushName, brush) + "plain")
  }

  function TokenPiece(m: Match, brush: Value): Piece {
    Piece(m.value, BrushCss(m.brushName, brush) + m.css)
  }

  /** One step of the walk: a match present and not empty contributes its gap and itself. */
  lemma PiecesHead(code: string, ms: seq<Option<Match>>, pos: nat, brush: Value)
    requires |ms| > 0 && ms[0].Some? && |ms[0].value.value| > 0
    ensures Pieces(code, ms, pos, brush)
      == [GapPiece(code, ms[0].value, pos, brush), TokenPiece(ms[0].value, brush)]
         + Pieces(code, ms[1..], ms[0].value.End(), brush)
  {
  }

  /** The markup and the text of a gap, a match and what follows. */
  lemma TwoThen(a: Piece, b: Piece, later: seq<Piece>)
    ensures Render([a, b] + later) == WrapLinesWithCode(a.text, a.css) + WrapLinesWithCode(b.text, b.css) + Render(later)
    ensures Texts([a, b] + later) == a.text + b.text + Texts(later)
  {
    assert [a, b] + later == [a] + ([b] + later);
    RenderCons(a, [b] + later);
    RenderCons(b, later);
    AppendAssoc(WrapLinesWithCode(a.text, a.css), WrapLinesWithCode(b.text, b.css), Render(later));
    TextsCons(a, [b] + later);
    TextsCons(b, later);
    AppendAssoc(a.text, b.text, Texts(later));
  }

  /** The markup of a fragment followed by others. */
  lemma RenderCons(p: Piece, rest: seq<Piece>)
    ensures Render([p] + rest) == WrapLinesWithCode(p.text, p.css) + Render(rest)
  {
    assert ([p] + rest)[1..] == rest;
  }

  /** The text of a fragment followed by others. */
  lemma TextsCons(p: Piece, rest: seq<Piece>)
    ensures Texts([p] + rest) == p.text + Texts(rest)
  {
    assert ([p] + rest)[1..] == rest;
  }

  /** A missing or empty match contributes nothing. */
  lemma PiecesSkip(code: string, ms: seq<Option<Match>>, pos: nat, brush: Value)
    requires |ms| > 0 && (ms[0].None? || |ms[0].value.value| == 0)
    ensures Pieces(code, ms, pos, brush) == Pieces(code, ms[1..], pos, brush)
  {
  }

  /** `getMatchesHtml(code, matches)`: the `pos` cursor walks the code, each match present
      and not empty contributing its gap and itself, and the rest of the code closes. */
  method GetMatchesHtml(code: string, matches: seq<Option<Match>>, brush: Value) returns (result: string)
    ensures result == Render(Pieces(code, matches, 0, brush))
  {
    ghost var target := Render(Pieces(code, matches, 0, brush));
    var pos: nat := 0;
    result := "";
    var i := 0;
    while i < |matches|
      invariant 0 <= i <= |matches|
      invariant result + Render(Pieces(code, matches[i..], pos, brush)) == target
    {
      var entry := matches[i];
      if entry.Some? && |entry.value.value| > 0 {
        var m := entry.value;
        var gap, token := GapPiece(code, m, pos, brush), TokenPiece(m, brush);
        WalkStep(code, matches, i, pos, brush, result, target);
        result := result + WrapLinesWithCode(gap.text, gap.css) + WrapLinesWithCode(token.text, token.css);
        pos := m.End();
      } else {
        assert matches[i..][1..] == matches[i + 1..];
        PiecesSkip(code, matches[i..], pos, brush);
      }
      i := i + 1;
    }
    var tail := Piece(SubstrFrom(code, pos), BrushCss(None, brush) + "plain");
    assert Render([tail]) == WrapLinesWithCode(tail.text, tail.css) by { assert [tail][1..] == []; }
    result := result + WrapLinesWithCode(tail.text, tail.css);
  }

  /** The loop step of `GetMatchesHtml` for a match present and not empty. */
  lemma WalkStep(code: string, matches: seq<Option<Match>>, i: nat, pos: nat, brush: Value, acc: string, target: string)
    requires i < |matches| && matches[i].Some? && |matches[i].value.value| > 0
    requires acc + Render(Pieces(code, matches[i..], pos, brush)) == target
    ensures var m := matches[i].value;
      var gap, token := GapPiece(code, m, pos, brush), TokenPiece(m, brush);
      acc + WrapLinesWithCode(gap.text, gap.css) + WrapLinesWithCode(token.text, token.css)
        + Render(Pieces(code, matches[i + 1..], m.End(), brush)) == target
  {
    var m := matches[i].value;
    var gap, token := GapPiece(code, m, pos, brush), TokenPiece(m, brush);
    assert matches[i..][1..] == matches[i + 1..];
    var rest := Pieces(code, matches[i + 1..], m.End(), brush);
    PiecesHead(code, matches[i..], pos, brush);
    TwoThen(gap, token, rest);
    var x, y, later := WrapLinesWithCode(gap.text, gap.css), WrapLinesWithCode(token.text, token.css), Render(rest);
    assert Render(Pieces(code, matches[i..], pos, brush)) == x + y + later;
    AppendAssoc(x, y, later);
    AppendAssoc(acc + x, y, later);
    AppendAssoc(acc, x, y + later);
  }

  /** Every match present starts at or after `pos`. */
  predicate StartAfter(ms: seq<Option<Match>>, pos: nat) {
    forall k :: 0 <= k < |ms| && ms[k].Some? ==> pos <= ms[k].value.index
  }

  /** For disjoint matches that are slices of the code, the fragments `getMatchesHtml`
      wraps (gap, match, …, rest) put back together give the code. */
  lemma {:induction false} PiecesCoverCode(code: string, ms: seq<Option<Match>>, pos: nat, brush: Value)
    requires pos <= |code| && Disjoint(ms) && StartAfter(ms, pos)
    requires forall k :: 0 <= k < |ms| && ms[k].Some? ==> InCode(code, ms[k].value)
    ensures Texts(Pieces(code, ms, pos, brush)) == code[pos..]
    decreases |ms|
  {
    if |ms| == 0 {
      assert Texts([Piece(code[pos..], BrushCss(None, brush) + "plain")]) == code[pos..] + "";
    } else {
      var rest := ms[1..];
      TailFacts(code, ms, pos);
      if ms[0].None? || |ms[0].value.value| == 0 {
        PiecesCoverCode(code, rest, pos, brush);
      } else {
        var m := ms[0].value;
        PiecesCoverCode(code, rest, m.End(), brush);
        PiecesHead(code, ms, pos, brush);
        TwoThen(GapPiece(code, m, pos, brush), TokenPiece(m, brush), Pieces(code, rest, m.End(), brush));
        SliceThree(code, pos, m.index, m.End());
      }
    }
  }

  /** What the rest of the list inherits. */
  lemma TailFacts(code: string, ms: seq<Option<Match>>, pos: nat)
    requires |ms| > 0 && Disjoint(ms) && StartAfter(ms, pos)
    requires forall k :: 0 <= k < |ms| && ms[k].Some? ==> InCode(code, ms[k].value)
    ensures Disjoint(ms[1..]) && StartAfter(ms[1..], pos)
    ensures forall k :: 0 <= k < |ms[1..]| && ms[1..][k].Some? ==> InCode(code, ms[1..][k].value)
    ensures ms[0].Some? ==> StartAfter(ms[1..], ms[0].value.End()) && InCode(code, ms[0].value) && pos <= ms[0].value.index
  {
    var rest := ms[1..];
    assert forall k :: 0 <= k < |rest| ==> rest[k] == ms[k + 1];
    if ms[0].Some? {
      forall k | 0 <= k < |rest| && rest[k].Some?
        ensures ms[0].value.End() <= rest[k].value.index
      {
        assert ms[k + 1].Some?;
      }
    }
  }

  lemma SliceThree(code: string, a: nat, b: nat, c: nat)
    requires a <= b <= c <= |code|
    ensures code[a..] == code[a..b] + code[b..c] + code[c..]
  {
  }

  // ---------------------------------------------------------------------------
  // processUrls

  /** Where the last `&gt;` or `&lt;` in `m` starts, or -1: the split the pattern
      `(.*)((&gt;|&lt;).*)` makes, its greedy first group taking all it can. */
  function LastEntity(m: string): (k: int)
    ensures -1 <= k <= |m|
    ensures k >= 0 ==> OccursAt(m, "&gt;", k) || OccursAt(m, "&lt;", k)
    ensures forall i :: k < i <= |m| ==> !OccursAt(m, "&gt;", i) && !OccursAt(m, "&lt;", i)
  {
    var g, l := LastIndexOf(m, "&gt;"), LastIndexOf(m, "&lt;");
    if g >= l then g else l
  }

  /** The replacement of one URL: the part before an escaped bracket becomes the link and
      its text; the bracket and what follows stay after the link. */
  function LinkUrl(m: string): (r: string)
    ensures LastEntity(m) == -1 ==> r == "<a href=\"" + m + "\">" + m + "</a>"
  {
    var k := LastEntity(m);
    var url, suffix := if k >= 0 then m[..k] else m, if k >= 0 then m[k..] else "";
    "<a href=\"" + url + "\">" + url + "</a>" + suffix
  }

  /** The link covers the URL up to its last escaped bracket, and link and suffix together
      are the URL again. */
  lemma LinkSplit(m: string)
    ensures exists url, suffix :: LinkParts(m, url, suffix)
  {
    var k := LastEntity(m);
    if k >= 0 {
      var url, suffix := m[..k], m[k..];
      assert url + suffix == m;
      forall i | 0 <= i <= |suffix|
        ensures OccursAt(suffix, "&gt;", i) == OccursAt(m, "&gt;", k + i)
        ensures OccursAt(suffix, "&lt;", i) == OccursAt(m, "&lt;", k + i)
      {
        SuffixOccurs(m, k, i, "&gt;");
        SuffixOccurs(m, k, i, "&lt;");
      }
      assert LinkParts(m, url, suffix);
    } else {
      assert m + "" == m;
      assert LinkParts(m, m, "");
    }
  }

  /** `url` is the link and `suffix` what stays after it: together the URL again, the
      suffix empty or starting at an escaped bracket, and no escaped bracket later in it. */
  predicate LinkParts(m: string, url: string, suffix: string) {
    url + suffix == m && LinkUrl(m) == "<a href=\"" + url + "\">" + url + "</a>" + suffix
    && (suffix == "" || OccursAt(suffix, "&gt;", 0) || OccursAt(suffix, "&lt;", 0))
    && forall i :: 0 < i <= |suffix| ==> !OccursAt(suffix, "&gt;", i) && !OccursAt(suffix, "&lt;", i)
  }

  lemma SuffixOccurs(m: string, k: nat, i: nat, p: string)
    requires k + i <= |m|
    ensures OccursAt(m[k..], p, i) == OccursAt(m, p, k + i)
  {
    if k + i + |p| <= |m| {
      assert m[k..][i..i + |p|] == m[k + i..k + i + |p|];
    }
  }

  /** `code.replace(regex, f)` for the occurrences `hits` of a global pattern: the text
      between occurrences kept, each occurrence replaced by `f` of its text. */
  function ReplaceHits(code: string, hits: seq<Hit>, pos: nat, f: string -> string): string
    decreases |hits|
  {
    if |hits| == 0 then SubstrFrom(code, pos)
    else
      var h := hits[0];
      Substr(code, pos, h.index - pos) + f(h.text) + ReplaceHits(code, hits[1..], h.index + |h.text|, f)
  }

  /** The occurrences are slices of the code, in order, not overlapping, from `pos` on. */
  predicate HitsFrom(code: string, hits: seq<Hit>, pos: nat) {
    (forall k :: 0 <= k < |hits| ==>
      hits[k].index + |hits[k].text| <= |code| && code[hits[k].index..hits[k].index + |hits[k].text|] == hits[k].text)
    && (|hits| > 0 ==> pos <= hits[0].index)
    && forall k :: 0 <= k < |hits| - 1 ==> hits[k].index + |hits[k].text| <= hits[k + 1].index
  }

  /** Replacing every occurrence by itself gives the code back. */
  lemma {:induction false} ReplaceHitsIdentity(code: string, hits: seq<Hit>, pos: nat, f: string -> string)
    requires pos <= |code| && HitsFrom(code, hits, pos)
    requires forall k :: 0 <= k < |hits| ==> f(hits[k].text) == hits[k].text
    ensures ReplaceHits(code, hits, pos, f) == code[pos..]
    decreases |hits|
  {
    if |hits| > 0 {
      var h := hits[0];
      var e := h.index + |h.text|;
      HitsTail(code, hits, pos, f);
      ReplaceHitsIdentity(code, hits[1..], e, f);
      ReplaceHitsCons(code, hits, pos, f);
      SliceThree(code, pos, h.index, e);
      assert ReplaceHits(code, hits, pos, f) == code[pos..h.index] + code[h.index..e] + code[e..];
    } else {
      assert SubstrFrom(code, pos) == code[pos..];
    }
  }

  /** The first occurrence's replacement comes after the code before it. */
  lemma ReplaceHitsCons(code: string, hits: seq<Hit>, pos: nat, f: string -> string)
    requires |hits| > 0 && pos <= hits[0].index <= |code|
    ensures ReplaceHits(code, hits, pos, f)
      == code[pos..hits[0].index] + f(hits[0].text) + ReplaceHits(code, hits[1..], hits[0].index + |hits[0].text|, f)
  {
  }

  /** What `ReplaceHitsIdentity` knows of the first occurrence and of the ones after it. */
  lemma HitsTail(code: string, hits: seq<Hit>, pos: nat, f: string -> string)
    requires |hits| > 0 && HitsFrom(code, hits, pos)
    requires forall k :: 0 <= k < |hits| ==> f(hits[k].text) == hits[k].text
    ensures var e := hits[0].index + |hits[0].text|;
      pos <= hits[0].index && e <= |code| && code[hits[0].index..e] == hits[0].text == f(hits[0].text)
      && HitsFrom(code, hits[1..], e)
      && forall k :: 0 <= k < |hits| - 1 ==> f(hits[1..][k].text) == hits[1..][k].text
  {
    assert forall k :: 0 <= k < |hits| - 1 ==> hits[1..][k] == hits[k + 1];
  }

  /** `processUrls(code)`: every URL the URL pattern finds made into a link. */
  function ProcessUrls(code: string, url: Regex): string {
    ReplaceHits(code, url.exec(code), 0, LinkUrl)
  }

  // ---------------------------------------------------------------------------
  // getTitleHtml

  /** `getTitleHtml(title)`: a caption holding the title, or nothing when it is unset. */
  function GetTitleHtml(title: Value): (r: string)
    ensures !Truthy(title) <==> r == ""
    ensures Truthy(title) ==> r == "<caption>" + ToStr(title) + "</caption>"
  {
    if Truthy(title) then "<caption>" + ToStr(title) + "</caption>" else ""
  }
}
