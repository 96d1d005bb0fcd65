/** String operations of the JavaScript runtime that the highlighter relies on,
    written out over `seq<char>`: whitespace classes, `split(/\r?\n/)`, `join`,
    `substr`, `indexOf`, `lastIndexOf`, `trim` and number-to-string conversion. */
module JsText {

  /** The characters JavaScript's `\s` and `String.prototype.trim` treat as white space
      (WhiteSpace and LineTerminator of ECMAScript 5). */
  predicate IsSpace(c: char) {
    c == ' ' || c == '\t' || c == '\n' || c == '\r' || c == '\U{B}' || c == '\U{C}'
    || c == '\U{A0}' || c == '\U{1680}' || ('\U{2000}' <= c <= '\U{200A}')
    || c == '\U{2028}' || c == '\U{2029}' || c == '\U{202F}' || c == '\U{205F}'
    || c == '\U{3000}' || c == '\U{FEFF}'
  }

  /** JavaScript's `\w`. */
  predicate IsWordChar(c: char) {
    ('a' <= c <= 'z') || ('A' <= c <= 'Z') || ('0' <= c <= '9') || c == '_'
  }

  predicate IsDigit(c: char) {
    '0' <= c <= '9'
  }

  /** `s` repeated `n` times. */
  function Repeat(s: string, n: nat): (r: string)
    ensures n == 0 ==> r == ""
  {
    if n == 0 then "" else s + Repeat(s, n - 1)
  }

  /** `n` space characters. */
  function Spaces(n: nat): (r: string)
    ensures |r| == n && forall k :: 0 <= k < n ==> r[k] == ' '
  {
    if n == 0 then "" else " " + Spaces(n - 1)
  }

  /** Concatenation of `parts` with `sep` between consecutive parts (`Array.prototype.join`). */
  function Join(parts: seq<string>, sep: string): string
  {
    if |parts| == 0 then ""
    else if |parts| == 1 then parts[0]
    else parts[0] + sep + Join(parts[1..], sep)
  }

  /** `parts.join('')`. */
  function Concat(parts: seq<string>): string
  {
    if |parts| == 0 then "" else parts[0] + Concat(parts[1..])
  }

  /** Appending is associative. */
  lemma AppendAssoc<T>(x: seq<T>, y: seq<T>, z: seq<T>)
    ensures x + y + z == x + (y + z)
  {
  }

  lemma {:induction false} ConcatAppend(a: seq<string>, b: seq<string>)
    ensures Concat(a + b) == Concat(a) + Concat(b)
  {
    if |a| == 0 {
      assert a + b == b;
    } else {
      assert (a + b)[1..] == a[1..] + b;
      ConcatAppend(a[1..], b);
    }
  }

  lemma ConcatSingle(s: string)
    ensures Concat([s]) == s
  {
  }

  /** Index of the first `c` in `s`, or -1 (`indexOf` for one character). */
  function IndexOfChar(s: string, c: char): (r: int)
    ensures -1 <= r < |s|
    ensures r >= 0 ==> s[r] == c && c !in s[..r]
    ensures r == -1 <==> c !in s
  {
    if |s| == 0 then -1
    else if s[0] == c then 0
    else
      var k := IndexOfChar(s[1..], c);
      assert s[1..][..if k < 0 then 0 else k] == s[1..if k < 0 then 1 else k + 1];
      if k < 0 then -1 else k + 1
  }

  /** Whether `pat` occurs in `s` at position `i`. */
  predicate OccursAt(s: string, pat: string, i: nat)
  {
    i + |pat| <= |s| && s[i..i + |pat|] == pat
  }

  /** `s.indexOf(pat)`: the first position at which `pat` occurs, or -1. */
  function IndexOf(s: string, pat: string): (r: int)
    ensures -1 <= r <= |s|
    ensures r >= 0 ==> OccursAt(s, pat, r) && forall i :: 0 <= i < r ==> !OccursAt(s, pat, i)
    ensures r == -1 ==> forall i :: 0 <= i <= |s| ==> !OccursAt(s, pat, i)
  {
    IndexOfFrom(s, pat, 0)
  }

  function IndexOfFrom(s: string, pat: string, from: nat): (r: int)
    requires from <= |s| + 1
    ensures r == -1 || from <= r <= |s|
    ensures r >= 0 ==> OccursAt(s, pat, r) && forall i :: from <= i < r ==> !OccursAt(s, pat, i)
    ensures r == -1 ==> forall i :: from <= i <= |s| ==> !OccursAt(s, pat, i)
    decreases |s| + 1 - from
  {
    if from > |s| then -1
    else if OccursAt(s, pat, from) then from
    else IndexOfFrom(s, pat, from + 1)
  }

  /** `s.lastIndexOf(pat)`: the last position at which `pat` occurs, or -1. */
  function LastIndexOf(s: string, pat: string): (r: int)
    ensures -1 <= r <= |s|
    ensures r >= 0 ==> OccursAt(s, pat, r) && forall i :: r < i <= |s| ==> !OccursAt(s, pat, i)
    ensures r == -1 ==> forall i :: 0 <= i <= |s| ==> !OccursAt(s, pat, i)
  {
    LastIndexOfBelow(s, pat, |s| + 1)
  }

  function LastIndexOfBelow(s: string, pat: string, below: nat): (r: int)
    requires below <= |s| + 1
    ensures -1 <= r < below
    ensures r >= 0 ==> OccursAt(s, pat, r) && forall i :: r < i < below ==> !OccursAt(s, pat, i)
    ensures r == -1 ==> forall i :: 0 <= i < below ==> !OccursAt(s, pat, i)
  {
    if below == 0 then -1
    else if OccursAt(s, pat, below - 1) then below - 1
    else LastIndexOfBelow(s, pat, below - 1)
  }

  /** The last occurrence of a suffix is the suffix itself: `(a + b).lastIndexOf(b) == |a|`. */
  lemma LastIndexOfSuffix(a: string, b: string)
    ensures LastIndexOf(a + b, b) == |a|
  {
    var s := a + b;
    assert s[|a|..|a| + |b|] == b;
    assert OccursAt(s, b, |a|);
    assert forall i :: |a| < i <= |s| ==> !OccursAt(s, b, i);
  }

  /** `s.substr(start, length)` for a non-negative start: clamped to the string. */
  function Substr(s: string, start: nat, length: int): (r: string)
    ensures start <= |s| && 0 <= length && start + length <= |s| ==> r == s[start..start + length]
    ensures start >= |s| || length <= 0 ==> r == ""
  {
    var b := if start <= |s| then start else |s|;
    var e := if length <= 0 then b else if b + length <= |s| then b + length else |s|;
    s[b..e]
  }

  /** `s.substr(start)`: everything from `start` on, or "" past the end. */
  function SubstrFrom(s: string, start: nat): (r: string)
    ensures start <= |s| ==> r == s[start..]
    ensures start >= |s| ==> r == ""
  {
    if start <= |s| then s[start..] else ""
  }

  /** `s.substring(a, b)`: both ends clamped to the string and swapped when out of order. */
  function Substring(s: string, a: int, b: int): (r: string)
    ensures 0 <= a <= b <= |s| ==> r == s[a..b]
  {
    var a' := if a < 0 then 0 else if a > |s| then |s| else a;
    var b' := if b < 0 then 0 else if b > |s| then |s| else b;
    if a' <= b' then s[a'..b'] else s[b'..a']
  }

  /** Length of the run of white space at the start of `s` (what `/^\s*` matches). */
  function LeadingSpace(s: string): (n: nat)
    ensures n <= |s|
    ensures forall k :: 0 <= k < n ==> IsSpace(s[k])
    ensures n < |s| ==> !IsSpace(s[n])
  {
    if |s| == 0 || !IsSpace(s[0]) then 0 else 1 + LeadingSpace(s[1..])
  }

  /** Length of the run of white space at the end of `s`. */
  function TrailingSpace(s: string): (n: nat)
    ensures n <= |s|
    ensures forall k :: |s| - n <= k < |s| ==> IsSpace(s[k])
    ensures n < |s| ==> !IsSpace(s[|s| - n - 1])
  {
    if |s| == 0 || !IsSpace(s[|s| - 1]) then 0 else 1 + TrailingSpace(s[..|s| - 1])
  }

  /** `String.prototype.trim`. */
  function Trim(s: string): (r: string)
    ensures |r| <= |s|
    ensures r == "" || (!IsSpace(r[0]) && !IsSpace(r[|r| - 1]))
    ensures (forall c :: c in s ==> !IsSpace(c)) ==> r == s
  {
    var t := s[LeadingSpace(s)..];
    var n := TrailingSpace(t);
    t[..|t| - n]
  }

  /** What `trim` keeps is the middle of `s`: only white space is cut off before and
      after it. */
  lemma TrimSlice(s: string)
    ensures exists i, j :: 0 <= i <= j <= |s| && Trim(s) == s[i..j] && EdgesBlank(s, i, j)
  {
    var i := LeadingSpace(s);
    var t := s[i..];
    var n := TrailingSpace(t);
    var j := i + |t| - n;
    assert t[..|t| - n] == s[i..j];
    assert forall k :: j <= k < |s| ==> IsSpace(s[k]) by {
      assert forall k :: j <= k < |s| ==> s[k] == t[k - i];
    }
    assert EdgesBlank(s, i, j);
  }

  /** Everything of `s` before `i` and from `j` on is white space. */
  predicate EdgesBlank(s: string, i: nat, j: nat)
    requires i <= j <= |s|
  {
    (forall k :: 0 <= k < i ==> IsSpace(s[k])) && (forall k :: j <= k < |s| ==> IsSpace(s[k]))
  }

  /** Whether `s` holds only white space (`s.trim().length == 0`). */
  predicate IsBlank(s: string) {
    LeadingSpace(s) == |s|
  }

  /** `str.split(/\r?\n/)`: the lines of `s`; a `\r` right before a `\n` belongs to the break. */
  function SplitLines(s: string): (lines: seq<string>)
    ensures |lines| >= 1
    ensures forall k :: 0 <= k < |lines| ==> '\n' !in lines[k]
    decreases |s|
  {
    var k := IndexOfChar(s, '\n');
    if k < 0 then [s]
    else
      var line := if k > 0 && s[k - 1] == '\r' then s[..k - 1] else s[..k];
      assert forall c :: c in line ==> c in s[..k];
      [line] + SplitLines(s[k + 1..])
  }

  /** Joining lines with `"\r\n"` and splitting them again gives the lines back. */
  lemma {:induction false} SplitJoinCrLf(lines: seq<string>)
    requires |lines| >= 1
    requires forall k :: 0 <= k < |lines| ==> '\n' !in lines[k]
    ensures SplitLines(Join(lines, "\r\n")) == lines
  {
    if |lines| == 1 {
      assert IndexOfChar(lines[0], '\n') == -1;
    } else {
      var rest := Join(lines[1..], "\r\n");
      var s := lines[0] + "\r\n" + rest;
      assert s == Join(lines, "\r\n");
      assert s == (lines[0] + "\r") + ("\n" + rest);
      assert '\n' !in lines[0] + "\r";
      IndexOfCharPast(lines[0] + "\r", "\n" + rest, '\n');
      assert IndexOfChar(s, '\n') == |lines[0]| + 1;
      assert s[..|lines[0]|] == lines[0];
      assert s[|lines[0]| + 2..] == rest;
      SplitJoinCrLf(lines[1..]);
    }
  }

  /** The first `c` of `a + b` lies in `b` when `a` has none. */
  lemma IndexOfCharPast(a: string, b: string, c: char)
    requires c !in a && |b| > 0 && b[0] == c
    ensures IndexOfChar(a + b, c) == |a|
  {
    var s := a + b;
    assert s[|a|] == c;
    assert s[..|a|] == a;
  }

  /** Splitting a `\r`-free text and joining the lines with `"\n"` gives the text back. */
  lemma {:induction false} JoinSplitLf(s: string)
    requires '\r' !in s
    ensures Join(SplitLines(s), "\n") == s
    decreases |s|
  {
    var k := IndexOfChar(s, '\n');
    if k >= 0 {
      var head, tail := s[..k], s[k + 1..];
      assert k > 0 ==> s[k - 1] in head;
      var rest := SplitLines(tail);
      assert SplitLines(s) == [head] + rest;
      assert '\r' !in tail by { assert forall c :: c in tail ==> c in s; }
      JoinSplitLf(tail);
      assert Join([head] + rest, "\n") == head + "\n" + Join(rest, "\n");
      assert s == head + "\n" + tail;
    }
  }

  /** The decimal digit for `d`. */
  function DigitChar(d: nat): char
    requires d < 10
  {
    "0123456789"[d]
  }

  /** Decimal representation of a natural number (`Number.prototype.toString`). */
  function NatToString(n: nat): (r: string)
    ensures |r| >= 1 && forall k :: 0 <= k < |r| ==> IsDigit(r[k])
    decreases n
  {
    if n < 10 then [DigitChar(n)] else NatToString(n / 10) + [DigitChar(n % 10)]
  }

  /** Decimal representation of an integer, with a leading `-` when negative. */
  function IntToString(i: int): (r: string)
    ensures |r| >= 1
  {
    if i < 0 then "-" + NatToString(-i) else NatToString(i)
  }
}
