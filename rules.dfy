/** Highlighting rules and the match pipeline of shCore.js: `getMatches` (one rule over the
    code), the html-script adapter's `process` (a guest brush's rules run over the code
    between script delimiters), `forHtmlScript` and `findMatches`.

    The regular-expression engine is not modelled: a compiled pattern is its source text
    together with `exec`, the list of occurrences its global `exec` loop finds in a text. */
module Rules {
  import opened Wrappers
  import opened JsText
  import opened Matches
  import opened Resolver

  /** One occurrence: where it starts and the text of `match[0]`. */
  datatype Hit = Hit(index: nat, text: string)

  /** A global pattern: its source, and the successive occurrences `exec` reports. */
  datatype Regex = Regex(source: string, exec: string -> seq<Hit>)

  /** One occurrence of the html-script code pattern `(?<left>…)(?<code>.*?)(?<right>…)`:
      where it starts and its three named groups, which make up `match[0]`. */
  datatype ScriptHit = ScriptHit(index: nat, left: string, code: string, right: string)
  {
    function Text(): string {
      left + code + right
    }
  }

  /** The compiled html-script code pattern. */
  datatype ScriptRegex = ScriptRegex(source: string, exec: string -> seq<ScriptHit>)

  /** A `regexList` entry `{ regex, css }` without an extraction function. */
  datatype PlainRule = PlainRule(regex: Regex, css: string)

  /** A brush's `htmlScript` descriptor, as `forHtmlScript` builds it. */
  datatype HtmlScriptDesc = HtmlScriptDesc(left: PlainRule, right: PlainRule, code: ScriptRegex)

  /** What a rule's `func` returns for one occurrence: a string, which becomes one match
      at the occurrence, or an array of matches, which `concat` flattens in. */
  datatype FuncResult = AsString(text: string) | AsArray(items: seq<Match>)

  /** An entry of a brush's own `regexList`: a plain rule, or a rule `{ regex, css, func }`
      with its own extraction function. */
  datatype BrushRule = Plain(rule: PlainRule) | Custom(rule: PlainRule, func: Hit -> FuncResult)

  /** The brush an html-script host embeds: the name `findBrush` recorded for it, the
      `regexList` of a fresh instance of it and its descriptor. */
  datatype Guest = Guest(brushName: Option<string>, rules: seq<BrushRule>, htmlScript: HtmlScriptDesc)

  /** A `regexList` entry of a highlighted brush: one of its own, or the rule
      `{ regex: htmlScript.code, func: process }` that `sh.HtmlScript` appends to the XML
      brush. */
  datatype Rule = Own(entry: BrushRule) | Embedded(guest: Guest)

  // ---------------------------------------------------------------------------
  // What a sound pattern reports

  /** `m` is the text of `code` at `m.index`. */
  predicate InCode(code: string, m: Match) {
    m.End() <= |code| && code[m.index..m.End()] == m.value
  }

  /** Every occurrence lies in the searched text. */
  ghost predicate Sound(r: Regex) {
    forall s: string, k :: 0 <= k < |r.exec(s)| ==>
      r.exec(s)[k].index + |r.exec(s)[k].text| <= |s|
      && s[r.exec(s)[k].index..r.exec(s)[k].index + |r.exec(s)[k].text|] == r.exec(s)[k].text
  }

  ghost predicate SoundScript(r: ScriptRegex) {
    forall s: string, k :: 0 <= k < |r.exec(s)| ==>
      r.exec(s)[k].index + |r.exec(s)[k].Text()| <= |s|
      && s[r.exec(s)[k].index..r.exec(s)[k].index + |r.exec(s)[k].Text()|] == r.exec(s)[k].Text()
  }

  /** What `func` returns lies inside the occurrence it was given: a string is a prefix of
      `match[0]`, and each match of an array is a slice of `match[0]` moved to the
      occurrence's place. */
  predicate WithinHit(h: Hit, res: FuncResult) {
    match res
    case AsString(t) => |t| <= |h.text| && h.text[..|t|] == t
    case AsArray(items) => forall m :: m in items ==>
      h.index <= m.index && m.End() <= h.index + |h.text| && h.text[m.index - h.index..m.End() - h.index] == m.value
  }

  ghost predicate SoundBrushRule(rule: BrushRule) {
    match rule
    case Plain(r) => Sound(r.regex)
    case Custom(r, f) => Sound(r.regex) && forall h :: WithinHit(h, f(h))
  }

  ghost predicate SoundBrushRules(rules: seq<BrushRule>) {
    forall k :: 0 <= k < |rules| ==> SoundBrushRule(rules[k])
  }

  /** The guest's own rules, its delimiters and its code pattern are sound. */
  ghost predicate SoundGuest(g: Guest) {
    SoundScript(g.htmlScript.code) && Sound(g.htmlScript.left.regex) && Sound(g.htmlScript.right.regex)
    && SoundBrushRules(g.rules)
  }

  ghost predicate SoundRule(rule: Rule) {
    match rule
    case Own(r) => SoundBrushRule(r)
    case Embedded(g) => SoundGuest(g)
  }

  // ---------------------------------------------------------------------------
  // Specification functions

  /** The matches `getMatches` makes for a plain rule: one per occurrence, in order. */
  function PlainMatches(code: string, rule: PlainRule): seq<Match> {
    var hits := rule.regex.exec(code);
    seq(|hits|, k requires 0 <= k < |hits| => NewMatch(hits[k].text, hits[k].index, rule.css))
  }

  /** The matches `getMatches` makes with `func`: each occurrence's result in order, a
      string turned into one match at the occurrence, an array flattened in. */
  function FuncMatches(hits: seq<Hit>, css: string, func: Hit -> FuncResult): seq<Match> {
    if |hits| == 0 then []
    else
      var h := hits[|hits| - 1];
      FuncMatches(hits[..|hits| - 1], css, func) + FuncResultMatches(h, css, func(h))
  }

  /** One occurrence's contribution to `matches.concat(resultMatch)`. */
  function FuncResultMatches(h: Hit, css: string, res: FuncResult): (r: seq<Match>)
    ensures res.AsString? ==> r == [NewMatch(res.text, h.index, css)]
    ensures res.AsArray? ==> r == res.items
  {
    match res
    case AsString(t) => [NewMatch(t, h.index, css)]
    case AsArray(items) => items
  }

  /** `defaultAdd(match)`: `match[0]`. */
  function DefaultAdd(h: Hit): (r: FuncResult)
    ensures r.AsString? && r.text == h.text
  {
    AsString(h.text)
  }

  /** `offsetMatches(matches, offset)` */
  function Shift(ms: seq<Match>, offset: nat): (r: seq<Match>)
    ensures |r| == |ms|
    ensures forall k :: 0 <= k < |ms| ==> r[k] == ms[k].(index := ms[k].index + offset)
  {
    seq(|ms|, k requires 0 <= k < |ms| => ms[k].(index := ms[k].index + offset))
  }

  /** Every match tagged with the brush name. */
  function Tag(ms: seq<Match>, name: Option<string>): (r: seq<Match>)
    ensures |r| == |ms|
    ensures forall k :: 0 <= k < |ms| ==> r[k] == ms[k].(brushName := name)
  {
    seq(|ms|, k requires 0 <= k < |ms| => ms[k].(brushName := name))
  }

  /** What `getMatches(code, rule)` returns for an entry of a brush's own list. */
  function BrushRuleMatches(code: string, rule: BrushRule): seq<Match> {
    match rule
    case Plain(r) => PlainMatches(code, r)
    case Custom(r, f) => FuncMatches(r.regex.exec(code), r.css, f)
  }

  /** The guest's rules over the embedded code, each rule's matches shifted, in rule order. */
  function GuestMatches(code: string, rules: seq<BrushRule>, offset: nat): seq<Match>
  {
    if |rules| == 0 then []
    else GuestMatches(code, rules[..|rules| - 1], offset) + Shift(BrushRuleMatches(code, rules[|rules| - 1]), offset)
  }

  /** What `process` returns for one occurrence of the code pattern. */
  function ProcessSpec(hit: ScriptHit, g: Guest): seq<Match> {
    var code := GuestMatches(hit.code, g.rules, hit.index + |hit.left|);
    var left := Shift(PlainMatches(hit.left, g.htmlScript.left), hit.index);
    LastIndexOfSuffix(hit.left + hit.code, hit.right);
    var rightAt := LastIndexOf(hit.Text(), hit.right);
    var right := Shift(PlainMatches(hit.right, g.htmlScript.right), hit.index + rightAt);
    Tag(code + left + right, g.brushName)
  }

  /** `process` applied to each occurrence, concatenated. */
  function ProcessAll(hits: seq<ScriptHit>, g: Guest): seq<Match> {
    if |hits| == 0 then [] else ProcessAll(hits[..|hits| - 1], g) + ProcessSpec(hits[|hits| - 1], g)
  }

  /** What `getMatches(code, rule)` returns. */
  function RuleMatches(code: string, rule: Rule): seq<Match> {
    match rule
    case Own(r) => BrushRuleMatches(code, r)
    case Embedded(g) => ProcessAll(g.htmlScript.code.exec(code), g)
  }

  /** Every rule's matches, in rule order: the list `findMatches` sorts. */
  function AllMatches(code: string, rules: seq<Rule>): seq<Match> {
    if |rules| == 0 then [] else AllMatches(code, rules[..|rules| - 1]) + RuleMatches(code, rules[|rules| - 1])
  }

  /** The list `findMatches` returns: the matches sorted, then thinned in place. */
  ghost predicate Resolved(result: seq<Option<Match>>, all: seq<Match>) {
    var sorted := Sort(all);
    |result| == |sorted|
    && Thinned(result, seq(|sorted|, k requires 0 <= k < |sorted| => Some(sorted[k])))
    && Disjoint(result)
    && StartsCovered(result, seq(|sorted|, k requires 0 <= k < |sorted| => Some(sorted[k])))
    && KeepsLongest(result, seq(|sorted|, k requires 0 <= k < |sorted| => Some(sorted[k])))
    && LaterTiesDropped(result, seq(|sorted|, k requires 0 <= k < |sorted| => Some(sorted[k])))
  }

  // ---------------------------------------------------------------------------
  // The operations

  /** `getMatches(code, regexInfo)` for a rule without `func`: one `Match` per occurrence. */
  method GetPlainMatches(code: string, rule: PlainRule) returns (matches: seq<Match>)
    ensures matches == PlainMatches(code, rule)
  {
    var hits := rule.regex.exec(code);
    matches := [];
    var k := 0;
    while k < |hits|
      invariant 0 <= k <= |hits|
      invariant matches == PlainMatches(code, rule)[..k]
    {
      matches := matches + [NewMatch(hits[k].text, hits[k].index, rule.css)];
      k := k + 1;
    }
  }

  /** `process(match, info)` of `sh.HtmlScript`: the guest's rules over the captured code,
      shifted to where the code starts; the left and right delimiters matched with the
      descriptor's patterns and shifted to where they start; all tagged with the guest. */
  method Process(hit: ScriptHit, g: Guest) returns (matches: seq<Match>)
    ensures matches == ProcessSpec(hit, g)
  {
    matches := GetGuestMatches(hit.code, g.rules, hit.index + |hit.left|);
    var result := GetPlainMatches(hit.left, g.htmlScript.left);
    matches := matches + Shift(result, hit.index);
    result := GetPlainMatches(hit.right, g.htmlScript.right);
    LastIndexOfSuffix(hit.left + hit.code, hit.right);
    matches := matches + Shift(result, hit.index + LastIndexOf(hit.Text(), hit.right));
    matches := Tag(matches, g.brushName);
  }

  /** The loop of `process` over the guest's `regexList`: each rule's matches in the
      captured code, shifted to where the code starts. */
  method GetGuestMatches(code: string, rules: seq<BrushRule>, offset: nat) returns (matches: seq<Match>)
    ensures matches == GuestMatches(code, rules, offset)
  {
    matches := [];
    var k := 0;
    while k < |rules|
      invariant 0 <= k <= |rules|
      invariant matches == GuestMatches(code, rules[..k], offset)
    {
      var result := GetBrushMatches(code, rules[k]);
      result := Shift(result, offset);
      assert rules[..k + 1][..k] == rules[..k];
      matches := matches + result;
      k := k + 1;
    }
    assert rules[..|rules|] == rules;
  }

  /** `getMatches(code, regexInfo)` for a rule with `func`: each occurrence's result, a
      string wrapped into one `Match` at the occurrence, an array concatenated as it is. */
  method GetFuncMatches(code: string, rule: PlainRule, func: Hit -> FuncResult) returns (matches: seq<Match>)
    ensures matches == FuncMatches(rule.regex.exec(code), rule.css, func)
  {
    var hits := rule.regex.exec(code);
    matches := [];
    var k := 0;
    while k < |hits|
      invariant 0 <= k <= |hits|
      invariant matches == FuncMatches(hits[..k], rule.css, func)
    {
      var resultMatch := func(hits[k]);
      var items := match resultMatch
        case AsString(t) => [NewMatch(t, hits[k].index, rule.css)]
        case AsArray(ms) => ms;
      assert hits[..k + 1][..k] == hits[..k];
      matches := matches + items;
      k := k + 1;
    }
    assert hits[..|hits|] == hits;
  }

  /** `getMatches(code, regexInfo)`: the `exec` loop, each occurrence turned into matches
      by `func`, or into one `Match` when the rule has none. */
  method GetMatches(code: string, rule: Rule) returns (matches: seq<Match>)
    ensures matches == RuleMatches(code, rule)
  {
    match rule
    case Own(r) =>
      matches := GetBrushMatches(code, r);
    case Embedded(g) =>
      matches := GetEmbeddedMatches(code, g);
  }

  /** `getMatches(code, regexInfo)` for an entry of a brush's own list: with `func` or
      without. */
  method GetBrushMatches(code: string, rule: BrushRule) returns (matches: seq<Match>)
    ensures matches == BrushRuleMatches(code, rule)
  {
    match rule
    case Plain(r) =>
      matches := GetPlainMatches(code, r);
    case Custom(r, f) =>
      matches := GetFuncMatches(code, r, f);
  }

  /** `getMatches` for the html-script rule: `process` applied to each occurrence of the
      code pattern, the results concatenated. */
  method GetEmbeddedMatches(code: string, g: Guest) returns (matches: seq<Match>)
    ensures matches == ProcessAll(g.htmlScript.code.exec(code), g)
  {
    var hits := g.htmlScript.code.exec(code);
    matches := [];
    var k := 0;
    while k < |hits|
      invariant 0 <= k <= |hits|
      invariant matches == ProcessAll(hits[..k], g)
    {
      var result := Process(hits[k], g);
      assert hits[..k + 1][..k] == hits[..k];
      matches := matches + result;
      k := k + 1;
    }
    assert hits[..|hits|] == hits;
  }

  /** `findMatches(regexList, code)`: every rule's matches in rule order, sorted with
      `matchesSortCallback`, then passed through `removeNestedMatches`. */
  method FindMatches(regexList: seq<Rule>, code: string) returns (result: seq<Option<Match>>)
    ensures Resolved(result, AllMatches(code, regexList))
  {
    var all: seq<Match> := [];
    var i := 0;
    while i < |regexList|
      invariant 0 <= i <= |regexList|
      invariant all == AllMatches(code, regexList[..i])
    {
      var ms := GetMatches(code, regexList[i]);
      assert regexList[..i + 1][..i] == regexList[..i];
      all := all + ms;
      i := i + 1;
    }
    assert regexList[..|regexList|] == regexList;
    var sorted := Sort(all);
    var a := new Option<Match>[|sorted|](k requires 0 <= k < |sorted| => Some(sorted[k]));
    assert a[..] == seq(|sorted|, k requires 0 <= k < |sorted| => Some(sorted[k]));
    RemoveNestedMatches(a);
    result := a[..];
  }

  /** The source of the combined html-script pattern: the left delimiter, the shortest
      code, then the right delimiter or, with `eof`, the end of the text. */
  function CodeSource(left: Regex, right: Regex, eof: bool): string {
    var end := if eof then "(?:(?:" + right.source + ")|$)" else right.source;
    "(?<left>" + left.source + ")" + "(?<code>.*?)" + "(?<right>" + end + ")"
  }

  /** `forHtmlScript(regexGroup)`: the descriptor a brush offers to html-script hosts. The
      pattern compiler is a parameter. */
  function ForHtmlScript(left: Regex, right: Regex, eof: bool, compile: (string, string) -> ScriptRegex): (d: HtmlScriptDesc)
    ensures d.left == PlainRule(left, "script") && d.right == PlainRule(right, "script")
    ensures d.code == compile(CodeSource(left, right, eof), "sgi")
  {
    HtmlScriptDesc(PlainRule(left, "script"), PlainRule(right, "script"), compile(CodeSource(left, right, eof), "sgi"))
  }

  /** With the descriptor `forHtmlScript` builds, `process` returns after the guest's
      code matches exactly one match per delimiter occurrence, each with the css
      `script`, tagged with the guest, and lying in the left part or the right part of
      the hit. */
  lemma ForHtmlScriptDelimiters(hit: ScriptHit, g: Guest, left: Regex, right: Regex, eof: bool,
                                compile: (string, string) -> ScriptRegex)
    requires g.htmlScript == ForHtmlScript(left, right, eof, compile)
    requires Sound(left) && Sound(right)
    ensures var n := |GuestMatches(hit.code, g.rules, hit.index + |hit.left|)|;
      var ms := ProcessSpec(hit, g);
      |ms| == n + |left.exec(hit.left)| + |right.exec(hit.right)|
      && forall k :: n <= k < |ms| ==>
        ms[k].css == "script" && ms[k].brushName == g.brushName
        && ((hit.index <= ms[k].index && ms[k].End() <= hit.index + |hit.left|)
            || (hit.index + |hit.left| + |hit.code| <= ms[k].index && ms[k].End() <= hit.index + |hit.Text()|))
  {
    var l, c := |hit.left|, |hit.code|;
    ProcessSpecParts(hit, g);
    PlainMatchesInCode(hit.left, g.htmlScript.left);
    PlainMatchesInCode(hit.right, g.htmlScript.right);
    TaggedDelimiters(GuestMatches(hit.code, g.rules, hit.index + l),
      PlainMatches(hit.left, g.htmlScript.left), PlainMatches(hit.right, g.htmlScript.right),
      hit.index, l, hit.index + l + c, |hit.right|, g.brushName);
  }

  /** Delimiter matches of css `script` that end within their parts, moved to where the
      parts start and joined after other matches, are the tail of the tagged list. */
  lemma TaggedDelimiters(code: seq<Match>, lm: seq<Match>, rm: seq<Match>,
                         li: nat, ll: nat, ri: nat, rl: nat, name: Option<string>)
    requires forall m :: m in lm ==> m.css == "script" && m.End() <= ll
    requires forall m :: m in rm ==> m.css == "script" && m.End() <= rl
    ensures var ms := Tag(code + Shift(lm, li) + Shift(rm, ri), name);
      |ms| == |code| + |lm| + |rm|
      && forall k :: |code| <= k < |ms| ==>
        ms[k].css == "script" && ms[k].brushName == name
        && ((li <= ms[k].index && ms[k].End() <= li + ll) || (ri <= ms[k].index && ms[k].End() <= ri + rl))
  {
    var n := |code|;
    var all := code + Shift(lm, li) + Shift(rm, ri);
    var ms := Tag(all, name);
    forall k | n <= k < |ms|
      ensures ms[k].css == "script" && ms[k].brushName == name
      ensures (li <= ms[k].index && ms[k].End() <= li + ll) || (ri <= ms[k].index && ms[k].End() <= ri + rl)
    {
      if k < n + |lm| {
        var m := lm[k - n];
        assert m in lm && all[k] == m.(index := m.index + li);
      } else {
        var m := rm[k - n - |lm|];
        assert m in rm && all[k] == m.(index := m.index + ri);
      }
    }
  }

  // ---------------------------------------------------------------------------
  // Properties

  /** A sound pattern's matches are slices of the code. */
  lemma PlainMatchesInCode(code: string, rule: PlainRule)
    requires Sound(rule.regex)
    ensures forall m :: m in PlainMatches(code, rule) ==> InCode(code, m) && m.css == rule.css && m.brushName == None
  {
    var hits := rule.regex.exec(code);
    forall m | m in PlainMatches(code, rule)
      ensures InCode(code, m) && m.css == rule.css && m.brushName == None
    {
      var k :| 0 <= k < |hits| && PlainMatches(code, rule)[k] == m;
      assert hits[k].index + |hits[k].text| <= |code|;
    }
  }

  /** `defaultAdd` is what a rule without `func` uses: the generic loop with it makes
      exactly the plain rule's matches. */
  lemma DefaultAddIsPlain(code: string, rule: PlainRule)
    ensures FuncMatches(rule.regex.exec(code), rule.css, DefaultAdd) == PlainMatches(code, rule)
  {
    DefaultAddMatches(rule.regex.exec(code), rule.css);
  }

  lemma {:induction false} DefaultAddMatches(hits: seq<Hit>, css: string)
    ensures FuncMatches(hits, css, DefaultAdd)
         == seq(|hits|, k requires 0 <= k < |hits| => NewMatch(hits[k].text, hits[k].index, css))
  {
    if |hits| > 0 {
      DefaultAddMatches(hits[..|hits| - 1], css);
    }
  }

  /** With a sound pattern and a `func` that stays inside each occurrence, every match
      the generic loop makes is a slice of the code. */
  lemma {:induction false} FuncMatchesInCode(code: string, hits: seq<Hit>, css: string, func: Hit -> FuncResult)
    requires forall k :: 0 <= k < |hits| ==>
      hits[k].index + |hits[k].text| <= |code| && code[hits[k].index..hits[k].index + |hits[k].text|] == hits[k].text
    requires forall h :: WithinHit(h, func(h))
    ensures forall m :: m in FuncMatches(hits, css, func) ==> InCode(code, m)
  {
    if |hits| > 0 {
      var h := hits[|hits| - 1];
      FuncMatchesInCode(code, hits[..|hits| - 1], css, func);
      assert WithinHit(h, func(h));
      forall m | m in FuncResultMatches(h, css, func(h))
        ensures InCode(code, m)
      {
        SubSlice(code, h.index, h.text, m.index - h.index, m.End() - h.index);
      }
    }
  }

  /** Matches found in a slice of the host code, shifted to where the slice starts, are
      slices of the host code. */
  lemma ShiftInCode(host: string, sub: string, offset: nat, ms: seq<Match>)
    requires offset + |sub| <= |host| && host[offset..offset + |sub|] == sub
    requires forall m :: m in ms ==> InCode(sub, m)
    ensures forall m :: m in Shift(ms, offset) ==> InCode(host, m)
  {
    forall m | m in Shift(ms, offset)
      ensures InCode(host, m)
    {
      var k :| 0 <= k < |ms| && Shift(ms, offset)[k] == m;
      assert ms[k] in ms;
      assert m.index == offset + ms[k].index && m.End() == offset + ms[k].End();
      SubSlice(host, offset, sub, ms[k].index, ms[k].End());
    }
  }

  lemma {:induction false} GuestMatchesInCode(host: string, code: string, rules: seq<BrushRule>, offset: nat)
    requires offset + |code| <= |host| && host[offset..offset + |code|] == code
    requires SoundBrushRules(rules)
    ensures forall m :: m in GuestMatches(code, rules, offset) ==> InCode(host, m)
  {
    if |rules| > 0 {
      GuestMatchesInCode(host, code, rules[..|rules| - 1], offset);
      BrushRuleInCode(code, rules[|rules| - 1]);
      ShiftInCode(host, code, offset, BrushRuleMatches(code, rules[|rules| - 1]));
    }
  }

  /** A slice of a slice of the host code is a slice of the host code. */
  lemma SubSlice(host: string, off: nat, text: string, a: nat, b: nat)
    requires off + |text| <= |host| && host[off..off + |text|] == text && a <= b <= |text|
    ensures host[off + a..off + b] == text[a..b]
  {
    assert forall k :: off + a <= k < off + b ==> host[k] == host[off..off + |text|][k - off];
  }

  /** `process` shifts every match to its true place in the host code and tags it with
      the guest brush: for an occurrence of the code pattern that is a slice of the host
      code, every match it returns is a slice of the host code. */
  lemma ProcessInCode(host: string, hit: ScriptHit, g: Guest)
    requires SoundGuest(g)
    requires hit.index + |hit.Text()| <= |host| && host[hit.index..hit.index + |hit.Text()|] == hit.Text()
    ensures forall m :: m in ProcessSpec(hit, g) ==> InCode(host, m) && m.brushName == g.brushName
  {
    CodePartInCode(host, hit, g.rules);
    DelimitersInCode(host, hit, g.htmlScript);
    ProcessFromParts(host, hit, g);
  }

  /** The guest's matches in the code part of a hit found in the host lie in the host. */
  lemma CodePartInCode(host: string, hit: ScriptHit, rules: seq<BrushRule>)
    requires SoundBrushRules(rules)
    requires hit.index + |hit.Text()| <= |host| && host[hit.index..hit.index + |hit.Text()|] == hit.Text()
    ensures forall m :: m in GuestMatches(hit.code, rules, hit.index + |hit.left|) ==> InCode(host, m)
  {
    HitParts(host, hit);
    GuestMatchesInCode(host, hit.code, rules, hit.index + |hit.left|);
  }

  /** The delimiters' matches in the left and right parts of a hit found in the host lie
      in the host. */
  lemma DelimitersInCode(host: string, hit: ScriptHit, d: HtmlScriptDesc)
    requires Sound(d.left.regex) && Sound(d.right.regex)
    requires hit.index + |hit.Text()| <= |host| && host[hit.index..hit.index + |hit.Text()|] == hit.Text()
    ensures forall m :: m in Shift(PlainMatches(hit.left, d.left), hit.index) ==> InCode(host, m)
    ensures forall m ::
      m in Shift(PlainMatches(hit.right, d.right), hit.index + |hit.left| + |hit.code|) ==> InCode(host, m)
  {
    HitParts(host, hit);
    DelimiterInCode(host, hit.left, hit.index, d.left);
    DelimiterInCode(host, hit.right, hit.index + |hit.left| + |hit.code|, d.right);
  }

  /** With the guest's matches and the two delimiters' matches in the host, all of
      `process`'s matches are, tagged with the guest. */
  lemma ProcessFromParts(host: string, hit: ScriptHit, g: Guest)
    requires forall m :: m in GuestMatches(hit.code, g.rules, hit.index + |hit.left|) ==> InCode(host, m)
    requires forall m :: m in Shift(PlainMatches(hit.left, g.htmlScript.left), hit.index) ==> InCode(host, m)
    requires forall m ::
      m in Shift(PlainMatches(hit.right, g.htmlScript.right), hit.index + |hit.left| + |hit.code|) ==> InCode(host, m)
    ensures forall m :: m in ProcessSpec(hit, g) ==> InCode(host, m) && m.brushName == g.brushName
  {
    var i, l, c := hit.index, |hit.left|, |hit.code|;
    var code := GuestMatches(hit.code, g.rules, i + l);
    var left := Shift(PlainMatches(hit.left, g.htmlScript.left), i);
    var right := Shift(PlainMatches(hit.right, g.htmlScript.right), i + l + c);
    ProcessSpecParts(hit, g);
    PartsTagged(host, code, left, right, g.brushName);
  }

  /** The right delimiter's matches move to where the right part starts, just after the
      left part and the code. */
  lemma ProcessSpecParts(hit: ScriptHit, g: Guest)
    ensures ProcessSpec(hit, g)
         == Tag(GuestMatches(hit.code, g.rules, hit.index + |hit.left|)
                + Shift(PlainMatches(hit.left, g.htmlScript.left), hit.index)
                + Shift(PlainMatches(hit.right, g.htmlScript.right), hit.index + |hit.left| + |hit.code|),
                g.brushName)
  {
    LastIndexOfSuffix(hit.left + hit.code, hit.right);
  }

  /** Three lists of matches that lie in the host, joined and tagged, lie in the host. */
  lemma PartsTagged(host: string, code: seq<Match>, left: seq<Match>, right: seq<Match>, name: Option<string>)
    requires forall m :: m in code ==> InCode(host, m)
    requires forall m :: m in left ==> InCode(host, m)
    requires forall m :: m in right ==> InCode(host, m)
    ensures forall m :: m in Tag(code + left + right, name) ==> InCode(host, m) && m.brushName == name
  {
    TagInCode(host, code + left + right, name);
  }

  /** The matches of a delimiter rule in a part of the host, moved to the part's place,
      lie in the host. */
  lemma DelimiterInCode(host: string, part: string, offset: nat, rule: PlainRule)
    requires Sound(rule.regex)
    requires offset + |part| <= |host| && host[offset..offset + |part|] == part
    ensures forall m :: m in Shift(PlainMatches(part, rule), offset) ==> InCode(host, m)
  {
    PlainMatchesInCode(part, rule);
    ShiftInCode(host, part, offset, PlainMatches(part, rule));
  }

  /** The three parts of a hit found in the host lie in the host one after another. */
  lemma HitParts(host: string, hit: ScriptHit)
    requires hit.index + |hit.Text()| <= |host| && host[hit.index..hit.index + |hit.Text()|] == hit.Text()
    ensures var i, l, c, r := hit.index, |hit.left|, |hit.code|, |hit.right|;
      host[i..i + l] == hit.left && host[i + l..i + l + c] == hit.code && host[i + l + c..i + l + c + r] == hit.right
  {
    var i, l, c, r := hit.index, |hit.left|, |hit.code|, |hit.right|;
    var text := hit.Text();
    SubSlice(host, i, text, 0, l);
    assert text[0..l] == hit.left;
    SubSlice(host, i, text, l, l + c);
    assert text[l..l + c] == hit.code;
    SubSlice(host, i, text, l + c, l + c + r);
    assert text[l + c..l + c + r] == hit.right;
  }

  /** Tagging keeps every match where it is. */
  lemma TagInCode(host: string, ms: seq<Match>, name: Option<string>)
    requires forall m :: m in ms ==> InCode(host, m)
    ensures forall m :: m in Tag(ms, name) ==> InCode(host, m) && m.brushName == name
  {
    forall m | m in Tag(ms, name)
      ensures InCode(host, m) && m.brushName == name
    {
      var k :| 0 <= k < |ms| && Tag(ms, name)[k] == m;
      assert ms[k] in ms;
    }
  }

  lemma {:induction false} ProcessAllInCode(host: string, hits: seq<ScriptHit>, g: Guest)
    requires SoundGuest(g)
    requires forall k :: 0 <= k < |hits| ==>
      hits[k].index + |hits[k].Text()| <= |host| && host[hits[k].index..hits[k].index + |hits[k].Text()|] == hits[k].Text()
    ensures forall m :: m in ProcessAll(hits, g) ==> InCode(host, m) && m.brushName == g.brushName
  {
    if |hits| > 0 {
      ProcessAllInCode(host, hits[..|hits| - 1], g);
      ProcessInCode(host, hits[|hits| - 1], g);
    }
  }

  /** Every match a sound entry of a brush's own list yields is a slice of the code; a
      plain rule's matches carry its css and no brush name. */
  lemma BrushRuleInCode(code: string, rule: BrushRule)
    requires SoundBrushRule(rule)
    ensures forall m :: m in BrushRuleMatches(code, rule) ==> InCode(code, m)
    ensures rule.Plain? ==> forall m :: m in BrushRuleMatches(code, rule) ==> m.brushName == None && m.css == rule.rule.css
  {
    match rule
    case Plain(r) =>
      PlainMatchesInCode(code, r);
    case Custom(r, f) =>
      var hits := r.regex.exec(code);
      FuncMatchesInCode(code, hits, r.css, f);
  }

  /** Every match a sound rule yields is a slice of the code; an embedded brush's matches
      carry its name and a plain rule's carry none. */
  lemma RuleMatchesInCode(code: string, rule: Rule)
    requires SoundRule(rule)
    ensures forall m :: m in RuleMatches(code, rule) ==> InCode(code, m)
    ensures rule.Embedded? ==> forall m :: m in RuleMatches(code, rule) ==> m.brushName == rule.guest.brushName
    ensures rule.Own? && rule.entry.Plain? ==>
      forall m :: m in RuleMatches(code, rule) ==> m.brushName == None && m.css == rule.entry.rule.css
  {
    match rule
    case Own(r) =>
      BrushRuleInCode(code, r);
    case Embedded(g) =>
      var hits := g.htmlScript.code.exec(code);
      ProcessAllInCode(code, hits, g);
  }

  lemma {:induction false} AllMatchesInCode(code: string, rules: seq<Rule>)
    requires forall k :: 0 <= k < |rules| ==> SoundRule(rules[k])
    ensures forall m :: m in AllMatches(code, rules) ==> InCode(code, m)
  {
    if |rules| > 0 {
      AllMatchesInCode(code, rules[..|rules| - 1]);
      RuleMatchesInCode(code, rules[|rules| - 1]);
    }
  }

  /** What `findMatches` returns: with sound rules, its surviving entries are slices of the
      code, in ascending order of start, pairwise disjoint, each one of the matches the
      rules produced and at least as long as every match the rules produced at its start;
      of the longest matches at a start, the first in sorted order survives. */
  lemma FindMatchesResult(code: string, rules: seq<Rule>, result: seq<Option<Match>>)
    requires forall k :: 0 <= k < |rules| ==> SoundRule(rules[k])
    requires Resolved(result, AllMatches(code, rules))
    ensures forall k :: 0 <= k < |result| && result[k].Some? ==>
      InCode(code, result[k].value) && result[k].value in AllMatches(code, rules)
    ensures forall p, q :: 0 <= p < q < |result| && result[p].Some? && result[q].Some? ==>
      result[p].value.End() <= result[q].value.index
    ensures forall k, m ::
      0 <= k < |result| && result[k].Some? && m in AllMatches(code, rules) && m.index == result[k].value.index
      ==> |m.value| <= |result[k].value.value|
    ensures var sorted := Sort(AllMatches(code, rules));
      forall l, k ::
        0 <= l < k < |result| && result[k].Some? && sorted[l].index == result[k].value.index
        ==> |sorted[l].value| == 0 || |sorted[l].value| < |result[k].value.value|
  {
    var all := AllMatches(code, rules);
    var sorted := Sort(all);
    AllMatchesInCode(code, rules);
    forall k | 0 <= k < |result| && result[k].Some?
      ensures InCode(code, result[k].value) && result[k].value in all
    {
      assert result[k].value == sorted[k];
      assert sorted[k] in multiset(sorted);
    }
    var o := seq(|sorted|, k requires 0 <= k < |sorted| => Some(sorted[k]));
    SurvivorsLongest(all, sorted, o, result);
    FirstLongestSurvives(sorted, o, result);
  }

  /** A survivor is strictly longer than every non-empty match sorted before it at its
      start. */
  lemma FirstLongestSurvives(sorted: seq<Match>, o: seq<Option<Match>>, result: seq<Option<Match>>)
    requires |o| == |sorted| && forall k :: 0 <= k < |o| ==> o[k] == Some(sorted[k])
    requires Thinned(result, o) && LaterTiesDropped(result, o)
    ensures forall l, k ::
      0 <= l < k < |result| && result[k].Some? && sorted[l].index == result[k].value.index
      ==> |sorted[l].value| == 0 || |sorted[l].value| < |result[k].value.value|
  {
    forall l, k | 0 <= l < k < |result| && result[k].Some? && sorted[l].index == result[k].value.index
      ensures |sorted[l].value| == 0 || |sorted[l].value| < |result[k].value.value|
    {
      assert result[k] == o[k] && o[l] == Some(sorted[l]);
    }
  }

  /** A survivor of the sorted, thinned list is at least as long as every match of the
      unsorted list at its start: the earlier ones by the sort order, the later ones
      because the sweep keeps the longest. */
  lemma SurvivorsLongest(all: seq<Match>, sorted: seq<Match>, o: seq<Option<Match>>, result: seq<Option<Match>>)
    requires Sorted(sorted) && multiset(sorted) == multiset(all)
    requires |o| == |sorted| && forall k :: 0 <= k < |o| ==> o[k] == Some(sorted[k])
    requires Thinned(result, o) && KeepsLongest(result, o)
    ensures forall k, m ::
      0 <= k < |result| && result[k].Some? && m in all && m.index == result[k].value.index
      ==> |m.value| <= |result[k].value.value|
  {
    forall k, m | 0 <= k < |result| && result[k].Some? && m in all && m.index == result[k].value.index
      ensures |m.value| <= |result[k].value.value|
    {
      assert result[k].value == sorted[k];
      assert m in multiset(sorted);
      var l :| 0 <= l < |sorted| && sorted[l] == m;
      if l < k {
        assert KeyLe(sorted[l], sorted[k]);
      } else if l > k {
        assert o[l] == Some(m);
      }
    }
  }
}
