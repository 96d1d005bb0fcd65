# A verified model of node_syntaxhighlighter, jsky's postfix translator and jevent

This project models five small JavaScript programs in Dafny and proves properties of each model.

- **The SyntaxHighlighter engine** (`node_syntaxhighlighter/libs/shCore.js`):
  - It finds the matches of a brush's rules in a piece of code.
  - It sorts the matches and removes nested ones in place.
  - It stitches matches and the gaps between them into `<code class=…>` markup.
  - It splits the markup into numbered line `div`s, builds the gutter and frames the result in the highlighter's table.
  - Around this it has text transforms (line trimming, tab expansion, unindenting, CDATA stripping), option parsing and merging, and the lazily built brush-alias index.
  - It also has the html-script adapter, which runs a guest brush inside script delimiters.
- **The framing server** (`node_syntaxhighlighter/server.js`):
  - a two-byte little-endian length-prefix codec;
  - the per-connection `data` handler, which accumulates chunks until the declared length is reached and then answers.
- **The DOM serialiser** (`node_syntaxhighlighter/highlight.js`): `getAttributes`, and `toHtml` with its `checkList` substitution hook.
- **The infix-to-postfix translator** (`jsky/postfix.js`): a recursive-descent parser over single-character operands joined by `+` and `-`. What it prints becomes an output sequence.
- **The event registry** (`jevent/jevent.js`): `on`, `off`, `once` and `fire` over a map from event type to handler list, plus the `indexOf` fallback.

Modules, one per file:

| file | module | models |
|---|---|---|
| `wrappers.dfy` | `Wrappers` | `Option` and `Result` |
| `js_text.dfy` | `JsText` | JavaScript string operations (`indexOf`, `substr`, `trim`, `split(/\r?\n/)`, `join`, number printing) |
| `js_values.dfy` | `JsValues` | option values, truthiness, loose `==` against booleans, `Number`/`parseInt`/`isNaN`, `toBoolean` |
| `options.dfy` | `Options` | `sh.defaults`, `merge`, `getParam` and `parseParams` |
| `match.dfy` | `Matches` | `sh.Match`, `matchesSortCallback` and the sort done by `findMatches` |
| `resolver.dfy` | `Resolver` | `removeNestedMatches`, in place on an array |
| `rules.dfy` | `Rules` | `getMatches`, the html-script `process`, `findMatches` and `forHtmlScript` |
| `transforms.dfy` | `Transforms` | `trimFirstAndLastLines`, `processTabs`, `processSmartTabs`, `unindent`, `stripCData` and `getKeywords` |
| `markup.dfy` | `Markup` | `wrapLinesWithCode`, `getMatchesHtml`, `processUrls` and `getTitleHtml` |
| `gutter.dfy` | `Gutter` | `padNumber`, `figureOutLineNumbers`, `isLineHighlighted`, `getLineHtml`, `getLineNumbersHtml` and `getCodeLinesHtml` |
| `registry.dfy` | `Registry` | `sh.brushes`, `findBrush` with its `discoveredBrushes` cache, and the brush lookup in `sh.HtmlScript` |
| `highlighter.dfy` | `Highlighter` | `sh.Highlighter`: `init` and `getHtml` |
| `dom_tree.dfy` | `DomTree` | the htmlparser node type |
| `elements.dfy` | `Elements` | shCore's `getInnerHtml` and `getHtml` |
| `serializer.dfy` | `Serializer` | highlight.js's `getAttributes` and `toHtml` |
| `framing.dfy` | `Framing` | server.js's codec and connection handler |
| `postfix.dfy` | `Postfix` | jsky's `Parser` |
| `jevent.dfy` | `JEvent` | jevent's `_EventPrototype` and the scoping of its handler map |

The regular-expression engine is not modelled:
- A compiled global pattern is its source text together with `exec`, the list of occurrences its `exec` loop reports in a text.
- A pattern is *sound* when each occurrence is the slice of the text at its index. Soundness is a hypothesis of the lemmas that need it and is never assumed by the operations.
- `parseParams` is modelled with a hand-written scanner for its `name: value;` grammar.

Where the code and its comments disagree, the model follows the code:
- `trimFirstAndLastLines` removes the first line only when it holds nothing but spaces, together with the empty lines right after it. A later line of spaces stays: in `"\n  \nx"` the second blank line is kept. So applying it twice can remove more (`TrimNotIdempotent`).
- `processSmartTabs` re-joins lines with `'\r\n'`.
- `getHtml` calls `unindent` as written: it always re-joins the lines with `'\n'`, and its early return is never taken.
- `getLineHtml` gives every line the class `2`, which is what `'alt' + lineNumber % 2 == 0 ? 1 : 2` evaluates to.
- The corrected versions of these (see "## Findings") are proved beside them but are not used by the pipeline.

## Model

| member | source | states |
|---|---|---|
| JsText.SplitLines | node_syntaxhighlighter/libs/shCore.js:235-237 | `split(/\r?\n/)` yields at least one piece, and no piece holds a line feed |
| JsText.SplitJoinCrLf | node_syntaxhighlighter/libs/shCore.js:235-237 | splitting lines that were joined with `'\r\n'` gives those lines back |
| JsText.JoinSplitLf | node_syntaxhighlighter/libs/shCore.js:235-237 | re-joining the lines of a text without `'\r'` with `'\n'` gives the text back |
| JsText.Trim | node_syntaxhighlighter/libs/shCore.js:1204 | the result has no whitespace at either end, and a text without whitespace is unchanged |
| JsText.TrimSlice | node_syntaxhighlighter/libs/shCore.js:1204 | the result is a slice `s[i..j]` of the input, and everything before `i` and from `j` on is whitespace |
| JsText.IndexOf | node_syntaxhighlighter/libs/shCore.js:700-708 | `indexOf` returns the first position where the pattern occurs, or -1 exactly when it occurs nowhere |
| JsText.LastIndexOf | node_syntaxhighlighter/libs/shCore.js:831 | `lastIndexOf` returns the last occurrence, or -1 exactly when there is none |
| JsValues.ToBoolean | node_syntaxhighlighter/libs/shCore.js:272-275 | `"true"` becomes true, `"false"` becomes false, and any other value is returned unchanged |
| JsValues.ParseIntOfNumber | node_syntaxhighlighter/libs/shCore.js:930-940 | `parseInt` of an integer gives that integer back |
| JsValues.NatToStringValue | node_syntaxhighlighter/libs/shCore.js:456 | the decimal digits printed for a natural number read back as that number |
| Options.Merge | node_syntaxhighlighter/libs/shCore.js:253-265 | the result holds the keys of both maps; the second map's value wins; the first map's value is kept for keys only it has |
| Options.GetParam | node_syntaxhighlighter/libs/shCore.js:858-861 | a present, non-null, defined parameter is returned through `toBoolean`; otherwise the default is, also through `toBoolean` |
| Options.Exec | node_syntaxhighlighter/libs/shCore.js:367-380 | the next `name: value` pair starts at the first position from which the grammar matches, and none starts earlier |
| Options.StripQuotes | node_syntaxhighlighter/libs/shCore.js:383 | a quote at either end is removed; a value without quotes at its ends is unchanged |
| Options.ParseParams | node_syntaxhighlighter/libs/shCore.js:363-397 | the scanning loop stores each pair found, in order, into an empty map |
| Options.StoreLastWins | node_syntaxhighlighter/libs/shCore.js:393 | a name is present iff some pair names it, and it holds the converted value of the last such pair |
| Options.ExampleArray | node_syntaxhighlighter/libs/shCore.js:386-391 | a bracketed value `[3,5]` becomes the list `["3", "5"]` |
| Options.ParseParamsExample | node_syntaxhighlighter/libs/shCore.js:363-397 | `brush: js; highlight: [3,5]; gutter: false` parses to `{brush: "js", highlight: ["3","5"], gutter: "false"}` |
| Matches.NewMatch | node_syntaxhighlighter/libs/shCore.js:753-759 | a new match keeps its value, index and css, has no brush name yet, and ends at index plus length |
| Matches.Compare | node_syntaxhighlighter/libs/shCore.js:589-604 | the comparison is 0 iff index and length are both equal, and non-positive iff the first match comes first by (index, length) |
| Matches.CompareAntisymmetric | node_syntaxhighlighter/libs/shCore.js:589-604 | swapping the arguments negates the comparison |
| Matches.CompareTransitive | node_syntaxhighlighter/libs/shCore.js:589-604 | the comparison is transitive, so the sort is well defined |
| Matches.Insert | node_syntaxhighlighter/libs/shCore.js:889 | inserting into a sorted list keeps it sorted and adds exactly the new match |
| Matches.Sort | node_syntaxhighlighter/libs/shCore.js:889 | the sort returns a sorted permutation of its input |
| Resolver.RemoveNestedMatches | node_syntaxhighlighter/libs/shCore.js:897-924 | on a sorted array, slots are only cleared, never moved; the survivors are pairwise disjoint; every original start lies in some surviving match; of two matches at the same start the longer one survives, since every survivor is at least as long as each later match at its start; of two equally long non-empty matches at one start the later one is dropped |
| Resolver.NestedExample | node_syntaxhighlighter/libs/shCore.js:897-924 | a string, a longer comment at a later start and a string inside that comment: the nested string is dropped |
| Resolver.TieExample | node_syntaxhighlighter/libs/shCore.js:915-916 | a comment and a longer comment at the same start: the shorter, earlier one is dropped and the longer one kept |
| Resolver.EqualTieExample | node_syntaxhighlighter/libs/shCore.js:915-918 | two rules matching the same keyword: the first entry keeps its css and the second is dropped |
| Rules.Shift | node_syntaxhighlighter/libs/shCore.js:799-803 | every match moves by the offset and nothing else changes |
| Rules.Tag | node_syntaxhighlighter/libs/shCore.js:835-837 | every match gets the guest brush name and nothing else changes |
| Rules.GetPlainMatches | node_syntaxhighlighter/libs/shCore.js:614-635 | one match per occurrence, carrying the rule's css |
| Rules.Process | node_syntaxhighlighter/libs/shCore.js:805-840 | the guest's code matches shifted past the left delimiter, then the left delimiter, then the right one at its last occurrence, all tagged with the guest name |
| Rules.GetMatches | node_syntaxhighlighter/libs/shCore.js:614-635 | a plain rule gives its occurrences, a rule with `func` the flattened results of `func`, and the html-script rule the processed matches of each occurrence |
| Rules.GetBrushMatches | node_syntaxhighlighter/libs/shCore.js:614-635 | an entry of a brush's own list gives its occurrences, or with `func` the flattened results of `func` |
| Rules.GetGuestMatches | node_syntaxhighlighter/libs/shCore.js:814-819 | the loop over the guest's rules gives each rule's matches in the captured code, with or without `func`, shifted past the left delimiter, in rule order |
| Rules.BrushRuleInCode | node_syntaxhighlighter/libs/shCore.js:614-635 | for a sound entry of a brush's own list every match is a slice of the code; a plain rule's matches carry its css and no brush name |
| Rules.GetFuncMatches | node_syntaxhighlighter/libs/shCore.js:619-630 | the `exec` loop with `func`: a string result becomes one match at the occurrence with the rule's css, an array result is concatenated as it is |
| Rules.DefaultAddIsPlain | node_syntaxhighlighter/libs/shCore.js:615-621 | the loop with `defaultAdd` makes exactly the matches of the plain rule: one per occurrence, in order |
| Rules.FuncMatchesInCode | node_syntaxhighlighter/libs/shCore.js:619-630 | when `func` stays inside each occurrence, every match of a sound rule with `func` is a slice of the code |
| Rules.GetEmbeddedMatches | node_syntaxhighlighter/libs/shCore.js:796 | the html-script rule's `exec` loop concatenates what `process` returns for each occurrence |
| Rules.FindMatches | node_syntaxhighlighter/libs/shCore.js:879-890 | the result is the resolved list of all rules' matches in rule order: sorted, then thinned, disjoint, covering every start, with the longest match kept at each start and, among equally long ones, the first in sorted order |
| Rules.RuleMatchesInCode | node_syntaxhighlighter/libs/shCore.js:614-635 | for a sound rule every match is a slice of the code; embedded matches carry the guest name, plain ones the rule's css |
| Rules.AllMatchesInCode | node_syntaxhighlighter/libs/shCore.js:879-886 | for sound rules every collected match is a slice of the code |
| Rules.FindMatchesResult | node_syntaxhighlighter/libs/shCore.js:879-890 | every survivor is a slice of the code and was among the collected matches; no two survivors overlap; each survivor is at least as long as every collected match at its start, and strictly longer than every non-empty match sorted before it at its start |
| Rules.ForHtmlScriptDelimiters | node_syntaxhighlighter/libs/shCore.js:1215-1231 | with the descriptor `forHtmlScript` builds and sound delimiter patterns, `process` returns after the guest's code matches one match per delimiter occurrence, each of css `script`, tagged with the guest and lying within the left or the right part of the hit |
| Transforms.TrimFirstAndLastLines | node_syntaxhighlighter/libs/shCore.js:344-346 | the result is the slice after the leading ` *\n+` run, and what follows it is the shortest blank tail |
| Transforms.TrimmedEnds | node_syntaxhighlighter/libs/shCore.js:344-346 | the result neither starts nor ends with a line feed |
| Transforms.TrimNotIdempotent | node_syntaxhighlighter/libs/shCore.js:344-346 | a second trim can remove more: `"\n\n  \n"` gives `"  "`, which gives `""` |
| Transforms.ReplaceTabs | node_syntaxhighlighter/libs/shCore.js:477 | with a tab-free replacement no tab remains, and tab-free code is unchanged |
| Transforms.ProcessTabs | node_syntaxhighlighter/libs/shCore.js:471-478 | every tab becomes `tab-size` spaces, or nothing when the size is not a positive number |
| Transforms.TabStop | node_syntaxhighlighter/libs/shCore.js:518 | the spaces put in for a tab at column p number between 1 and the tab size, and reach the next multiple of the tab size |
| Transforms.ExpandTabs | node_syntaxhighlighter/libs/shCore.js:508-522 | the `indexOf`/`insertSpaces` loop on one line computes the column-aware expansion |
| Transforms.ProcessSmartTabs | node_syntaxhighlighter/libs/shCore.js:487-526 | the whole method computes the line-wise column-aware expansion re-joined with `'\r\n'` |
| Transforms.SmartTabsNoTab | node_syntaxhighlighter/libs/shCore.js:487-526 | no tab remains |
| Transforms.SmartTabsIdempotent | node_syntaxhighlighter/libs/shCore.js:487-526 | a second application changes nothing |
| Transforms.ExpandTabFree | node_syntaxhighlighter/libs/shCore.js:508-522 | a tab-free line is unchanged |
| Transforms.MinIndent | node_syntaxhighlighter/libs/shCore.js:555-571 | the minimum is at most 1000, bounds every non-blank line's leading whitespace, and is attained by one of them unless it is 1000 |
| Transforms.UnindentLoop | node_syntaxhighlighter/libs/shCore.js:548-579 | the loop as written computes `UnindentAsWritten` |
| Transforms.ScanIndent | node_syntaxhighlighter/libs/shCore.js:556-571 | as written, the scan that stops once the minimum is 0 still yields the minimum leading white space over the non-blank lines |
| Transforms.DedentLines | node_syntaxhighlighter/libs/shCore.js:574-576 | every line loses its first `min` characters |
| Transforms.UnindentBailOutUnreachable | node_syntaxhighlighter/libs/shCore.js:567-568 | as written, `"a\r\nb"` comes back as `"a\nb"`, so the early return of the input is never taken |
| Transforms.Unindent | node_syntaxhighlighter/libs/shCore.js:548-579 | the corrected loop computes `UnindentSpec` |
| Transforms.ScanIndentOrBail | node_syntaxhighlighter/libs/shCore.js:556-571 | corrected: it bails out iff some non-blank line has no leading white space, and otherwise yields the common indent, which is positive |
| Transforms.UnindentAllOrNothing | node_syntaxhighlighter/libs/shCore.js:548-579 | if a non-blank line has no indent the text is unchanged; otherwise every line loses the common indent and lines are re-joined with `'\n'` |
| Transforms.StripCDataAsWritten | node_syntaxhighlighter/libs/shCore.js:690-715 | with neither marker found the text is unchanged; with the leading marker only, the trimmed text loses it; when the first `]]>` ends the text, it is cut off; a remainder of two characters always gives `""` |
| Transforms.StripCDataTwoChars | node_syntaxhighlighter/libs/shCore.js:708 | as written, `"ab"` is reduced to `""` |
| Transforms.StripCData | node_syntaxhighlighter/libs/shCore.js:690-715 | corrected: text that neither starts nor ends with a marker is unchanged |
| Transforms.StripCDataRoundTrip | node_syntaxhighlighter/libs/shCore.js:690-715 | wrapping a text in `<![CDATA[` … `]]>` and stripping gives the text back |
| Transforms.StripCDataTwoCharsKept | node_syntaxhighlighter/libs/shCore.js:708 | corrected: `"ab"` is kept |
| Transforms.KeywordsAlternation | node_syntaxhighlighter/libs/shCore.js:1202-1209 | space-separated words, with any padding, become `\b(?:w1\|…\|wn)\b` |
| Markup.EscapeLt | node_syntaxhighlighter/libs/shCore.js:410 | no `<` remains and the line count is kept |
| Markup.EscapeLtEach | node_syntaxhighlighter/libs/shCore.js:410 | each `<` becomes `&lt;` and every other character is kept, in order |
| Markup.CollapseRuns | node_syntaxhighlighter/libs/shCore.js:413-421 | the line count is kept and a text not starting with a space keeps its first character |
| Markup.CollapseNoDoubleSpace | node_syntaxhighlighter/libs/shCore.js:413-421 | after collapsing, no two spaces are adjacent |
| Markup.CollapseSingleSpaces | node_syntaxhighlighter/libs/shCore.js:413-421 | text without double spaces is unchanged |
| Markup.WrapLinesWithCode | node_syntaxhighlighter/libs/shCore.js:406-408 | the empty text and a lone line feed are returned as they are |
| Markup.WrapLinesSplit | node_syntaxhighlighter/libs/shCore.js:406-431 | otherwise line k of the result is line k of the escaped, space-collapsed text, wrapped by the `eachLine` callback |
| Markup.WrapKeepsLines | node_syntaxhighlighter/libs/shCore.js:406-446 | wrapping keeps the number of lines |
| Markup.WrapWord | node_syntaxhighlighter/libs/shCore.js:425-443 | a plain word becomes `<code class="css">word</code>` |
| Markup.BrushCss | node_syntaxhighlighter/libs/shCore.js:1072-1075 | a match's own brush name, followed by a space, wins; with neither name the prefix is empty |
| Markup.GetMatchesHtml | node_syntaxhighlighter/libs/shCore.js:1066-1101 | the cursor loop renders the gap and match pieces in order |
| Markup.PiecesCoverCode | node_syntaxhighlighter/libs/shCore.js:1066-1101 | for disjoint in-code matches, the texts of the pieces concatenate back to the code |
| Markup.LastEntity | node_syntaxhighlighter/libs/shCore.js:643-659 | finds the last `&gt;` or `&lt;` in a URL match, or -1 when there is none |
| Markup.LinkUrl | node_syntaxhighlighter/libs/shCore.js:645-662 | a URL without a trailing entity becomes `<a href="u">u</a>` |
| Markup.LinkSplit | node_syntaxhighlighter/libs/shCore.js:643-659 | a URL match always splits into a linked part and an entity suffix |
| Markup.ReplaceHitsIdentity | node_syntaxhighlighter/libs/shCore.js:642-663 | replacing sound hits by themselves gives the code back |
| Markup.GetTitleHtml | node_syntaxhighlighter/libs/shCore.js:1056-1058 | a falsy title gives `""`; otherwise the title is wrapped in `<caption>` |
| Markup.SplitLinesCount | node_syntaxhighlighter/libs/shCore.js:235-237 | the number of lines is the number of line feeds plus one |
| Gutter.Padded | node_syntaxhighlighter/libs/shCore.js:455-462 | the text is never shortened, ends with the number's digits and is preceded only by zeros |
| Gutter.PadNumber | node_syntaxhighlighter/libs/shCore.js:455-462 | the loop computes the padding, and the padded digits read back as the number |
| Gutter.FigureOutLineNumbers | node_syntaxhighlighter/libs/shCore.js:930-940 | one number per line, line i numbered `first-line + i` |
| Gutter.NumberLines | node_syntaxhighlighter/libs/shCore.js:935-937 | the `eachLine` push gives one number per line, entry i being `first-line + i` |
| Gutter.LineNumbersAgree | node_syntaxhighlighter/libs/shCore.js:1025-1029 | the stored line numbers and the ones computed on the fly agree |
| Gutter.NothingHighlightedByDefault | node_syntaxhighlighter/libs/shCore.js:945-953 | under the defaults no line is highlighted |
| Gutter.HighlightList | node_syntaxhighlighter/libs/shCore.js:945-953 | with `highlight: [3,5]` exactly lines 3 and 5 are highlighted |
| Gutter.AltClassAlwaysTwo | node_syntaxhighlighter/libs/shCore.js:966 | as written, every line gets the class `2`, so lines 1 and 2 look alike |
| Gutter.AltClassAlternates | node_syntaxhighlighter/libs/shCore.js:966 | corrected: consecutive lines alternate and every second line repeats |
| Gutter.LineClassesMembers | node_syntaxhighlighter/libs/shCore.js:961-978 | a line's classes are `line`, its number, its index and `2`, plus `highlighted` iff it is highlighted and `break` iff its number is 0 |
| Gutter.GetLineHtml | node_syntaxhighlighter/libs/shCore.js:961-978 | the line's code sits unchanged just before the closing `</div>`, after the line's classes as written |
| Gutter.GutterRows | node_syntaxhighlighter/libs/shCore.js:986-1007 | there is one gutter row per line of code |
| Gutter.GetLineNumbersHtml | node_syntaxhighlighter/libs/shCore.js:986-1007 | the loop concatenates the gutter rows |
| Gutter.LineNumberRows | node_syntaxhighlighter/libs/shCore.js:998-1006 | after the loop the html is the gutter rows of lines 0 to count - 1, in order |
| Gutter.LineLabel | node_syntaxhighlighter/libs/shCore.js:999-1000 | line 0 is labelled `&nbsp;` and any other line with its number padded to the width |
| Gutter.GutterAligned | node_syntaxhighlighter/libs/shCore.js:993-1000 | with `pad-line-numbers` loosely equal to `true` and a positive first line, the padding width is the number of digits of the last line number `first-line + count - 1` |
| Gutter.GutterLabelDigits | node_syntaxhighlighter/libs/shCore.js:455-462 | a positive line number padded to the width of a later line number is exactly that wide, all digits, and its decimal value is the line number |
| Gutter.ReplaceFirstSpace | node_syntaxhighlighter/libs/shCore.js:1035 | only the first space becomes `&nbsp;` |
| Gutter.IndentRun | node_syntaxhighlighter/libs/shCore.js:1027 | `/^(&nbsp;\|\s)+/` takes the longest run: it is empty iff the line starts with neither, and what follows it starts with neither |
| Gutter.CodeLineContent | node_syntaxhighlighter/libs/shCore.js:1026-1046 | an unindented line is trimmed; an indented one gets its run, first space as `&nbsp;`, in a `<brush> spaces` code element before the trimmed rest; an empty rest becomes `&nbsp;` |
| Gutter.CodeRows | node_syntaxhighlighter/libs/shCore.js:1015-1051 | there is one row per line of the trimmed markup |
| Gutter.GetCodeLinesHtml | node_syntaxhighlighter/libs/shCore.js:1015-1051 | the loop concatenates the code rows |
| Gutter.CodeLineRows | node_syntaxhighlighter/libs/shCore.js:1025-1048 | after the loop the html is the code rows of all lines, in order |
| Gutter.RowsShareClasses | node_syntaxhighlighter/libs/shCore.js:1015-1051 | code row i is the line html for number `first-line + i`, the same number its gutter row shows |
| Registry.ToLower | node_syntaxhighlighter/libs/shCore.js:303 | ASCII capitals are lowered and every other character is kept |
| Registry.AddAliases | node_syntaxhighlighter/libs/shCore.js:305-307 | each alias maps to the brush name and the other entries are kept |
| Registry.EnterAliases | node_syntaxhighlighter/libs/shCore.js:305-307 | the `forEach` enters every alias of one brush into the index |
| Registry.BuildIndex | node_syntaxhighlighter/libs/shCore.js:289-311 | the index maps exactly the aliases of the registered brushes, each to a brush that declares it |
| Registry.RegisteredAliasFound | node_syntaxhighlighter/libs/shCore.js:284-320 | with a fresh index, lookup succeeds iff some brush declares the alias, and returns such a brush |
| Registry.StaleCacheExample | node_syntaxhighlighter/libs/shCore.js:289-311 | an index built before a brush was registered misses its alias; a fresh one finds it |
| Registry.BrushRegistry.Register | node_syntaxhighlighter/libs/shCore.js:79 | as written: adds the brush and leaves the cached index as it is |
| Registry.BrushRegistry.RegisterBrush | node_syntaxhighlighter/libs/shCore.js:79 | corrected: adds the brush and drops the cache, so the registry stays coherent |
| Registry.BrushRegistry.Discover | node_syntaxhighlighter/libs/shCore.js:289-311 | builds and caches the alias index and names each brush |
| Registry.IndexBrushes | node_syntaxhighlighter/libs/shCore.js:293-308 | the loop over the brushes builds exactly the alias index and records each aliased brush's name |
| Registry.BrushRegistry.FindBrush | node_syntaxhighlighter/libs/shCore.js:284-320 | builds the index only when none is cached; returns the brush under the alias, or the "Can't find brush" error when alerts are on |
| Registry.HtmlScript | node_syntaxhighlighter/libs/shCore.js:770-797 | in any cache state: without the script brush nothing is added, a brush without a descriptor is the error, otherwise the html-script rule carrying the brush's recorded name is appended; a coherent registry stays coherent and then the name is present |
| Highlighter.ReplaceCR | node_syntaxhighlighter/libs/shCore.js:1127 | every carriage return becomes a space and nothing else changes |
| Highlighter.Prepare | node_syntaxhighlighter/libs/shCore.js:1126-1141 | trim, remove carriage returns, expand tabs in the chosen way, then, when asked, `unindent` as written |
| Highlighter.ClassNamesShape | node_syntaxhighlighter/libs/shCore.js:1110-1124 | the classes start with `syntaxhighlighter`, and `nogutter` is added iff `gutter` loosely equals false |
| Highlighter.UnindentNoTab | node_syntaxhighlighter/libs/shCore.js:548-579 | `unindent` as written adds no tab to text that has none |
| Highlighter.PreparedNoTabs | node_syntaxhighlighter/libs/shCore.js:1126-1141 | prepared code holds no tab |
| Highlighter.FrameEnds | node_syntaxhighlighter/libs/shCore.js:1161-1177 | the page frame opens with the class div, table and title, and ends with the code column and the closing tags |
| Highlighter.FrameGutterColumn | node_syntaxhighlighter/libs/shCore.js:1143-1167 | with the gutter column built as `getHtml` builds it, the gutter opener follows the head iff the gutter option is truthy, and the code column comes first otherwise |
| Highlighter.GutterZeroString | node_syntaxhighlighter/libs/shCore.js:1116-1143 | `gutter: "0"` loosely equals false yet is truthy, so the page gets both `nogutter` and a gutter column |
| Highlighter.RenderCodeBody | node_syntaxhighlighter/libs/shCore.js:1150-1157 | the code rows, url-linked when `auto-links` is set |
| Highlighter.RenderGutterColumn | node_syntaxhighlighter/libs/shCore.js:1167 | the gutter cell when `gutter` is truthy, otherwise nothing |
| Highlighter.Highlighter.constructor | node_syntaxhighlighter/libs/shCore.js:847-849 | a highlighter holds its rules and url pattern and starts with empty parameters |
| Highlighter.Highlighter.Init | node_syntaxhighlighter/libs/shCore.js:1190-1195 | the parameters become the defaults merged with the options given, or with `{}` |
| Highlighter.Highlighter.GetHtml | node_syntaxhighlighter/libs/shCore.js:1108-1180 | the page is the frame around the rendered, resolved matches of the prepared code, with rows classed as written |
| Elements.InnerAndOuter | node_syntaxhighlighter/libs/shCore.js:717-748 | an element with children is its open tag, inner html and close tag; any other node is its raw text |
| Elements.ChildrenHtmlConcat | node_syntaxhighlighter/libs/shCore.js:723-742 | the children's html is the concatenation of each child's html, in order |
| Elements.GetHtmlIgnoresAttributes | node_syntaxhighlighter/libs/shCore.js:734-748 | attributes do not affect the output |
| Serializer.AttributesListed | node_syntaxhighlighter/highlight.js:19-30 | empty iff there are no attributes; otherwise a leading space, and every `name="value"` item is contained |
| Serializer.NodeFragmentsSerialize | node_syntaxhighlighter/highlight.js:39-64 | one node's fragments concatenate to its serialised string |
| Serializer.ListFragmentsSerialize | node_syntaxhighlighter/highlight.js:39-65 | a list's fragments concatenate to its serialised string |
| Serializer.ToHtmlString | node_syntaxhighlighter/highlight.js:32-72 | the string result is the join of the array result, and a single node acts as a one-node list |
| Serializer.ListFragmentsAppend | node_syntaxhighlighter/highlight.js:39-65 | fragments of consecutive nodes appear in document order |
| Serializer.SubstitutedSkipsSubtree | node_syntaxhighlighter/highlight.js:40-45 | a listed node is replaced by the callback's text and its subtree is not serialised |
| Serializer.TagFragments | node_syntaxhighlighter/highlight.js:57-63 | a tag emits its open tag with attributes, its children's fragments, then its close tag |
| Serializer.PlainAgree | node_syntaxhighlighter/highlight.js:47-64 | without a check list, highlight.js's serialiser agrees with shCore's `getHtml` on nodes without attributes or special kinds |
| Framing.EncodeData | node_syntaxhighlighter/server.js:11-21 | encoding succeeds iff the length fits 16 bits; the frame is the little-endian total length, then the data |
| Framing.DecodeData | node_syntaxhighlighter/server.js:23-28 | decoding succeeds iff there are at least two bytes; then the length is the little-endian header minus 2 and the data is everything after the header; otherwise it is the out-of-range error |
| Framing.DecodeEncode | node_syntaxhighlighter/server.js:11-28 | decoding an encoding gives length and data back |
| Framing.EncodeDecode | node_syntaxhighlighter/server.js:11-28 | a well-formed frame is re-encoded from its decoded data |
| Framing.FirstChunk | node_syntaxhighlighter/server.js:39-44 | the first chunk fixes the declared length, its payload is taken whole and the cursor moves past it |
| Framing.RespondsWhenComplete | node_syntaxhighlighter/server.js:54-58 | an answer is sent exactly when the cursor equals the declared length |
| Framing.LateChunkAfterAnswer | node_syntaxhighlighter/server.js:45-58 | a chunk after a complete payload makes the handler call `end` again, with `wrong data` and then with the answer |
| Framing.OvershootNeverResponds | node_syntaxhighlighter/server.js:45-58 | once the cursor passes the declared length the handler never calls `end` with an answer |
| Framing.OneFrameExchange | node_syntaxhighlighter/server.js:37-59 | a frame sent whole or in two pieces is answered once with the encoded result |
| Framing.CopyInto | node_syntaxhighlighter/server.js:42-46 | `Buffer.copy` writes as much as fits from the start position and nothing else |
| Framing.Connection.constructor | node_syntaxhighlighter/server.js:35 | a new connection is in the initial state |
| Framing.Connection.Receive | node_syntaxhighlighter/server.js:37-59 | one `data` event moves the connection's buffer, cursor and replies as the state machine does |
| Framing.Take | node_syntaxhighlighter/server.js:39-52 | a chunk crashes the handler only when it is a first chunk shorter than two bytes; otherwise the declared length is known afterwards |
| Framing.NextTakesThenResponds | node_syntaxhighlighter/server.js:37-59 | a `data` event is the chunk taken or refused, then the length check unless the handler threw |
| Framing.Connection.TakeChunk | node_syntaxhighlighter/server.js:39-52 | the buffer, cursor and replies move as `Take` says, and the declared length is known unless the handler threw |
| Framing.Connection.TakeFirst | node_syntaxhighlighter/server.js:39-43 | the first chunk allocates a buffer of the declared size holding the payload that fits |
| Framing.Connection.TakeMore | node_syntaxhighlighter/server.js:45-47 | a later chunk is copied in after the cursor as far as it fits, and the cursor moves past all of it |
| Framing.Connection.RespondIfComplete | node_syntaxhighlighter/server.js:54-58 | at the declared length the whole payload is in the buffer and its handled, encoded form is sent |
| Framing.ServeOneFrame | node_syntaxhighlighter/server.js:37-59 | a connection receiving one whole frame answers once with the encoded result |
| Framing.OneFrameExchangeWhole | node_syntaxhighlighter/server.js:37-59 | a whole frame in a single chunk is answered once with the encoded result |
| Postfix.IsDigitTokenCases | jsky/postfix.js:4-6 | `!isNaN(Number(t))` holds for digits, spaces, `''` and null, and fails for `+` and `-` |
| Postfix.ReadSpec | jsky/postfix.js:19-31 | past the end, null and the position unchanged; otherwise the next non-space character, with the position moved past it |
| Postfix.ReadStream | jsky/postfix.js:19-31 | successive reads deliver the input's non-space characters in order |
| Postfix.Parser.constructor | jsky/postfix.js:8-14 | a parser starts with no output and the first token read |
| Postfix.Parser.Read | jsky/postfix.js:19-31 | the space-skipping loop computes the token and position of `ReadSpec` |
| Postfix.Parser.Match | jsky/postfix.js:62-68 | it advances iff the lookahead is the expected token; otherwise it throws and nothing changes |
| Postfix.Parser.Term | jsky/postfix.js:53-60 | a digit-like lookahead is printed and consumed; anything else throws |
| Postfix.Parser.Operation | jsky/postfix.js:37-46 | an operator is consumed and the next term printed, then the operator |
| Postfix.Parser.Expr | jsky/postfix.js:33-51 | the output only grows; on success the lookahead is no operator; a digit followed by well-formed operator-digit pairs prints each operator after its right operand |
| Postfix.PostfixTailShape | jsky/postfix.js:33-51 | each operator-operand pair is printed as operand, then operator |
| Postfix.Example | jsky/postfix.js:71-72 | `9 - 5 + 2` prints `9 5 - 2 +` |
| JEvent.FirstIndex | jevent/jevent.js:20-30 | the first position holding the handler, or nothing iff the handler is absent |
| JEvent.IndexOfFallback | jevent/jevent.js:20-30 | the fallback loop finds that first position |
| JEvent.OnAppends | jevent/jevent.js:48-63 | `on` creates the type's list, appends only a function handler, and leaves other types alone |
| JEvent.EventRepo.On | jevent/jevent.js:48-63 | the repository's map becomes the `on` update |
| JEvent.OffRemovesFirst | jevent/jevent.js:65-81 | a registered handler loses exactly its first occurrence |
| JEvent.OffUnchanged | jevent/jevent.js:65-81 | an unknown type, or an absent handler, leaves the map unchanged |
| JEvent.OffResets | jevent/jevent.js:75-77 | `off` without a handler empties that type's list and leaves the others alone |
| JEvent.OffUndoesOn | jevent/jevent.js:48-81 | `off` of a handler just added by `on` restores the map, up to the list `on` created |
| JEvent.EventRepo.Remove | jevent/jevent.js:73-74 | the splice removes the entry at the found position |
| JEvent.EventRepo.Off | jevent/jevent.js:65-81 | the repository's map becomes the `off` update |
| JEvent.EventRepo.Once | jevent/jevent.js:83-95 | registers a fresh wrapper that was not in the list before |
| JEvent.OnceFiresOnce | jevent/jevent.js:83-95 | the first fire calls the other handlers and the wrapped one and removes the wrapper; a second fire calls only the others |
| JEvent.EventRepo.Invoke | jevent/jevent.js:86-92 | calling one handler records the call; a wrapper then removes itself |
| JEvent.CallsOf | jevent/jevent.js:104-106 | one call per handler, in order |
| JEvent.FireCallsAll | jevent/jevent.js:97-109 | fire calls every handler of the snapshot in registration order, even when handlers remove themselves |
| JEvent.ThrownSticks | jevent/jevent.js:104-106 | once a handler throws, the remaining handlers are not called |
| JEvent.EventRepo.Fire | jevent/jevent.js:97-109 | the loop over the snapshot computes `FireSteps` |
| JEvent.OnceExample | jevent/jevent.js:83-109 | a `once` handler beside a plain one is called on the first fire only |
| JEvent.RepoOutOfScope | jevent/jevent.js:33 | as written, `on`, `off` and `fire` find their map only if the page has a global of the name they use |
| JEvent.RepoOutOfScopeExample | jevent/jevent.js:50 | with no such global, `on`, `off` and `fire` all throw a ReferenceError |
| JEvent.RepoInScopeCorrected | jevent/jevent.js:99 | with the map at module scope under one name, every method finds it |

## Left out

- The regular-expression engine (`RegExp`, XRegExp):
  - Patterns are abstract occurrence lists.
  - The `regexLib` patterns, the URL pattern and the compiled html-script pattern are parameters.
  - A non-global or empty-matching pattern, on which `getMatches` would loop forever, cannot be expressed.
- htmlparser DOM plumbing is not modelled: `findElements`, `getSyntaxHighlighterScriptTags`, the traversal in `sh.highlight`, and highlight.js's `highlight()` with its parser handler. `getAttribute` is also out.
- File-system brush loading in highlight.js is I/O.
- `create` depends on `document` and `guid` on `Math.random`.
- `fixInputString` is the identity under the default configuration (`bloggerMode` and `stripBrs` off), so it is not modelled.
- `eachLine` is not a separate member. Its split and re-join are part of each caller's model.
- `methodsToExpose` in `sh.HtmlScript` only forwards calls to the xml brush.
- Matches.Sort: the sort is stable, so matches with equal start and length keep their rule order; the engine's `Array.prototype.sort` need not be stable and may order such matches differently, which changes which css survives.
- Rules.GetMatches: a `func` result that is neither a string nor an array is not modelled; `concat` would append it as one element.
- Markup.WrapLinesWithCode: the `css == null` branch is not modelled; every caller in the core passes a css string.
- JsValues.ToBoolean: a value naming an `Object.prototype` property (such as `"constructor"`) is treated as any other string.
- Registry.ToLower: lower-casing covers ASCII letters only.
- Registry.Lookup: an alias missing from the index gives None. The source reads `sh.brushes[undefined]`, which is `sh.brushes["undefined"]`, so a brush registered under the key `undefined` would be returned for every unknown alias.
- Registry.BuildIndex: the index is built in registration order. The source's `for … in` visits integer-like keys first, and this order decides which brush keeps an alias that two brushes declare.
- Gutter.GetLineNumbersHtml: the `lineNumbers` argument is not a parameter. Its only caller (shCore.js:1167) never passes it.
- JS numbers are modelled as integers, NaN or undefined. Decimal fractions and exponents in option values are read as NaN.
- JsValues.StringToNumber: only optionally signed decimal digits are read. `Number` also accepts the prefixes `0x`, `0b` and `0o` and the word `Infinity`, which the model reads as NaN. So `tab-size: 0x4` expands a tab to 4 spaces in the source but removes tabs in the model. With `pad-line-numbers: Infinity`, the source's `padNumber` loop never ends, while the model gives width 0.
- JsValues.ParseInt: the `0x` prefix is not read as base 16. `parseInt("0x10")` is 16, but the model reads the leading `0` and gives 0, so `first-line: 0x10` numbers the lines from 0 instead of 16.
- The implicit global `gutter` in `getHtml` is not modelled; it is a scoping accident with no effect on the output.
- server.js's sockets (`net.createServer`, `listen`, `client.end`) are I/O:
  - Replies are recorded in a sequence.
  - `handleData` is the parameter `handle`.
  - The UTF-8 conversions of `chunks.toString()` and `Buffer(data)` are folded into `handle`, which works on bytes.
  - A thrown exception is the state flag `crashed`.
- Framing.LateChunkAfterAnswer: every `client.end` call is recorded as a reply, though only the first one reaches the client; Node's behaviour on a second `end` of a closed socket is not modelled.
- Framing.Connection.Receive: the buffer of the declared size is kept alongside the accepted bytes. The contract states the abstract state, not the buffer's bytes.
- Postfix: the module-level `lookahead` is a field of the parser.
  - `throw Error('syntax error')` is a failed result.
  - `console.log` appends to the `output` field.
- Postfix.Parser.Expr: the contract gives the printed output only for inputs that are a digit followed by well-formed operator-digit pairs. For other inputs it states only that the output grows and that success ends at a non-operator.
- jevent:
  - Handlers are opaque ids. A user handler is a recorded call that always returns; its other side effects, and an exception it might throw, are not modelled. The only throw modelled is that of a `once` wrapper calling a handler that is not a function, which ends the fire.
  - JEvent.Snapshot: an event type naming an `Object.prototype` member (such as `"constructor"` or `"toString"`) is treated as a type never seen. In the source, `events[eventType]` then yields the inherited value: `on('constructor', f)` throws at `push`, and `fire('toString')` throws at `slice`.
  - The `this` returned for chaining is not modelled.
  - `addEventSupport`'s prototype copying is not modelled; the repository is the object the methods run on.
  - `fire`'s data is an integer.
  - `Array.prototype.forEach`'s fallback is not modelled separately.
- node_syntaxhighlighter/test.js and test.py are driver scripts and are not part of this model.

## Findings

| source | as written | input that shows it | evidently intended | confidence | as-written member | corrected member |
|---|---|---|---|---|---|---|
| node_syntaxhighlighter/libs/shCore.js:966 | `'alt' + lineNumber % 2 == 0 ? 1 : 2` parses as `(('alt' + n % 2) == 0) ? 1 : 2`, which is always 2 | every line, e.g. lines 1 and 2 both get the class `2` | `'alt' + (n % 2 == 0 ? 1 : 2)`, alternating classes | not executed | Gutter.AltClassAlwaysTwo | Gutter.AltClassAlternates |
| node_syntaxhighlighter/libs/shCore.js:708 | the right marker is stripped when `indexOf(']]>') == length - 3`, which also holds when the marker is absent (-1) and the text has length 2 | `"ab"` becomes `""` | strip only a marker that is really present at the end | not executed | Transforms.StripCDataTwoChars | Transforms.StripCDataTwoCharsKept |
| node_syntaxhighlighter/libs/shCore.js:289-311 | the alias index is built once and cached; a brush registered later is never found | register `X` with alias `x` after the first lookup; `findBrush("x")` gives null | a registration invalidates the cached index | not executed | Registry.StaleCacheExample | Registry.BrushRegistry.RegisterBrush |
| node_syntaxhighlighter/libs/shCore.js:567-568 | the bail-out that should return the input unchanged is unreachable, because `/^\s*/` always matches | `"a\r\nb"` comes back as `"a\nb"` | return the input when nothing is to be stripped | not executed | Transforms.UnindentBailOutUnreachable | Transforms.UnindentAllOrNothing |
| jevent/jevent.js:33 | `gEventsRepo` is local to `addEventSupport`, and `fire` reads an undeclared `gEvents` (line 99) | any call of `on`, `off` or `fire` on a page without those globals throws a ReferenceError | one handler map shared by all four methods | not executed | JEvent.RepoOutOfScopeExample | JEvent.RepoInScopeCorrected |

The page built by `Highlighter.Highlighter.GetHtml` reproduces the code as written: its lines carry the class `2` and its code goes through `unindent` as written. The corrected members state the intended behaviour and are proved next to the as-written ones.
