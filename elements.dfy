/** shCore.js `getInnerHtml` and `getHtml`: the code of a `<pre>` or `<script>` element,
    rebuilt from its parsed children. Element tags are written with their name only; the
    attributes, directives and comments are written as their raw text. */
module Elements {
  import opened Wrappers
  import opened JsText
  import opened DomTree

  /** `getHtml(ele)`: a non-text node with children becomes its bare open tag, its
      children and its close tag; any other node its raw text. */
  function GetHtml(e: Node): (r: string)
  {
    if e.kind != TextNode && e.hasChildren then
      "<" + e.name + ">" + ChildrenHtml(e.children) + "</" + e.name + ">"
    else e.raw
  }

  /** The children's markup, accumulated one child at a time in document order (the
      `forEach` with `html +=`). */
  function ChildrenHtml(cs: seq<Node>): (r: string)
  {
    if |cs| == 0 then "" else ChildrenHtml(cs[..|cs| - 1]) + GetHtml(cs[|cs| - 1])
  }

  /** `getInnerHtml(ele)`: a text node's raw text; otherwise its children's markup, or its
      raw text when it has no children. */
  function GetInnerHtml(e: Node): (r: string) {
    if e.kind == TextNode then e.raw
    else if e.hasChildren then ChildrenHtml(e.children)
    else e.raw
  }

  /** The two serialisers agree except on an element with children, which `getHtml` wraps
      in its bare tags around exactly what `getInnerHtml` returns. */
  lemma InnerAndOuter(e: Node)
    ensures e.kind != TextNode && e.hasChildren ==> GetHtml(e) == "<" + e.name + ">" + GetInnerHtml(e) + "</" + e.name + ">"
    ensures !(e.kind != TextNode && e.hasChildren) ==> GetHtml(e) == GetInnerHtml(e) == e.raw
  {
  }

  /** Accumulating children is concatenation in document order. */
  lemma {:induction false} ChildrenHtmlAppend(a: seq<Node>, b: seq<Node>)
    ensures ChildrenHtml(a + b) == ChildrenHtml(a) + ChildrenHtml(b)
    decreases |b|
  {
    if |b| == 0 {
      assert a + b == a;
    } else {
      var c := a + b;
      assert c[..|c| - 1] == a + b[..|b| - 1];
      assert c[|c| - 1] == b[|b| - 1];
      ChildrenHtmlAppend(a, b[..|b| - 1]);
    }
  }

  /** The children's markup is the join of each child's `getHtml`. */
  lemma {:induction false} ChildrenHtmlConcat(cs: seq<Node>)
    ensures ChildrenHtml(cs) == Concat(seq(|cs|, i requires 0 <= i < |cs| => GetHtml(cs[i])))
    decreases |cs|
  {
    if |cs| > 0 {
      var parts := seq(|cs|, i requires 0 <= i < |cs| => GetHtml(cs[i]));
      ChildrenHtmlAppend([cs[0]], cs[1..]);
      assert [cs[0]] + cs[1..] == cs;
      assert ChildrenHtml([cs[0]]) == GetHtml(cs[0]) by {
        assert [cs[0]][..0] == [];
      }
      ChildrenHtmlConcat(cs[1..]);
      assert parts[1..] == seq(|cs[1..]|, i requires 0 <= i < |cs[1..]| => GetHtml(cs[1..][i]));
    }
  }

  /** `getHtml` writes no attribute: changing them changes nothing. */
  lemma GetHtmlIgnoresAttributes(e: Node, attribs: Option<seq<Attr>>)
    ensures GetHtml(e.(attribs := attribs)) == GetHtml(e)
    ensures GetInnerHtml(e.(attribs := attribs)) == GetInnerHtml(e)
  {
  }
}
