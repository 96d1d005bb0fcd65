/** highlight.js `getAttributes` and `toHtml`: the parsed document written back as HTML,
    with the highlighted elements replaced by the markup a callback supplies. `toHtml`
    collects fragments in an array; a direct string serialiser is its reference. */
module Serializer {
  import opened Wrappers
  import opened JsText
  import opened DomTree
  import Elements

  /** `attr + '="' + attrs[attr] + '"'`; the value is not escaped. */
  function AttributeText(a: Attr): string {
    a.key + "=\"" + a.value + "\""
  }

  /** The attribute items in property order. */
  function AttributeItems(attrs: seq<Attr>): (items: seq<string>)
    ensures |items| == |attrs| && forall k :: 0 <= k < |attrs| ==> items[k] == AttributeText(attrs[k])
  {
    seq(|attrs|, k requires 0 <= k < |attrs| => AttributeText(attrs[k]))
  }

  /** `getAttributes(node)`: empty without attributes, otherwise a space and the items
      joined by single spaces. */
  function GetAttributes(attribs: Option<seq<Attr>>): (r: string) {
    var items := if attribs.Some? then AttributeItems(attribs.value) else [];
    if |items| > 0 then " " + Join(items, " ") else ""
  }

  /** `pat` occurs somewhere in `s`. */
  ghost predicate Contains(s: string, pat: string) {
    exists i: nat :: OccursAt(s, pat, i)
  }

  /** Every part of a join appears in it. */
  lemma {:induction false} JoinContains(parts: seq<string>, sep: string, k: nat)
    requires k < |parts|
    ensures Contains(Join(parts, sep), parts[k])
    decreases |parts|
  {
    var s := Join(parts, sep);
    if |parts| == 1 {
      assert OccursAt(s, parts[k], 0);
    } else if k == 0 {
      assert s == parts[0] + (sep + Join(parts[1..], sep));
      assert s[..|parts[0]|] == parts[0];
      assert OccursAt(s, parts[k], 0);
    } else {
      JoinContains(parts[1..], sep, k - 1);
      var i: nat :| OccursAt(Join(parts[1..], sep), parts[1..][k - 1], i);
      var off := |parts[0] + sep|;
      assert s == (parts[0] + sep) + Join(parts[1..], sep);
      assert s[off + i..off + i + |parts[k]|] == Join(parts[1..], sep)[i..i + |parts[k]|];
      assert OccursAt(s, parts[k], off + i);
    }
  }

  /** The attribute text is empty exactly when there is no attribute; otherwise it starts
      with a space and shows every `name="value"` item. */
  lemma AttributesListed(attribs: Option<seq<Attr>>)
    ensures GetAttributes(attribs) == "" <==> attribs.None? || |attribs.value| == 0
    ensures GetAttributes(attribs) != "" ==> GetAttributes(attribs)[0] == ' '
    ensures attribs.Some? ==> forall k :: 0 <= k < |attribs.value| ==> Contains(GetAttributes(attribs), AttributeText(attribs.value[k]))
  {
    if attribs.Some? && |attribs.value| > 0 {
      var items := AttributeItems(attribs.value);
      var r := GetAttributes(attribs);
      forall k | 0 <= k < |attribs.value|
        ensures Contains(r, AttributeText(attribs.value[k]))
      {
        JoinContains(items, " ", k);
        ContainsAfter(" ", Join(items, " "), items[k]);
      }
    }
  }

  /** What a text contains, it still contains behind a prefix. */
  lemma ContainsAfter(pre: string, s: string, pat: string)
    requires Contains(s, pat)
    ensures Contains(pre + s, pat)
  {
    var i: nat :| OccursAt(s, pat, i);
    assert (pre + s)[|pre| + i..|pre| + i + |pat|] == s[i..i + |pat|];
    assert OccursAt(pre + s, pat, |pre| + i);
  }

  // ---------------------------------------------------------------------------
  // toHtml

  /** The `{ list, callback }` argument: the nodes to replace and what replaces them. */
  datatype CheckList = CheckList(list: seq<nat>, callback: Node -> string)

  /** `toHtml`'s first argument: one node or an array of nodes. */
  datatype NodeArg = Single(node: Node) | Many(nodes: seq<Node>)

  /** `toHtml`'s result: the fragment array (`asArray`) or its join. */
  datatype Output = Fragments(parts: seq<string>) | Markup(text: string)

  /** `checkList.list.indexOf(node) > -1`. */
  predicate Substituted(n: Node, check: Option<CheckList>) {
    check.Some? && n.id in check.value.list
  }

  /** The fragments one node contributes. */
  function NodeFragments(n: Node, check: Option<CheckList>): (r: seq<string>) {
    if Substituted(n, check) then [check.value.callback(n)]
    else
      match n.kind
      case TextNode => [n.raw]
      case DirectiveNode => ["<" + n.raw + ">"]
      case CommentNode => ["<!--" + n.raw + "-->"]
      case TagNode(_) =>
        ["<" + n.name + GetAttributes(n.attribs) + ">"]
          + (if n.hasChildren then ListFragments(n.children, check) else [])
          + ["</" + n.name + ">"]
  }

  /** The fragments of a node list, pushed node by node. */
  function ListFragments(ns: seq<Node>, check: Option<CheckList>): (r: seq<string>) {
    if |ns| == 0 then [] else ListFragments(ns[..|ns| - 1], check) + NodeFragments(ns[|ns| - 1], check)
  }

  /** A single node is wrapped into a list. */
  function AsList(arg: NodeArg): seq<Node> {
    match arg
    case Single(n) => [n]
    case Many(ns) => ns
  }

  /** `toHtml(nodeList, asArray, checkList)`. */
  function ToHtml(arg: NodeArg, asArray: bool, check: Option<CheckList>): Output {
    var parts := ListFragments(AsList(arg), check);
    if asArray then Fragments(parts) else Markup(Concat(parts))
  }

  // ---------------------------------------------------------------------------
  // The reference: writing the markup directly

  function SerializeNode(n: Node, check: Option<CheckList>): string {
    if Substituted(n, check) then check.value.callback(n)
    else
      match n.kind
      case TextNode => n.raw
      case DirectiveNode => "<" + n.raw + ">"
      case CommentNode => "<!--" + n.raw + "-->"
      case TagNode(_) =>
        "<" + n.name + GetAttributes(n.attribs) + ">"
          + (if n.hasChildren then SerializeList(n.children, check) else "")
          + "</" + n.name + ">"
  }

  function SerializeList(ns: seq<Node>, check: Option<CheckList>): string {
    if |ns| == 0 then "" else SerializeNode(ns[0], check) + SerializeList(ns[1..], check)
  }

  lemma {:induction false} SerializeListAppend(ns: seq<Node>, n: Node, check: Option<CheckList>)
    ensures SerializeList(ns + [n], check) == SerializeList(ns, check) + SerializeNode(n, check)
    decreases |ns|
  {
    if |ns| == 0 {
      assert [n][1..] == [];
    } else {
      assert (ns + [n])[1..] == ns[1..] + [n];
      SerializeListAppend(ns[1..], n, check);
    }
  }

  /** Joining one node's fragments gives its markup. */
  lemma {:induction false} NodeFragmentsSerialize(n: Node, check: Option<CheckList>)
    ensures Concat(NodeFragments(n, check)) == SerializeNode(n, check)
    decreases n, 1
  {
    if !Substituted(n, check) && n.kind.TagNode? {
      var open := "<" + n.name + GetAttributes(n.attribs) + ">";
      var close := "</" + n.name + ">";
      var inner := if n.hasChildren then ListFragments(n.children, check) else [];
      if n.hasChildren {
        ListFragmentsSerialize(n.children, check);
      }
      ConcatAppend([open] + inner, [close]);
      ConcatAppend([open], inner);
    }
  }

  /** Joining a list's fragments gives the markup of its nodes in document order. */
  lemma {:induction false} ListFragmentsSerialize(ns: seq<Node>, check: Option<CheckList>)
    ensures Concat(ListFragments(ns, check)) == SerializeList(ns, check)
    decreases ns, 0
  {
    if |ns| > 0 {
      var init, last := ns[..|ns| - 1], ns[|ns| - 1];
      ListFragmentsSerialize(init, check);
      NodeFragmentsSerialize(last, check);
      ConcatAppend(ListFragments(init, check), NodeFragments(last, check));
      assert init + [last] == ns;
      SerializeListAppend(init, last, check);
    }
  }

  /** The string result is the join of the array result, and both serialise the nodes in
      document order; a single node is treated as a one-element list. */
  lemma ToHtmlString(arg: NodeArg, check: Option<CheckList>)
    ensures ToHtml(arg, false, check) == Markup(Concat(ToHtml(arg, true, check).parts))
    ensures ToHtml(arg, false, check) == Markup(SerializeList(AsList(arg), check))
    ensures arg.Single? ==> ToHtml(arg, false, check) == ToHtml(Many([arg.node]), false, check)
  {
    ListFragmentsSerialize(AsList(arg), check);
  }

  /** Fragments are pushed in document order. */
  lemma {:induction false} ListFragmentsAppend(a: seq<Node>, b: seq<Node>, check: Option<CheckList>)
    ensures ListFragments(a + b, check) == ListFragments(a, check) + ListFragments(b, check)
    decreases |b|
  {
    if |b| == 0 {
      assert a + b == a;
    } else {
      var c := a + b;
      assert c[..|c| - 1] == a + b[..|b| - 1];
      assert c[|c| - 1] == b[|b| - 1];
      ListFragmentsAppend(a, b[..|b| - 1], check);
      AppendAssoc(ListFragments(a, check), ListFragments(b[..|b| - 1], check), NodeFragments(b[|b| - 1], check));
    }
  }

  /** A listed node becomes the callback's markup alone: its children, whatever they are,
      are not written. */
  lemma SubstitutedSkipsSubtree(n: Node, check: Option<CheckList>, children: seq<Node>)
    requires Substituted(n, check)
    ensures NodeFragments(n, check) == [check.value.callback(n)]
    ensures SerializeNode(n.(children := children, hasChildren := true), check) == check.value.callback(n.(children := children, hasChildren := true))
  {
  }

  /** An element that is not replaced is written between its open tag, with its
      attributes, and its close tag. */
  lemma TagFragments(n: Node, check: Option<CheckList>)
    requires !Substituted(n, check) && n.kind.TagNode?
    ensures var r := NodeFragments(n, check);
      |r| >= 2 && r[0] == "<" + n.name + GetAttributes(n.attribs) + ">" && r[|r| - 1] == "</" + n.name + ">"
  {
  }

  // ---------------------------------------------------------------------------
  // Agreement with shCore.js `getHtml`

  /** Trees made of text and attribute-free elements that have children. */
  predicate Plain(e: Node) {
    (e.kind == TextNode || (e.kind.TagNode? && e.hasChildren && (e.attribs.None? || |e.attribs.value| == 0)))
    && forall k :: 0 <= k < |e.children| ==> Plain(e.children[k])
  }

  /** On such trees, with nothing replaced, `getHtml` and `toHtml` write the same markup;
      they differ on attributes, directives, comments and childless elements. */
  lemma {:induction false} PlainAgree(e: Node)
    requires Plain(e)
    ensures Elements.GetHtml(e) == SerializeNode(e, None)
    decreases e, 1
  {
    if e.kind != TextNode {
      PlainListAgree(e.children);
    }
  }

  lemma {:induction false} PlainListAgree(cs: seq<Node>)
    requires forall k :: 0 <= k < |cs| ==> Plain(cs[k])
    ensures Elements.ChildrenHtml(cs) == SerializeList(cs, None)
    decreases cs, 0
  {
    if |cs| > 0 {
      var init, last := cs[..|cs| - 1], cs[|cs| - 1];
      PlainListAgree(init);
      PlainAgree(last);
      assert init + [last] == cs;
      SerializeListAppend(init, last, None);
    }
  }
}
