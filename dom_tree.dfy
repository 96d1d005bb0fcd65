/** The parsed HTML nodes both serialisers walk: what the HTML parser produces for a
    document, with the fields the core reads. */
module DomTree {
  import opened Wrappers

  /** `node.type`: text, a directive such as `!DOCTYPE`, a comment, or an element (the
      parser's `tag`, `script` and `style`). */
  datatype NodeType = TextNode | DirectiveNode | CommentNode | TagNode(tagType: string)

  /** One own property of `node.attribs`, in insertion order. */
  datatype Attr = Attr(key: string, value: string)

  /** A parsed node. `id` stands for the object's identity, which `indexOf` compares;
      `attribs` is absent (`undefined`) on nodes that have none, and `hasChildren` says
      whether `children` is present at all (an empty list is present, and truthy). */
  datatype Node = Node(id: nat, kind: NodeType, name: string, raw: string, attribs: Option<seq<Attr>>, hasChildren: bool, children: seq<Node>)
}
