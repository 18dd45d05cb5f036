/**
 * The comment rendering and the opening guard of src/components/TicketPopover.tsx. A comment
 * body is either HTML text or a document of the Atlassian Document Format, a tree of typed
 * nodes; its plain text is the in-order concatenation of the tree's text nodes.
 */
module TicketPopover {
  import opened Wrappers

  /**
   * A document node: its `type`, its `text` (`None` when missing) and its `content`.
   */
  datatype Node = Node(kind: string, text: Option<string>, content: Children)

  /** The `content` field: missing, or an array of nodes (possibly empty, still present). */
  datatype Children = Absent | Present(nodes: seq<Node>)

  /** One node's contribution to `extractText`. */
  function NodeText(n: Node): string
    decreases n, 1
  {
    if n.kind == "text" then n.text.GetOr("")
    else if n.kind == "paragraph" && n.content.Present? then ExtractText(n.content.nodes)
    else if n.content.Present? then ExtractText(n.content.nodes)
    else ""
  }

  /** `extractText`: each node's text, joined with no separator. Nodes that are not text
      and have no children contribute nothing, and a single text node gives its own text. */
  function ExtractText(ns: seq<Node>): (r: string)
    ensures (forall i :: 0 <= i < |ns| ==> ns[i].kind != "text" && ns[i].content.Absent?) ==> r == ""
    ensures |ns| == 1 && ns[0].kind == "text" ==> r == ns[0].text.GetOr("")
    decreases ns, 0
  {
    if ns == [] then "" else NodeText(ns[0]) + ExtractText(ns[1..])
  }

  /** The text is taken piecewise: the text of two runs of nodes is the text of the first
      followed by that of the second. */
  lemma {:induction false} ExtractTextAppend(a: seq<Node>, b: seq<Node>)
    ensures ExtractText(a + b) == ExtractText(a) + ExtractText(b)
  {
    if a != [] {
      assert (a + b)[0] == a[0] && (a + b)[1..] == a[1..] + b;
      ExtractTextAppend(a[1..], b);
    } else {
      assert a + b == b;
    }
  }

  /** A reference definition: the strings of the text nodes, in document order, with the
      children of text nodes skipped. */
  function Leaves(ns: seq<Node>): seq<string>
    decreases ns, 0
  {
    if ns == [] then [] else NodeLeaves(ns[0]) + Leaves(ns[1..])
  }

  function NodeLeaves(n: Node): seq<string>
    decreases n, 1
  {
    if n.kind == "text" then [n.text.GetOr("")]
    else if n.content.Present? then Leaves(n.content.nodes)
    else []
  }

  /** The concatenation of a list of strings. */
  function Concat(parts: seq<string>): string {
    if parts == [] then "" else parts[0] + Concat(parts[1..])
  }

  lemma {:induction false} ConcatAppend(a: seq<string>, b: seq<string>)
    ensures Concat(a + b) == Concat(a) + Concat(b)
  {
    if a != [] {
      assert (a + b)[1..] == a[1..] + b;
      ConcatAppend(a[1..], b);
    } else {
      assert a + b == b;
    }
  }

  /** The extracted text is the text nodes' strings in document order, and nothing else:
      no separator and nothing from nodes of other types. */
  lemma {:induction false} ExtractTextIsLeaves(ns: seq<Node>)
    ensures ExtractText(ns) == Concat(Leaves(ns))
    decreases ns, 0
  {
    if ns != [] {
      NodeTextIsLeaves(ns[0]);
      ExtractTextIsLeaves(ns[1..]);
      ConcatAppend(NodeLeaves(ns[0]), Leaves(ns[1..]));
    }
  }

  lemma {:induction false} NodeTextIsLeaves(n: Node)
    ensures NodeText(n) == Concat(NodeLeaves(n))
    decreases n, 1
  {
    if n.kind == "text" {
      assert Concat([n.text.GetOr("")]) == n.text.GetOr("") + Concat([]);
    } else if n.content.Present? {
      ExtractTextIsLeaves(n.content.nodes);
    }
  }

  /** A comment body: a string, an object (with or without `content`), or anything else. */
  datatype Body = HtmlBody(html: string) | DocumentBody(content: Children) | OtherBody

  /** What `renderCommentBody` shows. */
  datatype Rendered = Html(html: string) | PlainText(text: string) | Unavailable

  /** `renderCommentBody`: HTML as such, a document as its extracted text, anything else as
      the "Unable to display comment" fallback. */
  function RenderCommentBody(body: Body): (r: Rendered)
    ensures r.Html? <==> body.HtmlBody?
    ensures r.Html? ==> r.html == body.html
    ensures r.PlainText? <==> body.DocumentBody? && body.content.Present?
    ensures r.PlainText? ==> r.text == Concat(Leaves(body.content.nodes))
    ensures r.Unavailable? <==> body.OtherBody? || (body.DocumentBody? && body.content.Absent?)
  {
    match body
    case HtmlBody(html) => Html(html)
    case DocumentBody(content) =>
      if content.Present? then
        ExtractTextIsLeaves(content.nodes);
        PlainText(ExtractText(content.nodes))
      else Unavailable
    case OtherBody => Unavailable
  }

  /** `handleOpenChange`: the popover's new open state, and whether comments are fetched,
      which happens only on opening with no comment cached. */
  function HandleOpenChange<C>(open: bool, comments: seq<C>): (r: (bool, bool))
    ensures r.0 == open
    ensures r.1 ==> open && comments == []
    ensures open && comments == [] ==> r.1
  {
    (open, open && |comments| == 0)
  }
}
