/** An abstract XML element tree, as both the browser's DOM and Python's ElementTree expose a
    parsed document. `text` is the character data before the first child and `tail` the
    character data after the element's end tag, inside its parent. */
module Xml {
  import opened Wrappers

  datatype Element = Element(
    tag: string,
    attrs: map<string, string>,
    text: string,
    children: seq<Element>,
    tail: string)

  /** `getAttribute(name)` / `get(name)`: the value, or `None` when the attribute is absent. */
  function Attr(e: Element, name: string): Option<string> {
    if name in e.attrs then Some(e.attrs[name]) else None
  }

  /** The elements of a forest in document order: each element before its descendants, and
      those before its following siblings. */
  function Flatten(es: seq<Element>): seq<Element>
    decreases es
  {
    if |es| == 0 then [] else [es[0]] + Flatten(es[0].children) + Flatten(es[1..])
  }

  /** An element and all its descendants, in document order. */
  function Preorder(e: Element): (r: seq<Element>)
    ensures |r| >= 1 && r[0] == e
    ensures r[1..] == Descendants(e)
  {
    assert [e][1..] == [];
    assert Flatten([e]) == [e] + Flatten(e.children) + Flatten([]);
    Flatten([e])
  }

  /** All descendants of an element, in document order (not the element itself). */
  function Descendants(e: Element): seq<Element> {
    Flatten(e.children)
  }

  /** The character data of a forest, each element followed by its tail. */
  function ContentOf(es: seq<Element>): string
    decreases es
  {
    if |es| == 0 then "" else es[0].text + ContentOf(es[0].children) + es[0].tail + ContentOf(es[1..])
  }

  /** The DOM's `textContent`: all character data inside the element, in document order. */
  function TextContent(e: Element): (r: string)
    ensures e.text <= r
    ensures |e.children| == 0 ==> r == e.text
  {
    e.text + ContentOf(e.children)
  }

  /** The first element with the given tag. */
  function FindTag(es: seq<Element>, tag: string): (r: Option<Element>)
    ensures r.Some? ==> r.value in es && r.value.tag == tag
    ensures r.None? <==> forall i :: 0 <= i < |es| ==> es[i].tag != tag
    ensures r.Some? ==> exists k :: 0 <= k < |es| && es[k] == r.value && forall j :: 0 <= j < k ==> es[j].tag != tag
  {
    if |es| == 0 then None
    else if es[0].tag == tag then Some(es[0])
    else
      var r := FindTag(es[1..], tag);
      assert forall i :: 1 <= i < |es| ==> es[i] == es[1..][i - 1];
      if r.Some? then
        var k :| 0 <= k < |es[1..]| && es[1..][k] == r.value && forall j :: 0 <= j < k ==> es[1..][j].tag != tag;
        assert es[k + 1] == r.value;
        r
      else r
  }

  /** An element in the context of a whole document: the tags of all its ancestors. */
  datatype Node = Node(elem: Element, ancestors: set<string>)

  /** `Flatten` with each element's ancestor tags, `above` being those above the forest. */
  function Nodes(es: seq<Element>, above: set<string>): (r: seq<Node>)
    ensures |r| == |Flatten(es)|
    ensures forall i :: 0 <= i < |r| ==> r[i].elem == Flatten(es)[i]
    decreases es
  {
    if |es| == 0 then []
    else
      var head := Nodes(es[0].children, above + {es[0].tag});
      var rest := Nodes(es[1..], above);
      var r := [Node(es[0], above)] + head + rest;
      assert Flatten(es) == [es[0]] + Flatten(es[0].children) + Flatten(es[1..]);
      r
  }

  /** Every node of a document, the root having no ancestors. */
  function DocumentNodes(root: Element): seq<Node> {
    Nodes([root], {})
  }

  /** The nodes strictly inside `n`, each keeping its ancestors in the whole document. */
  function NodesWithin(n: Node): seq<Node> {
    Nodes(n.elem.children, n.ancestors + {n.elem.tag})
  }
}
