/** The browser's part-descriptor extractor, `parseFzpFile` (parseFzp.js). It queries the DOM with
    `querySelector`/`querySelectorAll`, which search the whole document in document order (or,
    from an element, everything below it). Fetching and XML parsing are left to the caller: the
    input is the fetch outcome and the parsed document. */
module FzpDom {
  import opened Wrappers
  import opened Seqs
  import opened Xml
  import opened Fzp

  /** The outcome of fetching the descriptor: a failed or non-OK response, or the parsed document. */
  datatype Fetched = FetchFailed | Fetched(doc: Element)

  /** Why `parseFzpFile` throws. */
  datatype FzpError = FetchError | XmlParseError | NoModule

  /** A connector record; `id`, `name` and `type` are `null` (`None`) when the attribute is absent. */
  datatype DomConnector = DomConnector(
    id: Option<string>,
    name: Option<string>,
    kind: Option<string>,
    description: string,
    svgId: string,
    terminalId: string)

  datatype DomDescriptor = DomDescriptor(
    moduleId: string,
    title: string,
    description: string,
    author: string,
    properties: map<string, string>,
    tags: seq<string>,
    imagePath: string,
    connectors: seq<DomConnector>)

  /** `querySelector(tag)?.textContent || ''`. */
  function TextOrEmpty(e: Option<Element>): (r: string)
    ensures e.None? ==> r == ""
    ensures e.Some? ==> r == TextContent(e.value)
  {
    if e.Some? then TextContent(e.value) else ""
  }

  /** A `property` element contributes its `name` attribute and its text. */
  function DomProperty(e: Element): Option<(string, string)> {
    if e.tag == "property" then PropertyEntry(Attr(e, "name"), Some(TextContent(e))) else None
  }

  /** A `tag` element contributes its text when that is non-empty. */
  function DomTag(e: Element): Option<string> {
    if e.tag == "tag" && TextContent(e) != "" then Some(TextContent(e)) else None
  }

  /** A node the selector `breadboardView p` matches: a `p` with a `breadboardView` ancestor
      anywhere in the document. */
  predicate IsPin(n: Node) {
    n.elem.tag == "p" && "breadboardView" in n.ancestors
  }

  /** `breadboardView p` below a connector: the first node in document order the selector
      matches. */
  function FirstPin(ns: seq<Node>): (r: Option<Element>)
    ensures r.None? <==> forall i :: 0 <= i < |ns| ==> !IsPin(ns[i])
    ensures r.Some? ==> r.value.tag == "p"
    ensures r.Some? ==> exists k :: 0 <= k < |ns| && IsPin(ns[k]) && ns[k].elem == r.value && forall j :: 0 <= j < k ==> !IsPin(ns[j])
  {
    if |ns| == 0 then None
    else if IsPin(ns[0]) then Some(ns[0].elem)
    else
      var r := FirstPin(ns[1..]);
      assert forall i :: 1 <= i < |ns| ==> ns[i] == ns[1..][i - 1];
      if r.Some? then
        var k :| 0 <= k < |ns[1..]| && IsPin(ns[1..][k]) && ns[1..][k].elem == r.value && forall j :: 0 <= j < k ==> !IsPin(ns[1..][j]);
        assert ns[k + 1] == ns[1..][k];
        r
      else r
  }

  /** The record built for one `connector` element: its own attributes (`null` when absent),
      the text of the first `description` below it, and the pin ids of the first pin below it,
      "" when there is no pin or the pin lacks the attribute. */
  function ConnectorRecord(n: Node): (c: DomConnector)
    ensures c.id == Attr(n.elem, "id") && c.name == Attr(n.elem, "name") && c.kind == Attr(n.elem, "type")
    ensures FindTag(Descendants(n.elem), "description").None? ==> c.description == ""
    ensures FindTag(Descendants(n.elem), "description").Some? ==>
      c.description == TextContent(FindTag(Descendants(n.elem), "description").value)
    ensures FirstPin(NodesWithin(n)).None? ==> c.svgId == "" && c.terminalId == ""
    ensures FirstPin(NodesWithin(n)).Some? ==>
      c.svgId == AttrOrEmpty(FirstPin(NodesWithin(n)).value, "svgId")
      && c.terminalId == AttrOrEmpty(FirstPin(NodesWithin(n)).value, "terminalId")
  {
    var pin := FirstPin(NodesWithin(n));
    DomConnector(
      Attr(n.elem, "id"),
      Attr(n.elem, "name"),
      Attr(n.elem, "type"),
      TextOrEmpty(FindTag(Descendants(n.elem), "description")),
      if pin.Some? then AttrOrEmpty(pin.value, "svgId") else "",
      if pin.Some? then AttrOrEmpty(pin.value, "terminalId") else "")
  }

  function IsConnectorNode(n: Node): bool {
    n.elem.tag == "connector"
  }

  /** `querySelectorAll('connector')`. */
  function ConnectorNodes(doc: Element): seq<Node> {
    Filter(DocumentNodes(doc), IsConnectorNode)
  }

  /** One record per `connector` element, in document order. */
  function Connectors(doc: Element): (r: seq<DomConnector>)
    ensures |r| == |ConnectorNodes(doc)|
    ensures forall i :: 0 <= i < |r| ==> r[i] == ConnectorRecord(ConnectorNodes(doc)[i])
  {
    var cs := ConnectorNodes(doc);
    seq(|cs|, i requires 0 <= i < |cs| => ConnectorRecord(cs[i]))
  }

  /** `parseFzpFile`: throws on a failed fetch, on a document holding a `parsererror` element
      (how the DOM parser reports malformed XML) and when there is no `module` element at all;
      otherwise extracts each field, defaulting missing ones to "". */
  function ParseFzpFile(f: Fetched): (r: Result<DomDescriptor, FzpError>)
    ensures f.FetchFailed? ==> r == Failure(FetchError)
    ensures f.Fetched? && FindTag(Preorder(f.doc), "parsererror").Some? ==> r == Failure(XmlParseError)
    ensures f.Fetched? && FindTag(Preorder(f.doc), "parsererror").None? ==>
      (r == Failure(NoModule) <==> FindTag(Preorder(f.doc), "module").None?)
    ensures r.Success? <==> f.Fetched? && FindTag(Preorder(f.doc), "parsererror").None? && FindTag(Preorder(f.doc), "module").Some?
    ensures r.Success? ==> f.Fetched? && |r.value.connectors| == |ConnectorNodes(f.doc)|
    ensures r.Success? ==> r.value.moduleId == AttrOrEmpty(FindTag(Preorder(f.doc), "module").value, "moduleId")
    ensures r.Success? ==> forall i :: 0 <= i < |r.value.connectors| ==>
      r.value.connectors[i] == ConnectorRecord(ConnectorNodes(f.doc)[i])
  {
    match f
    case FetchFailed => Failure(FetchError)
    case Fetched(doc) =>
      var all := Preorder(doc);
      if FindTag(all, "parsererror").Some? then Failure(XmlParseError)
      else
        var moduleElem := FindTag(all, "module");
        if moduleElem.None? then Failure(NoModule)
        else
          var bb := FindTag(all, "breadboardView");
          Success(DomDescriptor(
            AttrOrEmpty(moduleElem.value, "moduleId"),
            TextOrEmpty(FindTag(all, "title")),
            TextOrEmpty(FindTag(all, "description")),
            TextOrEmpty(FindTag(all, "author")),
            PropertyMap(Collect(all, DomProperty)),
            Collect(all, DomTag),
            ImagePathOf(if bb.Some? then FindTag(Descendants(bb.value), "layers") else None),
            Connectors(doc)))
  }

  /** Title, description and author come from the first element of that name anywhere in the
      document, and are "" when there is none. */
  lemma TextFieldsFromFirstMatch(doc: Element)
    requires ParseFzpFile(Fetched(doc)).Success?
    ensures var d := ParseFzpFile(Fetched(doc)).value;
      && (FindTag(Preorder(doc), "title").None? ==> d.title == "")
      && (FindTag(Preorder(doc), "title").Some? ==> d.title == TextContent(FindTag(Preorder(doc), "title").value))
      && (FindTag(Preorder(doc), "description").None? ==> d.description == "")
      && (FindTag(Preorder(doc), "description").Some? ==> d.description == TextContent(FindTag(Preorder(doc), "description").value))
      && (FindTag(Preorder(doc), "author").None? ==> d.author == "")
      && (FindTag(Preorder(doc), "author").Some? ==> d.author == TextContent(FindTag(Preorder(doc), "author").value))
  {
  }

  /** A property is recorded exactly when some `property` element has a non-empty name and text;
      the last such element for a name supplies the value. */
  lemma PropertiesLastWins(doc: Element, k: int)
    requires ParseFzpFile(Fetched(doc)).Success?
    requires 0 <= k < |Collect(Preorder(doc), DomProperty)|
    requires forall j :: k < j < |Collect(Preorder(doc), DomProperty)| ==>
      Collect(Preorder(doc), DomProperty)[j].0 != Collect(Preorder(doc), DomProperty)[k].0
    ensures var props := ParseFzpFile(Fetched(doc)).value.properties;
      var entry := Collect(Preorder(doc), DomProperty)[k];
      entry.0 in props && props[entry.0] == entry.1 && entry.0 != "" && entry.1 != ""
  {
    var entries := Collect(Preorder(doc), DomProperty);
    assert ParseFzpFile(Fetched(doc)).value.properties == LastWins(entries);
    LastWinsValue(entries, k);
    PropertyEntryNonEmpty(Preorder(doc), k);
  }

  /** Every collected property entry has a non-empty name and value. */
  lemma PropertyEntryNonEmpty(es: seq<Element>, k: int)
    requires 0 <= k < |Collect(es, DomProperty)|
    ensures Collect(es, DomProperty)[k].0 != "" && Collect(es, DomProperty)[k].1 != ""
  {
    var entries := Collect(es, DomProperty);
    assert entries[k] in entries;
    var i :| 0 <= i < |es| && DomProperty(es[i]) == Some(entries[k]);
  }

  /** Tags are the non-empty texts of the `tag` elements, in document order: one entry per such
      element, duplicates kept, and the tags of the first `i` elements of the document come first. */
  lemma TagsAreNonEmptyTexts(doc: Element)
    requires ParseFzpFile(Fetched(doc)).Success?
    ensures ParseFzpFile(Fetched(doc)).value.tags == Collect(Preorder(doc), DomTag)
    ensures forall t :: t in ParseFzpFile(Fetched(doc)).value.tags <==>
      t != "" && exists i :: 0 <= i < |Preorder(doc)| && Preorder(doc)[i].tag == "tag" && TextContent(Preorder(doc)[i]) == t
    ensures forall i :: 0 <= i <= |Preorder(doc)| ==>
      Collect(Preorder(doc)[..i], DomTag) <= ParseFzpFile(Fetched(doc)).value.tags
  {
    forall i | 0 <= i <= |Preorder(doc)|
      ensures Collect(Preorder(doc)[..i], DomTag) <= ParseFzpFile(Fetched(doc)).value.tags
    {
      CollectPrefix(Preorder(doc), DomTag, i);
    }
  }

  /** A connector without a `p` below a `breadboardView` gets empty `svgId` and `terminalId`. */
  lemma ConnectorWithoutPin(doc: Element, i: int)
    requires ParseFzpFile(Fetched(doc)).Success?
    requires 0 <= i < |ConnectorNodes(doc)|
    requires FirstPin(NodesWithin(ConnectorNodes(doc)[i])).None?
    ensures ParseFzpFile(Fetched(doc)).value.connectors[i].svgId == ""
    ensures ParseFzpFile(Fetched(doc)).value.connectors[i].terminalId == ""
  {
  }

  /** The image path uses the first `layers` below the first `breadboardView`, if its `image` is
      set, and is "" in every other case. */
  lemma ImagePathRule(doc: Element)
    requires ParseFzpFile(Fetched(doc)).Success?
    ensures var bb := FindTag(Preorder(doc), "breadboardView");
      var layers := if bb.Some? then FindTag(Descendants(bb.value), "layers") else None;
      var path := ParseFzpFile(Fetched(doc)).value.imagePath;
      && (bb.None? ==> path == "")
      && (layers.Some? && AttrOrEmpty(layers.value, "image") != "" ==> path == ImagePrefix + AttrOrEmpty(layers.value, "image"))
      && (layers.None? || AttrOrEmpty(layers.value, "image") == "" ==> path == "")
  {
  }
}
