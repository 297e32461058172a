/** The backend's part-descriptor extractor, `PartService.parse_fzp_file` (part_service.py). It
    walks an ElementTree: `find`/`findall` with a plain name look only at direct children, and
    `.//` paths at all descendants. Element `.text` is `None` when an element has no leading
    character data; that `None` flows into the result for title, description and author. */
module FzpTree {
  import opened Wrappers
  import opened Seqs
  import opened Xml
  import opened Fzp
  import FzpDom

  /** The state of the descriptor file: absent, not well-formed XML, or parsed to a root element. */
  datatype FzpFile = Missing | Malformed | Parsed(root: Element)

  /** A connector record; `description` is `None` for a `description` child without text. */
  datatype TreeConnector = TreeConnector(
    id: string,
    name: string,
    kind: string,
    description: Option<string>,
    svgId: string,
    terminalId: string)

  /** The returned dictionary; `None` in a text field is Python's `None`. */
  datatype TreeDescriptor = TreeDescriptor(
    moduleId: string,
    title: Option<string>,
    description: Option<string>,
    author: Option<string>,
    properties: map<string, string>,
    tags: seq<string>,
    imagePath: string,
    connectors: seq<TreeConnector>)

  /** `element.text`: `None` exactly when the element has no leading character data. */
  function PyText(e: Element): (r: Option<string>)
    ensures r.None? <==> e.text == ""
    ensures r.Some? ==> r.value == e.text && r.value != ""
  {
    if e.text == "" then None else Some(e.text)
  }

  /** `child.text if child is not None else ''` for the first direct child with that tag. */
  function ChildText(e: Element, tag: string): (r: Option<string>)
    ensures FindTag(e.children, tag).None? ==> r == Some("")
    ensures FindTag(e.children, tag).Some? ==> r == PyText(FindTag(e.children, tag).value)
  {
    match FindTag(e.children, tag)
    case None => Some("")
    case Some(c) => PyText(c)
  }

  /** A `property` child contributes its `name` attribute and its text. */
  function TreeProperty(e: Element): Option<(string, string)> {
    if e.tag == "property" then PropertyEntry(Attr(e, "name"), PyText(e)) else None
  }

  /** A `tag` child contributes its text when it has any. */
  function TreeTag(e: Element): Option<string> {
    if e.tag == "tag" then PyText(e) else None
  }

  /** A `breadboardView` element with at least one `p` child. */
  predicate HasPinChild(e: Element) {
    e.tag == "breadboardView" && FindTag(e.children, "p").Some?
  }

  /** The position of the first `breadboardView` with a `p` child. */
  function FirstPinView(es: seq<Element>): (r: Option<nat>)
    ensures r.None? <==> forall i :: 0 <= i < |es| ==> !HasPinChild(es[i])
    ensures r.Some? ==> r.value < |es| && HasPinChild(es[r.value]) && forall j :: 0 <= j < r.value ==> !HasPinChild(es[j])
  {
    if |es| == 0 then None
    else if HasPinChild(es[0]) then Some(0)
    else
      var rest := FirstPinView(es[1..]);
      assert forall i :: 1 <= i < |es| ==> es[i] == es[1..][i - 1];
      if rest.Some? then
        assert es[rest.value + 1] == es[1..][rest.value];
        Some(rest.value + 1)
      else None
  }

  /** `find('.//breadboardView/p')`: the first `p` child of the first descendant
      `breadboardView` that has one. */
  function FirstPin(es: seq<Element>): (r: Option<Element>)
    ensures r.None? <==> forall i :: 0 <= i < |es| ==> !HasPinChild(es[i])
    ensures r.Some? ==> r.value.tag == "p" && r == FindTag(es[FirstPinView(es).value].children, "p")
  {
    match FirstPinView(es)
    case None => None
    case Some(k) => FindTag(es[k].children, "p")
  }

  /** The record built for one `connector` element: its attributes ("" when absent), the text of
      its first direct `description` child, and the pin ids of the first pin below it, "" when
      there is no pin or the pin lacks the attribute. */
  function ConnectorRecord(c: Element): (r: TreeConnector)
    ensures r.id == AttrOrEmpty(c, "id") && r.name == AttrOrEmpty(c, "name") && r.kind == AttrOrEmpty(c, "type")
    ensures FindTag(c.children, "description").None? ==> r.description == Some("")
    ensures FindTag(c.children, "description").Some? ==> r.description == PyText(FindTag(c.children, "description").value)
    ensures FirstPin(Descendants(c)).None? ==> r.svgId == "" && r.terminalId == ""
    ensures FirstPin(Descendants(c)).Some? ==>
      r.svgId == AttrOrEmpty(FirstPin(Descendants(c)).value, "svgId")
      && r.terminalId == AttrOrEmpty(FirstPin(Descendants(c)).value, "terminalId")
  {
    var pin := FirstPin(Descendants(c));
    TreeConnector(
      AttrOrEmpty(c, "id"),
      AttrOrEmpty(c, "name"),
      AttrOrEmpty(c, "type"),
      ChildText(c, "description"),
      if pin.Some? then AttrOrEmpty(pin.value, "svgId") else "",
      if pin.Some? then AttrOrEmpty(pin.value, "terminalId") else "")
  }

  function IsConnector(e: Element): bool {
    e.tag == "connector"
  }

  /** `root.findall('.//connector')`: every connector below the root, in document order. */
  function ConnectorElements(root: Element): seq<Element> {
    Filter(Descendants(root), IsConnector)
  }

  /** The children of the first direct child with the given tag, or none. */
  function ChildrenOf(e: Element, tag: string): seq<Element> {
    match FindTag(e.children, tag)
    case None => []
    case Some(c) => c.children
  }

  /** `parse_fzp_file`: `None` when the file is missing, malformed (the parse raises and the
      handler swallows it) or its root is not `module`; otherwise the extracted fields. */
  function ParseFzpFile(f: FzpFile): (r: Option<TreeDescriptor>)
    ensures r.Some? <==> f.Parsed? && f.root.tag == "module"
    ensures r.Some? ==> |r.value.connectors| == |ConnectorElements(f.root)|
    ensures r.Some? ==> forall i :: 0 <= i < |r.value.connectors| ==>
      r.value.connectors[i] == ConnectorRecord(ConnectorElements(f.root)[i])
    ensures r.Some? ==> r.value.moduleId == AttrOrEmpty(f.root, "moduleId")
  {
    match f
    case Missing => None
    case Malformed => None
    case Parsed(root) =>
      if root.tag != "module" then None
      else
        var bb := FindTag(Descendants(root), "breadboardView");
        var cs := ConnectorElements(root);
        Some(TreeDescriptor(
          AttrOrEmpty(root, "moduleId"),
          ChildText(root, "title"),
          ChildText(root, "description"),
          ChildText(root, "author"),
          PropertyMap(Collect(ChildrenOf(root, "properties"), TreeProperty)),
          Collect(ChildrenOf(root, "tags"), TreeTag),
          ImagePathOf(if bb.Some? then FindTag(bb.value.children, "layers") else None),
          seq(|cs|, i requires 0 <= i < |cs| => ConnectorRecord(cs[i]))))
  }

  /** Title, description and author are the texts of direct children of the root, "" when the
      child is absent. */
  lemma TextFieldsFromChildren(root: Element)
    requires root.tag == "module"
    ensures var d := ParseFzpFile(Parsed(root)).value;
      && (FindTag(root.children, "title").None? ==> d.title == Some(""))
      && (FindTag(root.children, "title").Some? ==> d.title == PyText(FindTag(root.children, "title").value))
      && (FindTag(root.children, "description").None? ==> d.description == Some(""))
      && (FindTag(root.children, "description").Some? ==> d.description == PyText(FindTag(root.children, "description").value))
      && (FindTag(root.children, "author").None? ==> d.author == Some(""))
      && (FindTag(root.children, "author").Some? ==> d.author == PyText(FindTag(root.children, "author").value))
  {
  }

  /** Properties come only from `property` children of the first `properties` child, and only
      those with a non-empty name and text. */
  lemma PropertiesFromPropertiesChild(root: Element, name: string)
    requires root.tag == "module"
    ensures name in ParseFzpFile(Parsed(root)).value.properties <==>
      exists i :: 0 <= i < |ChildrenOf(root, "properties")| && NamesProperty(ChildrenOf(root, "properties")[i], name)
  {
    var kids := ChildrenOf(root, "properties");
    var entries := Collect(kids, TreeProperty);
    assert ParseFzpFile(Parsed(root)).value.properties == LastWins(entries);
    if name in LastWins(entries) {
      var k :| 0 <= k < |entries| && entries[k].0 == name;
      assert entries[k] in entries;
      var i :| 0 <= i < |kids| && TreeProperty(kids[i]) == Some(entries[k]);
      assert NamesProperty(kids[i], name);
    }
    if i :| 0 <= i < |kids| && NamesProperty(kids[i], name) {
      var e := TreeProperty(kids[i]).value;
      assert e in entries;
      var k :| 0 <= k < |entries| && entries[k] == e;
    }
  }

  /** The value of a property is the text of the last `property` child that names it. */
  lemma PropertyValueFromLastChild(root: Element, name: string, i: int)
    requires root.tag == "module"
    requires 0 <= i < |ChildrenOf(root, "properties")| && NamesProperty(ChildrenOf(root, "properties")[i], name)
    requires forall j :: i < j < |ChildrenOf(root, "properties")| ==> !NamesProperty(ChildrenOf(root, "properties")[j], name)
    ensures name in ParseFzpFile(Parsed(root)).value.properties
    ensures ParseFzpFile(Parsed(root)).value.properties[name] == ChildrenOf(root, "properties")[i].text
  {
    var kids := ChildrenOf(root, "properties");
    var entries := Collect(kids, TreeProperty);
    assert ParseFzpFile(Parsed(root)).value.properties == LastWins(entries);
    assert TreeProperty(kids[i]) == Some((name, kids[i].text));
    forall j | i < j < |kids| && TreeProperty(kids[j]).Some?
      ensures TreeProperty(kids[j]).value.0 != name
    {
      assert !NamesProperty(kids[j], name);
    }
    CollectLastFrom(kids, TreeProperty, i);
    var m :| 0 <= m < |entries| && entries[m] == TreeProperty(kids[i]).value && forall j :: m < j < |entries| ==> entries[j].0 != entries[m].0;
    LastWinsValue(entries, m);
  }

  /** A `property` element with a non-empty `name` attribute equal to `name` and non-empty text. */
  predicate NamesProperty(e: Element, name: string) {
    e.tag == "property" && Attr(e, "name") == Some(name) && name != "" && PyText(e).Some?
  }

  /** Tags are the texts of the `tag` children of the first `tags` child, in order, one entry per
      such child with text; a document with no `tags` child has none. */
  lemma TagsFromTagsChild(root: Element)
    requires root.tag == "module"
    ensures ParseFzpFile(Parsed(root)).value.tags == Collect(ChildrenOf(root, "tags"), TreeTag)
    ensures forall t :: t in ParseFzpFile(Parsed(root)).value.tags <==>
      exists i :: 0 <= i < |ChildrenOf(root, "tags")| && ChildrenOf(root, "tags")[i].tag == "tag"
        && ChildrenOf(root, "tags")[i].text == t && t != ""
    ensures forall i :: 0 <= i <= |ChildrenOf(root, "tags")| ==>
      Collect(ChildrenOf(root, "tags")[..i], TreeTag) <= ParseFzpFile(Parsed(root)).value.tags
    ensures FindTag(root.children, "tags").None? ==> ParseFzpFile(Parsed(root)).value.tags == []
  {
    forall i | 0 <= i <= |ChildrenOf(root, "tags")|
      ensures Collect(ChildrenOf(root, "tags")[..i], TreeTag) <= ParseFzpFile(Parsed(root)).value.tags
    {
      CollectPrefix(ChildrenOf(root, "tags"), TreeTag, i);
    }
  }

  /** The image path uses the first `layers` child of the first `breadboardView` anywhere below
      the root, if its `image` is set, and is "" in every other case; a `layers` deeper inside the
      view is not seen. */
  lemma ImagePathRule(root: Element)
    requires root.tag == "module"
    ensures var bb := FindTag(Descendants(root), "breadboardView");
      var layers := if bb.Some? then FindTag(bb.value.children, "layers") else None;
      var path := ParseFzpFile(Parsed(root)).value.imagePath;
      && (bb.None? ==> path == "")
      && (layers.Some? && AttrOrEmpty(layers.value, "image") != "" ==> path == ImagePrefix + AttrOrEmpty(layers.value, "image"))
      && (layers.None? || AttrOrEmpty(layers.value, "image") == "" ==> path == "")
  {
  }

  /** Documents on which the two extractors disagree: a title below a wrapper element. The
      browser's descendant search finds it and reads its text; the backend's child lookup does
      not and reads "". */
  lemma NestedTitleDiffers(text: string)
    ensures var title := Element("title", map[], text, [], "");
      var meta := Element("meta", map[], "", [title], "");
      var root := Element("module", map[], "", [meta], "");
      && ParseFzpFile(Parsed(root)).Some? && ParseFzpFile(Parsed(root)).value.title == Some("")
      && FzpDom.ParseFzpFile(FzpDom.Fetched(root)).Success?
      && FzpDom.ParseFzpFile(FzpDom.Fetched(root)).value.title == text
  {
    var title := Element("title", map[], text, [], "");
    var meta := Element("meta", map[], "", [title], "");
    var root := Element("module", map[], "", [meta], "");
    assert FindTag([meta], "title").None?;
    TextFieldsFromChildren(root);
    WrapperOrder(root, meta, title);
    var all := [root, meta, title];
    assert FindTag(all, "parsererror").None?;
    assert FindTag(all, "module") == Some(root);
    assert FindTag(all, "title") == Some(title) by {
      assert all[1..] == [meta, title] && [meta, title][1..] == [title];
      assert FindTag([title], "title") == Some(title);
      assert FindTag([meta, title], "title") == FindTag([title], "title");
    }
    FzpDom.TextFieldsFromFirstMatch(root);
  }

  /** A root holding one wrapper that holds one leaf lists the three in that order. */
  lemma WrapperOrder(root: Element, meta: Element, leaf: Element)
    requires root.children == [meta] && meta.children == [leaf] && leaf.children == []
    ensures Preorder(root) == [root, meta, leaf]
  {
    assert Flatten([leaf]) == [leaf] + Flatten([]) + Flatten([leaf][1..]);
    assert Flatten([meta]) == [meta] + Flatten([leaf]) + Flatten([meta][1..]);
    assert Flatten([root]) == [root] + Flatten([meta]) + Flatten([root][1..]);
  }
}
