/** The browser-side image loader, `loadSvgWithConnectors` (parseFzp.js): it fetches a part's
    breadboard SVG, reads the drawing size from the first `svg` element, and maps every element
    whose id contains "connector" to the point where a wire attaches. `parseFloat` is a parameter
    `num`: `None` stands for NaN. */
module SvgConnectors {
  import opened Wrappers
  import opened Seqs
  import opened Text
  import opened Geometry
  import opened Xml

  /** What fetching and parsing the image produced. */
  datatype SvgSource = SvgFetchFailed | SvgFetched(text: string, doc: Element)

  /** Why the loader rejected: the fetch failed, or the document has no `svg` element (reading an
      attribute of `null` throws). Both surface as "Failed to load SVG". */
  datatype SvgError = SvgFetchError | NoSvgElement

  /** The loaded image: the markup to inline, the drawing size and the connector points. */
  datatype SvgData = SvgData(content: string, width: real, height: real, positions: map<string, Point>)

  const DefaultSize := 100.0
  const ConnectorMarker := "connector"

  /** `parseFloat(getAttribute(name)) || fallback`: an absent attribute, an unparsable value
      and zero all give the fallback. */
  function NumberOr(value: Option<string>, num: string -> Option<real>, fallback: real): (r: real)
    ensures r != fallback ==> value.Some? && num(value.value) == Some(r) && r != 0.0
    ensures value.Some? && num(value.value).Some? && num(value.value).value != 0.0 ==> r == num(value.value).value
  {
    if value.None? then fallback
    else match num(value.value)
      case None => fallback
      case Some(v) => if v == 0.0 then fallback else v
  }

  /** The attachment point of one marked element: a circle's centre, a line's end point, and the
      origin for every other shape. */
  function AttachPoint(e: Element, num: string -> Option<real>): (r: Point)
    ensures e.tag == "circle" ==> r == Point(NumberOr(Attr(e, "cx"), num, 0.0), NumberOr(Attr(e, "cy"), num, 0.0))
    ensures e.tag == "line" ==> r == Point(NumberOr(Attr(e, "x2"), num, 0.0), NumberOr(Attr(e, "y2"), num, 0.0))
    ensures e.tag != "circle" && e.tag != "line" ==> r == Origin
  {
    if e.tag == "circle" then Point(NumberOr(Attr(e, "cx"), num, 0.0), NumberOr(Attr(e, "cy"), num, 0.0))
    else if e.tag == "line" then Point(NumberOr(Attr(e, "x2"), num, 0.0), NumberOr(Attr(e, "y2"), num, 0.0))
    else Origin
  }

  /** An element takes part when its id contains the marker. */
  predicate IsMarked(e: Element) {
    Attr(e, "id").Some? && Contains(Attr(e, "id").value, ConnectorMarker)
  }

  /** A marked element's entry in the position table. */
  function PositionEntry(e: Element, num: string -> Option<real>): (r: Option<(string, Point)>)
    ensures r.Some? <==> IsMarked(e)
    ensures r.Some? ==> r.value.0 == Attr(e, "id").value && r.value.1 == AttachPoint(e, num)
  {
    if IsMarked(e) then Some((Attr(e, "id").value, AttachPoint(e, num))) else None
  }

  /** Some element gives an entry for `id` exactly when some marked element carries it. */
  lemma EntryKeyIsMarkedId(all: seq<Element>, num: string -> Option<real>, f: Element -> Option<(string, Point)>, id: string)
    requires forall e :: f(e) == PositionEntry(e, num)
    ensures (exists k :: 0 <= k < |all| && f(all[k]).Some? && f(all[k]).value.0 == id)
      <==> (exists k :: 0 <= k < |all| && IsMarked(all[k]) && Attr(all[k], "id") == Some(id))
  {
  }

  /** The position table: marked elements in document order (the root included), a later element
      with the same id overwriting an earlier one. */
  function Positions(doc: Element, num: string -> Option<real>): (m: map<string, Point>)
    ensures forall id :: id in m <==> exists k :: 0 <= k < |Preorder(doc)| && IsMarked(Preorder(doc)[k]) && Attr(Preorder(doc)[k], "id") == Some(id)
  {
    var f := e => PositionEntry(e, num);
    LastWinsCollectKeys(Preorder(doc), f);
    forall id
      ensures (exists k :: 0 <= k < |Preorder(doc)| && f(Preorder(doc)[k]).Some? && f(Preorder(doc)[k]).value.0 == id)
        <==> (exists k :: 0 <= k < |Preorder(doc)| && IsMarked(Preorder(doc)[k]) && Attr(Preorder(doc)[k], "id") == Some(id))
    {
      EntryKeyIsMarkedId(Preorder(doc), num, f, id);
    }
    LastWins(Collect(Preorder(doc), f))
  }

  /** `loadSvgWithConnectors`. */
  function LoadSvg(src: SvgSource, num: string -> Option<real>): (r: Result<SvgData, SvgError>)
    ensures src.SvgFetchFailed? ==> r == Failure(SvgFetchError)
    ensures src.SvgFetched? ==> (r == Failure(NoSvgElement) <==> FindTag(Preorder(src.doc), "svg").None?)
    ensures r.Success? ==> src.SvgFetched? && r.value.content == src.text
    ensures r.Success? ==> r.value.width != 0.0 && r.value.height != 0.0
    ensures r.Success? ==>
      && r.value.width == NumberOr(Attr(FindTag(Preorder(src.doc), "svg").value, "width"), num, DefaultSize)
      && r.value.height == NumberOr(Attr(FindTag(Preorder(src.doc), "svg").value, "height"), num, DefaultSize)
      && r.value.positions == Positions(src.doc, num)
  {
    match src
    case SvgFetchFailed => Failure(SvgFetchError)
    case SvgFetched(text, doc) =>
      match FindTag(Preorder(doc), "svg")
      case None => Failure(NoSvgElement)
      case Some(root) =>
        Success(SvgData(
          text,
          NumberOr(Attr(root, "width"), num, DefaultSize),
          NumberOr(Attr(root, "height"), num, DefaultSize),
          Positions(doc, num)))
  }

  /** Each dimension of the drawing is the number its attribute on the `svg` element states, and
      100 when that attribute is missing, does not parse as a number, or states zero; the two
      dimensions default independently. */
  lemma SizeDefaults(text: string, doc: Element, num: string -> Option<real>)
    requires FindTag(Preorder(doc), "svg").Some?
    ensures var root := FindTag(Preorder(doc), "svg").value;
      var d := LoadSvg(SvgFetched(text, doc), num).value;
      var w := Attr(root, "width");
      var h := Attr(root, "height");
      && (w.None? || num(w.value).None? || num(w.value) == Some(0.0) ==> d.width == DefaultSize)
      && (w.Some? && num(w.value).Some? && num(w.value).value != 0.0 ==> d.width == num(w.value).value)
      && (h.None? || num(h.value).None? || num(h.value) == Some(0.0) ==> d.height == DefaultSize)
      && (h.Some? && num(h.value).Some? && num(h.value).value != 0.0 ==> d.height == num(h.value).value)
  {
  }

  /** The point recorded for an id is that of the last marked element carrying it. */
  lemma LastElementWins(doc: Element, num: string -> Option<real>, k: int)
    requires 0 <= k < |Preorder(doc)| && IsMarked(Preorder(doc)[k])
    requires forall j :: k < j < |Preorder(doc)| ==> Attr(Preorder(doc)[j], "id") != Attr(Preorder(doc)[k], "id") || !IsMarked(Preorder(doc)[j])
    ensures Positions(doc, num)[Attr(Preorder(doc)[k], "id").value] == AttachPoint(Preorder(doc)[k], num)
  {
    var all := Preorder(doc);
    var f := e => PositionEntry(e, num);
    CollectLastFrom(all, f, k);
    var entries := Collect(all, f);
    var i :| 0 <= i < |entries| && entries[i] == f(all[k]).value && forall j :: i < j < |entries| ==> entries[j].0 != entries[i].0;
    LastWinsValue(entries, i);
  }
}
