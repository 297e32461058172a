/** The part view, `PartRenderer` (PartRenderer.jsx): it loads the part's breadboard image once
    per image path, shows a loading box, an error box or the drawing, overlays a dot on every
    connector the drawing locates while wiring, and reports a clicked connector's position in
    canvas coordinates. */
module Renderer {
  import opened Wrappers
  import opened Seqs
  import opened Geometry
  import opened Parts
  import opened Scene
  import opened SvgConnectors

  /** Where a connector sits inside the drawing: the element named by `terminalId`, else the one
      named by `svgId`. Every entry of the table is an object and so truthy; only a missing key
      falls through. */
  function ResolvePosition(positions: map<string, Point>, c: Connector): (r: Option<Point>)
    ensures r.None? <==> c.terminalId !in positions && c.svgId !in positions
    ensures c.terminalId in positions ==> r == Some(positions[c.terminalId])
    ensures c.terminalId !in positions && c.svgId in positions ==> r == Some(positions[c.svgId])
  {
    if c.terminalId in positions then Some(positions[c.terminalId])
    else if c.svgId in positions then Some(positions[c.svgId])
    else None
  }

  /** The connector position a click uses: the resolved one, or the drawing's origin when the
      image is not loaded or names neither element. */
  function ClickLocalPosition(data: Option<SvgData>, c: Connector): (r: Point)
    ensures data.None? ==> r == Origin
    ensures data.Some? && ResolvePosition(data.value.positions, c).Some? ==> r == ResolvePosition(data.value.positions, c).value
    ensures data.Some? && ResolvePosition(data.value.positions, c).None? ==> r == Origin
  {
    if data.None? then Origin else ResolvePosition(data.value.positions, c).GetOr(Origin)
  }

  /** A point of the drawing in canvas coordinates: the part's position plus the point scaled
      by the part's scale (the editor passes its zoom). */
  function GlobalPosition(position: Point, local: Point, scale: real): (r: Point)
    ensures r.Minus(position) == Point(local.x * scale, local.y * scale)
  {
    Point(position.x + local.x * scale, position.y + local.y * scale)
  }

  /** A click on a connector dot: forwarded with the connector and its canvas position when a
      handler is attached, otherwise ignored (and the click keeps propagating to the part). */
  function ConnectorClicked(hasHandler: bool, c: Connector, data: Option<SvgData>, position: Point, scale: real): (r: Option<(Connector, Point)>)
    ensures r.Some? <==> hasHandler
    ensures r.Some? ==> r.value.0 == c
    ensures r.Some? ==> r.value.1.Minus(position) == Point(ClickLocalPosition(data, c).x * scale, ClickLocalPosition(data, c).y * scale)
  {
    if hasHandler then Some((c, GlobalPosition(position, ClickLocalPosition(data, c), scale))) else None
  }

  /** The connectors of a placed part: those copied from the catalog, or none. */
  function PartConnectors(p: PlacedPart): seq<Connector> {
    if p.catalog.Some? then p.catalog.value.connectors else []
  }

  const DotRadius := 6.0
  const DotSize := 12.0

  /** One overlay dot: a connector and its position in the drawing. */
  function Dot(positions: map<string, Point>): Connector -> Option<(Connector, Point)> {
    c => if ResolvePosition(positions, c).Some? then Some((c, ResolvePosition(positions, c).value)) else None
  }

  /** The overlay: nothing unless connectors are shown; then, in connector order, a dot for each
      connector the drawing locates, the rest skipped. */
  function Overlay(connectors: seq<Connector>, data: SvgData, show: bool): (r: seq<(Connector, Point)>)
    ensures !show ==> r == []
    ensures |r| <= |connectors|
    ensures show ==> forall c, p :: (c, p) in r <==> c in connectors && ResolvePosition(data.positions, c) == Some(p)
  {
    if !show then []
    else
      var dots := Collect(connectors, Dot(data.positions));
      assert forall c, p :: (c, p) in dots <==> c in connectors && ResolvePosition(data.positions, c) == Some(p) by {
        forall c, p ensures (c, p) in dots <==> c in connectors && ResolvePosition(data.positions, c) == Some(p) {
          if c in connectors && ResolvePosition(data.positions, c) == Some(p) {
            var i :| 0 <= i < |connectors| && connectors[i] == c;
            assert Dot(data.positions)(connectors[i]) == Some((c, p));
          }
        }
      }
      dots
  }

  /** The top-left corner of a dot drawn around a connector position. */
  function DotCorner(p: Point): (r: Point)
    ensures r.Plus(Point(DotSize / 2.0, DotSize / 2.0)) == p
  {
    Point(p.x - DotRadius, p.y - DotRadius)
  }

  /** A dot the overlay shows and the position its click reports agree: the click lands at the
      part's position plus the dot's drawing position scaled. */
  lemma OverlayAndClickAgree(connectors: seq<Connector>, data: SvgData, c: Connector, p: Point, position: Point, scale: real)
    requires (c, p) in Overlay(connectors, data, true)
    ensures ConnectorClicked(true, c, Some(data), position, scale) == Some((c, GlobalPosition(position, p, scale)))
  {
  }

  /** The image-loading state of one renderer. */
  datatype LoadState = LoadState(svgData: Option<SvgData>, loading: bool, error: Option<SvgError>)

  /** What the renderer shows. */
  datatype View = LoadingBox | ErrorBox | Drawing(data: SvgData)

  /** A fresh renderer: loading, nothing loaded, no error. */
  const Initial := LoadState(None, true, None)

  /** The image effect, run when the renderer appears and whenever the image path changes: it
      marks loading and clears the error, loads the image when the path is non-empty, and keeps
      the previously loaded drawing otherwise. `src` is what fetching the path yields. */
  function LoadEffect(s: LoadState, imagePath: string, src: SvgSource, num: string -> Option<real>): (r: LoadState)
    ensures !r.loading
    ensures imagePath == "" ==> r == LoadState(s.svgData, false, None)
    ensures imagePath != "" ==> match LoadSvg(src, num)
      case Success(d) => r.svgData == Some(d) && r.error.None?
      case Failure(e) => r.svgData == s.svgData && r.error == Some(e)
  {
    var started := s.(loading := true, error := None);
    if imagePath == "" then started.(loading := false)
    else match LoadSvg(src, num)
      case Success(d) => started.(svgData := Some(d), loading := false)
      case Failure(e) => started.(error := Some(e), loading := false)
  }

  /** The view of a load state: the loading box while loading, the error box after an error or
      with nothing loaded, the drawing otherwise. */
  function ViewOf(s: LoadState): (v: View)
    ensures v.Drawing? <==> !s.loading && s.error.None? && s.svgData.Some?
    ensures v.Drawing? ==> v.data == s.svgData.value
    ensures v == LoadingBox <==> s.loading
  {
    if s.loading then LoadingBox
    else if s.error.Some? || s.svgData.None? then ErrorBox
    else Drawing(s.svgData.value)
  }

  /** A part without an image never gets past the error box. */
  lemma NoImageShowsErrorBox(src: SvgSource, num: string -> Option<real>)
    ensures ViewOf(LoadEffect(Initial, "", src, num)) == ErrorBox
  {
  }

  /** A failed load shows the error box, whatever was shown before. */
  lemma FailedLoadShowsErrorBox(s: LoadState, imagePath: string, src: SvgSource, num: string -> Option<real>)
    requires imagePath != "" && LoadSvg(src, num).Failure?
    ensures ViewOf(LoadEffect(s, imagePath, src, num)) == ErrorBox
  {
  }

  /** A successful load shows the drawing just loaded. */
  lemma LoadedImageIsDrawn(s: LoadState, imagePath: string, src: SvgSource, num: string -> Option<real>)
    requires imagePath != "" && LoadSvg(src, num).Success?
    ensures ViewOf(LoadEffect(s, imagePath, src, num)) == Drawing(LoadSvg(src, num).value)
  {
  }

  /** Clearing the image path of a renderer that already loaded a drawing keeps showing that
      drawing: the effect does not reset what was loaded. */
  lemma ClearedPathKeepsDrawing(s: LoadState, src: SvgSource, num: string -> Option<real>)
    requires s.svgData.Some?
    ensures ViewOf(LoadEffect(s, "", src, num)) == Drawing(s.svgData.value)
  {
  }
}
