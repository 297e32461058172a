/** Worked cases over the sample project and the editor: where a drop lands, how the sample
    circuit renders, and how the renderer and the editor cooperate when a wire is drawn. */
module Scenarios {
  import opened Wrappers
  import opened Seqs
  import opened Geometry
  import opened Parts
  import opened Scene
  import opened MockData
  import opened Canvas
  import opened SvgConnectors
  import opened Renderer
  import opened ProjectStore

  /** On a freshly opened canvas (zoom 1, no pan, grid on), the red LED dropped with the pointer
      at (130, 90) over a canvas whose corner is at (10, 10) lands at (120, 80), keeps the catalog
      id and is the only part selected. */
  lemma SampleDrop(parts: seq<PlacedPart>, freshId: string)
    ensures var r := Drop(Open(parts, []), Some(DropPayload(RedLed, None, None, None)), Point(130.0, 90.0), Point(10.0, 10.0), freshId);
      && r.parts[|parts|] == PlacedPart("led-red", "led-red", Point(120.0, 80.0), 0, Some(RedLed))
      && r.selection == {"led-red"}
  {
    assert ScreenToWorld(Point(130.0, 90.0), Point(10.0, 10.0), Origin, 1.0) == Point(120.0, 80.0);
    assert Round(120.0 / GridSize) == 6;
    assert Round(80.0 / GridSize) == 4;
  }

  /** The sample project's circuit is well formed: distinct part ids, every wire between two
      different parts that exist. */
  lemma SampleCircuitWellFormed()
    ensures UniqueIds(SampleParts) && NoSelfLoops(SampleWires) && WiresResolve(SampleParts, SampleWires)
  {
    assert SampleParts[0].id == "part-1" && SampleParts[1].id == "part-2" && SampleParts[2].id == "part-3";
  }

  /** The sample project opens in a valid editor state. */
  lemma SampleProjectOpensValid()
    ensures Valid(Open(GetProjects(None)[0].parts, GetProjects(None)[0].wires))
  {
    SampleCircuitWellFormed();
    OpenIsValid(SampleParts, SampleWires);
  }

  /** The sample project's parts carry no catalog fields, so every one of them renders the error
      box. */
  lemma SamplePartsShowErrorBox(src: SvgSource, num: string -> Option<real>)
    ensures forall p :: p in GetProjects(None)[0].parts ==> ViewOf(LoadEffect(Initial, ImagePath(p), src, num)) == ErrorBox
  {
  }

  /** Drawing a wire between connector dots of two parts: the wire records the canvas positions
      the renderer reported for the two clicks, its part's position plus the dot's drawing
      position scaled by the zoom. */
  lemma WireEndsAtClickedDots(e: Editor, a: string, ca: Connector, da: SvgData, pa: Point, b: string, cb: Connector, db: SvgData, pb: Point, wireId: string)
    requires e.mode == WireTool && !e.isConnecting && a != b
    requires ResolvePosition(da.positions, ca).Some? && ResolvePosition(db.positions, cb).Some?
    ensures var first := Renderer.ConnectorClicked(true, ca, Some(da), pa, e.zoom).value;
      var second := Renderer.ConnectorClicked(true, cb, Some(db), pb, e.zoom).value;
      var r := ConnectorClick(ConnectorClick(e, a, first.0.id, first.1, ""), b, second.0.id, second.1, wireId);
      && r.wires == e.wires + [Wire(wireId, a, ca.id, b, cb.id, DefaultWireColor,
           Some(GlobalPosition(pa, ResolvePosition(da.positions, ca).value, e.zoom)),
           Some(GlobalPosition(pb, ResolvePosition(db.positions, cb).value, e.zoom)))]
  {
  }
}
