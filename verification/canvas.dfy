/** The canvas editor (CanvasEditor.jsx): one immutable record for the component's state and one
    transition function per event handler. The DOM event becomes plain inputs: the client point,
    the canvas element's offset on the screen, the mouse button, the ctrl/meta flag, whether the
    click landed on the canvas element itself, and the fresh ids the handlers derive from the clock. */
module Canvas {
  import opened Wrappers
  import opened Seqs
  import opened Geometry
  import opened Parts
  import opened Scene

  /** The toolbar's `mode`: 'select', 'move' (pan) or 'wire'. */
  datatype Mode = SelectTool | MoveTool | WireTool

  /** `dragState`: nothing, a part drag (pointer start in world coordinates and the positions of
      the selected parts when it began), or a canvas pan (pointer start in client coordinates and
      the pan when it began). */
  datatype DragState =
    | NoDrag
    | PartDrag(startPos: Point, initialPositions: map<string, Point>)
    | CanvasDrag(startMousePos: Point, initialPan: Point)

  /** `connectionStart`: the first connector of a wire being drawn. */
  datatype ConnectionStart = ConnectionStart(partId: string, connectorId: string, at: Point)

  /** All state of the editor component. `mousePos` is the last pointer position in world
      coordinates, used to draw the preview of a wire being connected. */
  datatype Editor = Editor(
    parts: seq<PlacedPart>,
    wires: seq<Wire>,
    selection: set<string>,
    drag: DragState,
    mode: Mode,
    isConnecting: bool,
    connectionStart: Option<ConnectionStart>,
    zoom: real,
    pan: Point,
    showGrid: bool,
    mousePos: Point)

  /** The editor as the component mounts it for a project's parts and wires. */
  function Open(parts: seq<PlacedPart>, wires: seq<Wire>): Editor {
    Editor(parts, wires, {}, NoDrag, SelectTool, false, None, 1.0, Origin, true, Origin)
  }

  /** What every handler keeps: a zoom inside its clamps, `isConnecting` set exactly when a
      connection start is recorded, no wire from a part to itself, every wire end on a part of
      the canvas, and a pending connection that starts on a part of the canvas. */
  ghost predicate Valid(e: Editor) {
    && ZoomInRange(e.zoom)
    && (e.isConnecting <==> e.connectionStart.Some?)
    && NoSelfLoops(e.wires)
    && WiresResolve(e.parts, e.wires)
    && (e.connectionStart.Some? ==> e.connectionStart.value.partId in PartIds(e.parts))
  }

  lemma OpenIsValid(parts: seq<PlacedPart>, wires: seq<Wire>)
    requires NoSelfLoops(wires) && WiresResolve(parts, wires)
    ensures Valid(Open(parts, wires))
  {
  }

  /** Wires that resolve against some parts still resolve once the set of part ids grows. */
  lemma ResolveMonotone(parts: seq<PlacedPart>, more: seq<PlacedPart>, wires: seq<Wire>)
    requires WiresResolve(parts, wires) && PartIds(parts) <= PartIds(more)
    ensures WiresResolve(more, wires)
  {
  }

  /** Two part lists with the same id at every position have the same ids. */
  lemma SameIds(parts: seq<PlacedPart>, other: seq<PlacedPart>)
    requires |parts| == |other| && forall i :: 0 <= i < |parts| ==> parts[i].id == other[i].id
    ensures PartIds(parts) == PartIds(other)
  {
    forall id | id in PartIds(other) ensures id in PartIds(parts) {
      var i :| 0 <= i < |other| && other[i].id == id;
      assert parts[i].id == id;
    }
  }

  // ----- pointer handlers -----

  /** The `initialPositions` snapshot: every selected part's position keyed by its id; when two
      parts share an id the later one wins, as in the source's object assignment. */
  function Snapshot(parts: seq<PlacedPart>, selection: set<string>): (m: map<string, Point>)
    ensures forall id :: id in m <==> id in selection && id in PartIds(parts)
  {
    if |parts| == 0 then map[]
    else
      var front := parts[..|parts| - 1];
      var last := parts[|parts| - 1];
      var m := Snapshot(front, selection);
      assert parts == front + [last];
      if last.id in selection then m[last.id := last.position] else m
  }

  /** The snapshot holds the position of the LAST part carrying an id. */
  lemma {:induction false} SnapshotValue(parts: seq<PlacedPart>, selection: set<string>, i: int)
    requires 0 <= i < |parts| && parts[i].id in selection
    requires forall j :: i < j < |parts| ==> parts[j].id != parts[i].id
    ensures Snapshot(parts, selection)[parts[i].id] == parts[i].position
  {
    if i < |parts| - 1 {
      var front := parts[..|parts| - 1];
      SnapshotValue(front, selection, i);
    }
  }

  /** `handleMouseDown`: in pan mode or with the middle button, start panning; otherwise, when
      anything is selected, start dragging the selection. There is no hit test: the press may be
      anywhere on the canvas. */
  function MouseDown(e: Editor, client: Point, rectOffset: Point, button: int): (r: Editor)
    requires e.zoom > 0.0
    ensures r == e.(drag := r.drag)
    ensures (e.mode == MoveTool || button == 1) ==> r.drag == CanvasDrag(client, e.pan)
    ensures !(e.mode == MoveTool || button == 1) && e.selection != {} ==>
      && r.drag.PartDrag?
      && r.drag.startPos == ScreenToWorld(client, rectOffset, e.pan, e.zoom)
      && r.drag.initialPositions == Snapshot(e.parts, e.selection)
      && (forall id :: id in r.drag.initialPositions <==> id in e.selection && id in PartIds(e.parts))
    ensures !(e.mode == MoveTool || button == 1) && e.selection == {} ==> r == e
  {
    if e.mode == MoveTool || button == 1 then
      e.(drag := CanvasDrag(client, e.pan))
    else if e.selection != {} then
      e.(drag := PartDrag(ScreenToWorld(client, rectOffset, e.pan, e.zoom), Snapshot(e.parts, e.selection)))
    else
      e
  }

  /** A selected part whose id is missing from the snapshot: the source then reads a field of
      `undefined` and the handler throws. */
  predicate DragMissesSnapshot(parts: seq<PlacedPart>, selection: set<string>, snapshot: map<string, Point>) {
    exists i :: 0 <= i < |parts| && parts[i].id in selection && parts[i].id !in snapshot
  }

  /** Moves every selected part to its snapshot position plus `delta`, snapped when the grid is on. */
  function DragParts(parts: seq<PlacedPart>, selection: set<string>, snapshot: map<string, Point>, delta: Point, grid: bool): (r: seq<PlacedPart>)
    requires !DragMissesSnapshot(parts, selection, snapshot)
    ensures |r| == |parts|
    ensures forall i :: 0 <= i < |parts| && parts[i].id !in selection ==> r[i] == parts[i]
    ensures forall i :: 0 <= i < |parts| && parts[i].id in selection ==>
      r[i] == parts[i].(position := Snap(snapshot[parts[i].id].Plus(delta), grid))
    ensures PartIds(r) == PartIds(parts)
  {
    var r := seq(|parts|, i requires 0 <= i < |parts| =>
      if parts[i].id in selection then parts[i].(position := Snap(snapshot[parts[i].id].Plus(delta), grid))
      else parts[i]);
    SameIds(parts, r);
    r
  }

  /** `handleMouseMove` as written: records the world pointer; a part drag moves every selected
      part to its snapshot position plus the pointer's world displacement (then snaps it). The
      displacement is computed from `startPos` before the drag kind is tested, and a pan records
      no `startPos`, so during a pan the handler throws once the pointer is recorded: the pan
      never changes. `None` is a part drag whose snapshot misses a selected part, where the
      parts updater throws while rendering. */
  function MouseMove(e: Editor, client: Point, rectOffset: Point): (r: Option<Editor>)
    requires e.zoom > 0.0
    ensures r.None? <==> e.drag.PartDrag? && DragMissesSnapshot(e.parts, e.selection, e.drag.initialPositions)
    ensures r.Some? ==> r.value == e.(parts := r.value.parts, mousePos := r.value.mousePos)
    ensures r.Some? ==> r.value.mousePos == ScreenToWorld(client, rectOffset, e.pan, e.zoom)
    ensures r.Some? && e.drag.PartDrag? ==>
      var delta := ScreenToWorld(client, rectOffset, e.pan, e.zoom).Minus(e.drag.startPos);
      && |r.value.parts| == |e.parts|
      && (forall i :: 0 <= i < |e.parts| && e.parts[i].id !in e.selection ==> r.value.parts[i] == e.parts[i])
      && (forall i :: 0 <= i < |e.parts| && e.parts[i].id in e.selection ==>
            r.value.parts[i] == e.parts[i].(position := Snap(e.drag.initialPositions[e.parts[i].id].Plus(delta), e.showGrid)))
    ensures r.Some? && !e.drag.PartDrag? ==> r.value.parts == e.parts
  {
    var world := ScreenToWorld(client, rectOffset, e.pan, e.zoom);
    var moved := e.(mousePos := world);
    match e.drag
    case NoDrag => Some(moved)
    case PartDrag(start, snapshot) =>
      if DragMissesSnapshot(e.parts, e.selection, snapshot) then None
      else Some(moved.(parts := DragParts(e.parts, e.selection, snapshot, world.Minus(start), e.showGrid)))
    case CanvasDrag(_, _) => Some(moved)
  }

  /** During a pan, the handler as written leaves the pan where it was, wherever the pointer
      goes. */
  lemma PanDragNeverPans(e: Editor, client: Point, rectOffset: Point)
    requires e.zoom > 0.0 && e.drag.CanvasDrag?
    ensures MouseMove(e, client, rectOffset).Some?
    ensures MouseMove(e, client, rectOffset).value.pan == e.pan
  {
  }

  /** `handleMouseMove` as its pan branch intends: a pan moves the pan by the pointer's client
      displacement since the press; everything else as written. */
  function MouseMoveAsIntended(e: Editor, client: Point, rectOffset: Point): (r: Option<Editor>)
    requires e.zoom > 0.0
    ensures r.None? <==> MouseMove(e, client, rectOffset).None?
    ensures r.Some? && e.drag.CanvasDrag? ==>
      && r.value.parts == e.parts
      && r.value.mousePos == ScreenToWorld(client, rectOffset, e.pan, e.zoom)
      && r.value.pan.Minus(e.drag.initialPan) == client.Minus(e.drag.startMousePos)
    ensures !e.drag.CanvasDrag? ==> r == MouseMove(e, client, rectOffset)
    ensures r.Some? ==> r.value == e.(parts := r.value.parts, pan := r.value.pan, mousePos := r.value.mousePos)
  {
    match e.drag
    case CanvasDrag(startMouse, initialPan) =>
      Some(e.(mousePos := ScreenToWorld(client, rectOffset, e.pan, e.zoom), pan := initialPan.Plus(client.Minus(startMouse))))
    case _ => MouseMove(e, client, rectOffset)
  }

  /** With the intended pan, the world point grabbed at the press stays under the pointer for the
      whole gesture. */
  lemma PanKeepsGrabbedPointUnderPointer(e: Editor, press: Point, move: Point, rectOffset: Point)
    requires e.zoom > 0.0 && e.mode == MoveTool
    ensures var pressed := MouseDown(e, press, rectOffset, 0);
      var moved := MouseMoveAsIntended(pressed, move, rectOffset);
      && moved.Some?
      && ScreenToWorld(move, rectOffset, moved.value.pan, e.zoom) == ScreenToWorld(press, rectOffset, e.pan, e.zoom)
  {
  }

  /** `handleMouseUp`: ends any drag; positions reached so far stay. */
  function MouseUp(e: Editor): (r: Editor)
    ensures r.drag == NoDrag
    ensures r == e.(drag := NoDrag)
  {
    e.(drag := NoDrag)
  }

  /** With the grid off, two co-selected parts keep exactly the offset between their snapshot
      positions, wherever the pointer goes. */
  lemma DragIsRigid(e: Editor, client: Point, rectOffset: Point, i: int, j: int)
    requires e.zoom > 0.0 && e.drag.PartDrag? && !e.showGrid
    requires MouseMove(e, client, rectOffset).Some?
    requires 0 <= i < |e.parts| && 0 <= j < |e.parts|
    requires e.parts[i].id in e.selection && e.parts[j].id in e.selection
    ensures var after := MouseMove(e, client, rectOffset).value.parts;
      after[i].position.Minus(after[j].position)
      == e.drag.initialPositions[e.parts[i].id].Minus(e.drag.initialPositions[e.parts[j].id])
  {
  }

  /** With the grid on, the offset is still kept when both snapshot positions lie on the grid. */
  lemma DragIsRigidOnGrid(e: Editor, client: Point, rectOffset: Point, i: int, j: int)
    requires e.zoom > 0.0 && e.drag.PartDrag? && e.showGrid
    requires MouseMove(e, client, rectOffset).Some?
    requires 0 <= i < |e.parts| && 0 <= j < |e.parts|
    requires e.parts[i].id in e.selection && e.parts[j].id in e.selection
    requires var a := e.drag.initialPositions[e.parts[i].id];
      var b := e.drag.initialPositions[e.parts[j].id];
      OnGrid(a.x) && OnGrid(a.y) && OnGrid(b.x) && OnGrid(b.y)
    ensures var after := MouseMove(e, client, rectOffset).value.parts;
      after[i].position.Minus(after[j].position)
      == e.drag.initialPositions[e.parts[i].id].Minus(e.drag.initialPositions[e.parts[j].id])
  {
    var a := e.drag.initialPositions[e.parts[i].id];
    var b := e.drag.initialPositions[e.parts[j].id];
    var d := ScreenToWorld(client, rectOffset, e.pan, e.zoom).Minus(e.drag.startPos);
    SnapShift(a.x, d.x);
    SnapShift(a.y, d.y);
    SnapShift(b.x, d.x);
    SnapShift(b.y, d.y);
  }

  /** A whole gesture with the grid off: press, then move. Every selected part (ids unique)
      ends up displaced by exactly the pointer's world displacement, so all keep their offsets. */
  lemma DragGestureFollowsPointer(e: Editor, press: Point, move: Point, rectOffset: Point, i: int)
    requires e.zoom > 0.0 && e.mode != MoveTool && !e.showGrid && UniqueIds(e.parts)
    requires 0 <= i < |e.parts| && e.parts[i].id in e.selection
    ensures var pressed := MouseDown(e, press, rectOffset, 0);
      && MouseMove(pressed, move, rectOffset).Some?
      && MouseMove(pressed, move, rectOffset).value.parts[i].position
         == e.parts[i].position.Plus(ScreenToWorld(move, rectOffset, e.pan, e.zoom).Minus(ScreenToWorld(press, rectOffset, e.pan, e.zoom)))
  {
    var pressed := MouseDown(e, press, rectOffset, 0);
    assert pressed.drag.initialPositions == Snapshot(e.parts, e.selection);
    SnapshotValue(e.parts, e.selection, i);
  }

  /** Moves do not accumulate: a second move overrides the first, so only the latest pointer
      position matters (the last write wins). */
  lemma LatestMoveWins(e: Editor, first: Point, second: Point, rectOffset: Point)
    requires e.zoom > 0.0 && MouseMove(e, first, rectOffset).Some?
    ensures var once := MouseMove(e, first, rectOffset).value;
      && MouseMove(once, second, rectOffset).Some?
      && MouseMove(once, second, rectOffset).value.parts == MouseMove(e, second, rectOffset).value.parts
      && MouseMove(once, second, rectOffset).value.pan == MouseMove(e, second, rectOffset).value.pan
  {
    var once := MouseMove(e, first, rectOffset).value;
    if e.drag.PartDrag? {
      var a := MouseMove(once, second, rectOffset).value.parts;
      var b := MouseMove(e, second, rectOffset).value.parts;
      assert |a| == |b|;
      forall i | 0 <= i < |a| ensures a[i] == b[i] {
        assert once.parts[i].id == e.parts[i].id;
      }
    }
  }

  // ----- clicks -----

  /** `handlePartClick`: ctrl/meta toggles the clicked id; a plain click selects it alone. */
  function PartClick(e: Editor, partId: string, multi: bool): (r: Editor)
    ensures r == e.(selection := r.selection)
    ensures multi ==> (partId in r.selection <==> partId !in e.selection)
    ensures multi ==> forall id :: id != partId ==> (id in r.selection <==> id in e.selection)
    ensures !multi ==> r.selection == {partId}
  {
    if multi then
      e.(selection := if partId in e.selection then e.selection - {partId} else e.selection + {partId})
    else
      e.(selection := {partId})
  }

  /** Two ctrl/meta clicks on the same part restore the selection. */
  lemma ToggleTwiceRestores(e: Editor, partId: string)
    ensures PartClick(PartClick(e, partId, true), partId, true) == e
  {
    var s := PartClick(PartClick(e, partId, true), partId, true).selection;
    assert s == e.selection;
  }

  /** `handleCanvasClick`: a click whose target is the canvas element itself (`onCanvas`),
      outside a drag, clears the selection and abandons a pending connection; any other click
      changes nothing. Where the full-size SVG layer covers that element, a background click
      targets the layer instead, so `onCanvas` is false there. */
  function CanvasClick(e: Editor, onCanvas: bool): (r: Editor)
    ensures onCanvas && e.drag == NoDrag ==>
      r.selection == {} && !r.isConnecting && r.connectionStart.None?
      && r == e.(selection := {}, isConnecting := false, connectionStart := None)
    ensures !(onCanvas && e.drag == NoDrag) ==> r == e
  {
    if onCanvas && e.drag == NoDrag then
      e.(selection := {}, isConnecting := false, connectionStart := None)
    else e
  }

  /** The JSON payload a library drag carries: a catalog part, plus the placement keys the record
      may itself contain (catalog records normally have none of them). */
  datatype DropPayload = DropPayload(
    part: Part,
    partIdKey: Option<string>,
    positionKey: Option<Point>,
    rotationKey: Option<int>)

  /** The part `handleDrop` builds: generated id, catalog id as `partId`, the snapped drop point and
      rotation 0, then `...partData` spread last, so the payload's own keys override those. */
  function Placed(payload: DropPayload, freshId: string, dropAt: Point): PlacedPart {
    PlacedPart(
      payload.part.id,
      payload.partIdKey.GetOr(payload.part.id),
      payload.positionKey.GetOr(dropAt),
      payload.rotationKey.GetOr(0),
      Some(payload.part))
  }

  /** `handleDrop`: appends the new part and selects it alone. An unreadable payload (`None`, the
      `JSON.parse` failure) changes nothing. */
  function Drop(e: Editor, payload: Option<DropPayload>, client: Point, rectOffset: Point, freshId: string): (r: Editor)
    requires e.zoom > 0.0
    ensures payload.None? ==> r == e
    ensures payload.Some? ==>
      && |r.parts| == |e.parts| + 1
      && r.parts[..|e.parts|] == e.parts
      && r.selection == {r.parts[|e.parts|].id}
      && r == e.(parts := r.parts, selection := r.selection)
  {
    if payload.None? then e
    else
      var p := Placed(payload.value, freshId, Snap(ScreenToWorld(client, rectOffset, e.pan, e.zoom), e.showGrid));
      assert (e.parts + [p])[..|e.parts|] == e.parts;
      e.(parts := e.parts + [p], selection := {p.id})
  }

  /** A drop only adds an id. */
  lemma DropKeepsIds(e: Editor, payload: Option<DropPayload>, client: Point, rectOffset: Point, freshId: string)
    requires e.zoom > 0.0
    ensures PartIds(e.parts) <= PartIds(Drop(e, payload, client, rectOffset, freshId).parts)
  {
    var r := Drop(e, payload, client, rectOffset, freshId);
    forall id | id in PartIds(e.parts) ensures id in PartIds(r.parts) {
      var i :| 0 <= i < |e.parts| && e.parts[i].id == id;
      if payload.Some? {
        assert r.parts[..|e.parts|][i] == r.parts[i];
      }
    }
  }

  /** The spread makes the catalog id the instance id: the generated id is discarded, and
      dropping the same catalog part twice yields two parts with one id. */
  lemma DropTakesCatalogId(e: Editor, payload: DropPayload, client: Point, rectOffset: Point, freshId: string)
    requires e.zoom > 0.0
    ensures var r := Drop(e, Some(payload), client, rectOffset, freshId);
      && r.parts[|e.parts|].id == payload.part.id
      && r.parts[|e.parts|].catalog == Some(payload.part)
      && (payload.positionKey.Some? ==> r.parts[|e.parts|].position == payload.positionKey.value)
    ensures var twice := Drop(Drop(e, Some(payload), client, rectOffset, freshId), Some(payload), client, rectOffset, freshId + "'");
      twice.parts[|e.parts|].id == twice.parts[|e.parts| + 1].id
  {
  }

  /** A catalog record without placement keys lands at the world drop point, snapped to the
      nearest grid line per axis when the grid is shown, with rotation 0. */
  lemma DropPlacesAtPointer(e: Editor, part: Part, client: Point, rectOffset: Point, freshId: string)
    requires e.zoom > 0.0
    ensures var r := Drop(e, Some(DropPayload(part, None, None, None)), client, rectOffset, freshId);
      var world := ScreenToWorld(client, rectOffset, e.pan, e.zoom);
      && r.parts[|e.parts|].partId == part.id
      && r.parts[|e.parts|].rotation == 0
      && r.parts[|e.parts|].position == Snap(world, e.showGrid)
      && (e.showGrid ==> OnGrid(r.parts[|e.parts|].position.x) && OnGrid(r.parts[|e.parts|].position.y))
      && (e.showGrid ==> -SnapThreshold < r.parts[|e.parts|].position.x - world.x <= SnapThreshold)
      && (e.showGrid ==> -SnapThreshold < r.parts[|e.parts|].position.y - world.y <= SnapThreshold)
      && (!e.showGrid ==> r.parts[|e.parts|].position == world)
  {
  }

  /** The connector-click gesture's wire: from the recorded start to the clicked connector. */
  function NewWire(start: ConnectionStart, partId: string, connectorId: string, at: Point, freshWireId: string): Wire {
    Wire(freshWireId, start.partId, start.connectorId, partId, connectorId, DefaultWireColor, Some(start.at), Some(at))
  }

  /** `handleConnectorClick`: ignored outside wire mode; the first click records the start; the
      second click appends a wire only when it is on another part, and in every case ends the
      gesture. */
  function ConnectorClick(e: Editor, partId: string, connectorId: string, at: Point, freshWireId: string): (r: Editor)
    ensures e.mode != WireTool ==> r == e
    ensures e.mode == WireTool && !e.isConnecting ==>
      r == e.(isConnecting := true, connectionStart := Some(ConnectionStart(partId, connectorId, at)))
    ensures e.mode == WireTool && e.isConnecting && e.connectionStart.Some? ==>
      && !r.isConnecting && r.connectionStart.None?
      && r == e.(wires := r.wires, isConnecting := false, connectionStart := None)
      && (e.connectionStart.value.partId != partId ==> r.wires == e.wires + [NewWire(e.connectionStart.value, partId, connectorId, at, freshWireId)])
      && (e.connectionStart.value.partId == partId ==> r.wires == e.wires)
    ensures e.mode == WireTool && e.isConnecting && e.connectionStart.None? ==> r == e
    ensures NoSelfLoops(e.wires) ==> NoSelfLoops(r.wires)
  {
    if e.mode != WireTool then e
    else if !e.isConnecting then
      e.(isConnecting := true, connectionStart := Some(ConnectionStart(partId, connectorId, at)))
    else if e.connectionStart.Some? then
      var start := e.connectionStart.value;
      var wires := if start.partId != partId then e.wires + [NewWire(start, partId, connectorId, at, freshWireId)] else e.wires;
      e.(wires := wires, isConnecting := false, connectionStart := None)
    else e
  }

  /** A second click on the part the gesture started from draws nothing but still ends the
      gesture. */
  lemma SamePartSecondClickResets(e: Editor, first: string, second: string, partId: string, at1: Point, at2: Point, id1: string, id2: string)
    requires e.mode == WireTool && !e.isConnecting
    ensures var r := ConnectorClick(ConnectorClick(e, partId, first, at1, id1), partId, second, at2, id2);
      r.wires == e.wires && !r.isConnecting && r.connectionStart.None?
  {
  }

  /** Two clicks on different parts in wire mode commit exactly one wire between them. */
  lemma TwoPartsConnect(e: Editor, a: string, ca: string, b: string, cb: string, at1: Point, at2: Point, id1: string, id2: string)
    requires e.mode == WireTool && !e.isConnecting && a != b
    ensures var r := ConnectorClick(ConnectorClick(e, a, ca, at1, id1), b, cb, at2, id2);
      && r.wires == e.wires + [Wire(id2, a, ca, b, cb, DefaultWireColor, Some(at1), Some(at2))]
      && !r.isConnecting
  {
  }

  // ----- toolbar actions -----

  /** `handleZoomIn` / `handleZoomOut`. */
  function ZoomInAction(e: Editor): (r: Editor)
    ensures r == e.(zoom := ZoomIn(e.zoom))
    ensures ZoomInRange(e.zoom) ==> ZoomInRange(r.zoom)
  {
    e.(zoom := ZoomIn(e.zoom))
  }

  function ZoomOutAction(e: Editor): (r: Editor)
    ensures r == e.(zoom := ZoomOut(e.zoom))
    ensures ZoomInRange(e.zoom) ==> ZoomInRange(r.zoom)
  {
    e.(zoom := ZoomOut(e.zoom))
  }

  /** `(rotation + 90) % 360` with JavaScript's `%`, whose remainder takes the sign of the
      dividend: a quarter turn, normalised into `(-360, 360)`. */
  function RotateStep(rotation: int): (r: int)
    ensures rotation >= -90 ==> 0 <= r < 360
    ensures rotation < -90 ==> -360 < r <= 0
    ensures (r - rotation - 90) % 360 == 0
  {
    var a := rotation + 90;
    if a >= 0 then a % 360 else -((-a) % 360)
  }

  /** The four quarter turns form a cycle: each maps to the next, and four turns give back
      the start. For any non-negative angle four turns normalise it into `[0, 360)`. */
  lemma QuarterTurnsCycle(rotation: int)
    requires rotation >= 0
    ensures RotateStep(RotateStep(RotateStep(RotateStep(rotation)))) == rotation % 360
    ensures rotation in {0, 90, 180, 270} ==> RotateStep(rotation) in {0, 90, 180, 270}
  {
  }

  lemma FourTurnsIdentity(rotation: int)
    requires rotation in {0, 90, 180, 270}
    ensures RotateStep(RotateStep(RotateStep(RotateStep(rotation)))) == rotation
  {
    QuarterTurnsCycle(rotation);
  }

  /** `handleRotateSelected`: a quarter turn for every selected part, nothing else changes. */
  function RotateSelected(e: Editor): (r: Editor)
    ensures r == e.(parts := r.parts)
    ensures |r.parts| == |e.parts|
    ensures forall i :: 0 <= i < |e.parts| ==>
      r.parts[i] == (if e.parts[i].id in e.selection then e.parts[i].(rotation := RotateStep(e.parts[i].rotation)) else e.parts[i])
    ensures PartIds(r.parts) == PartIds(e.parts)
  {
    var parts := seq(|e.parts|, i requires 0 <= i < |e.parts| =>
      if e.parts[i].id in e.selection then e.parts[i].(rotation := RotateStep(e.parts[i].rotation)) else e.parts[i]);
    SameIds(e.parts, parts);
    e.(parts := parts)
  }

  /** Rotating four times returns every part on a right angle to where it was. */
  lemma RotateFourTimes(e: Editor)
    requires forall i :: 0 <= i < |e.parts| ==> e.parts[i].rotation in {0, 90, 180, 270}
    ensures RotateSelected(RotateSelected(RotateSelected(RotateSelected(e)))) == e
  {
    var r := RotateSelected(RotateSelected(RotateSelected(RotateSelected(e))));
    forall i | 0 <= i < |e.parts| ensures r.parts[i] == e.parts[i] {
      FourTurnsIdentity(e.parts[i].rotation);
    }
    assert r.parts == e.parts;
  }

  function KeepPart(selection: set<string>): PlacedPart -> bool {
    (p: PlacedPart) => p.id !in selection
  }

  function KeepWire(selection: set<string>): Wire -> bool {
    (w: Wire) => w.fromPartId !in selection && w.toPartId !in selection
  }

  /** `handleDeleteSelected`: with a selection, removes the selected parts and every wire touching
      one of them, keeps the rest in order, and empties the selection; otherwise nothing. */
  function DeleteSelected(e: Editor): (r: Editor)
    ensures e.selection == {} ==> r == e
    ensures e.selection != {} ==>
      && r == e.(parts := r.parts, wires := r.wires, selection := {})
      && (forall p :: p in r.parts <==> p in e.parts && p.id !in e.selection)
      && (forall w :: w in r.wires <==> w in e.wires && w.fromPartId !in e.selection && w.toPartId !in e.selection)
      && IsSubseq(r.parts, e.parts) && IsSubseq(r.wires, e.wires)
  {
    if e.selection == {} then e
    else
      FilterIsSubseq(e.parts, KeepPart(e.selection));
      FilterIsSubseq(e.wires, KeepWire(e.selection));
      e.(parts := Filter(e.parts, KeepPart(e.selection)), wires := Filter(e.wires, KeepWire(e.selection)), selection := {})
  }

  /** Deleting removes every copy of a selected part and of a wire touching one, and keeps every
      copy of the rest: the result is the original with exactly those entries taken out. */
  lemma DeleteSelectedCounts(e: Editor)
    ensures var r := DeleteSelected(e);
      && (forall p :: multiset(r.parts)[p] == if p.id !in e.selection then multiset(e.parts)[p] else 0)
      && (forall w :: multiset(r.wires)[w] ==
            if w.fromPartId !in e.selection && w.toPartId !in e.selection then multiset(e.wires)[w] else 0)
  {
    if e.selection != {} {
      FilterCounts(e.parts, KeepPart(e.selection));
      FilterCounts(e.wires, KeepWire(e.selection));
    }
  }

  /** Deleting keeps every wire endpoint on an existing part when that held before: the cascade
      leaves no dangling wire. */
  lemma DeleteKeepsWiresResolved(e: Editor)
    requires WiresResolve(e.parts, e.wires)
    ensures WiresResolve(DeleteSelected(e).parts, DeleteSelected(e).wires)
  {
    var r := DeleteSelected(e);
    if e.selection != {} {
      forall i | 0 <= i < |r.wires|
        ensures r.wires[i].fromPartId in PartIds(r.parts) && r.wires[i].toPartId in PartIds(r.parts)
      {
        var w := r.wires[i];
        assert w in r.wires;
        var k :| 0 <= k < |e.wires| && e.wires[k] == w;
        KeptPartId(e, w.fromPartId);
        KeptPartId(e, w.toPartId);
      }
    }
  }

  /** An id outside the selection that names a part still names one after the delete. */
  lemma KeptPartId(e: Editor, id: string)
    requires id !in e.selection && id in PartIds(e.parts)
    ensures id in PartIds(DeleteSelected(e).parts)
  {
    var a :| 0 <= a < |e.parts| && e.parts[a].id == id;
    assert e.parts[a] in DeleteSelected(e).parts;
    var b :| 0 <= b < |DeleteSelected(e).parts| && DeleteSelected(e).parts[b] == e.parts[a];
  }

  /** The delete button as written leaves a pending connection in place even when its start
      part is deleted: start a wire on part "a", click "a" to select it, delete, then click a
      connector of "b", and the committed wire leads from a part that is gone. */
  lemma DeleteThenConnectDangles()
    ensures var r := DanglingScenario();
      && r.parts == [PlacedPart("b", "led-red", Point(100.0, 0.0), 0, None)]
      && r.wires == [Wire("w1", "a", "connector0", "b", "connector1", DefaultWireColor, Some(Origin), Some(Point(100.0, 0.0)))]
      && !WiresResolve(r.parts, r.wires)
  {
    var a := PlacedPart("a", "led-red", Origin, 0, None);
    var b := PlacedPart("b", "led-red", Point(100.0, 0.0), 0, None);
    var e := Open([a, b], []).(mode := WireTool);
    var started := ConnectorClick(e, "a", "connector0", Origin, "w0");
    assert started.connectionStart == Some(ConnectionStart("a", "connector0", Origin));
    var selected := PartClick(started, "a", false);
    assert selected.selection == {"a"};
    assert [a, b][1..] == [b] && [b][1..] == [];
    assert Filter([a, b], KeepPart({"a"})) == [b];
    var deleted := DeleteSelected(selected);
    assert deleted.parts == [b] && deleted.wires == [] && deleted.isConnecting;
    var r := ConnectorClick(deleted, "b", "connector1", Point(100.0, 0.0), "w1");
    assert r.wires == [Wire("w1", "a", "connector0", "b", "connector1", DefaultWireColor, Some(Origin), Some(Point(100.0, 0.0)))];
    assert r == DanglingScenario();
    assert r.wires[0].fromPartId !in PartIds(r.parts);
  }

  /** The gesture of `DeleteThenConnectDangles` on two parts "a" and "b" in wire mode. */
  function DanglingScenario(): Editor {
    var a := PlacedPart("a", "led-red", Origin, 0, None);
    var b := PlacedPart("b", "led-red", Point(100.0, 0.0), 0, None);
    var e := Open([a, b], []).(mode := WireTool);
    var started := ConnectorClick(e, "a", "connector0", Origin, "w0");
    var deleted := DeleteSelected(PartClick(started, "a", false));
    ConnectorClick(deleted, "b", "connector1", Point(100.0, 0.0), "w1")
  }

  /** The delete button as its cascade intends: as written, and a pending connection whose start
      part is deleted is cancelled too. */
  function DeleteSelectedAsIntended(e: Editor): (r: Editor)
    ensures r.parts == DeleteSelected(e).parts && r.wires == DeleteSelected(e).wires
    ensures r.selection == DeleteSelected(e).selection && r.zoom == e.zoom && r.mode == e.mode
    ensures e.connectionStart.Some? && e.connectionStart.value.partId in e.selection ==>
      r == DeleteSelected(e).(isConnecting := false, connectionStart := None)
    ensures !(e.connectionStart.Some? && e.connectionStart.value.partId in e.selection) ==> r == DeleteSelected(e)
  {
    var r := DeleteSelected(e);
    if e.connectionStart.Some? && e.connectionStart.value.partId in e.selection then
      r.(isConnecting := false, connectionStart := None)
    else r
  }

  /** The intended delete keeps the editor valid: no wire dangles and a pending connection still
      starts on a part of the canvas. */
  lemma DeleteAsIntendedKeepsValid(e: Editor)
    requires Valid(e)
    ensures Valid(DeleteSelectedAsIntended(e))
  {
    DeleteKeepsWiresResolved(e);
    var r := DeleteSelectedAsIntended(e);
    if r.connectionStart.Some? {
      var start := e.connectionStart.value;
      assert start.partId !in e.selection;
      var k :| 0 <= k < |e.parts| && e.parts[k].id == start.partId;
      assert e.parts[k] in DeleteSelected(e).parts;
    }
  }

  function OtherWire(wireId: string): Wire -> bool {
    (w: Wire) => w.id != wireId
  }

  /** The wire's `onWireDelete`: drops every wire with that id and nothing else. */
  function DeleteWire(e: Editor, wireId: string): (r: Editor)
    ensures r == e.(wires := r.wires)
    ensures forall w :: w in r.wires <==> w in e.wires && w.id != wireId
    ensures IsSubseq(r.wires, e.wires)
  {
    FilterIsSubseq(e.wires, OtherWire(wireId));
    e.(wires := Filter(e.wires, OtherWire(wireId)))
  }

  /** Deleting a wire removes every copy of each wire with that id and keeps every copy of
      each other wire, so no duplicate is dropped along the way. */
  lemma DeleteWireCounts(e: Editor, wireId: string)
    ensures forall w :: multiset(DeleteWire(e, wireId).wires)[w] == if w.id != wireId then multiset(e.wires)[w] else 0
  {
    FilterCounts(e.wires, OtherWire(wireId));
  }

  /** The mode buttons only set the mode: a pending connection survives leaving wire mode. */
  function SetMode(e: Editor, m: Mode): (r: Editor)
    ensures r.mode == m && r == e.(mode := m)
  {
    e.(mode := m)
  }

  function ToggleGrid(e: Editor): (r: Editor)
    ensures r.showGrid != e.showGrid && r == e.(showGrid := !e.showGrid)
  {
    e.(showGrid := !e.showGrid)
  }

  // ----- event sequences -----

  /** One user action, with the inputs its handler reads. */
  datatype Event =
    | Pressed(client: Point, rectOffset: Point, button: int)
    | Moved(client: Point, rectOffset: Point)
    | Released
    | PartClicked(partId: string, multi: bool)
    | CanvasClicked(onCanvas: bool)
    | Dropped(payload: Option<DropPayload>, client: Point, rectOffset: Point, freshId: string)
    | ConnectorClicked(partId: string, connectorId: string, at: Point, freshWireId: string)
    | ZoomInPressed
    | ZoomOutPressed
    | RotatePressed
    | DeletePressed
    | WireClicked(wireId: string)
    | ModeChosen(mode: Mode)
    | GridToggled

  /** Whether the interface can emit an event in a state: a connector dot is drawn only for a
      part on the canvas. */
  predicate Producible(e: Editor, ev: Event) {
    ev.ConnectorClicked? ==> ev.partId in PartIds(e.parts)
  }

  /** Dispatches one event to its handler, with the pan and delete handlers as intended; `None`
      when the handler throws. */
  function Step(e: Editor, ev: Event): (r: Option<Editor>)
    requires Valid(e) && Producible(e, ev)
    ensures r.Some? ==> Valid(r.value)
  {
    match ev
    case Pressed(c, o, b) => Some(MouseDown(e, c, o, b))
    case Moved(c, o) => MouseMoveAsIntended(e, c, o)
    case Released => Some(MouseUp(e))
    case PartClicked(id, multi) => Some(PartClick(e, id, multi))
    case CanvasClicked(onCanvas) => Some(CanvasClick(e, onCanvas))
    case Dropped(p, c, o, id) =>
      var r := Drop(e, p, c, o, id);
      DropKeepsIds(e, p, c, o, id);
      ResolveMonotone(e.parts, r.parts, e.wires);
      Some(r)
    case ConnectorClicked(pid, cid, at, wid) => Some(ConnectorClick(e, pid, cid, at, wid))
    case ZoomInPressed => Some(ZoomInAction(e))
    case ZoomOutPressed => Some(ZoomOutAction(e))
    case RotatePressed => Some(RotateSelected(e))
    case DeletePressed =>
      DeleteAsIntendedKeepsValid(e);
      Some(DeleteSelectedAsIntended(e))
    case WireClicked(id) => Some(DeleteWire(e, id))
    case ModeChosen(m) => Some(SetMode(e, m))
    case GridToggled => Some(ToggleGrid(e))
  }

  /** Runs a sequence of events, ignoring any the interface could not emit in the state reached;
      a throwing handler stops the run. Every state reached keeps the invariant: zoom in
      `[0.3, 3]`, a consistent pending connection on an existing part, no self-loop wire and
      no wire to a part that is gone. */
  function Run(e: Editor, events: seq<Event>): (r: Option<Editor>)
    requires Valid(e)
    ensures r.Some? ==> Valid(r.value)
    decreases |events|
  {
    if |events| == 0 then Some(e)
    else if !Producible(e, events[0]) then Run(e, events[1..])
    else
      match Step(e, events[0])
      case None => None
      case Some(next) => Run(next, events[1..])
  }
}
