/** The canvas coordinate system: points, `Math.round`, grid snapping, the screen/world
    mapping and the zoom steps (CanvasEditor.jsx). Coordinates are exact reals. */
module Geometry {

  datatype Point = Point(x: real, y: real) {
    function Plus(o: Point): Point {
      Point(x + o.x, y + o.y)
    }

    function Minus(o: Point): Point {
      Point(x - o.x, y - o.y)
    }
  }

  const Origin := Point(0.0, 0.0)

  /** `GRID_SIZE`: the grid pitch in world units. */
  const GridSize: real := 20.0

  /** `SNAP_THRESHOLD`: declared next to the grid pitch; snapping never moves a coordinate further. */
  const SnapThreshold: real := 10.0

  /** `Math.round`: the nearest integer, halves rounded towards positive infinity. */
  function Round(v: real): (k: int)
    ensures v - 0.5 < k as real <= v + 0.5
  {
    (v + 0.5).Floor
  }

  /** At most one integer lies in the half-open window `(v - 1/2, v + 1/2]`, so it is `Round(v)`. */
  lemma RoundUnique(v: real, k: int)
    requires v - 0.5 < k as real <= v + 0.5
    ensures Round(v) == k
  {
    var r := Round(v);
    assert -1.0 < k as real - r as real < 1.0;
  }

  /** `v` is a whole number of grid steps. */
  predicate OnGrid(v: real) {
    (v / GridSize).Floor as real * GridSize == v
  }

  lemma OnGridMultiple(k: int)
    ensures OnGrid(k as real * GridSize)
  {
    assert (k as real * GridSize) / GridSize == k as real;
  }

  /** `Math.round(v / GRID_SIZE) * GRID_SIZE`: the grid line nearest to `v`, ties going up. */
  function SnapCoord(v: real): (r: real)
    ensures OnGrid(r)
    ensures -SnapThreshold < r - v <= SnapThreshold
  {
    var k := Round(v / GridSize);
    OnGridMultiple(k);
    k as real * GridSize
  }

  /** The snap is the only grid line within `(v - 10, v + 10]`. */
  lemma SnapUnique(v: real, g: real)
    requires OnGrid(g)
    requires -SnapThreshold < g - v <= SnapThreshold
    ensures g == SnapCoord(v)
  {
    var k := (g / GridSize).Floor;
    assert g == k as real * GridSize;
    assert v / GridSize - 0.5 < k as real <= v / GridSize + 0.5;
    RoundUnique(v / GridSize, k);
  }

  /** Values already on the grid are left where they are, so snapping is idempotent. */
  lemma SnapOnGrid(v: real)
    requires OnGrid(v)
    ensures SnapCoord(v) == v
  {
    SnapUnique(v, v);
  }

  lemma SnapIdempotent(v: real)
    ensures SnapCoord(SnapCoord(v)) == SnapCoord(v)
  {
    SnapOnGrid(SnapCoord(v));
  }

  /** Shifting by a whole number of grid steps commutes with snapping. */
  lemma SnapShift(a: real, d: real)
    requires OnGrid(a)
    ensures SnapCoord(a + d) == a + SnapCoord(d)
  {
    var s := SnapCoord(d);
    var k := (a / GridSize).Floor;
    var j := (s / GridSize).Floor;
    assert a + s == (k + j) as real * GridSize;
    OnGridMultiple(k + j);
    SnapUnique(a + d, a + s);
  }

  /** The editor's per-axis snap: applied only when the grid is shown. */
  function Snap(p: Point, enabled: bool): (r: Point)
    ensures enabled ==> OnGrid(r.x) && OnGrid(r.y)
    ensures enabled ==> -SnapThreshold < r.x - p.x <= SnapThreshold && -SnapThreshold < r.y - p.y <= SnapThreshold
    ensures !enabled ==> r == p
  {
    if enabled then Point(SnapCoord(p.x), SnapCoord(p.y)) else p
  }

  /** The pointer in world coordinates: `(client - rectOffset - pan) / zoom` per axis. */
  function ScreenToWorld(client: Point, rectOffset: Point, pan: Point, zoom: real): (r: Point)
    requires zoom > 0.0
    ensures WorldToScreen(r, rectOffset, pan, zoom) == client
  {
    var x := (client.x - rectOffset.x - pan.x) / zoom;
    var y := (client.y - rectOffset.y - pan.y) / zoom;
    assert x * zoom == client.x - rectOffset.x - pan.x && y * zoom == client.y - rectOffset.y - pan.y;
    assert WorldToScreen(Point(x, y), rectOffset, pan, zoom) == Point(client.x, client.y);
    Point(x, y)
  }

  /** Where the grid and wire layer draws a world point: that SVG layer applies
      `translate(pan) scale(zoom)` inside the canvas element, which sits at `rectOffset` on the
      screen. (The parts layer is drawn outside it and applies neither.) */
  function WorldToScreen(world: Point, rectOffset: Point, pan: Point, zoom: real): Point
  {
    Point(world.x * zoom + pan.x + rectOffset.x, world.y * zoom + pan.y + rectOffset.y)
  }

  lemma ScreenWorldRoundTrip(client: Point, rectOffset: Point, pan: Point, zoom: real)
    requires zoom > 0.0
    ensures WorldToScreen(ScreenToWorld(client, rectOffset, pan, zoom), rectOffset, pan, zoom) == client
  {
  }

  lemma WorldScreenRoundTrip(world: Point, rectOffset: Point, pan: Point, zoom: real)
    requires zoom > 0.0
    ensures ScreenToWorld(WorldToScreen(world, rectOffset, pan, zoom), rectOffset, pan, zoom) == world
  {
  }

  const MinZoom: real := 0.3
  const MaxZoom: real := 3.0
  const ZoomStep: real := 1.2

  predicate ZoomInRange(z: real) {
    MinZoom <= z <= MaxZoom
  }

  /** `handleZoomIn`: `Math.min(z * 1.2, 3)`. */
  function ZoomIn(z: real): (r: real)
    ensures r <= MaxZoom
    ensures z <= MaxZoom && z >= 0.0 ==> z <= r
    ensures MinZoom <= z ==> MinZoom <= r
  {
    if z * ZoomStep < MaxZoom then z * ZoomStep else MaxZoom
  }

  /** `handleZoomOut`: `Math.max(z / 1.2, 0.3)`. */
  function ZoomOut(z: real): (r: real)
    ensures MinZoom <= r
    ensures MinZoom <= z ==> r <= z
    ensures z <= MaxZoom ==> r <= MaxZoom
  {
    if z / ZoomStep > MinZoom then z / ZoomStep else MinZoom
  }

  /** Once inside `[0.3, 3]`, the zoom never leaves it. */
  lemma ZoomStaysInRange(z: real)
    requires ZoomInRange(z)
    ensures ZoomInRange(ZoomIn(z)) && ZoomInRange(ZoomOut(z))
  {
  }

  /** Away from the clamps, one step out undoes one step in and vice versa. */
  lemma ZoomInThenOut(z: real)
    requires MinZoom <= z && z * ZoomStep <= MaxZoom
    ensures ZoomOut(ZoomIn(z)) == z
  {
  }

  lemma ZoomOutThenIn(z: real)
    requires MinZoom <= z / ZoomStep && z <= MaxZoom
    ensures ZoomIn(ZoomOut(z)) == z
  {
  }

  /** From the initial zoom of 1, two zoom-ins give 1.44. */
  lemma TwoZoomInsFromOne()
    ensures ZoomIn(ZoomIn(1.0)) == 1.44
  {
  }
}
