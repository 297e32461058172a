/** The circuit held by the editor and stored with a project: placed parts and wires. */
module Scene {
  import opened Wrappers
  import opened Geometry
  import opened Parts

  /** A part on the canvas. `catalog` holds the catalog fields a drop copies into the instance
      (title, image, connectors); instances read back from storage may carry none. */
  datatype PlacedPart = PlacedPart(
    id: string,
    partId: string,
    position: Point,
    rotation: int,
    catalog: Option<Part>)

  /** A wire between connectors of two parts; `fromPos`/`toPos` are the connector positions
      recorded when it was drawn. */
  datatype Wire = Wire(
    id: string,
    fromPartId: string,
    fromConnector: string,
    toPartId: string,
    toConnector: string,
    color: string,
    fromPos: Option<Point>,
    toPos: Option<Point>)

  const DefaultWireColor := "#ff0000"

  /** The image a placed part renders: the copied catalog `imagePath`, or nothing. */
  function ImagePath(p: PlacedPart): string {
    if p.catalog.Some? then p.catalog.value.imagePath else ""
  }

  /** The ids of the placed parts. */
  function PartIds(parts: seq<PlacedPart>): (ids: set<string>)
    ensures forall id :: id in ids <==> exists i :: 0 <= i < |parts| && parts[i].id == id
  {
    set i | 0 <= i < |parts| :: parts[i].id
  }

  /** No wire starts and ends on the same part. */
  ghost predicate NoSelfLoops(wires: seq<Wire>) {
    forall i :: 0 <= i < |wires| ==> wires[i].fromPartId != wires[i].toPartId
  }

  /** Every wire endpoint names a part on the canvas. */
  ghost predicate WiresResolve(parts: seq<PlacedPart>, wires: seq<Wire>) {
    forall i :: 0 <= i < |wires| ==> wires[i].fromPartId in PartIds(parts) && wires[i].toPartId in PartIds(parts)
  }

  /** No two placed parts share an id. */
  ghost predicate UniqueIds(parts: seq<PlacedPart>) {
    forall i, j :: 0 <= i < j < |parts| ==> parts[i].id != parts[j].id
  }
}
