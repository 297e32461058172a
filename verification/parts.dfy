/** Catalog part records as the frontend passes them around: the library lists them, a drag
    carries one onto the canvas, and the renderer reads its image and connectors. */
module Parts {

  /** One connector of a part; `svgId` and `terminalId` name elements of the breadboard image. */
  datatype Connector = Connector(
    id: string,
    name: string,
    kind: string,
    description: string,
    svgId: string,
    terminalId: string)

  /** A catalog part. `properties` is the free-form attribute map; its `family` entry drives the
      library's family facet. */
  datatype Part = Part(
    id: string,
    moduleId: string,
    title: string,
    description: string,
    author: string,
    properties: map<string, string>,
    tags: seq<string>,
    imagePath: string,
    connectors: seq<Connector>)

  const FamilyKey := "family"
}
