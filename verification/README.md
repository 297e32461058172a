# A Dafny model of the breadboard circuit editor

The system is a web-based breadboard editor in the style of Fritzing. A React frontend holds:

- a parts library, which searches a catalog and filters it by family;
- a canvas, where parts are dropped, selected, dragged, rotated, deleted and wired together;
- a part renderer, which draws a part's breadboard image and its connector dots;
- a small project store kept in the browser's local storage.

Two extractors read Fritzing part descriptors (`.fzp` XML): one in the browser and one in the Python backend. A third browser function reads the connector positions out of a part's SVG image.

This project models that core as pure functions over immutable datatypes and proves what each operation promises.

| module | file | what it models |
|---|---|---|
| `Wrappers` | wrappers.dfy | `Option` and `Result` |
| `Seqs` | seqs.dfy | `Array.prototype.filter`, filter-and-map, maps built by successive assignment, `new Set` iteration order |
| `Text` | text.dfy | `toLowerCase`, `includes` and `trim` on strings |
| `Geometry` | geometry.dfy | points, `Math.round`, the 20-unit grid snap, screen and world coordinates, the zoom steps |
| `Parts` | parts.dfy | catalog part and connector records |
| `Scene` | scene.dfy | placed parts and wires, and the well-formedness predicates over them |
| `Canvas` | canvas.dfy | the editor state and one transition function per event handler of the canvas |
| `Catalog` | catalog.dfy | the library's text filter, family facet and list of families |
| `Xml` | xml.dfy | an abstract XML element tree: tag, attributes, text, children, tail |
| `Fzp` | fzp.dfy | what both descriptor extractors share: the image-path rule and the property entries |
| `FzpDom` | fzp_dom.dfy | the browser's `parseFzpFile`, which searches the whole document |
| `FzpTree` | fzp_tree.dfy | the backend's `parse_fzp_file`, which reads direct children |
| `SvgConnectors` | svg.dfy | `loadSvgWithConnectors`: image size and connector positions |
| `Renderer` | renderer.dfy | `PartRenderer`: connector position lookup, click position, dot overlay, loading and error placeholders |
| `MockData` | mock_data.dfy | the sample catalog and sample project as constants |
| `ProjectStore` | store.dfy | `getProjects`, `saveProject`, `getProject`, `deleteProject` over the stored list |
| `SampleCatalog` | sample_catalog.dfy | the facets and the "led" search on the sample catalog |
| `Scenarios` | scenarios.dfy | worked cases that combine the modules |

The canvas handlers take the DOM event as plain inputs:

- the client point;
- the canvas element's offset on the screen;
- the mouse button;
- the ctrl/meta flag;
- whether the click target is the canvas element itself;
- the fresh ids the source derives from `Date.now()`.

Two kinds of throw occur, and they end differently. A throw inside a state updater aborts the whole update: a part drag that meets a selected part missing from its snapshot gives `None`. A throw in the event handler itself keeps the updates queued before it: the pan drag's throw keeps the recorded pointer, so `Canvas.MouseMove` gives the editor with only `mousePos` changed. `Canvas.Step` dispatches one user action and `Canvas.Run` a sequence of them. Both are proved to keep `Canvas.Valid`:

- the zoom stays within `[0.3, 3]`;
- `isConnecting` is set exactly when a connection start is recorded;
- no wire joins a part to itself;
- every wire end names a part on the canvas;
- a pending connection starts on a part of the canvas.

### Behaviours worth knowing

- A second connector click on the part the gesture started from draws no wire, and it still ends the gesture (CanvasEditor.jsx:200-222). See `Canvas.SamePartSecondClickResets`.
- Choosing another mode keeps a pending connection, even when leaving wire mode (CanvasEditor.jsx:283, 291, 299). See `Canvas.SetMode`.
- On a drop, the `...partData` spread comes last (CanvasEditor.jsx:159-167). So the catalog id replaces the generated id, and dropping one catalog part twice gives two parts with the same id. See `Canvas.DropTakesCatalogId`.
- A pan drag never pans (CanvasEditor.jsx:53-56). This is the first entry under Findings.
- A background click clears the selection only when its target is the canvas element itself (CanvasEditor.jsx:140-141). A full-size `<svg>` child covers that element (CanvasEditor.jsx:369-379), and with the grid on, so does a full-size `<rect>`. At the default view (zoom 1, no pan), a click on empty canvas therefore targets the SVG layer and clears nothing. Only the area that panning or zooming out leaves uncovered clears. The model takes the target test as the input `onCanvas` (`Canvas.CanvasClick`). This reading of the layout comes from the markup alone.

## Model

| member | source | states |
|---|---|---|
| Geometry.Round | frontend/src/components/CanvasEditor.jsx:64-65 | `Math.round(v)` is the integer in `(v - 1/2, v + 1/2]`, so halves round up |
| Geometry.RoundUnique | frontend/src/components/CanvasEditor.jsx:64-65 | exactly one integer lies in that window, so rounding is determined by it |
| Geometry.SnapCoord | frontend/src/components/CanvasEditor.jsx:64-65 | a snapped coordinate is a whole number of 20-unit grid steps, less than 10 below or at most 10 above the input |
| Geometry.SnapUnique | frontend/src/components/CanvasEditor.jsx:64-65 | the snap is the only grid line within that distance of the input |
| Geometry.SnapOnGrid | frontend/src/components/CanvasEditor.jsx:64-65 | a coordinate already on the grid does not move |
| Geometry.SnapIdempotent | frontend/src/components/CanvasEditor.jsx:64-65 | snapping twice is snapping once |
| Geometry.SnapShift | frontend/src/components/CanvasEditor.jsx:60-65 | adding a whole number of grid steps commutes with snapping |
| Geometry.Snap | frontend/src/components/CanvasEditor.jsx:163-164 | per axis, with the grid on the point lands on grid lines within 10 units of the input; with the grid off it is unchanged |
| Geometry.ScreenToWorld | frontend/src/components/CanvasEditor.jsx:48-49 | the world point computed for a pointer is one the grid and wire layer draws back at that pointer |
| Geometry.ScreenWorldRoundTrip | frontend/src/components/CanvasEditor.jsx:48-49 | in the grid and wire layer (translate by pan, scale by zoom, offset by the canvas), drawing the world point computed for a client point gives back the client point |
| Geometry.WorldScreenRoundTrip | frontend/src/components/CanvasEditor.jsx:48-49 | converting a point drawn by the grid and wire layer back to world coordinates gives back that point |
| Geometry.ZoomIn | frontend/src/components/CanvasEditor.jsx:227 | zooming in never passes 3, never decreases a zoom within `[0, 3]`, and keeps a zoom of at least 0.3 at least 0.3 |
| Geometry.ZoomOut | frontend/src/components/CanvasEditor.jsx:228 | zooming out never goes below 0.3, never increases a zoom of at least 0.3, and keeps a zoom of at most 3 at most 3 |
| Geometry.ZoomStaysInRange | frontend/src/components/CanvasEditor.jsx:227-228 | once inside `[0.3, 3]`, both zoom steps stay inside it |
| Geometry.ZoomInThenOut | frontend/src/components/CanvasEditor.jsx:227-228 | away from the clamps, one step out undoes one step in |
| Geometry.ZoomOutThenIn | frontend/src/components/CanvasEditor.jsx:227-228 | away from the clamps, one step in undoes one step out |
| Geometry.TwoZoomInsFromOne | frontend/src/components/CanvasEditor.jsx:227 | from the initial zoom of 1, two zoom-ins give 1.44 |
| Canvas.OpenIsValid | frontend/src/components/CanvasEditor.jsx:17-30 | the editor mounted for a circuit with no self-loop and no dangling wire satisfies the invariant |
| Canvas.Snapshot | frontend/src/components/CanvasEditor.jsx:99-104 | the drag snapshot has an entry for exactly the selected ids that name a part on the canvas |
| Canvas.SnapshotValue | frontend/src/components/CanvasEditor.jsx:99-104 | the entry for an id is the position of the last part carrying it |
| Canvas.MouseDown | frontend/src/components/CanvasEditor.jsx:83-112 | in pan mode or with the middle button a pan starts from the client point and the current pan; otherwise a non-empty selection starts a part drag from the world pointer with the snapshot of the selected parts' positions, wherever the press is; otherwise nothing changes; only the drag state changes |
| Canvas.DragParts | frontend/src/components/CanvasEditor.jsx:58-73 | each selected part moves to its snapshot position plus the displacement, snapped when the grid is on; unselected parts are unchanged; order and ids are kept |
| Canvas.MouseMove | frontend/src/components/CanvasEditor.jsx:44-81 | the world pointer is recorded; in a part drag the parts move as `DragParts` says; otherwise the parts stay and the pan never changes; it fails exactly when a selected part has no snapshot entry |
| Canvas.PanDragNeverPans | frontend/src/components/CanvasEditor.jsx:53-56 | during a pan drag the handler as written leaves the pan unchanged, whatever the pointer does |
| Canvas.MouseMoveAsIntended | frontend/src/components/CanvasEditor.jsx:74-79 | during a pan drag the pan moves from its initial value by exactly the pointer's client displacement and the parts stay; every other drag behaves as written |
| Canvas.PanKeepsGrabbedPointUnderPointer | frontend/src/components/CanvasEditor.jsx:74-96 | with the intended pan, the world point under the pointer at the press stays under the pointer |
| Canvas.MouseUp | frontend/src/components/CanvasEditor.jsx:114-116 | releasing ends any drag and changes nothing else, so positions reached so far stay |
| Canvas.DragIsRigid | frontend/src/components/CanvasEditor.jsx:58-73 | with the grid off, two co-selected parts keep exactly the offset between their snapshot positions |
| Canvas.DragIsRigidOnGrid | frontend/src/components/CanvasEditor.jsx:58-73 | with the grid on, the offset is kept when both snapshot positions lie on the grid |
| Canvas.DragGestureFollowsPointer | frontend/src/components/CanvasEditor.jsx:53-112 | over a press and a move with the grid off and unique ids, each selected part is displaced by exactly the pointer's world displacement |
| Canvas.LatestMoveWins | frontend/src/components/CanvasEditor.jsx:53-73 | moves do not accumulate: after two moves, parts and pan are what the second move alone gives |
| Canvas.PartClick | frontend/src/components/CanvasEditor.jsx:119-137 | a ctrl/meta click toggles the clicked id and leaves every other id as it was; a plain click selects that id alone; nothing else changes |
| Canvas.ToggleTwiceRestores | frontend/src/components/CanvasEditor.jsx:122-132 | two ctrl/meta clicks on one part restore the editor |
| Canvas.CanvasClick | frontend/src/components/CanvasEditor.jsx:140-146 | a click whose target is the canvas element itself, outside a drag, clears the selection and the pending connection; any other click changes nothing |
| Canvas.Drop | frontend/src/components/CanvasEditor.jsx:149-185 | a readable payload appends one part after the unchanged existing parts and selects exactly it; an unreadable one changes nothing |
| Canvas.DropKeepsIds | frontend/src/components/CanvasEditor.jsx:170 | a drop keeps every existing part id |
| Canvas.DropTakesCatalogId | frontend/src/components/CanvasEditor.jsx:159-167 | the new part's id is the catalog id, its catalog fields are the payload's, and a placement key in the payload overrides the drop point; two drops of one catalog part give two parts with the same id |
| Canvas.DropPlacesAtPointer | frontend/src/components/CanvasEditor.jsx:154-166 | a catalog record without placement keys lands at the world drop point, with the grid on at the nearest grid line per axis (within 10 units), with rotation 0 and the catalog id as `partId` |
| Canvas.ConnectorClick | frontend/src/components/CanvasEditor.jsx:188-224 | ignored outside wire mode; the first click records the start; the second appends one wire from the start to the clicked connector only when it is on another part, and always ends the gesture; no self-loop is ever added |
| Canvas.SamePartSecondClickResets | frontend/src/components/CanvasEditor.jsx:200-222 | a second click on the starting part draws no wire but still ends the gesture |
| Canvas.TwoPartsConnect | frontend/src/components/CanvasEditor.jsx:191-214 | two clicks on different parts commit exactly one red wire between the clicked connectors, with both click positions |
| Canvas.ZoomInAction | frontend/src/components/CanvasEditor.jsx:227 | only the zoom changes, and it stays within `[0.3, 3]` |
| Canvas.ZoomOutAction | frontend/src/components/CanvasEditor.jsx:228 | only the zoom changes, and it stays within `[0.3, 3]` |
| Canvas.RotateStep | frontend/src/components/CanvasEditor.jsx:232 | a rotation becomes one quarter turn more, modulo 360, with JavaScript's sign-of-dividend remainder: in `[0, 360)` from -90 up, in `(-360, 0]` below |
| Canvas.QuarterTurnsCycle | frontend/src/components/CanvasEditor.jsx:232 | the right angles map to right angles, and four steps normalise any non-negative angle modulo 360 |
| Canvas.FourTurnsIdentity | frontend/src/components/CanvasEditor.jsx:232 | four steps are the identity on 0, 90, 180 and 270 |
| Canvas.RotateSelected | frontend/src/components/CanvasEditor.jsx:229-235 | selected parts turn a quarter; the other parts, their order and ids, and everything else stay |
| Canvas.RotateFourTimes | frontend/src/components/CanvasEditor.jsx:229-235 | pressing rotate four times restores an editor whose parts sit on right angles |
| Canvas.DeleteSelected | frontend/src/components/CanvasEditor.jsx:237-249 | with a selection, exactly the selected parts and every wire touching one go, the rest keep their order and the selection empties; with none, nothing changes |
| Canvas.DeleteSelectedCounts | frontend/src/components/CanvasEditor.jsx:237-249 | every copy of a selected part and of a wire touching one goes, and every copy of any other part or wire stays |
| Canvas.DeleteKeepsWiresResolved | frontend/src/components/CanvasEditor.jsx:239-242 | the wire cascade leaves no wire to a deleted part |
| Canvas.DeleteThenConnectDangles | frontend/src/components/CanvasEditor.jsx:237-249 | as written, delete keeps a pending connection whose start part it removes, so a following connector click commits a wire from a part that is gone |
| Canvas.DeleteSelectedAsIntended | frontend/src/components/CanvasEditor.jsx:237-249 | deletes as written and, when the pending connection starts on a deleted part, also cancels it and changes nothing else |
| Canvas.DeleteAsIntendedKeepsValid | frontend/src/components/CanvasEditor.jsx:237-249 | the intended delete keeps the editor invariant |
| Canvas.DeleteWire | frontend/src/components/CanvasEditor.jsx:384 | a wire remains exactly when it was there and has another id, the remaining wires keep their order, and nothing but the wires changes |
| Canvas.DeleteWireCounts | frontend/src/components/CanvasEditor.jsx:384 | every copy of a wire with that id goes and every copy of any other wire stays, so no duplicate is lost |
| Canvas.SetMode | frontend/src/components/CanvasEditor.jsx:280-303 | a mode button sets the mode and nothing else, so a pending connection survives |
| Canvas.ToggleGrid | frontend/src/components/CanvasEditor.jsx:332 | the grid button flips the grid and nothing else |
| Canvas.Step | frontend/src/components/CanvasEditor.jsx:359-404 | every handler the canvas wires up, with the pan and delete handlers as intended, keeps the editor invariant |
| Canvas.Run | frontend/src/components/CanvasEditor.jsx:359-404 | any sequence of user actions keeps the invariant in every state it reaches |
| Seqs.FilterIsSubseq | frontend/src/components/PartLibrary.jsx:25-36 | `filter` keeps elements in their original order |
| Seqs.FilterCounts | frontend/src/components/CanvasEditor.jsx:239-242 | `filter` keeps every copy of a passing element and drops every copy of a failing one |
| Seqs.CollectPrefix | frontend/src/utils/parseFzp.js:39-45 | what the first elements contribute comes first, so collected results keep the order of their sources |
| Seqs.LastWinsValue | frontend/src/utils/parseFzp.js:30-35 | in a map built by assignment, a key holds the value of its last entry |
| Seqs.InsertionOrderSpec | frontend/src/components/PartLibrary.jsx:42 | a `Set` read back lists each value once, in first-occurrence order |
| Text.ContainsIffOccurs | frontend/src/components/PartLibrary.jsx:26-28 | `includes` holds exactly when the needle occurs at some offset |
| Text.ToLowerIdempotent | frontend/src/components/PartLibrary.jsx:26-28 | lower-casing twice is lower-casing once |
| Text.TrimEmptyIffBlank | frontend/src/components/PartLibrary.jsx:24 | a term trims to nothing exactly when it is all white space |
| Text.ToLower | frontend/src/components/PartLibrary.jsx:26-28 | the result has the same length and each character is lower-cased on its own |
| Text.Contains | frontend/src/components/PartLibrary.jsx:26-28 | the empty needle is always found, and a needle longer than the haystack never is |
| Text.Trim | frontend/src/components/PartLibrary.jsx:24 | the result is a piece of the input with only trimmable characters cut from either side, and it neither starts nor ends with one |
| Catalog.Search | frontend/src/components/PartLibrary.jsx:20-40 | the result holds exactly the parts the text filter and the family facet both accept, in catalog order |
| Catalog.MatchesText | frontend/src/components/PartLibrary.jsx:25-29 | the empty term matches every part, and a term longer than the title, the description and every tag matches none |
| Catalog.MatchesFamily | frontend/src/components/PartLibrary.jsx:34-36 | a match needs a `family` property, and a family equal to the facet always matches |
| Catalog.Listed | frontend/src/components/PartLibrary.jsx:20-40 | a blank term with "all" lists the part; a listed part matches a non-blank term and a specific facet |
| Catalog.SearchIsOneFilter | frontend/src/components/PartLibrary.jsx:21-39 | the two stages together are one order-preserving filter by the combined predicate |
| Catalog.BlankSearchListsAll | frontend/src/components/PartLibrary.jsx:24-33 | a blank term with the "all" facet lists the whole catalog in order |
| Catalog.FamilyIgnoresCase | frontend/src/components/PartLibrary.jsx:33-37 | facets that lower-case alike list the same parts |
| Catalog.NoFamilyNotListed | frontend/src/components/PartLibrary.jsx:35 | a part without a family is never listed under a specific facet |
| Catalog.Families | frontend/src/components/PartLibrary.jsx:42 | the facets are "all" followed by each non-empty family once, in first-occurrence order |
| Fzp.ImagePathOf | frontend/src/utils/parseFzp.js:48-58 | the image path is empty exactly when there is no `layers` element or it has no `image`; otherwise it is the core prefix followed by the image |
| Fzp.PropertyEntry | frontend/src/utils/parseFzp.js:31-35 | a property is recorded exactly when both its name and its value are non-empty |
| Fzp.PropertyMap | frontend/src/utils/parseFzp.js:28-36 | the map's keys are exactly the recorded names |
| Xml.FindTag | frontend/src/utils/parseFzp.js:18-25 | the first element with the tag in document order, and none exactly when no element has it |
| Xml.TextContent | frontend/src/utils/parseFzp.js:23-25 | the text content starts with the element's own leading text and is only that text for an element without children |
| FzpDom.TextOrEmpty | frontend/src/utils/parseFzp.js:23-25 | a missing element yields "", a present one its text content |
| FzpDom.FirstPin | frontend/src/utils/parseFzp.js:70 | the pin is the first node in document order that is a `p` with a `breadboardView` ancestor, and there is none exactly when no node is |
| FzpDom.ConnectorRecord | frontend/src/utils/parseFzp.js:63-81 | `id`, `name` and `type` are the attributes or null; the description is the text of the first `description` below, or ""; `svgId` and `terminalId` are the pin's attributes, "" without a pin or attribute |
| FzpDom.ParseFzpFile | frontend/src/utils/parseFzp.js:2-98 | fails on a failed fetch and on a `parsererror` element, and succeeds exactly when neither happens and a `module` element exists; then `moduleId` is that element's attribute or "", and there is one connector record per `connector` element, in document order |
| FzpDom.TextFieldsFromFirstMatch | frontend/src/utils/parseFzp.js:23-25 | title, description and author are the text of the first element with that tag anywhere in the document, or "" |
| FzpDom.PropertiesLastWins | frontend/src/utils/parseFzp.js:29-36 | a property element's entry is in the map unless a later one reuses its name, and names and values are non-empty |
| FzpDom.TagsAreNonEmptyTexts | frontend/src/utils/parseFzp.js:39-45 | the tags are the non-empty texts of the `tag` elements, one per element, duplicates kept, in document order |
| FzpDom.ConnectorWithoutPin | frontend/src/utils/parseFzp.js:70-72 | a connector without a `breadboardView p` gets empty `svgId` and `terminalId` |
| FzpDom.ImagePathRule | frontend/src/utils/parseFzp.js:48-58 | the path comes from the `image` of the first `layers` below the first `breadboardView`; it is empty without a `breadboardView`, without such a `layers`, or when its `image` is missing or empty |
| FzpTree.PyText | backend/services/part_service.py:82 | an element's text is `None` exactly when it has no leading character data, and is that data otherwise |
| FzpTree.ChildText | backend/services/part_service.py:81-88 | a missing child yields "", a present one its leading text or `None` |
| FzpTree.FirstPin | backend/services/part_service.py:129 | the pin is the first `p` child of the first `breadboardView` that has one; there is none exactly when no `breadboardView` has a `p` child |
| FzpTree.FirstPinView | backend/services/part_service.py:129 | the position of the first `breadboardView` with a `p` child, none exactly when there is none |
| FzpTree.ConnectorRecord | backend/services/part_service.py:120-140 | id, name and type are the attributes or ""; the description is the first direct `description` child's text, `None` or ""; `svg_id`/`terminal_id` are the pin's attributes, "" without a pin or attribute |
| FzpTree.ParseFzpFile | backend/services/part_service.py:68-155 | `None` exactly for a missing file, a malformed one, or a root that is not `module`; otherwise one record per descendant `connector` and `module_id` defaulting to "" |
| FzpTree.TextFieldsFromChildren | backend/services/part_service.py:80-88 | title, description and author are the texts of direct children of the root, "" when the child is absent |
| FzpTree.PropertiesFromPropertiesChild | backend/services/part_service.py:90-98 | a name is a property exactly when some `property` child of the first `properties` child carries it with non-empty text |
| FzpTree.PropertyValueFromLastChild | backend/services/part_service.py:90-98 | a property's value is the text of the last `property` child that names it |
| FzpTree.TagsFromTagsChild | backend/services/part_service.py:100-106 | tags are the texts of the `tag` children of the first `tags` child that have text, one per child, in order; there are none without a `tags` child |
| FzpTree.ImagePathRule | backend/services/part_service.py:108-116 | the path comes from the `image` of the first `layers` child of the first descendant `breadboardView`; it is empty without a `breadboardView`, without such a child, or when its `image` is missing or empty |
| FzpTree.NestedTitleDiffers | backend/services/part_service.py:81-82 | for a title below a wrapper element the backend reports "" while the browser reports the title's text |
| SvgConnectors.NumberOr | frontend/src/utils/parseFzp.js:110-111 | the result differs from the fallback only for a present, parsable, non-zero value, which is then taken |
| SvgConnectors.AttachPoint | frontend/src/utils/parseFzp.js:120-129 | a circle attaches at its centre `(cx, cy)`, a line at its end point `(x2, y2)`, each coordinate 0 when missing, unparsable or zero; any other element at the origin |
| SvgConnectors.PositionEntry | frontend/src/utils/parseFzp.js:118-133 | an element gets an entry exactly when its id contains "connector", with its id and attachment point |
| SvgConnectors.Positions | frontend/src/utils/parseFzp.js:114-134 | the table's ids are exactly those of marked elements, the root included |
| SvgConnectors.LoadSvg | frontend/src/utils/parseFzp.js:101-146 | a failed fetch fails; a document fails exactly when it has no `svg` element; otherwise the markup is kept verbatim, the size comes from the first `svg` element's attributes and is non-zero, and the connector table is `Positions` of the document |
| SvgConnectors.SizeDefaults | frontend/src/utils/parseFzp.js:110-111 | each dimension on its own is the stated number when that is present, parsable and non-zero, and 100 otherwise |
| SvgConnectors.LastElementWins | frontend/src/utils/parseFzp.js:131-133 | the point stored for an id is that of the last marked element carrying it |
| Renderer.ResolvePosition | frontend/src/components/PartRenderer.jsx:46-47 | the `terminalId` entry wins, then the `svgId` entry; nothing exactly when neither exists |
| Renderer.ClickLocalPosition | frontend/src/components/PartRenderer.jsx:46-48 | the resolved position, or the origin when there is no drawing or no entry |
| Renderer.GlobalPosition | frontend/src/components/PartRenderer.jsx:50-53 | the canvas position lies the scaled local point away from the part's position |
| Renderer.ConnectorClicked | frontend/src/components/PartRenderer.jsx:40-57 | a click is forwarded exactly when a handler is present, with the connector and its canvas position |
| Renderer.Overlay | frontend/src/components/PartRenderer.jsx:110-136 | no dots unless connectors are shown; then a dot for exactly the connectors whose position resolves, at that position |
| Renderer.DotCorner | frontend/src/components/PartRenderer.jsx:123-126 | the 12-unit dot is centred on the connector position |
| Renderer.OverlayAndClickAgree | frontend/src/components/PartRenderer.jsx:112-132 | clicking a shown dot reports the canvas position of that very dot |
| Renderer.LoadEffect | frontend/src/components/PartRenderer.jsx:19-38 | loading always ends; an empty path keeps the previous drawing with no error; a load stores its drawing or its error |
| Renderer.ViewOf | frontend/src/components/PartRenderer.jsx:59-89 | the loading box exactly while loading; the drawing exactly when loaded without error |
| Renderer.NoImageShowsErrorBox | frontend/src/components/PartRenderer.jsx:25-75 | a part without an image shows the error placeholder once loading ends |
| Renderer.FailedLoadShowsErrorBox | frontend/src/components/PartRenderer.jsx:29-34 | a failed load shows the error placeholder whatever was shown before |
| Renderer.LoadedImageIsDrawn | frontend/src/components/PartRenderer.jsx:26-27 | a successful load shows the drawing just loaded |
| Renderer.ClearedPathKeepsDrawing | frontend/src/components/PartRenderer.jsx:25-28 | clearing the image path keeps showing a drawing loaded before |
| ProjectStore.GetProjects | frontend/src/utils/mockData.js:182-185 | the samples when nothing is stored, the stored list otherwise |
| ProjectStore.FindIndex | frontend/src/utils/mockData.js:171 | the first position with the id, or none exactly when no project has it |
| ProjectStore.SaveProject | frontend/src/utils/mockData.js:169-180 | replaces the first project with the id in place, or appends it; the rest of the list is as read |
| ProjectStore.GetProject | frontend/src/utils/mockData.js:187-190 | the first project in the list with the id, none exactly when no project has it |
| ProjectStore.DeleteProject | frontend/src/utils/mockData.js:192-196 | a project remains exactly when it was stored and has another id, and the remaining projects keep their order |
| ProjectStore.DeleteProjectCounts | frontend/src/utils/mockData.js:192-196 | every copy of a project with that id goes and every copy of any other project stays |
| ProjectStore.FindIndexIsFirst | frontend/src/utils/mockData.js:171 | the first position carrying the id is the one found |
| ProjectStore.SaveThenGet | frontend/src/utils/mockData.js:169-190 | a saved project is what its id reads back |
| ProjectStore.SaveKeepsOthers | frontend/src/utils/mockData.js:169-190 | saving leaves what every other id reads unchanged |
| ProjectStore.SaveIdempotent | frontend/src/utils/mockData.js:169-180 | saving twice stores what saving once does |
| ProjectStore.SaveCount | frontend/src/utils/mockData.js:173-177 | the list grows by one exactly when the id was new |
| ProjectStore.DeleteThenGet | frontend/src/utils/mockData.js:187-196 | after a delete the id reads nothing, and every other id reads exactly the project it read before |
| ProjectStore.SamplesOnlyWhenUnset | frontend/src/utils/mockData.js:182-196 | a fresh store lists the samples, but deleting every project leaves an empty list |
| SampleCatalog.SampleFamilyValues | frontend/src/utils/mockData.js:11-119 | the sample parts carry the families LED, Resistor and Arduino |
| SampleCatalog.SampleFamilies | frontend/src/components/PartLibrary.jsx:42 | the sample catalog offers "all", "LED", "Resistor" and "Arduino", in that order |
| SampleCatalog.RedLedMatches | frontend/src/utils/mockData.js:12-45 | the red LED matches "led" |
| SampleCatalog.ResistorLacksLed | frontend/src/utils/mockData.js:46-78 | the resistor's title, description and tags do not contain "led" |
| SampleCatalog.ArduinoLacksLed | frontend/src/utils/mockData.js:79-118 | the Arduino's title, description and tags do not contain "led" |
| SampleCatalog.SampleSearchLed | frontend/src/components/PartLibrary.jsx:20-40 | searching the sample catalog for "led" under "all" lists the red LED alone |
| Scenarios.SampleDrop | frontend/src/components/CanvasEditor.jsx:149-171 | the red LED dropped at client (130, 90) on a canvas at (10, 10) lands at (120, 80) under the id "led-red", which is selected alone |
| Scenarios.SampleCircuitWellFormed | frontend/src/utils/mockData.js:122-166 | the sample circuit has distinct part ids, no self-loop and no dangling wire |
| Scenarios.SampleProjectOpensValid | frontend/src/utils/mockData.js:122-185 | the sample project opens in a valid editor state |
| Scenarios.SamplePartsShowErrorBox | frontend/src/components/PartRenderer.jsx:25-89 | the sample project's parts carry no image, so each renders the error placeholder |
| Scenarios.WireEndsAtClickedDots | frontend/src/components/CanvasEditor.jsx:188-214 | a wire drawn between two dots records the canvas positions the dots report |

## Left out

- React rendering, JSX and CSS transforms are not modelled. Neither are toasts, the `useEffect` that reports parts and wires to the parent (CanvasEditor.jsx:33-41), or the unused `canvasSize`.
- `handleSave` (CanvasEditor.jsx:251-263) is not modelled as its own member. It only calls `saveProject` with the editor's parts and wires, which `ProjectStore.SaveProject` models.
- The `if (!rect) return` guards are not modelled. The canvas element is mounted whenever its handlers fire, so its offset is taken as an input.
- DOM event objects are not modelled: each handler takes plain inputs.
- Ids built from `Date.now()` are parameters.
- `JSON.parse` of the drag payload is not modelled. A payload that fails to parse is `None`. A readable payload is a catalog part plus the optional `partId`, `position` and `rotation` keys, the only keys whose override the model tracks.
- Canvas.Drop: the spread copies the catalog fields into the instance. The model keeps them as the `catalog` record of the placed part rather than flattening them.
- `fetch`, `DOMParser` and `xml.etree` are not modelled. The documents are abstract element trees; a malformed document is a `parsererror` element for the browser and `Malformed` for the backend.
- `parseFloat` is not modelled; it is the parameter `num`, where `None` stands for NaN.
- Python's `print` in the exception handler is not modelled.
- Floating point is not modelled: coordinates, zoom and scale are exact reals. `Math.round` is modelled as rounding halves up, as JavaScript does.
- `toLowerCase` is modelled for ASCII capitals, the Latin-1 capitals U+00C0 to U+00DE and the basic Greek capitals U+0391 to U+03A9 only. Capital sigma always becomes σ: the word-final ς that JavaScript produces is not modelled. Accented Greek capitals and all other Unicode case mappings are left unchanged.
- The renderer's asynchronous load is modelled as one step from the loading state, so a slow load finishing after a newer one is not modelled.
- The parts layer is drawn outside the panned and zoomed SVG layer, at `translate(position) rotate(rotation) scale(zoom)` (CanvasEditor.jsx:391-407; PartRenderer.jsx:63, 79, 97), so pan and zoom do not move a part's position on screen. With a zoom other than 1 or a non-zero pan, a dropped part is not drawn under the pointer. The model states where a part is in world coordinates; screen placement is proved only for the grid and wire layer (`Geometry.WorldToScreen`).
- CSS rotation and scaling of a part's drawing are not modelled. The source computes a connector's canvas position without the rotation, and so does the model.
- The `svgData.connectorPositions` guard on the overlay (PartRenderer.jsx:110) is not modelled, because the loader always sets that object.
- `loadSvgWithConnectors` does not check `response.ok`: an error response body is parsed like an image. The model has only the two outcomes "fetch failed" and "fetched text with its document".
- Corrupt JSON under the storage key (`JSON.parse` throws) is not modelled. The stored text is modelled by the list it encodes.
- Canvas.Valid does not include unique part ids, because a drop can break them (see `Canvas.DropTakesCatalogId`).
- Canvas.Run skips a connector click on a part that is not on the canvas; the interface draws no dot for such a part.
- Canvas.Step and Canvas.Run use the intended pan and delete handlers from the Findings table. The handlers as written stay in the model.
- `WireConnector.jsx` (Bézier paths and the preview line) is not modelled: it only draws.
- `api.js`, the hooks, `App.js`, the backend CRUD, `load_fritzing_parts`, `get_part_families`, the routers and the database are not modelled. They are network, storage and page plumbing around the modelled core.

## Findings

| source | as written | input that shows it | evidently intended | confidence | as-written member | corrected member |
|---|---|---|---|---|---|---|
| frontend/src/components/CanvasEditor.jsx:53-79 | the move handler reads `dragState.startPos.x` before testing the drag type; a pan drag records no `startPos`, so the handler throws after recording the pointer and the pan branch never runs | pan mode, press at client (0, 0), move to (50, 0): the pan stays (0, 0) | the pan moves by the pointer's client displacement since the press, keeping the grabbed point under the pointer | high; not executed | Canvas.MouseMove, Canvas.PanDragNeverPans | Canvas.MouseMoveAsIntended, Canvas.PanKeepsGrabbedPointUnderPointer |
| frontend/src/components/CanvasEditor.jsx:237-249 | delete removes the selected parts and their wires but keeps `isConnecting` and `connectionStart`, even when the pending connection starts on a deleted part | wire mode: click a connector of part "a", click "a" to select it, delete, click a connector of part "b"; the new wire leads from "a", which is gone | a delete leaves no wire to a deleted part, as the wire cascade at lines 240-242 ensures for existing wires | medium; not executed | Canvas.DeleteSelected, Canvas.DeleteThenConnectDangles | Canvas.DeleteSelectedAsIntended, Canvas.DeleteAsIntendedKeepsValid |
