# Den Helder OSM-to-geometry pipeline, modelled in Dafny

This project models the geometric core of the Den Helder scene builder. The builder reads OpenStreetMap nodes and ways from an OSM file through an osmium handler, then from an Overpass JSON export. It sorts the ways into buildings, roads, water and land. It then projects everything around the centroid of the collected coordinates and builds polygon meshes: extruded building prisms, flat water and land polygons, and road ribbons. Two small example scripts are modelled alongside. Both re-implement parts of the same logic: node lookup, way resolution, a land/water tag scan, ring closing and the bounding-box crossing filter.

Everything is a pure function over immutable datatypes. The handler's mutable lists become a `Handler` record that each operation returns updated. Tags are an ordered sequence of key/value pairs, because the land colour depends on tag order. A Python dict built from tags is `OsmModel.ToDict`: a repeated key keeps its first position and takes its last value.

| file | module | what it holds |
|---|---|---|
| prelude.dfy | `Prelude` | `Option`, concatenation of blocks |
| osm.dfy | `OsmModel` | nodes, ways, relations, members, bounds, tags; dict lookup and construction |
| reals.dfy | `Reals` | min, max, sum, mean |
| geo.dfy | `Geo` | points, the inclusive crossing filter, reference resolution, projection, centroid |
| meshes.dfy | `Meshes` | the mesh layout (points, face vertex counts, flat index list), Python `range` |
| classify.dfy | `Classify` | building height, road width and level, water and land tests, land colour |
| builders.dfy | `Builders` | building prism, water/land polygon, road ribbon (as written and corrected) |
| world.dfy | `DenHelderWorld` | handler state, JSON pass, OSM pass, export, the whole run |
| parse_osm.dfy | `ParseOsm` | visible-node table, first-match lookup, land scan, ring closing |
| parse_osmium.dfy | `ParseOsmium` | the crossing-object handler |

Three pieces of the program are parameters rather than definitions:
- Python's `float(str)` is `parse: string -> Option<real>`, where `None` is a `ValueError`.
- The road code's `(dx*dx + dz*dz) ** 0.5` is `hypot: (real, real) -> real`. A lemma that needs an exact square root takes `ExactAt` as a hypothesis: `L * L == dx * dx + dz * dz`.
- Coordinates are exact reals.

Three behaviours of the code are easy to miss:
- The centroid averages only the JSON nodes and the points of stored buildings. Nodes from the OSM file, roads, water and land are not included.
- The JSON pass never creates roads. It sends a way to classification only when it has a `natural` or `water` key, so a `waterway`-only way is dropped there (`DenHelderWorld.WaterwayOnlyWay`).
- The road width table also has `parking_space` (2.5) and `unknown` (3) rows. So `highway=parking_space` alone gives 2.5. A missing `highway` reads as `unknown` and gives 3.

`DenHelderWorld.Export` builds roads exactly as `create_road` does, including its two defects listed under Findings, so a road mesh of the scene can index past its points. `DenHelderWorld.ExportRepaired` is the same scene with the corrected ribbon `Builders.RoadMesh`, whose road meshes are always well formed.

## Model

| member | source | states |
|---|---|---|
| OsmModel.Lookup | src/basics/den_helder_world.py:336-337 | `k in tags`/`tags.get(k)` finds a value exactly when some tag has key `k`; the value found belongs to a tag with that key |
| OsmModel.LookupFirst | src/basics/den_helder_world.py:336-337 | lookup returns the value of the first tag carrying the key |
| OsmModel.ToDict | src/basics/den_helder_world.py:644 | `{tag.k: tag.v for tag in w.tags}` has distinct keys and, for every key, the value of the LAST tag with that key |
| OsmModel.ToDictOrder | src/basics/den_helder_world.py:644 | the dict lists its keys in the order each key first occurs in the tags, the order `tags.items()` later yields |
| OsmModel.ToDictRepeatedKey | src/basics/den_helder_world.py:644 | an illustration: `[natural=wood, leisure=park, natural=scrub]` becomes `[natural=scrub, leisure=park]` |
| OsmModel.ToDictOfUnique | src/basics/den_helder_world.py:644 | tags whose keys are already distinct become a dict with the same tags in the same order |
| OsmModel.Put | src/basics/den_helder_world.py:644 | dict assignment: the assigned key reads the new value, every other key reads as before; a new key goes last |
| OsmModel.PutInPlace | src/basics/den_helder_world.py:644 | assigning to an existing key rewrites that key's slot in place and leaves every other slot as it was |
| Geo.CrossesIff | src/basics/den_helder_world.py:94-100 | the bounding-box filter passes exactly when, on each of the four sides, some point lies on the inner side (inclusive), not necessarily the same point |
| Geo.PointInsideCrosses | src/basics/den_helder_world.py:94-100 | a way with any point inside the area passes the filter |
| Geo.Resolve | src/basics/den_helder_world.py:86-91 | resolving references yields at most one point per reference, and nothing exactly when no reference is known |
| Geo.ResolveAppend | src/basics/den_helder_world.py:86-91 | resolution keeps reference order: resolving `a + b` gives the resolution of `a` followed by that of `b` |
| Geo.KnownRefs | src/basics/den_helder_world.py:636-639 | `node_refs` holds only references that were in the input and are known |
| Geo.ResolveKnownRefs | src/basics/den_helder_world.py:636-639 | resolving `node_refs` again gives exactly the points `nodes` holds |
| Geo.Transform | src/basics/den_helder_world.py:44-50 | `transform_coordinates` keeps length and order and maps point `i` to `((lon - c.lon) * scale, (lat - c.lat) * scale)` |
| Geo.TransformRoundTrip | src/basics/den_helder_world.py:44-50 | undoing the projection with the same centre and a nonzero scale gives back the original points |
| Geo.ProjectOrientation | src/basics/den_helder_world.py:44-50 | the centre maps to the origin; with a positive scale, east of the centre is `x > 0` and north is `z > 0` |
| Geo.CentroidWithinBox | src/basics/den_helder_world.py:520-521 | the mean lon and lat lie within the min and max lon and lat of the averaged points |
| Geo.Centroid | src/basics/den_helder_world.py:515-521 | the centre is the mean lon and lat of the collected coordinates, and there is none exactly when there are no coordinates; its bounds and balance are stated by `CentroidWithinBox` and `CentredPointsBalance` |
| Geo.CentroidOfUnion | src/basics/den_helder_world.py:520-521 | the centre of two groups together is their count-weighted mean, so one big group pulls the centre toward itself |
| Geo.CentredPointsBalance | src/basics/den_helder_world.py:520-521 | projected around their own centroid, the points' x values and z values each sum to zero |
| Meshes.FacesOf | src/basics/den_helder_world.py:467-482 | a mesh built face by face (`indices.extend(face); counts.append(len(face))`) has counts summing to the index-list length, and reading face `f` back from the flat list gives the `f`-th face |
| Meshes.WellFormedFromFaces | src/basics/den_helder_world.py:467-482 | such a mesh is well formed (counts match, every index names a point) exactly when every face names only existing points |
| Meshes.Range | src/basics/den_helder_world.py:467 | `range(start, stop, step)` starts at `start`, steps by `step`, stays below `stop`, reaches past `stop - step`, and is empty exactly when `stop <= start` |
| Meshes.RangeTwo | src/basics/den_helder_world.py:467-472 | `range(k, 2n, 2)` for `k` of 0 or 1 is `k, k + 2, ..., 2n - 2 + k` |
| Classify.GetHeight | src/basics/den_helder_world.py:300-329 | if every parse result is positive, the height is positive; without parseable height tags it lies in `[2.5, 12]` |
| Classify.HeightPriority | src/basics/den_helder_world.py:300-329 | a parseable `height` wins; failing that, parseable `building:levels` times 2.8; failing that, the building-kind table with default 4 when `building` is present; else 2.5 |
| Classify.BuildingKindHeight | src/basics/den_helder_world.py:317-329 | without parseable height tags, each listed building kind gets its table row (hotel 12, apartments 9, house 5, yes 4, commercial 6, industrial 8) and an unlisted kind gets 4 |
| Classify.UnparsedHeightFallsThrough | src/basics/den_helder_world.py:303-313 | an illustration of `HeightPriority`: a `height` that does not parse falls through to `building:levels` times 2.8 |
| Classify.HeightFrame | src/basics/den_helder_world.py:300-329 | only the `height`, `building:levels` and `building` tags affect the height |
| Classify.HouseHeight | src/basics/den_helder_world.py:317-329 | an illustration: a `building=house` way with no height tags is 5 high, and a way with no tags at all is 2.5 high |
| Classify.RoadWidth | src/basics/den_helder_world.py:331-361 | every road width lies in `[0.5, 8]` |
| Classify.ParkingOverride | src/basics/den_helder_world.py:354-357 | `amenity=parking_space` gives width 2.5 whatever `highway` says |
| Classify.RoadWidthByHighway | src/basics/den_helder_world.py:336-361 | without the parking amenity, every listed `highway` value gets its row of the width table |
| Classify.RoadWidthUnlisted | src/basics/den_helder_world.py:336-361 | without the parking amenity, a missing or unlisted `highway` gives width 3 |
| Classify.RoadWidthFrame | src/basics/den_helder_world.py:331-361 | two roads agreeing on `amenity` and `highway` get the same width: no other tag matters |
| Classify.RoadWidthExamples | src/basics/den_helder_world.py:331-361 | an illustration: `highway=parking_space` alone reads 2.5 from the table, the parking amenity gives 2.5 even on a motorway, and a road with no `highway` gives 3 |
| Classify.RoadSurfaceY | src/basics/den_helder_world.py:368 | the ribbon sits at 0.02 exactly when `amenity=parking_space`, else at 0.01 |
| Classify.FirstLandRule | src/basics/den_helder_world.py:117-122 | the land loop stops at the first rule, in the order natural, landuse, leisure, whose key is present with a listed value; no rule is found exactly when none matches |
| Classify.IsLandIff | src/basics/den_helder_world.py:117-122 | land exactly when `natural`, `landuse` or `leisure` carries one of its listed values |
| Classify.LandType | src/basics/den_helder_world.py:280 | the land type is the value of the first tag, in tag order, whose key is `natural`, `landuse` or `leisure`; it is "grass" when there is none |
| Classify.LandColour | src/basics/den_helder_world.py:272-281 | a land type outside the colour table gets the default green |
| Classify.LandTypeDefault | src/basics/den_helder_world.py:280-281 | a way with no `natural`, `landuse` or `leisure` key is coloured as grass, `(0.3, 0.6, 0.3)` |
| Classify.TagOrderDivergence | src/basics/den_helder_world.py:117-122 | classification and colouring can read different tags: `[leisure=park, natural=wood]` is land through the `natural` rule but is coloured as a park |
| Builders.Extrude | src/basics/den_helder_world.py:454-459 | point `2i` is footprint point `i` on the ground and point `2i + 1` the same point at roof height; `2n` points in all |
| Builders.BuildingCounts | src/basics/den_helder_world.py:445-482 | a footprint of `n` points gives `2n` points and `n + 2` faces, and the mesh is well formed |
| Builders.BuildingCaps | src/basics/den_helder_world.py:467-472 | the bottom face is the even indices and the top face the odd indices, in footprint order |
| Builders.BuildingWalls | src/basics/den_helder_world.py:477-482 | face `2 + i` is `[2i, 2i + 1, 2 next + 1, 2 next]` with `next = (i + 1) % n` |
| Builders.BuildingVertices | src/basics/den_helder_world.py:454-459 | ground points are at `y = 0` and roof points at `height * 0.02`, both over their footprint point |
| Builders.BuildingPrism | src/basics/den_helder_world.py:445-459 | the building mesh is the prism over its footprint: a ground vertex at `y = 0` then a roof vertex at `height * 0.02` over each footprint point, in order; its ground vertices read back give the footprint |
| Builders.BuildingMesh | src/basics/den_helder_world.py:445-482 | `create_building`'s mesh: the extruded footprint with its bottom, top and side faces; its shape is stated by `Extrude`, `BuildingCounts`, `BuildingCaps`, `BuildingWalls` and `BuildingPrism` |
| Builders.WallsShareEdges | src/basics/den_helder_world.py:477-482 | neighbouring walls share an edge, so the walls close into a band |
| Builders.PolygonLayout | src/basics/den_helder_world.py:220-264 | a water or land polygon is one well-formed face visiting every point once, in order, all at the given level |
| Builders.KeptFrom | src/basics/den_helder_world.py:380-389 | the segments that get a quad are exactly those with positive length, in increasing order |
| Builders.RoadAsWrittenInRangeIff | src/basics/den_helder_world.py:380-404 | the ribbon as written has 4 points and one face per kept segment, face `j` being the four indices `4 * kept[j] .. 4 * kept[j] + 3` of the `j`-th kept segment `kept[j]`; its indices stay in range exactly when no skipped segment precedes a kept one |
| Builders.RoadMeshAsWritten | src/basics/den_helder_world.py:363-404 | `create_road`'s ribbon as written: one quad of four points per kept segment, with base index `4 * i` for segment `i`; its layout and range are stated by `RoadAsWrittenInRangeIff` and `RibbonTwiceAsWide` |
| Builders.RoadAsWrittenOutOfRange | src/basics/den_helder_world.py:402 | points `(0,0), (0,0), (1,0)`: the first segment is skipped, and the one quad's 4 points are indexed 4..7 |
| Builders.RoadMeshWellFormed | src/basics/den_helder_world.py:380-404 | the corrected ribbon is always well formed and quad `j` is `4j .. 4j + 3` |
| Builders.RoadMesh | src/basics/den_helder_world.py:363-404 | the corrected ribbon: half-width offsets and base index `4 * j` for the `j`-th quad emitted; stated by `RoadMeshWellFormed` and `RibbonWidth` |
| Builders.NormalGeometry | src/basics/den_helder_world.py:390-391 | with an exact length, the offset `(-dz w / L, dx w / L)` is perpendicular to the segment and `w` long |
| Builders.RibbonTwiceAsWide | src/basics/den_helder_world.py:390-399 | as written, quad `j`'s first two points straddle the start of its segment and its last two the end, all at the surface height; its cross edge is perpendicular to the segment and `2 * width` long |
| Builders.RibbonWidth | src/basics/den_helder_world.py:390-399 | the corrected quad `j` straddles its segment the same way, and its cross edge is perpendicular and exactly `width` long |
| Builders.RibbonPlacement | src/basics/den_helder_world.py:394-399 | quad `j`'s points `4j`, `4j + 1` lie at the surface height symmetric about the start of the `j`-th kept segment, and points `4j + 2`, `4j + 3` about its end |
| DenHelderWorld.ResolveNonEmptyIff | src/basics/den_helder_world.py:289-294 | resolution against the node dict finds a point exactly when some reference is known |
| DenHelderWorld.ProcessWay | src/basics/den_helder_world.py:287-298 | a building is appended, with its tag dict and ALL its references, exactly when some reference is known; its known points then extend `all_coords`; otherwise nothing changes |
| DenHelderWorld.ClassifyFeature | src/basics/den_helder_world.py:73-122 | nodes, buildings, roads and `all_coords` stay as they were; water and land each gain at most one entry, together at most one, holding the resolved points and the tags |
| DenHelderWorld.ClassifyIff | src/basics/den_helder_world.py:93-122 | a feature becomes water exactly when it crosses the area and is water-tagged, and land exactly when it crosses the area, is not water and matches the land table |
| DenHelderWorld.ClassifyOutsideArea | src/basics/den_helder_world.py:93-100 | an illustration of `ClassifyIff`: a way whose known points all lie east of the area is never classified |
| DenHelderWorld.ProcessRoad | src/basics/den_helder_world.py:331-361 | empty `nodes` leaves the handler unchanged; otherwise exactly one road is appended with its width; roads never touch `all_coords` |
| DenHelderWorld.NodePass | src/basics/den_helder_world.py:56-62 | the node pass touches only nodes and `all_coords`; an id is known afterwards exactly when it was before or some node element with both coordinates carries it; every such node's point is appended |
| DenHelderWorld.NodePassLastWins | src/basics/den_helder_world.py:58-62 | a later node element with the same id overwrites an earlier one |
| DenHelderWorld.JsonRoute | src/basics/den_helder_world.py:64-71 | a way goes to `process_way` exactly when it has a `building` key, to `classify_feature` exactly when it has no `building` key but a `natural` or `water` key, and nowhere otherwise; never to the roads |
| DenHelderWorld.JsonWay | src/basics/den_helder_world.py:64-71 | the JSON way pass never touches nodes or roads; a building-routed way goes through `process_way` and a feature-routed way through `classify_feature`, both with the way's tag dict; a dropped way or a non-way leaves everything alone |
| DenHelderWorld.JsonWayOutcome | src/basics/den_helder_world.py:64-71 | a JSON way becomes a building exactly when it has a `building` key and a known node; it becomes water (or land) exactly when it has no `building` key, has a `natural` or `water` key, crosses the area and is water-tagged (or, not water, matches the land table) |
| DenHelderWorld.WayPass | src/basics/den_helder_world.py:64-71 | the way pass leaves nodes and roads alone; buildings and `all_coords` only grow at the end |
| DenHelderWorld.ProcessJson | src/basics/den_helder_world.py:52-71 | `process_json` never adds roads; its node table is the node pass's; `all_coords` starts with the old coordinates followed by every located node's point, in document order |
| DenHelderWorld.WaterwayOnlyWay | src/basics/den_helder_world.py:64-71 | a way tagged only `waterway` that crosses the area is dropped by the JSON pass but stored as water by the OSM pass |
| DenHelderWorld.JsonForwardReference | src/basics/den_helder_world.py:52-71 | both passes run over the whole list, so a way sees a node listed after it |
| DenHelderWorld.OnNode | src/basics/den_helder_world.py:619-624 | an OSM node with a valid location is stored or overwritten; OSM nodes never extend `all_coords` |
| DenHelderWorld.OsmRoute | src/basics/den_helder_world.py:655-672 | a way is routed somewhere exactly when it has a `building`, `highway` or `amenity` key or one of `water`, `waterway`, `natural`, `landuse`, `leisure`; `building` goes first, then `highway` or `amenity`, then the feature keys; each route is stated as an if-and-only-if on the keys present |
| DenHelderWorld.OsmRouteNaturalOnly | src/basics/den_helder_world.py:655-672 | an illustration: a way tagged only `natural=wood` goes to the features |
| DenHelderWorld.OnWay | src/basics/den_helder_world.py:626-675 | an untagged way, a way with no known node and a way outside the area leave the handler unchanged; otherwise a building goes to `process_way` with the known references, a road to `process_road` with the points and a feature to `classify_feature` with the known references, all with the tag dict; nodes never change and `all_coords` only grows |
| DenHelderWorld.OnWayRoutes | src/basics/den_helder_world.py:626-672 | only the list the route names can change; an admitted building way is always stored, with its tag dict and known references, its points extending `all_coords`; an admitted road is always stored with its points and its width |
| DenHelderWorld.OnWayFeature | src/basics/den_helder_world.py:655-672 | an admitted feature way becomes water exactly when water-tagged, and land exactly when not water-tagged and matching the land table |
| DenHelderWorld.OnWayKeepsBuilding | src/basics/den_helder_world.py:626-660 | a tagged building way with a known node inside the area is stored, its stored references resolve to the way's points, and those points extend `all_coords` |
| DenHelderWorld.ProcessOsm | src/basics/den_helder_world.py:571 | `apply_file` over the OSM file only grows `all_coords` at the end |
| DenHelderWorld.BuildingMeshOf | src/basics/den_helder_world.py:539-547 | a building gets a mesh exactly when one of its references is known in the final node table; the mesh is well formed with two faces more than the resolved points |
| DenHelderWorld.BuildingMeshShape | src/basics/den_helder_world.py:539-547 | that mesh is the prism over the building's projected resolved points with its roof at `GetHeight(tags) * 0.02`, and unprojecting its ground vertices gives the resolved points back |
| DenHelderWorld.BuildingMeshes | src/basics/den_helder_world.py:539-547 | export emits at most one mesh per building, all well formed; it emits one for every building exactly when each still names a known node |
| DenHelderWorld.BuildingMeshesInOrder | src/basics/den_helder_world.py:539-547 | when every building resolves, mesh `j` is the mesh of building `j` |
| DenHelderWorld.Export | src/basics/den_helder_world.py:510-562 | there is no scene exactly when `all_coords` is empty; otherwise there is one water, land and road mesh call per stored feature or road, roads built as `create_road` writes them, and buildings are one per stored building exactly when each resolves |
| DenHelderWorld.ExportWellFormed | src/basics/den_helder_world.py:539-562 | every building, water and land mesh of the scene is well formed; a road mesh is well formed exactly when no zero-length segment of the projected road comes before a kept one |
| DenHelderWorld.ExportRepaired | src/basics/den_helder_world.py:559-562 | with the corrected ribbon, the scene has the same centre, buildings, water and land, one road mesh per road, and every road mesh well formed |
| DenHelderWorld.RepairedRoadMeshes | src/basics/den_helder_world.py:559-562 | with the corrected ribbon, one road mesh per road, each well formed |
| DenHelderWorld.ExportCentre | src/basics/den_helder_world.py:516-521 | the centre lies within the bounding box of `all_coords`, and the projected `all_coords` balance around the origin |
| DenHelderWorld.ExportSurfacesRoundTrip | src/basics/den_helder_world.py:549-557 | undoing the projection of each water and land outline gives back the feature's coordinates |
| DenHelderWorld.ExportBuildings | src/basics/den_helder_world.py:539-547 | when every stored building resolves, building mesh `j` is the prism over building `j`'s projected resolved points, roof at `GetHeight(tags) * 0.02`, and unprojecting its ground vertices gives those points back |
| DenHelderWorld.RunWithLocatedNode | src/basics/den_helder_world.py:677-708 | a JSON document with a node carrying both coordinates always yields a scene |
| DenHelderWorld.Run | src/basics/den_helder_world.py:677-708 | `main` yields no scene exactly when the coordinates collected from the OSM file and then the JSON document are empty |
| DenHelderWorld.RunExportsEveryBuilding | src/basics/den_helder_world.py:677-708 | in a full run, node tables only grow and buildings are stored only with a known node, so export skips no building |
| ParseOsm.VisibleNodes | src/examples/parse_osm.py:77-80 | every table row comes from a visible node |
| ParseOsm.VisibleNodesComplete | src/examples/parse_osm.py:77-80 | every visible node has a row |
| ParseOsm.VisibleNodesAppend | src/examples/parse_osm.py:77-80 | the rows keep the nodes' order: the table of `a + b` is the table of `a` followed by that of `b` |
| ParseOsm.FindNodeById | src/examples/parse_osm.py:13-20 | the lookup returns the coordinates of the first row with the id, and nothing (the NaN pair) exactly when no row has it |
| ParseOsm.FindIgnoresLaterRows | src/examples/parse_osm.py:13-20 | a row appended later never shadows an id already found |
| ParseOsm.ProcessWay | src/examples/parse_osm.py:22-34 | the lon and lat lists have equal length, at most one entry per reference, and are empty exactly when no reference is found |
| ParseOsm.ProcessWayColumns | src/examples/parse_osm.py:22-34 | zipped back together, the two lists are the resolved points in reference order |
| ParseOsm.ProcessWayAppend | src/examples/parse_osm.py:28-32 | the lists for `a + b` are those for `a` followed by those for `b` |
| ParseOsm.ScanTags | src/examples/parse_osm.py:88-114 | a way is land exactly when its first decisive tag is a land tag, the land test coming before the water test on each tag |
| ParseOsm.TagVerdict | src/examples/parse_osm.py:91-114 | a tag says land exactly when it is a listed land tag, and water exactly when it is a listed water tag and not a land tag |
| ParseOsm.ScanOrderMatters | src/examples/parse_osm.py:88-114 | `[natural=wood, waterway=river]` is land, the reverse order is not |
| ParseOsm.NoDecisiveTag | src/examples/parse_osm.py:88-116 | a way with no decisive tag is not land |
| ParseOsm.CloseRing | src/examples/parse_osm.py:124-127 | the closed ring begins with the input, grows by at most one point, ends where it starts, and an already closed ring is unchanged |
| ParseOsm.CloseRingIdempotent | src/examples/parse_osm.py:124-127 | closing a ring twice is closing it once |
| ParseOsm.LandRings | src/examples/parse_osm.py:119-128 | at most one ring per way, each non-empty and closed |
| ParseOsm.LandRingsSingle | src/examples/parse_osm.py:84-128 | one way contributes the closed outline of its resolved points when it is a visible land way with at least one resolved point, and nothing otherwise |
| ParseOsm.LandRingsAppend | src/examples/parse_osm.py:84-128 | ways are drawn in order and independently: the rings of `a + b` are those of `a` followed by those of `b` |
| ParseOsm.VisualizeLand | src/examples/parse_osm.py:72-128 | at most one ring per way, each non-empty and closed, against the visible-node table |
| ParseOsm.InvisibleWaySkipped | src/examples/parse_osm.py:84-86 | an invisible way is never drawn, wherever it stands among the other ways |
| ParseOsm.InvisibleWaysDrawNothing | src/examples/parse_osm.py:84-86 | a file whose ways are all invisible draws nothing |
| ParseOsmium.OnNode | src/examples/parse_osmium.py:22-24 | the node's id maps to its location; every other id is unchanged |
| ParseOsmium.LastWriteWins | src/examples/parse_osmium.py:22-24 | after a run of nodes, an id holds the location of its last write |
| ParseOsmium.OnWay | src/examples/parse_osmium.py:26-44 | at most one entry is appended, holding the id, the ordered tag pairs and ALL references; a way with no known reference stores nothing |
| ParseOsmium.OnWayStoredIff | src/examples/parse_osmium.py:38-44 | a way is stored exactly when, on each of the four sides, some known point lies on the inner side (inclusive) |
| ParseOsmium.StraddlingWayStored | src/examples/parse_osmium.py:38-40 | an illustration of `OnWayStoredIff`: a way crossing the area with no point inside it is still stored |
| ParseOsmium.ApplyFile | src/examples/parse_osmium.py:49 | `apply_file` keeps the stored crossing ways as a prefix and adds at most one per entity |

## Left out

- USD authoring: stage, prims, attributes, materials, shaders, primvars and material binding. The model stops at each mesh's points, face vertex counts and indices. Road, water and building colours are not modelled.
- The ground plane and its texture, `fetch_tiles`, `deg2num` and the tile download: these are network I/O, image handling and floating-point trigonometry.
- Plotting in both example scripts, numba, printing, file paths and `os.path.exists`.
- The exception wrappers. `OsmHandler.node` is modelled as skipping a node whose location is invalid. Other caught exceptions have no counterpart, because the model cannot raise them.
- `LandHandler.node` in the osmium script has no exception wrapper. An invalid location there is not modelled.
- IEEE floating point: coordinates and sums are exact reals. For example, `52.96 + 0.005` is exactly 52.965.
- Float parsing and the square root are function parameters, as described above.
- `classify_feature` also accepts coordinate pairs and osmium node objects among a way's nodes. Both callers pass integer references, so only that branch is modelled.
- `classify_feature` converts an osmium `TagList` into a dict. Both callers already pass a dict, so that conversion is not modelled.
- A JSON element's `tags` object is modelled as its key/value pairs read through `OsmModel.ToDict`, because a JSON object with a repeated key keeps the last value. `process_way`'s own `dict(...)` copy is the identity on such a dict (`OsmModel.ToDictOfUnique`).
- `visualize_osm` in the OSM example script only plots the nodes and ways; it is not part of this model. `process_nodes` returns its arguments unchanged, so the model has nothing to state about it.
- `LandHandler.land_ways` and `land_tags` are never filled by the script, so they are not modelled.
- The `src/osm` entity classes are mirrored as datatypes only. `OSM.from_xml` is a field-by-field XML wrapper and is not part of this model.
- The demo scripts, which are fixed USD and PIL calls, are not part of this model.
- Prim paths. `create_water_feature`, `create_land_feature` and `create_road` name their prim after the length of the whole list (`water_{len(self.water_features)}`, `land_...`, `road_...`), which stays fixed during the export loop. So each later `Mesh.Define` of the same kind re-authors one prim, and the file keeps one water, one land and one road mesh, the last written. `create_building` names its prim after the way id, so a way stored twice (once from each input) also ends as one prim. The model stops at the mesh of each call, in call order, and does not model the USD stage that merges them.

## Findings

| source | as written | input that shows it | evidently intended | confidence | as-written member | corrected member |
|---|---|---|---|---|---|---|
| src/basics/den_helder_world.py:390-391 | the offset `(nx, nz)` has length `width` and is applied on both sides, so the ribbon is `2 * width` wide | any kept segment, e.g. width 3 gives a ribbon 6 wide | offset `width / 2` on each side, so the ribbon is `width` wide | medium, not executed | Builders.RibbonTwiceAsWide | Builders.RibbonWidth |
| src/basics/den_helder_world.py:402 | a quad's base index is `i * 4` for segment `i`, counting segments that were skipped for zero length | points `(0,0), (0,0), (1,0)`: 4 points, indices 4..7 | base `4 * (number of quads already emitted)` | high, not executed | Builders.RoadAsWrittenOutOfRange | Builders.RoadMeshWellFormed |
