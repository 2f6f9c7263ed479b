/** The Den Helder scene builder: the handler state the JSON pass and the OSM
    pass fill in, the way dispatch, and the export of that state into meshes
    around the centroid of the collected coordinates. */
module DenHelderWorld {
  import opened Prelude
  import opened OsmModel
  import opened Reals
  import opened Geo
  import opened Meshes
  import opened Classify
  import opened Builders

  /** The area of interest of the scene builder. */
  const AREA: Bounds := Bounds(52.94853, 4.77914, 52.96715, 4.80407, None)

  /** A building way: its id, tag dict and node references, resolved only at
      export time. */
  datatype Building = Building(id: int, tags: Tags, refs: seq<int>)

  /** A water or land polygon, already resolved to coordinates. */
  datatype Feature = Feature(coords: seq<GeoPoint>, tags: Tags)

  /** A road polyline with the width its tags give. */
  datatype Road = Road(coords: seq<GeoPoint>, tags: Tags, width: real)

  /** The handler's state. `allCoords` feeds the centroid. */
  datatype Handler = Handler(
    nodes: map<int, GeoPoint>,
    buildings: seq<Building>,
    water: seq<Feature>,
    land: seq<Feature>,
    roads: seq<Road>,
    allCoords: seq<GeoPoint>)

  const EMPTY: Handler := Handler(map[], [], [], [], [], [])

  /** Some reference names a known node. */
  predicate AnyKnown(refs: seq<int>, nodes: map<int, GeoPoint>) {
    exists i :: 0 <= i < |refs| && refs[i] in nodes
  }

  /** Resolution against a node dictionary finds something exactly when some
      reference is known. */
  lemma ResolveNonEmptyIff(refs: seq<int>, nodes: map<int, GeoPoint>)
    ensures |Resolve(refs, InMap(nodes))| > 0 <==> AnyKnown(refs, nodes)
  {
    if AnyKnown(refs, nodes) {
      var i :| 0 <= i < |refs| && refs[i] in nodes;
      assert InMap(nodes)(refs[i]).Some?;
    }
  }

  // ---------------------------------------------------------------------------
  // JsonHandler operations.

  /** `process_way`: a building with at least one known node is kept with its
      tag dict and ALL its references, and its known points count toward the
      centre; any other way changes nothing. */
  function ProcessWay(h: Handler, id: int, tags: Tags, refs: seq<int>): (r: Handler)
    ensures r.nodes == h.nodes && r.water == h.water && r.land == h.land && r.roads == h.roads
    ensures |r.buildings| == |h.buildings| + 1 <==> AnyKnown(refs, h.nodes)
    ensures AnyKnown(refs, h.nodes) ==>
      && r.buildings == h.buildings + [Building(id, ToDict(tags), refs)]
      && r.allCoords == h.allCoords + Resolve(refs, InMap(h.nodes))
    ensures !AnyKnown(refs, h.nodes) ==> r == h
  {
    ResolveNonEmptyIff(refs, h.nodes);
    var coords := Resolve(refs, InMap(h.nodes));
    if |coords| == 0 then h
    else h.(buildings := h.buildings + [Building(id, ToDict(tags), refs)], allCoords := h.allCoords + coords)
  }

  /** `classify_feature`: a way whose known points cross the area becomes a
      water feature if its tags say water, else a land feature if they match
      the land table, else nothing. */
  function ClassifyFeature(h: Handler, refs: seq<int>, tags: Tags): (r: Handler)
    ensures r.nodes == h.nodes && r.buildings == h.buildings && r.roads == h.roads && r.allCoords == h.allCoords
    ensures |h.water| <= |r.water| <= |h.water| + 1 && r.water[..|h.water|] == h.water
    ensures |h.land| <= |r.land| <= |h.land| + 1 && r.land[..|h.land|] == h.land
    ensures |r.water| + |r.land| <= |h.water| + |h.land| + 1
    ensures |r.water| > |h.water| ==> r.water[|h.water|] == Feature(Resolve(refs, InMap(h.nodes)), tags)
    ensures |r.land| > |h.land| ==> r.land[|h.land|] == Feature(Resolve(refs, InMap(h.nodes)), tags)
  {
    var coords := Resolve(refs, InMap(h.nodes));
    if |coords| == 0 || !Crosses(coords, AREA) then h
    else if IsWater(tags) then h.(water := h.water + [Feature(coords, tags)])
    else if IsLand(tags) then h.(land := h.land + [Feature(coords, tags)])
    else h
  }

  /** The way's known points cross the area. */
  predicate InArea(refs: seq<int>, nodes: map<int, GeoPoint>) {
    var coords := Resolve(refs, InMap(nodes));
    |coords| > 0 && Crosses(coords, AREA)
  }

  /** Water wins over land: a feature is water exactly when it is in the area
      and tagged as water, and land exactly when it is in the area, matches the
      land table and is not water. */
  lemma ClassifyIff(h: Handler, refs: seq<int>, tags: Tags)
    ensures var r := ClassifyFeature(h, refs, tags);
      && (|r.water| == |h.water| + 1 <==> InArea(refs, h.nodes) && IsWater(tags))
      && (|r.land| == |h.land| + 1 <==> InArea(refs, h.nodes) && !IsWater(tags) && IsLand(tags))
  {
  }

  /** Every point lies east of `lon`. */
  predicate EastOf(ps: seq<GeoPoint>, lon: real) {
    forall i :: 0 <= i < |ps| ==> ps[i].lon > lon
  }

  /** An illustration of `ClassifyIff`: a way entirely east of the area is
      never classified, whatever its tags. */
  lemma ClassifyOutsideArea(h: Handler, refs: seq<int>, tags: Tags)
    requires EastOf(Resolve(refs, InMap(h.nodes)), AREA.maxLon)
    ensures ClassifyFeature(h, refs, tags) == h
  {
    var coords := Resolve(refs, InMap(h.nodes));
    if |coords| > 0 {
      CrossesIff(coords, AREA);
    }
  }

  /** `process_road`: a road with at least one point is kept with the width
      its tags give; it does not count toward the centre. */
  function ProcessRoad(h: Handler, coords: seq<GeoPoint>, tags: Tags): (r: Handler)
    ensures r.nodes == h.nodes && r.buildings == h.buildings && r.water == h.water && r.land == h.land
    ensures r.allCoords == h.allCoords
    ensures |coords| == 0 <==> r == h
    ensures |coords| > 0 ==> r.roads == h.roads + [Road(coords, tags, RoadWidth(tags))]
    ensures forall j :: 0 <= j < |r.roads| && j >= |h.roads| ==> 0.5 <= r.roads[j].width <= 8.0
  {
    if |coords| == 0 then h else h.(roads := h.roads + [Road(coords, tags, RoadWidth(tags))])
  }

  // ---------------------------------------------------------------------------
  // The JSON document: one pass over the nodes, then one over the ways.

  /** An element of the JSON `elements` array. A node may lack `lon` or `lat`;
      a way's `nodes` and `tags` default to empty. */
  datatype Element =
    | NodeElement(id: int, lon: Option<real>, lat: Option<real>)
    | WayElement(id: int, refs: seq<int>, tags: Tags)
    | OtherElement

  /** A node element carrying both coordinates. */
  predicate Located(e: Element) {
    e.NodeElement? && e.lon.Some? && e.lat.Some?
  }

  function PointOf(e: Element): GeoPoint
    requires Located(e)
  {
    GeoPoint(e.lon.value, e.lat.value)
  }

  /** The located node elements, in order. */
  function LocatedPoints(elems: seq<Element>): (r: seq<GeoPoint>)
    ensures |r| <= |elems|
  {
    if |elems| == 0 then []
    else
      var rest := LocatedPoints(elems[..|elems| - 1]);
      var e := elems[|elems| - 1];
      if Located(e) then rest + [PointOf(e)] else rest
  }

  /** First pass: each located node is stored (a later one with the same id
      replaces it) and its point counts toward the centre. */
  function NodePass(h: Handler, elems: seq<Element>): (r: Handler)
    ensures r.buildings == h.buildings && r.water == h.water && r.land == h.land && r.roads == h.roads
    ensures r.allCoords == h.allCoords + LocatedPoints(elems)
    ensures forall k :: k in r.nodes <==> k in h.nodes || exists i :: 0 <= i < |elems| && Located(elems[i]) && elems[i].id == k
  {
    if |elems| == 0 then h
    else
      var init := elems[..|elems| - 1];
      var e := elems[|elems| - 1];
      var mid := NodePass(h, init);
      assert forall i :: 0 <= i < |init| ==> init[i] == elems[i];
      if Located(e) then mid.(nodes := mid.nodes[e.id := PointOf(e)], allCoords := mid.allCoords + [PointOf(e)])
      else mid
  }

  /** The node a later located element with the same id gives wins. */
  lemma {:induction false} NodePassLastWins(h: Handler, elems: seq<Element>, i: nat)
    requires i < |elems| && Located(elems[i])
    requires forall j :: i < j < |elems| && Located(elems[j]) ==> elems[j].id != elems[i].id
    ensures NodePass(h, elems).nodes[elems[i].id] == PointOf(elems[i])
  {
    var init := elems[..|elems| - 1];
    if i < |elems| - 1 {
      assert forall j :: i < j < |init| ==> init[j] == elems[j];
      NodePassLastWins(h, init, i);
    }
  }

  /** Which list a way's tags send it to. */
  datatype Route = ToBuildings | ToRoads | ToFeatures | Dropped

  /** The JSON pass: `building` first; otherwise `natural` or `water`. No way
      goes to the roads, and a way with neither key is dropped. */
  function JsonRoute(tags: Tags): (r: Route)
    ensures r != ToRoads
    ensures r == ToBuildings <==> HasKey(tags, "building")
    ensures r == ToFeatures <==> !HasKey(tags, "building") && (HasKey(tags, "natural") || HasKey(tags, "water"))
    ensures r == Dropped <==> !HasKey(tags, "building") && !HasKey(tags, "natural") && !HasKey(tags, "water")
  {
    if HasKey(tags, "building") then ToBuildings
    else if HasKey(tags, "natural") || HasKey(tags, "water") then ToFeatures
    else Dropped
  }

  function JsonWay(h: Handler, e: Element): (r: Handler)
    ensures r.nodes == h.nodes && r.roads == h.roads
    ensures |h.allCoords| <= |r.allCoords| && r.allCoords[..|h.allCoords|] == h.allCoords
    ensures e.WayElement? && JsonRoute(ToDict(e.tags)) == ToBuildings ==> r == ProcessWay(h, e.id, ToDict(e.tags), e.refs)
    ensures e.WayElement? && JsonRoute(ToDict(e.tags)) == ToFeatures ==> r == ClassifyFeature(h, e.refs, ToDict(e.tags))
    ensures !e.WayElement? || JsonRoute(ToDict(e.tags)) == Dropped ==> r == h
  {
    if !e.WayElement? then h
    else
      var tags := ToDict(e.tags);
      match JsonRoute(tags)
      case ToBuildings => ProcessWay(h, e.id, tags, e.refs)
      case ToFeatures => ClassifyFeature(h, e.refs, tags)
      case _ => h
  }

  /** What a way element of the JSON document ends up as: a building exactly
      when it has a `building` key and a known node; otherwise water or land by
      `ClassifyIff`, but only when it has a `natural` or `water` key. */
  lemma JsonWayOutcome(h: Handler, id: int, refs: seq<int>, raw: Tags)
    ensures var r, tags := JsonWay(h, WayElement(id, refs, raw)), ToDict(raw);
      var feature := !HasKey(tags, "building") && (HasKey(tags, "natural") || HasKey(tags, "water"));
      && (|r.buildings| == |h.buildings| + 1 <==> HasKey(tags, "building") && AnyKnown(refs, h.nodes))
      && (|r.water| == |h.water| + 1 <==> feature && InArea(refs, h.nodes) && IsWater(tags))
      && (|r.land| == |h.land| + 1 <==> feature && InArea(refs, h.nodes) && !IsWater(tags) && IsLand(tags))
  {
    ClassifyIff(h, refs, ToDict(raw));
  }

  /** A way tagged only `waterway` is dropped by the JSON pass, while the OSM
      pass stores the same way as water when it crosses the area. */
  lemma WaterwayOnlyWay(h: Handler, id: int, refs: seq<int>, v: string)
    requires InArea(refs, h.nodes)
    ensures JsonWay(h, WayElement(id, refs, [Tag("waterway", v)])) == h
    ensures |OnWay(h, id, refs, [Tag("waterway", v)]).water| == |h.water| + 1
  {
    var raw := [Tag("waterway", v)];
    assert raw[..0] == [];
    assert ToDict(raw) == raw;
    assert HasKey(raw, "waterway");
    OnWayFeature(h, id, refs, raw);
  }

  /** Second pass: every way element in order, against the full node table. */
  function WayPass(h: Handler, elems: seq<Element>): (r: Handler)
    ensures r.nodes == h.nodes && r.roads == h.roads
    ensures |h.buildings| <= |r.buildings| && r.buildings[..|h.buildings|] == h.buildings
    ensures |h.allCoords| <= |r.allCoords| && r.allCoords[..|h.allCoords|] == h.allCoords
  {
    if |elems| == 0 then h
    else
      var mid := WayPass(h, elems[..|elems| - 1]);
      var r := JsonWay(mid, elems[|elems| - 1]);
      assert r.buildings[..|mid.buildings|] == mid.buildings;
      assert r.allCoords[..|mid.allCoords|] == mid.allCoords;
      r
  }

  /** `process_json`: nodes first, so a way may refer to a node listed after
      it; the JSON pass never produces roads. */
  function ProcessJson(h: Handler, elems: seq<Element>): (r: Handler)
    ensures r.roads == h.roads
    ensures r.nodes == NodePass(h, elems).nodes
    ensures var front := h.allCoords + LocatedPoints(elems);
      |front| <= |r.allCoords| && r.allCoords[..|front|] == front
  {
    WayPass(NodePass(h, elems), elems)
  }

  /** Node order is irrelevant to the ways: a way element placed before the
      node it names still sees that node. */
  lemma JsonForwardReference(h: Handler, elems: seq<Element>, i: nat, j: nat)
    requires i < j < |elems| && Located(elems[j])
    requires elems[i].WayElement? && elems[j].id in elems[i].refs
    ensures elems[j].id in ProcessJson(h, elems).nodes
    ensures AnyKnown(elems[i].refs, ProcessJson(h, elems).nodes)
  {
    var k :| 0 <= k < |elems[i].refs| && elems[i].refs[k] == elems[j].id;
  }

  // ---------------------------------------------------------------------------
  // The OSM file, through the osmium handler.

  /** A node whose location is invalid makes the handler skip it. */
  datatype OsmEntity =
    | OsmNode(id: int, location: Option<GeoPoint>)
    | OsmWay(id: int, refs: seq<int>, tags: Tags)

  /** `OsmHandler.node`: store the location; OSM nodes do not count toward the centre. */
  function OnNode(h: Handler, id: int, location: Option<GeoPoint>): (r: Handler)
    ensures r.buildings == h.buildings && r.water == h.water && r.land == h.land && r.roads == h.roads
    ensures r.allCoords == h.allCoords
    ensures location.Some? ==> r.nodes == h.nodes[id := location.value]
    ensures location.None? ==> r == h
  {
    match location
    case Some(p) => h.(nodes := h.nodes[id := p])
    case None => h
  }

  /** The feature keys of the OSM pass. */
  const FEATURE_KEYS: seq<string> := ["water", "waterway", "natural", "landuse", "leisure"]

  /** Some feature key is present. */
  predicate HasFeatureKey(tags: Tags) {
    exists k :: k in FEATURE_KEYS && HasKey(tags, k)
  }

  /** The OSM pass: `building`; else `highway` or `amenity`; else any feature key. */
  function OsmRoute(tags: Tags): (r: Route)
    ensures r != Dropped <==>
      HasKey(tags, "building") || HasKey(tags, "highway") || HasKey(tags, "amenity")
      || exists k :: k in FEATURE_KEYS && HasKey(tags, k)
    ensures HasKey(tags, "building") ==> r == ToBuildings
    ensures !HasKey(tags, "building") && (HasKey(tags, "highway") || HasKey(tags, "amenity")) ==> r == ToRoads
    ensures r == ToFeatures ==> !HasKey(tags, "building") && !HasKey(tags, "highway") && !HasKey(tags, "amenity")
    ensures r == ToBuildings <==> HasKey(tags, "building")
    ensures r == ToRoads <==> !HasKey(tags, "building") && (HasKey(tags, "highway") || HasKey(tags, "amenity"))
    ensures r == ToFeatures <==>
      !HasKey(tags, "building") && !HasKey(tags, "highway") && !HasKey(tags, "amenity") && HasFeatureKey(tags)
    ensures r == Dropped <==>
      !HasKey(tags, "building") && !HasKey(tags, "highway") && !HasKey(tags, "amenity") && !HasFeatureKey(tags)
  {
    if HasKey(tags, "building") then ToBuildings
    else if HasKey(tags, "highway") || HasKey(tags, "amenity") then ToRoads
    else if HasFeatureKey(tags) then ToFeatures
    else Dropped
  }

  /** An illustration of the third tier: a way tagged only `natural=wood` goes
      to the features. */
  lemma OsmRouteNaturalOnly()
    ensures OsmRoute([Tag("natural", "wood")]) == ToFeatures
  {
    var tags := [Tag("natural", "wood")];
    assert FEATURE_KEYS[2] == "natural";
    assert HasKey(tags, "natural");
    assert !HasKey(tags, "building") && !HasKey(tags, "highway") && !HasKey(tags, "amenity");
  }

  /** `OsmHandler.way`: an untagged way, a way with no known node and a way
      outside the area are skipped; otherwise the route picks the list, with
      the known references for buildings and features and the points for roads. */
  function OnWay(h: Handler, id: int, refs: seq<int>, raw: Tags): (r: Handler)
    ensures r.nodes == h.nodes
    ensures |h.allCoords| <= |r.allCoords| && r.allCoords[..|h.allCoords|] == h.allCoords
    ensures !Admitted(refs, raw, h.nodes) ==> r == h
    ensures Admitted(refs, raw, h.nodes) && OsmRoute(ToDict(raw)) == ToBuildings ==>
      r == ProcessWay(h, id, ToDict(raw), KnownRefs(refs, InMap(h.nodes)))
    ensures Admitted(refs, raw, h.nodes) && OsmRoute(ToDict(raw)) == ToRoads ==>
      r == ProcessRoad(h, Resolve(refs, InMap(h.nodes)), ToDict(raw))
    ensures Admitted(refs, raw, h.nodes) && OsmRoute(ToDict(raw)) == ToFeatures ==>
      r == ClassifyFeature(h, KnownRefs(refs, InMap(h.nodes)), ToDict(raw))
    ensures OsmRoute(ToDict(raw)) == Dropped ==> r == h
  {
    var lookup := InMap(h.nodes);
    var coords := Resolve(refs, lookup);
    var known := KnownRefs(refs, lookup);
    var tags := ToDict(raw);
    PrefixOfAppend(h.allCoords, Resolve(known, lookup));
    if |raw| == 0 || |coords| == 0 || !Crosses(coords, AREA) then h
    else
      match OsmRoute(tags)
      case ToBuildings => ProcessWay(h, id, tags, known)
      case ToRoads => ProcessRoad(h, coords, tags)
      case ToFeatures => ClassifyFeature(h, known, tags)
      case Dropped => h
  }

  /** A way the OSM pass looks at: it has tags and its known points cross the
      area. Every other way is skipped. */
  predicate Admitted(refs: seq<int>, raw: Tags, nodes: map<int, GeoPoint>) {
    |raw| > 0 && InArea(refs, nodes)
  }

  /** What an admitted way ends up as. Every list but the one the route names
      is left alone, and a building is stored with its known references and a
      road with its points, always. */
  lemma OnWayRoutes(h: Handler, id: int, refs: seq<int>, raw: Tags)
    ensures var r, route, tags := OnWay(h, id, refs, raw), OsmRoute(ToDict(raw)), ToDict(raw);
      var coords, known := Resolve(refs, InMap(h.nodes)), KnownRefs(refs, InMap(h.nodes));
      && (route != ToBuildings ==> r.buildings == h.buildings && r.allCoords == h.allCoords)
      && (route != ToRoads ==> r.roads == h.roads)
      && (route != ToFeatures ==> r.water == h.water && r.land == h.land)
      && (Admitted(refs, raw, h.nodes) && route == ToBuildings ==>
            r.buildings == h.buildings + [Building(id, tags, known)] && r.allCoords == h.allCoords + coords)
      && (Admitted(refs, raw, h.nodes) && route == ToRoads ==>
            r.roads == h.roads + [Road(coords, tags, RoadWidth(tags))])
  {
    OnWayUntouched(h, id, refs, raw);
    if Admitted(refs, raw, h.nodes) {
      OnWayStored(h, id, refs, raw);
    }
  }

  /** The lists a way is not routed to are left alone. */
  lemma OnWayUntouched(h: Handler, id: int, refs: seq<int>, raw: Tags)
    ensures var r, route := OnWay(h, id, refs, raw), OsmRoute(ToDict(raw));
      && (route != ToBuildings ==> r.buildings == h.buildings && r.allCoords == h.allCoords)
      && (route != ToRoads ==> r.roads == h.roads)
      && (route != ToFeatures ==> r.water == h.water && r.land == h.land)
  {
    var lookup := InMap(h.nodes);
    var known := KnownRefs(refs, lookup);
    ResolveKnownRefs(refs, lookup);
    ResolveNonEmptyIff(known, h.nodes);
  }

  /** An admitted building or road way is stored with the dict of its tags. */
  lemma OnWayStored(h: Handler, id: int, refs: seq<int>, raw: Tags)
    requires Admitted(refs, raw, h.nodes)
    ensures var r, route, tags := OnWay(h, id, refs, raw), OsmRoute(ToDict(raw)), ToDict(raw);
      var coords, known := Resolve(refs, InMap(h.nodes)), KnownRefs(refs, InMap(h.nodes));
      && (route == ToBuildings ==>
            r.buildings == h.buildings + [Building(id, tags, known)] && r.allCoords == h.allCoords + coords)
      && (route == ToRoads ==> r.roads == h.roads + [Road(coords, tags, RoadWidth(tags))])
  {
    var lookup := InMap(h.nodes);
    var known := KnownRefs(refs, lookup);
    ResolveKnownRefs(refs, lookup);
    ResolveNonEmptyIff(known, h.nodes);
    ToDictOfUnique(ToDict(raw));
  }

  /** An admitted way routed to the features becomes water or land exactly as
      `ClassifyIff` says, the area test being already passed. */
  lemma OnWayFeature(h: Handler, id: int, refs: seq<int>, raw: Tags)
    requires Admitted(refs, raw, h.nodes) && OsmRoute(ToDict(raw)) == ToFeatures
    ensures var r, tags := OnWay(h, id, refs, raw), ToDict(raw);
      && (|r.water| == |h.water| + 1 <==> IsWater(tags))
      && (|r.land| == |h.land| + 1 <==> !IsWater(tags) && IsLand(tags))
  {
    var lookup := InMap(h.nodes);
    var known := KnownRefs(refs, lookup);
    ResolveKnownRefs(refs, lookup);
    ClassifyIff(h, known, ToDict(raw));
  }

  /** A tagged building way with a known node inside the area is always kept,
      and its stored references resolve to the same points as the way. */
  lemma OnWayKeepsBuilding(h: Handler, id: int, refs: seq<int>, raw: Tags, i: nat)
    requires |raw| > 0 && HasKey(ToDict(raw), "building")
    requires i < |refs| && refs[i] in h.nodes
    requires var p := h.nodes[refs[i]];
      AREA.minLon <= p.lon <= AREA.maxLon && AREA.minLat <= p.lat <= AREA.maxLat
    ensures var r := OnWay(h, id, refs, raw);
      && |r.buildings| == |h.buildings| + 1
      && Resolve(r.buildings[|h.buildings|].refs, InMap(h.nodes)) == Resolve(refs, InMap(h.nodes))
      && r.allCoords == h.allCoords + Resolve(refs, InMap(h.nodes))
  {
    var lookup := InMap(h.nodes);
    var coords := Resolve(refs, lookup);
    var known := KnownRefs(refs, lookup);
    ResolveNonEmptyIff(refs, h.nodes);
    PointInsideWay(refs, h.nodes, i);
    ResolveKnownRefs(refs, lookup);
    ResolveNonEmptyIff(known, h.nodes);
  }

  /** A known node inside the area puts the way's points across the area. */
  lemma PointInsideWay(refs: seq<int>, nodes: map<int, GeoPoint>, i: nat)
    requires i < |refs| && refs[i] in nodes
    requires var p := nodes[refs[i]];
      AREA.minLon <= p.lon <= AREA.maxLon && AREA.minLat <= p.lat <= AREA.maxLat
    ensures InArea(refs, nodes)
  {
    var lookup := InMap(nodes);
    var before, after := refs[..i], refs[i..];
    assert refs == before + after;
    ResolveAppend(before, after, lookup);
    assert after == [refs[i]] + after[1..];
    ResolveAppend([refs[i]], after[1..], lookup);
    var coords := Resolve(refs, lookup);
    var at := |Resolve(before, lookup)|;
    assert coords[at] == nodes[refs[i]];
    PointInsideCrosses(coords, AREA, at);
  }

  /** The OSM file, entity by entity. */
  function ProcessOsm(h: Handler, file: seq<OsmEntity>): (r: Handler)
    ensures |h.allCoords| <= |r.allCoords| && r.allCoords[..|h.allCoords|] == h.allCoords
  {
    if |file| == 0 then h
    else
      var mid := ProcessOsm(h, file[..|file| - 1]);
      var r := match file[|file| - 1]
        case OsmNode(id, loc) => OnNode(mid, id, loc)
        case OsmWay(id, refs, tags) => OnWay(mid, id, refs, tags);
      assert r.allCoords[..|mid.allCoords|] == mid.allCoords;
      r
  }

  // ---------------------------------------------------------------------------
  // Export.

  /** A land polygon and the colour its tags pick. */
  datatype LandSurface = LandSurface(mesh: Mesh, colour: Colour)

  /** What `export_to_usd` hands to USD: the centre and the mesh of each
      `Mesh.Define` call, in call order. */
  datatype Scene = Scene(
    centre: GeoPoint,
    buildings: seq<Mesh>,
    water: seq<Mesh>,
    land: seq<LandSurface>,
    roads: seq<Mesh>)

  /** One building's mesh: its references re-resolved against the final node
      table, projected, and extruded to the building's height; `None` when none
      of them is known. */
  function BuildingMeshOf(b: Building, nodes: map<int, GeoPoint>, c: GeoPoint, parse: string -> Option<real>): (r: Option<Mesh>)
    ensures r.Some? <==> AnyKnown(b.refs, nodes)
    ensures r.Some? ==> WellFormed(r.value) && |r.value.counts| == |Resolve(b.refs, InMap(nodes))| + 2
  {
    var coords := Resolve(b.refs, InMap(nodes));
    ResolveNonEmptyIff(b.refs, nodes);
    if |coords| == 0 then None
    else
      BuildingCounts(Transform(coords, c, SCALE), GetHeight(b.tags, parse));
      Some(BuildingMesh(Transform(coords, c, SCALE), GetHeight(b.tags, parse)))
  }

  /** A building's mesh is the prism over its projected resolved points, roof
      at `GetHeight(tags) * 0.02`; undoing the projection of its ground
      vertices gives the resolved points back. */
  lemma BuildingMeshShape(b: Building, nodes: map<int, GeoPoint>, c: GeoPoint, parse: string -> Option<real>)
    requires AnyKnown(b.refs, nodes)
    ensures var m, coords := BuildingMeshOf(b, nodes, c, parse).value, Resolve(b.refs, InMap(nodes));
      && IsPrismOf(m, Transform(coords, c, SCALE), GetHeight(b.tags, parse) * HEIGHT_SCALE)
      && Untransform(GroundTrace(m.points), c, SCALE) == coords
  {
    var coords := Resolve(b.refs, InMap(nodes));
    ResolveNonEmptyIff(b.refs, nodes);
    BuildingPrism(Transform(coords, c, SCALE), GetHeight(b.tags, parse));
    TransformRoundTrip(coords, c, SCALE);
  }

  /** Every building still names a known node. */
  predicate AllKnown(bs: seq<Building>, nodes: map<int, GeoPoint>) {
    forall i :: 0 <= i < |bs| ==> AnyKnown(bs[i].refs, nodes)
  }

  /** Every building resolves exactly when all but the last do and the last does. */
  lemma AllKnownSnoc(bs: seq<Building>, nodes: map<int, GeoPoint>)
    requires |bs| > 0
    ensures AllKnown(bs, nodes) <==> AllKnown(bs[..|bs| - 1], nodes) && AnyKnown(bs[|bs| - 1].refs, nodes)
  {
    var init := bs[..|bs| - 1];
    assert forall i :: 0 <= i < |init| ==> init[i] == bs[i];
  }

  /** Buildings in order, a building left with no point skipped. */
  function BuildingMeshes(bs: seq<Building>, nodes: map<int, GeoPoint>, c: GeoPoint, parse: string -> Option<real>): (r: seq<Mesh>)
    ensures |r| <= |bs|
    ensures |r| == |bs| <==> AllKnown(bs, nodes)
    ensures forall j :: 0 <= j < |r| ==> WellFormed(r[j])
  {
    if |bs| == 0 then []
    else
      var init := bs[..|bs| - 1];
      var rest := BuildingMeshes(init, nodes, c, parse);
      AllKnownSnoc(bs, nodes);
      match BuildingMeshOf(bs[|bs| - 1], nodes, c, parse)
      case None => rest
      case Some(m) => WellFormedSnoc(rest, m); rest + [m]
  }

  /** Appending a well-formed mesh to well-formed meshes keeps them so. */
  lemma WellFormedSnoc(ms: seq<Mesh>, m: Mesh)
    requires forall j :: 0 <= j < |ms| ==> WellFormed(ms[j])
    requires WellFormed(m)
    ensures forall j :: 0 <= j < |ms| + 1 ==> WellFormed((ms + [m])[j])
  {
    forall j | 0 <= j < |ms| + 1 ensures WellFormed((ms + [m])[j]) {
      if j < |ms| {
        assert (ms + [m])[j] == ms[j];
      }
    }
  }

  /** When every building resolves, mesh `j` is the mesh of building `j`. */
  lemma {:induction false} BuildingMeshesInOrder(bs: seq<Building>, nodes: map<int, GeoPoint>, c: GeoPoint, parse: string -> Option<real>)
    requires AllKnown(bs, nodes)
    ensures |BuildingMeshes(bs, nodes, c, parse)| == |bs|
    ensures forall j :: 0 <= j < |bs| ==> BuildingMeshOf(bs[j], nodes, c, parse) == Some(BuildingMeshes(bs, nodes, c, parse)[j])
  {
    if |bs| > 0 {
      var init, last := bs[..|bs| - 1], bs[|bs| - 1];
      AllKnownSnoc(bs, nodes);
      BuildingMeshesInOrder(init, nodes, c, parse);
      var rest := BuildingMeshes(init, nodes, c, parse);
      var m := BuildingMeshOf(last, nodes, c, parse);
      assert m.Some?;
      var r := BuildingMeshes(bs, nodes, c, parse);
      assert r == rest + [m.value];
      forall j | 0 <= j < |bs| ensures BuildingMeshOf(bs[j], nodes, c, parse) == Some(r[j]) {
        if j < |init| {
          assert init[j] == bs[j] && r[j] == rest[j];
          assert BuildingMeshOf(init[j], nodes, c, parse) == Some(rest[j]);
        } else {
          assert j == |rest|;
        }
      }
    }
  }

  function WaterMeshes(fs: seq<Feature>, c: GeoPoint): (r: seq<Mesh>)
    ensures |r| == |fs|
  {
    seq(|fs|, i requires 0 <= i < |fs| => WaterMesh(Transform(fs[i].coords, c, SCALE)))
  }

  function LandSurfaces(fs: seq<Feature>, c: GeoPoint): (r: seq<LandSurface>)
    ensures |r| == |fs|
  {
    seq(|fs|, i requires 0 <= i < |fs| =>
      LandSurface(LandMesh(Transform(fs[i].coords, c, SCALE)), LandColour(LandType(fs[i].tags))))
  }

  /** Roads as `create_road` builds them (see `Builders.RoadMeshAsWritten`). */
  function RoadMeshes(rs: seq<Road>, c: GeoPoint, hypot: (real, real) -> real): (r: seq<Mesh>)
    ensures |r| == |rs|
  {
    seq(|rs|, i requires 0 <= i < |rs| =>
      RoadMeshAsWritten(Transform(rs[i].coords, c, SCALE), rs[i].width, RoadSurfaceY(rs[i].tags), hypot))
  }

  /** Roads with the corrected ribbon (see `Builders.RoadMesh`). */
  function RepairedRoadMeshes(rs: seq<Road>, c: GeoPoint, hypot: (real, real) -> real): (r: seq<Mesh>)
    ensures |r| == |rs|
    ensures forall j :: 0 <= j < |r| ==> WellFormed(r[j])
  {
    var r := seq(|rs|, i requires 0 <= i < |rs| =>
      RoadMesh(Transform(rs[i].coords, c, SCALE), rs[i].width, RoadSurfaceY(rs[i].tags), hypot));
    assert forall j :: 0 <= j < |r| ==> WellFormed(r[j]) by {
      forall j | 0 <= j < |r| ensures WellFormed(r[j]) {
        RoadMeshWellFormed(Transform(rs[j].coords, c, SCALE), rs[j].width, RoadSurfaceY(rs[j].tags), hypot);
      }
    }
    r
  }

  /** `export_to_usd`: nothing without coordinates; otherwise every item is
      projected around the centroid of the collected coordinates. */
  function Export(h: Handler, parse: string -> Option<real>, hypot: (real, real) -> real): (s: Option<Scene>)
    ensures s.None? <==> |h.allCoords| == 0
    ensures s.Some? ==>
      && |s.value.buildings| <= |h.buildings|
      && (|s.value.buildings| == |h.buildings| <==> AllKnown(h.buildings, h.nodes))
      && |s.value.water| == |h.water|
      && |s.value.land| == |h.land|
      && |s.value.roads| == |h.roads|
  {
    match Centroid(h.allCoords)
    case None => None
    case Some(c) =>
      Some(Scene(c,
        BuildingMeshes(h.buildings, h.nodes, c, parse),
        WaterMeshes(h.water, c),
        LandSurfaces(h.land, c),
        RoadMeshes(h.roads, c, hypot)))
  }

  /** Every building, water and land mesh of an exported scene is well formed;
      a road mesh is well formed exactly when no zero-length segment of the
      projected road comes before a kept one. */
  lemma ExportWellFormed(h: Handler, parse: string -> Option<real>, hypot: (real, real) -> real)
    requires |h.allCoords| > 0
    ensures var s := Export(h, parse, hypot).value;
      && (forall j :: 0 <= j < |s.buildings| ==> WellFormed(s.buildings[j]))
      && (forall j :: 0 <= j < |s.water| ==> WellFormed(s.water[j]))
      && (forall j :: 0 <= j < |s.land| ==> WellFormed(s.land[j].mesh))
      && (forall j :: 0 <= j < |s.roads| ==>
            (WellFormed(s.roads[j]) <==> NoGapBeforeKept(Transform(h.roads[j].coords, s.centre, SCALE), hypot)))
  {
    var s := Export(h, parse, hypot).value;
    var c := s.centre;
    forall j | 0 <= j < |s.water| ensures WellFormed(s.water[j]) {
      PolygonLayout(Transform(h.water[j].coords, c, SCALE), WATER_Y);
    }
    forall j | 0 <= j < |s.land| ensures WellFormed(s.land[j].mesh) {
      PolygonLayout(Transform(h.land[j].coords, c, SCALE), LAND_Y);
    }
    forall j | 0 <= j < |s.roads|
      ensures WellFormed(s.roads[j]) <==> NoGapBeforeKept(Transform(h.roads[j].coords, c, SCALE), hypot)
    {
      var r := h.roads[j];
      RoadAsWrittenInRangeIff(Transform(r.coords, c, SCALE), r.width, RoadSurfaceY(r.tags), hypot);
    }
  }

  /** The export with the corrected road ribbon: the same centre, buildings,
      water and land as `Export`, and every road mesh well formed. */
  function ExportRepaired(h: Handler, parse: string -> Option<real>, hypot: (real, real) -> real): (s: Option<Scene>)
    ensures s.None? <==> |h.allCoords| == 0
    ensures s.Some? ==>
      var e := Export(h, parse, hypot).value;
      && s.value.centre == e.centre && s.value.buildings == e.buildings
      && s.value.water == e.water && s.value.land == e.land
      && |s.value.roads| == |h.roads|
      && forall j :: 0 <= j < |s.value.roads| ==> WellFormed(s.value.roads[j])
  {
    match Export(h, parse, hypot)
    case None => None
    case Some(e) => Some(e.(roads := RepairedRoadMeshes(h.roads, e.centre, hypot)))
  }

  /** The centre lies within the bounding box of the collected coordinates,
      and the collected coordinates, projected, balance around the origin. */
  lemma ExportCentre(h: Handler, parse: string -> Option<real>, hypot: (real, real) -> real)
    requires |h.allCoords| > 0
    ensures var c := Export(h, parse, hypot).value.centre;
      && Min(Lons(h.allCoords)) <= c.lon <= Max(Lons(h.allCoords))
      && Min(Lats(h.allCoords)) <= c.lat <= Max(Lats(h.allCoords))
      && Sum(LocalXs(Transform(h.allCoords, c, SCALE))) == 0.0
      && Sum(LocalZs(Transform(h.allCoords, c, SCALE))) == 0.0
  {
    CentroidWithinBox(h.allCoords);
    CentredPointsBalance(h.allCoords, Centroid(h.allCoords).value, SCALE);
  }

  /** Water and land surfaces lose nothing: undoing the projection of a
      surface's outline gives back the feature's coordinates, in order. */
  lemma ExportSurfacesRoundTrip(h: Handler, parse: string -> Option<real>, hypot: (real, real) -> real)
    requires |h.allCoords| > 0
    ensures var s := Export(h, parse, hypot).value;
      && (forall j :: 0 <= j < |s.water| ==> Untransform(Footprint(s.water[j].points), s.centre, SCALE) == h.water[j].coords)
      && (forall j :: 0 <= j < |s.land| ==> Untransform(Footprint(s.land[j].mesh.points), s.centre, SCALE) == h.land[j].coords)
  {
    var s := Export(h, parse, hypot).value;
    var c := s.centre;
    forall j | 0 <= j < |s.water| ensures Untransform(Footprint(s.water[j].points), c, SCALE) == h.water[j].coords {
      TransformRoundTrip(h.water[j].coords, c, SCALE);
    }
    forall j | 0 <= j < |s.land| ensures Untransform(Footprint(s.land[j].mesh.points), c, SCALE) == h.land[j].coords {
      TransformRoundTrip(h.land[j].coords, c, SCALE);
    }
  }

  /** When every stored building resolves (always so after a run, see
      `RunExportsEveryBuilding`), building mesh `j` is the prism over building
      `j`'s resolved points, projected, with its roof at `GetHeight(tags) * 0.02`;
      undoing the projection of its ground vertices gives those points back. */
  lemma ExportBuildings(h: Handler, parse: string -> Option<real>, hypot: (real, real) -> real)
    requires |h.allCoords| > 0 && AllKnown(h.buildings, h.nodes)
    ensures var s := Export(h, parse, hypot).value;
      && |s.buildings| == |h.buildings|
      && forall j :: 0 <= j < |s.buildings| ==>
        && IsPrismOf(s.buildings[j], Transform(Resolve(h.buildings[j].refs, InMap(h.nodes)), s.centre, SCALE),
                     GetHeight(h.buildings[j].tags, parse) * HEIGHT_SCALE)
        && Untransform(GroundTrace(s.buildings[j].points), s.centre, SCALE) == Resolve(h.buildings[j].refs, InMap(h.nodes))
  {
    var s := Export(h, parse, hypot).value;
    var c := s.centre;
    BuildingMeshesInOrder(h.buildings, h.nodes, c, parse);
    forall j | 0 <= j < |s.buildings|
      ensures && IsPrismOf(s.buildings[j], Transform(Resolve(h.buildings[j].refs, InMap(h.nodes)), c, SCALE),
                           GetHeight(h.buildings[j].tags, parse) * HEIGHT_SCALE)
              && Untransform(GroundTrace(s.buildings[j].points), c, SCALE) == Resolve(h.buildings[j].refs, InMap(h.nodes))
    {
      BuildingMeshShape(h.buildings[j], h.nodes, c, parse);
    }
  }

  /** `main`: the OSM file first, then the JSON document, then the export. */
  function Run(file: seq<OsmEntity>, elems: seq<Element>, parse: string -> Option<real>, hypot: (real, real) -> real): (s: Option<Scene>)
    ensures s.None? <==> |ProcessJson(ProcessOsm(EMPTY, file), elems).allCoords| == 0
  {
    Export(ProcessJson(ProcessOsm(EMPTY, file), elems), parse, hypot)
  }

  /** A JSON document with a located node always yields a scene, whatever the
      OSM file held. */
  lemma RunWithLocatedNode(file: seq<OsmEntity>, elems: seq<Element>, parse: string -> Option<real>, hypot: (real, real) -> real, i: nat)
    requires i < |elems| && Located(elems[i])
    ensures Run(file, elems, parse, hypot).Some?
  {
    LocatedPointsCount(elems, i);
    var h := ProcessOsm(EMPTY, file);
    var mid := NodePass(h, elems);
    WayPassKeepsCoords(mid, elems);
  }

  lemma {:induction false} LocatedPointsCount(elems: seq<Element>, i: nat)
    requires i < |elems| && Located(elems[i])
    ensures |LocatedPoints(elems)| > 0
  {
    if i < |elems| - 1 {
      LocatedPointsCount(elems[..|elems| - 1], i);
    }
  }

  /** The way pass only ever adds coordinates. */
  lemma {:induction false} WayPassKeepsCoords(h: Handler, elems: seq<Element>)
    ensures |WayPass(h, elems).allCoords| >= |h.allCoords|
  {
    if |elems| > 0 {
      WayPassKeepsCoords(h, elems[..|elems| - 1]);
    }
  }

  // ---------------------------------------------------------------------------
  // No building is lost at export: node tables only grow, and a building is
  // stored only when one of its references is known.

  /** Known references stay known when the node table only grows. */
  lemma AllKnownGrows(bs: seq<Building>, a: map<int, GeoPoint>, b: map<int, GeoPoint>)
    requires AllKnown(bs, a) && a.Keys <= b.Keys
    ensures AllKnown(bs, b)
  {
    forall i | 0 <= i < |bs| ensures AnyKnown(bs[i].refs, b) {
      var k :| 0 <= k < |bs[i].refs| && bs[i].refs[k] in a;
    }
  }

  lemma ProcessWayKeepsKnown(h: Handler, id: int, tags: Tags, refs: seq<int>)
    requires AllKnown(h.buildings, h.nodes)
    ensures var r := ProcessWay(h, id, tags, refs); AllKnown(r.buildings, r.nodes)
  {
    var r := ProcessWay(h, id, tags, refs);
    if AnyKnown(refs, h.nodes) {
      assert forall i :: 0 <= i < |h.buildings| ==> r.buildings[i] == h.buildings[i];
    }
  }

  lemma OnWayKeepsKnown(h: Handler, id: int, refs: seq<int>, raw: Tags)
    requires AllKnown(h.buildings, h.nodes)
    ensures var r := OnWay(h, id, refs, raw); AllKnown(r.buildings, r.nodes)
  {
    var known := KnownRefs(refs, InMap(h.nodes));
    ProcessWayKeepsKnown(h, id, ToDict(raw), known);
    OnWayRoutes(h, id, refs, raw);
  }

  lemma {:induction false} ProcessOsmKeepsKnown(h: Handler, file: seq<OsmEntity>)
    requires AllKnown(h.buildings, h.nodes)
    ensures var r := ProcessOsm(h, file); AllKnown(r.buildings, r.nodes)
  {
    if |file| > 0 {
      var mid := ProcessOsm(h, file[..|file| - 1]);
      ProcessOsmKeepsKnown(h, file[..|file| - 1]);
      match file[|file| - 1]
      case OsmNode(id, loc) =>
        AllKnownGrows(mid.buildings, mid.nodes, OnNode(mid, id, loc).nodes);
      case OsmWay(id, refs, tags) =>
        OnWayKeepsKnown(mid, id, refs, tags);
    }
  }

  lemma JsonWayKeepsKnown(h: Handler, e: Element)
    requires AllKnown(h.buildings, h.nodes)
    ensures var r := JsonWay(h, e); AllKnown(r.buildings, r.nodes)
  {
    if e.WayElement? {
      ProcessWayKeepsKnown(h, e.id, ToDict(e.tags), e.refs);
    }
  }

  lemma {:induction false} WayPassKeepsKnown(h: Handler, elems: seq<Element>)
    requires AllKnown(h.buildings, h.nodes)
    ensures var r := WayPass(h, elems); AllKnown(r.buildings, r.nodes)
  {
    if |elems| > 0 {
      WayPassKeepsKnown(h, elems[..|elems| - 1]);
      JsonWayKeepsKnown(WayPass(h, elems[..|elems| - 1]), elems[|elems| - 1]);
    }
  }

  /** Every building the pipeline stores reaches the scene: the export never
      has to skip one. */
  lemma RunExportsEveryBuilding(file: seq<OsmEntity>, elems: seq<Element>, parse: string -> Option<real>, hypot: (real, real) -> real)
    ensures var h := ProcessJson(ProcessOsm(EMPTY, file), elems);
      var s := Run(file, elems, parse, hypot);
      s.Some? ==> |s.value.buildings| == |h.buildings|
  {
    var osm := ProcessOsm(EMPTY, file);
    ProcessOsmKeepsKnown(EMPTY, file);
    var mid := NodePass(osm, elems);
    AllKnownGrows(osm.buildings, osm.nodes, mid.nodes);
    WayPassKeepsKnown(mid, elems);
  }
}
