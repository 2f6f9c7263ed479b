/** The crossing-object analysis of the osmium example script: a node table
    filled from the file, and the ways whose resolved points cross a small
    area, stored with their tags and all their references. */
module ParseOsmium {
  import opened Prelude
  import opened OsmModel
  import opened Geo

  /** The area of interest: lat 52.96 to 52.96 + 0.005. */
  const AREA: Bounds := Bounds(52.96, 4.78575, 52.96 + 0.005, 4.78775, None)

  /** `(way_id, tags, nodes)`: the tags as ordered `(k, v)` pairs and every
      reference, known or not. */
  datatype CrossingWay = CrossingWay(id: int, tags: Tags, refs: seq<int>)

  datatype LandHandler = LandHandler(nodes: map<int, GeoPoint>, crossing: seq<CrossingWay>)

  const EMPTY: LandHandler := LandHandler(map[], [])

  /** `LandHandler.node`: store or overwrite the node's location. */
  function OnNode(h: LandHandler, id: int, p: GeoPoint): (r: LandHandler)
    ensures r.crossing == h.crossing
    ensures id in r.nodes && r.nodes[id] == p
    ensures forall k :: k != id ==> (k in r.nodes <==> k in h.nodes)
    ensures forall k :: k != id && k in h.nodes ==> r.nodes[k] == h.nodes[k]
  {
    h.(nodes := h.nodes[id := p])
  }

  /** Node entities one after another. */
  function OnNodes(h: LandHandler, ns: seq<(int, GeoPoint)>): (r: LandHandler)
    ensures r.crossing == h.crossing
    ensures forall k :: k in r.nodes <==> k in h.nodes || exists i :: 0 <= i < |ns| && ns[i].0 == k
  {
    if |ns| == 0 then h
    else
      var init := ns[..|ns| - 1];
      assert forall i :: 0 <= i < |init| ==> init[i] == ns[i];
      OnNode(OnNodes(h, init), ns[|ns| - 1].0, ns[|ns| - 1].1)
  }

  /** The last write for an id wins. */
  lemma {:induction false} LastWriteWins(h: LandHandler, ns: seq<(int, GeoPoint)>, i: nat)
    requires i < |ns|
    requires forall j :: i < j < |ns| ==> ns[j].0 != ns[i].0
    ensures OnNodes(h, ns).nodes[ns[i].0] == ns[i].1
  {
    if i < |ns| - 1 {
      var init := ns[..|ns| - 1];
      assert forall j :: i < j < |init| ==> init[j] == ns[j];
      LastWriteWins(h, init, i);
    }
  }

  /** `LandHandler.way`: store the way when its known points cross the area. */
  function OnWay(h: LandHandler, id: int, refs: seq<int>, tags: Tags): (r: LandHandler)
    ensures r.nodes == h.nodes
    ensures |h.crossing| <= |r.crossing| <= |h.crossing| + 1 && r.crossing[..|h.crossing|] == h.crossing
    ensures |r.crossing| > |h.crossing| ==> r.crossing[|h.crossing|] == CrossingWay(id, tags, refs)
    ensures (forall i :: 0 <= i < |refs| ==> refs[i] !in h.nodes) ==> r == h
  {
    var coords := Resolve(refs, InMap(h.nodes));
    if |coords| == 0 then h
    else if Crosses(coords, AREA) then h.(crossing := h.crossing + [CrossingWay(id, tags, refs)])
    else h
  }

  /** A way is stored exactly when some known point is west of the east edge,
      some east of the west edge, some south of the north edge and some north
      of the south edge (not necessarily the same point). */
  lemma OnWayStoredIff(h: LandHandler, id: int, refs: seq<int>, tags: Tags)
    ensures var r, ps := OnWay(h, id, refs, tags), Resolve(refs, InMap(h.nodes));
      |r.crossing| == |h.crossing| + 1 <==>
        && (exists i :: 0 <= i < |ps| && ps[i].lon <= AREA.maxLon)
        && (exists i :: 0 <= i < |ps| && ps[i].lon >= AREA.minLon)
        && (exists i :: 0 <= i < |ps| && ps[i].lat <= AREA.maxLat)
        && (exists i :: 0 <= i < |ps| && ps[i].lat >= AREA.minLat)
  {
    var ps := Resolve(refs, InMap(h.nodes));
    if |ps| > 0 {
      CrossesIff(ps, AREA);
    }
  }

  /** An illustration of `OnWayStoredIff`: a way straddling the area without
      any point inside it is still stored, because the filter compares the
      bounding boxes, not the points. */
  lemma StraddlingWayStored(h: LandHandler)
    requires 1 in h.nodes && 2 in h.nodes
    requires h.nodes[1] == GeoPoint(4.78, 52.962) && h.nodes[2] == GeoPoint(4.79, 52.962)
    ensures |OnWay(h, 7, [1, 2], []).crossing| == |h.crossing| + 1
  {
    var ps := Resolve([1, 2], InMap(h.nodes));
    assert ps == [GeoPoint(4.78, 52.962), GeoPoint(4.79, 52.962)];
    OnWayStoredIff(h, 7, [1, 2], []);
    assert ps[1].lon >= AREA.minLon && ps[0].lon <= AREA.maxLon;
  }

  /** An osmium entity of the file. */
  datatype Entity = NodeEntity(id: int, p: GeoPoint) | WayEntity(id: int, refs: seq<int>, tags: Tags)

  /** `apply_file`: entities in file order. */
  function ApplyFile(h: LandHandler, file: seq<Entity>): (r: LandHandler)
    ensures |h.crossing| <= |r.crossing| && r.crossing[..|h.crossing|] == h.crossing
    ensures |r.crossing| - |h.crossing| <= |file|
  {
    if |file| == 0 then h
    else
      var mid := ApplyFile(h, file[..|file| - 1]);
      var r := match file[|file| - 1]
        case NodeEntity(id, p) => OnNode(mid, id, p)
        case WayEntity(id, refs, tags) => OnWay(mid, id, refs, tags);
      assert r.crossing[..|mid.crossing|] == mid.crossing;
      r
  }
}
