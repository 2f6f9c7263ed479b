/** The land plot of the OSM example script: the visible-node table, the
    first-match node lookup, way resolution into lon and lat lists, the
    order-dependent land/water tag scan and polygon ring closing. */
module ParseOsm {
  import opened Prelude
  import opened OsmModel
  import opened Geo

  /** One row of the three parallel id / lon / lat arrays. */
  datatype NodeEntry = NodeEntry(id: int, lon: real, lat: real)

  function EntryOf(n: Node): NodeEntry {
    NodeEntry(n.id, n.lon, n.lat)
  }

  /** `[node for node in osm.nodes if node.visible]`, as table rows. */
  function VisibleNodes(nodes: seq<Node>): (r: seq<NodeEntry>)
    ensures |r| <= |nodes|
    ensures forall j :: 0 <= j < |r| ==> exists i :: 0 <= i < |nodes| && nodes[i].visible && r[j] == EntryOf(nodes[i])
  {
    if |nodes| == 0 then []
    else
      var rest := VisibleNodes(nodes[1..]);
      assert forall i :: 1 <= i < |nodes| ==> nodes[i] == nodes[1..][i - 1];
      var n := nodes[0];
      if n.visible then [EntryOf(n)] + rest else rest
  }

  /** Every visible node has a row. */
  lemma {:induction false} VisibleNodesComplete(nodes: seq<Node>, i: nat)
    requires i < |nodes| && nodes[i].visible
    ensures EntryOf(nodes[i]) in VisibleNodes(nodes)
  {
    if i > 0 {
      assert nodes[1..][i - 1] == nodes[i];
      VisibleNodesComplete(nodes[1..], i - 1);
    }
  }

  /** The rows keep the nodes' order: the table of `a + b` is the table of `a`
      followed by the table of `b`. */
  lemma {:induction false} VisibleNodesAppend(a: seq<Node>, b: seq<Node>)
    ensures VisibleNodes(a + b) == VisibleNodes(a) + VisibleNodes(b)
  {
    if |a| > 0 {
      assert (a + b)[0] == a[0] && (a + b)[1..] == a[1..] + b;
      VisibleNodesAppend(a[1..], b);
    } else {
      assert a + b == b;
    }
  }

  /** `find_node_by_id`: the coordinates of the FIRST row with the id, or
      nothing (the NaN pair) when no row has it. */
  function FindNodeById(table: seq<NodeEntry>, id: int): (r: Option<GeoPoint>)
    ensures r.None? <==> forall i :: 0 <= i < |table| ==> table[i].id != id
    ensures r.Some? ==> exists i :: (0 <= i < |table| && table[i].id == id
      && r.value == GeoPoint(table[i].lon, table[i].lat)
      && forall j :: 0 <= j < i ==> table[j].id != id)
  {
    if |table| == 0 then None
    else if table[0].id == id then Some(GeoPoint(table[0].lon, table[0].lat))
    else
      assert forall i :: 1 <= i < |table| ==> table[i] == table[1..][i - 1];
      var r := FindNodeById(table[1..], id);
      if r.Some? then
        var i :| 0 <= i < |table[1..]| && table[1..][i].id == id
          && r.value == GeoPoint(table[1..][i].lon, table[1..][i].lat)
          && forall j :: 0 <= j < i ==> table[1..][j].id != id;
        assert table[i + 1] == table[1..][i];
        r
      else r
  }

  /** A duplicated id is answered by its first row: a later row cannot shadow it. */
  lemma FindIgnoresLaterRows(table: seq<NodeEntry>, extra: seq<NodeEntry>, id: int)
    requires FindNodeById(table, id).Some?
    ensures FindNodeById(table + extra, id) == FindNodeById(table, id)
  {
    var t := table + extra;
    var i :| 0 <= i < |table| && table[i].id == id
      && FindNodeById(table, id).value == GeoPoint(table[i].lon, table[i].lat)
      && forall j :: 0 <= j < i ==> table[j].id != id;
    assert forall j :: 0 <= j < |table| ==> t[j] == table[j];
    var k :| 0 <= k < |t| && t[k].id == id
      && FindNodeById(t, id).value == GeoPoint(t[k].lon, t[k].lat)
      && forall j :: 0 <= j < k ==> t[j].id != id;
  }

  /** The lookup `process_way` resolves references with. */
  function Finder(table: seq<NodeEntry>): int -> Option<GeoPoint> {
    id => FindNodeById(table, id)
  }

  /** `process_way`: the longitudes and latitudes of the references that are
      found, in reference order. */
  function ProcessWay(refs: seq<int>, table: seq<NodeEntry>): (r: (seq<real>, seq<real>))
    ensures |r.0| == |r.1| <= |refs|
    ensures |r.0| == 0 <==> forall i :: 0 <= i < |refs| ==> FindNodeById(table, refs[i]).None?
  {
    var ps := Resolve(refs, Finder(table));
    (Lons(ps), Lats(ps))
  }

  /** Pairing the two lists back up gives the resolved points: the lists are
      columns of one point list, element for element. */
  function Zip(lons: seq<real>, lats: seq<real>): (ps: seq<GeoPoint>)
    requires |lons| == |lats|
    ensures |ps| == |lons|
  {
    seq(|lons|, i requires 0 <= i < |lons| => GeoPoint(lons[i], lats[i]))
  }

  lemma ProcessWayColumns(refs: seq<int>, table: seq<NodeEntry>)
    ensures var r := ProcessWay(refs, table);
      Zip(r.0, r.1) == Resolve(refs, Finder(table))
  {
  }

  /** Resolution goes reference by reference: the lists of a concatenation are
      the concatenated lists. */
  lemma ProcessWayAppend(a: seq<int>, b: seq<int>, table: seq<NodeEntry>)
    ensures ProcessWay(a + b, table).0 == ProcessWay(a, table).0 + ProcessWay(b, table).0
    ensures ProcessWay(a + b, table).1 == ProcessWay(a, table).1 + ProcessWay(b, table).1
  {
    var pa, pb := Resolve(a, Finder(table)), Resolve(b, Finder(table));
    ResolveAppend(a, b, Finder(table));
    assert Lons(pa + pb) == Lons(pa) + Lons(pb);
    assert Lats(pa + pb) == Lats(pa) + Lats(pb);
  }

  // ---------------------------------------------------------------------------
  // The land scan.

  /** What one tag says about a way. */
  datatype Verdict = Land | Water | Undecided

  const LAND_USES: seq<string> := ["residential", "forest", "farmland", "grass", "meadow", "industrial", "commercial"]
  const NATURAL_LANDS: seq<string> := ["land", "wood", "scrub", "heath", "grassland"]
  const NATURAL_WATERS: seq<string> := ["water", "bay", "strait"]

  predicate IsLandTag(t: Tag) {
    || t == Tag("natural", "coastline")
    || (t.key == "landuse" && t.value in LAND_USES)
    || (t.key == "natural" && t.value in NATURAL_LANDS)
  }

  predicate IsWaterTag(t: Tag) {
    || (t.key == "natural" && t.value in NATURAL_WATERS)
    || t.key == "waterway"
    || t.key == "water"
  }

  /** The land test runs before the water test on each tag. */
  function TagVerdict(t: Tag): (v: Verdict)
    ensures v == Land <==> IsLandTag(t)
    ensures v == Water <==> !IsLandTag(t) && IsWaterTag(t)
  {
    if IsLandTag(t) then Land else if IsWaterTag(t) then Water else Undecided
  }

  /** The `for tag in way.tags` loop with its two `break`s. */
  function ScanTags(tags: Tags): (isLand: bool)
    ensures isLand <==> exists i :: (0 <= i < |tags| && TagVerdict(tags[i]) == Land
      && forall j :: 0 <= j < i ==> TagVerdict(tags[j]) == Undecided)
  {
    if |tags| == 0 then false
    else
      var rest := ScanTags(tags[1..]);
      assert forall i :: 1 <= i < |tags| ==> tags[i] == tags[1..][i - 1];
      match TagVerdict(tags[0])
      case Land => true
      case Water => false
      case Undecided =>
        if rest then
          var i :| 0 <= i < |tags[1..]| && TagVerdict(tags[1..][i]) == Land
            && forall j :: 0 <= j < i ==> TagVerdict(tags[1..][j]) == Undecided;
          assert TagVerdict(tags[i + 1]) == Land;
          rest
        else rest
  }

  /** A way with no decisive tag is not land. */
  lemma NoDecisiveTag(tags: Tags)
    requires forall i :: 0 <= i < |tags| ==> TagVerdict(tags[i]) == Undecided
    ensures !ScanTags(tags)
  {
  }

  /** The scan depends on tag order: the same two tags make land in one order
      and not in the other. */
  lemma ScanOrderMatters()
    ensures ScanTags([Tag("natural", "wood"), Tag("waterway", "river")])
    ensures !ScanTags([Tag("waterway", "river"), Tag("natural", "wood")])
  {
    var a := [Tag("natural", "wood"), Tag("waterway", "river")];
    assert TagVerdict(a[0]) == Land;
    var b := [Tag("waterway", "river"), Tag("natural", "wood")];
    assert TagVerdict(b[0]) == Water;
  }

  /** An invisible way is never land. */
  predicate IsLandWay(w: Way) {
    w.visible && ScanTags(w.tags)
  }

  // ---------------------------------------------------------------------------
  // Ring closing.

  /** Append the first point when the last differs from it in lon or lat. */
  function CloseRing(ps: seq<GeoPoint>): (r: seq<GeoPoint>)
    ensures |ps| <= |r| <= |ps| + 1 && r[..|ps|] == ps
    ensures |ps| > 0 ==> r[0] == r[|r| - 1]
    ensures |ps| > 0 && ps[0] == ps[|ps| - 1] ==> r == ps
  {
    if |ps| > 0 && (ps[0].lon != ps[|ps| - 1].lon || ps[0].lat != ps[|ps| - 1].lat) then ps + [ps[0]]
    else ps
  }

  /** Closing a closed ring changes nothing. */
  lemma CloseRingIdempotent(ps: seq<GeoPoint>)
    ensures CloseRing(CloseRing(ps)) == CloseRing(ps)
  {
  }

  /** A drawable ring: at least one point, and the last point is the first. */
  predicate IsClosedRing(ring: seq<GeoPoint>) {
    |ring| > 0 && ring[0] == ring[|ring| - 1]
  }

  /** The filled outline of each visible land way that resolves to at least
      one point, ways in order. */
  function LandRings(ways: seq<Way>, table: seq<NodeEntry>): (r: seq<seq<GeoPoint>>)
    ensures |r| <= |ways|
    ensures forall j :: 0 <= j < |r| ==> IsClosedRing(r[j])
  {
    if |ways| == 0 then []
    else
      var rest := LandRings(ways[1..], table);
      var w := ways[0];
      var ps := Resolve(w.nodes, Finder(table));
      if IsLandWay(w) && |w.nodes| > 0 && |ps| > 0 then [CloseRing(ps)] + rest else rest
  }

  /** `visualize_land`'s geometry: the visible nodes form the lookup table. */
  function VisualizeLand(osm: Osm): (r: seq<seq<GeoPoint>>)
    ensures |r| <= |osm.ways|
    ensures forall j :: 0 <= j < |r| ==> IsClosedRing(r[j])
  {
    LandRings(osm.ways, VisibleNodes(osm.nodes))
  }

  /** One way's contribution: the closed outline of a visible land way that
      resolves to at least one point, and nothing for any other way. */
  lemma LandRingsSingle(w: Way, table: seq<NodeEntry>)
    ensures var ps := Resolve(w.nodes, Finder(table));
      LandRings([w], table) == if IsLandWay(w) && |ps| > 0 then [CloseRing(ps)] else []
  {
    assert [w][1..] == [];
  }

  /** Ways are drawn in order, each on its own: the rings of `a + b` are those
      of `a` followed by those of `b`. */
  lemma {:induction false} LandRingsAppend(a: seq<Way>, b: seq<Way>, table: seq<NodeEntry>)
    ensures LandRings(a + b, table) == LandRings(a, table) + LandRings(b, table)
  {
    if |a| > 0 {
      assert (a + b)[0] == a[0] && (a + b)[1..] == a[1..] + b;
      LandRingsAppend(a[1..], b, table);
    } else {
      assert a + b == b;
    }
  }

  /** An invisible way is never drawn, wherever it stands among the others. */
  lemma InvisibleWaySkipped(a: seq<Way>, w: Way, b: seq<Way>, table: seq<NodeEntry>)
    requires !w.visible
    ensures LandRings(a + [w] + b, table) == LandRings(a + b, table)
  {
    LandRingsAppend(a + [w], b, table);
    LandRingsAppend(a, [w], table);
    LandRingsSingle(w, table);
    LandRingsAppend(a, b, table);
  }

  /** Only land ways are drawn: a file whose ways are all invisible draws nothing. */
  lemma {:induction false} InvisibleWaysDrawNothing(ways: seq<Way>, table: seq<NodeEntry>)
    requires forall i :: 0 <= i < |ways| ==> !ways[i].visible
    ensures LandRings(ways, table) == []
  {
    if |ways| > 0 {
      assert forall i :: 1 <= i < |ways| ==> ways[1..][i - 1] == ways[i];
      InvisibleWaysDrawNothing(ways[1..], table);
    }
  }
}
