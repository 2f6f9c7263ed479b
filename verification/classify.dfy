/** What a way's tags decide: building height, road width and surface level,
    water and land membership, and the land colour. */
module Classify {
  import opened Prelude
  import opened OsmModel

  /** One row of a fixed `{key: number}` table. */
  datatype Entry = Entry(key: string, value: real)

  /** `table.get(k, default)`. */
  function TableGet(table: seq<Entry>, k: string, default: real): (r: real)
    ensures (forall i :: 0 <= i < |table| ==> table[i].key != k) ==> r == default
    ensures (exists i :: 0 <= i < |table| && table[i].key == k) ==>
      exists i :: 0 <= i < |table| && table[i].key == k && r == table[i].value
  {
    if |table| == 0 then default
    else if table[0].key == k then table[0].value
    else
      assert forall i :: 1 <= i < |table| ==> table[1..][i - 1] == table[i];
      TableGet(table[1..], k, default)
  }

  /** No key occurs twice in the table. */
  predicate DistinctKeys(table: seq<Entry>) {
    forall i, j :: 0 <= i < j < |table| ==> table[i].key != table[j].key
  }

  /** In a table without repeated keys every row is found by its key. */
  lemma {:induction false} TableGetRow(table: seq<Entry>, i: nat, default: real)
    requires DistinctKeys(table) && i < |table|
    ensures TableGet(table, table[i].key, default) == table[i].value
  {
    if i > 0 {
      assert table[0].key != table[i].key;
      assert table[1..][i - 1] == table[i];
      TableGetRow(table[1..], i - 1, default);
    }
  }

  /** Every value the table or its default can produce lies in `[lo, hi]`. */
  lemma {:induction false} TableGetWithin(table: seq<Entry>, k: string, default: real, lo: real, hi: real)
    requires lo <= default <= hi
    requires forall i :: 0 <= i < |table| ==> lo <= table[i].value <= hi
    ensures lo <= TableGet(table, k, default) <= hi
  {
    if |table| > 0 && table[0].key != k {
      TableGetWithin(table[1..], k, default, lo, hi);
    }
  }

  // ---------------------------------------------------------------------------
  // Building height.

  /** Metres per storey when only `building:levels` is known. */
  const LEVEL_HEIGHT: real := 2.8
  /** A `building` without a listed kind. */
  const BUILDING_DEFAULT_HEIGHT: real := 4.0
  /** A way that is not even tagged `building`. */
  const UNTAGGED_HEIGHT: real := 2.5

  const BUILDING_HEIGHTS: seq<Entry> := [
    Entry("hotel", 12.0),
    Entry("apartments", 9.0),
    Entry("house", 5.0),
    Entry("yes", 4.0),
    Entry("commercial", 6.0),
    Entry("industrial", 8.0)
  ]

  /** `float(tags[k])` when `k` is present and the text parses; `parse` stands
      for Python's `float(str)`, `None` for its `ValueError`. */
  function ParsedTag(tags: Tags, k: string, parse: string -> Option<real>): (r: Option<real>)
    ensures r.Some? ==> HasKey(tags, k) && parse(Lookup(tags, k).value) == r
    ensures HasKey(tags, k) && parse(Lookup(tags, k).value).Some? ==> r.Some?
  {
    match Lookup(tags, k)
    case None => None
    case Some(v) => parse(v)
  }

  /** `get_height`: an explicit height, else storeys times 2.8, else the
      default of the building kind, else 2.5. */
  function GetHeight(tags: Tags, parse: string -> Option<real>): (h: real)
    ensures (forall s :: parse(s).Some? ==> parse(s).value > 0.0) ==> h > 0.0
    ensures ParsedTag(tags, "height", parse).None? && ParsedTag(tags, "building:levels", parse).None? ==>
      2.5 <= h <= 12.0
  {
    match (ParsedTag(tags, "height", parse), ParsedTag(tags, "building:levels", parse), Lookup(tags, "building"))
    case (Some(height), _, _) => height
    case (None, Some(levels), _) => levels * LEVEL_HEIGHT
    case (None, None, Some(kind)) =>
      TableGetWithin(BUILDING_HEIGHTS, kind, BUILDING_DEFAULT_HEIGHT, 4.0, 12.0);
      TableGet(BUILDING_HEIGHTS, kind, BUILDING_DEFAULT_HEIGHT)
    case (None, None, None) => UNTAGGED_HEIGHT
  }

  /** The tiers in priority order: a parseable `height` decides alone; failing
      that a parseable `building:levels`; failing both, the building kind;
      failing all three, 2.5. */
  lemma HeightPriority(tags: Tags, parse: string -> Option<real>)
    ensures ParsedTag(tags, "height", parse).Some? ==>
      GetHeight(tags, parse) == parse(Lookup(tags, "height").value).value
    ensures ParsedTag(tags, "height", parse).None? && ParsedTag(tags, "building:levels", parse).Some? ==>
      GetHeight(tags, parse) == parse(Lookup(tags, "building:levels").value).value * 2.8
    ensures ParsedTag(tags, "height", parse).None? && ParsedTag(tags, "building:levels", parse).None? ==>
      GetHeight(tags, parse) ==
        if HasKey(tags, "building") then TableGet(BUILDING_HEIGHTS, Lookup(tags, "building").value, 4.0) else 2.5
  {
  }

  /** Only the `height`, `building:levels` and `building` tags matter. */
  lemma HeightFrame(a: Tags, b: Tags, parse: string -> Option<real>)
    requires Lookup(a, "height") == Lookup(b, "height")
    requires Lookup(a, "building:levels") == Lookup(b, "building:levels")
    requires Lookup(a, "building") == Lookup(b, "building")
    ensures GetHeight(a, parse) == GetHeight(b, parse)
  {
  }

  /** Without parseable height tags a building gets its kind's row of the
      table, and an unlisted kind gets 4. */
  lemma BuildingKindHeight(tags: Tags, parse: string -> Option<real>)
    requires ParsedTag(tags, "height", parse).None? && ParsedTag(tags, "building:levels", parse).None?
    requires HasKey(tags, "building")
    ensures forall i :: 0 <= i < |BUILDING_HEIGHTS| && Is(tags, "building", BUILDING_HEIGHTS[i].key) ==>
      GetHeight(tags, parse) == BUILDING_HEIGHTS[i].value
    ensures (forall i :: 0 <= i < |BUILDING_HEIGHTS| ==> !Is(tags, "building", BUILDING_HEIGHTS[i].key)) ==>
      GetHeight(tags, parse) == 4.0
  {
    BuildingTableDistinct();
    forall i | 0 <= i < |BUILDING_HEIGHTS| && Is(tags, "building", BUILDING_HEIGHTS[i].key)
      ensures GetHeight(tags, parse) == BUILDING_HEIGHTS[i].value
    {
      TableGetRow(BUILDING_HEIGHTS, i, 4.0);
    }
  }

  /** A house without height tags is 5 high; no tags at all give 2.5. */
  lemma HouseHeight(parse: string -> Option<real>)
    ensures GetHeight([Tag("building", "house")], parse) == 5.0
    ensures GetHeight([], parse) == 2.5
  {
    var tags := [Tag("building", "house")];
    assert Is(tags, "building", BUILDING_HEIGHTS[2].key);
    BuildingKindHeight(tags, parse);
  }

  /** An illustration of `HeightPriority`: a height that does not parse falls
      through to the storeys. */
  lemma UnparsedHeightFallsThrough(parse: string -> Option<real>)
    requires parse("tall") == None && parse("3") == Some(3.0)
    ensures GetHeight([Tag("building", "house"), Tag("height", "tall"), Tag("building:levels", "3")], parse) == 3.0 * 2.8
  {
    var tags := [Tag("building", "house"), Tag("height", "tall"), Tag("building:levels", "3")];
    assert Lookup(tags, "height") == Some("tall");
    assert Lookup(tags, "building:levels") == Some("3");
  }

  // ---------------------------------------------------------------------------
  // Road width and surface level.

  lemma BuildingTableDistinct()
    ensures DistinctKeys(BUILDING_HEIGHTS)
  {
  }

  lemma RoadTableDistinct()
    ensures DistinctKeys(ROAD_WIDTHS)
  {
  }

  /** Width of a parking space, whatever its `highway` tag says. */
  const PARKING_WIDTH: real := 2.5
  const DEFAULT_ROAD_WIDTH: real := 3.0

  const ROAD_WIDTHS: seq<Entry> := [
    Entry("motorway", 8.0),
    Entry("trunk", 7.0),
    Entry("primary", 6.0),
    Entry("secondary", 5.0),
    Entry("tertiary", 4.0),
    Entry("residential", 3.0),
    Entry("service", 2.0),
    Entry("footway", 1.0),
    Entry("path", 0.5),
    Entry("parking_space", 2.5),
    Entry("unknown", 3.0)
  ]

  /** `process_road`'s width: `amenity=parking_space` overrides the table; a
      missing `highway` reads as "unknown" and an unlisted one gets 3. */
  function RoadWidth(tags: Tags): (w: real)
    ensures 0.5 <= w <= 8.0
  {
    if Get(tags, "amenity", "") == "parking_space" then PARKING_WIDTH
    else
      TableGetWithin(ROAD_WIDTHS, Get(tags, "highway", "unknown"), DEFAULT_ROAD_WIDTH, 0.5, 8.0);
      TableGet(ROAD_WIDTHS, Get(tags, "highway", "unknown"), DEFAULT_ROAD_WIDTH)
  }

  /** A parking space is 2.5 wide whatever else is tagged. */
  lemma ParkingOverride(tags: Tags)
    requires Is(tags, "amenity", "parking_space")
    ensures RoadWidth(tags) == 2.5
  {
  }

  /** Without a parking amenity the `highway` value picks its row of the table. */
  lemma RoadWidthByHighway(tags: Tags)
    requires !Is(tags, "amenity", "parking_space")
    ensures forall i :: 0 <= i < |ROAD_WIDTHS| && Is(tags, "highway", ROAD_WIDTHS[i].key) ==>
      RoadWidth(tags) == ROAD_WIDTHS[i].value
  {
    RoadTableDistinct();
    forall i | 0 <= i < |ROAD_WIDTHS| && Is(tags, "highway", ROAD_WIDTHS[i].key)
      ensures RoadWidth(tags) == ROAD_WIDTHS[i].value
    {
      assert Get(tags, "highway", "unknown") == ROAD_WIDTHS[i].key;
      TableGetRow(ROAD_WIDTHS, i, 3.0);
    }
  }

  /** No `highway` and an unlisted one both give 3. */
  lemma RoadWidthUnlisted(tags: Tags)
    requires !Is(tags, "amenity", "parking_space")
    requires forall i :: 0 <= i < |ROAD_WIDTHS| ==> !Is(tags, "highway", ROAD_WIDTHS[i].key)
    ensures RoadWidth(tags) == 3.0
  {
    if !HasKey(tags, "highway") {
      assert Get(tags, "highway", "unknown") == ROAD_WIDTHS[10].key;
      RoadTableDistinct();
      TableGetRow(ROAD_WIDTHS, 10, 3.0);
    }
  }

  /** `highway=parking_space` without the amenity still reads 2.5 from the
      table, and a missing `highway` gives 3. */
  lemma RoadWidthExamples()
    ensures RoadWidth([Tag("highway", "parking_space")]) == 2.5
    ensures RoadWidth([Tag("highway", "motorway"), Tag("amenity", "parking_space")]) == 2.5
    ensures RoadWidth([Tag("name", "Dijk")]) == 3.0
  {
    var t := [Tag("highway", "parking_space")];
    assert Is(t, "highway", ROAD_WIDTHS[9].key);
    RoadWidthByHighway(t);
    RoadWidthUnlisted([Tag("name", "Dijk")]);
  }

  /** Two roads with the same `amenity` and `highway` have the same width. */
  lemma RoadWidthFrame(a: Tags, b: Tags)
    requires Lookup(a, "amenity") == Lookup(b, "amenity")
    requires Lookup(a, "highway") == Lookup(b, "highway")
    ensures RoadWidth(a) == RoadWidth(b)
  {
  }

  const PARKING_SURFACE_Y: real := 0.02
  const ROAD_SURFACE_Y: real := 0.01

  /** Height of the road ribbon above the ground: parking spaces sit higher. */
  function RoadSurfaceY(tags: Tags): (y: real)
    ensures y == 0.02 <==> Is(tags, "amenity", "parking_space")
    ensures y == 0.01 <==> !Is(tags, "amenity", "parking_space")
  {
    if Lookup(tags, "amenity") == Some("parking_space") then PARKING_SURFACE_Y else ROAD_SURFACE_Y
  }

  // ---------------------------------------------------------------------------
  // Water and land.

  /** `natural=water`, or any `water` key, or any `waterway` key. */
  predicate IsWater(tags: Tags) {
    Is(tags, "natural", "water") || HasKey(tags, "water") || HasKey(tags, "waterway")
  }

  /** A key and the values under it that make a way land. */
  datatype LandRule = LandRule(key: string, values: seq<string>)

  /** The land table, in the order the classifier tries it. */
  const LAND_TYPES: seq<LandRule> := [
    LandRule("natural", ["wood", "grassland", "heath", "scrub", "forest", "beach"]),
    LandRule("landuse", ["forest", "grass", "meadow", "recreation_ground", "park"]),
    LandRule("leisure", ["park", "garden", "nature_reserve"])
  ]

  predicate RuleMatches(tags: Tags, rule: LandRule) {
    HasKey(tags, rule.key) && Lookup(tags, rule.key).value in rule.values
  }

  /** The index of the first rule that matches: the loop with its `break`. */
  function FirstLandRule(tags: Tags, rules: seq<LandRule>): (r: Option<nat>)
    ensures r.None? <==> forall j :: 0 <= j < |rules| ==> !RuleMatches(tags, rules[j])
    ensures r.Some? ==> r.value < |rules| && RuleMatches(tags, rules[r.value])
    ensures r.Some? ==> forall j :: 0 <= j < r.value ==> !RuleMatches(tags, rules[j])
  {
    if |rules| == 0 then None
    else if RuleMatches(tags, rules[0]) then Some(0)
    else
      assert forall j :: 1 <= j < |rules| ==> rules[1..][j - 1] == rules[j];
      match FirstLandRule(tags, rules[1..])
      case None => None
      case Some(j) => Some(j + 1)
  }

  predicate IsLand(tags: Tags) {
    FirstLandRule(tags, LAND_TYPES).Some?
  }

  /** Land, spelled out: the `natural`, `landuse` or `leisure` value is one of
      the listed ones. */
  lemma IsLandIff(tags: Tags)
    ensures IsLand(tags) <==>
      || Lookup(tags, "natural") in {Some("wood"), Some("grassland"), Some("heath"), Some("scrub"), Some("forest"), Some("beach")}
      || Lookup(tags, "landuse") in {Some("forest"), Some("grass"), Some("meadow"), Some("recreation_ground"), Some("park")}
      || Lookup(tags, "leisure") in {Some("park"), Some("garden"), Some("nature_reserve")}
  {
    assert !RuleMatches(tags, LAND_TYPES[0]) && !RuleMatches(tags, LAND_TYPES[1]) && !RuleMatches(tags, LAND_TYPES[2]) ==> !IsLand(tags);
  }

  // ---------------------------------------------------------------------------
  // Land colour.

  const LAND_KEYS: set<string> := {"natural", "landuse", "leisure"}

  /** `next((v for k, v in tags.items() if k in [...]), 'grass')`: the value of
      the first tag, in tag order, whose key is a land key. */
  function LandType(tags: Tags): (r: string)
    ensures (forall i :: 0 <= i < |tags| ==> tags[i].key !in LAND_KEYS) ==> r == "grass"
    ensures (exists i :: 0 <= i < |tags| && tags[i].key in LAND_KEYS) ==>
      exists i :: 0 <= i < |tags| && tags[i].key in LAND_KEYS && r == tags[i].value
        && forall j :: 0 <= j < i ==> tags[j].key !in LAND_KEYS
  {
    if |tags| == 0 then "grass"
    else if tags[0].key in LAND_KEYS then tags[0].value
    else
      assert forall i :: 1 <= i < |tags| ==> tags[1..][i - 1] == tags[i];
      var r := LandType(tags[1..]);
      if exists i :: 0 <= i < |tags| && tags[i].key in LAND_KEYS then
        var i :| 1 <= i < |tags| && tags[i].key in LAND_KEYS;
        assert tags[1..][i - 1].key in LAND_KEYS;
        r
      else r
  }

  datatype Colour = Colour(r: real, g: real, b: real)

  const DEFAULT_LAND_COLOUR: Colour := Colour(0.4, 0.6, 0.4)

  function LandColour(landType: string): (c: Colour)
    ensures landType !in {"forest", "grass", "park", "beach", "recreation_ground"} ==> c == DEFAULT_LAND_COLOUR
  {
    if landType == "forest" then Colour(0.2, 0.5, 0.2)
    else if landType == "grass" then Colour(0.3, 0.6, 0.3)
    else if landType == "park" then Colour(0.4, 0.7, 0.4)
    else if landType == "beach" then Colour(0.9, 0.9, 0.7)
    else if landType == "recreation_ground" then Colour(0.5, 0.7, 0.5)
    else DEFAULT_LAND_COLOUR
  }

  /** Classification tries the keys in a fixed order, colouring takes them in
      tag order, so the two can read different tags: here the way is land
      through `natural=wood` but is coloured as a park. */
  lemma TagOrderDivergence()
    ensures var tags := [Tag("leisure", "park"), Tag("natural", "wood")];
      && FirstLandRule(tags, LAND_TYPES) == Some(0)
      && LandType(tags) == "park"
      && LandColour(LandType(tags)) == Colour(0.4, 0.7, 0.4)
  {
    var tags := [Tag("leisure", "park"), Tag("natural", "wood")];
    assert Lookup(tags, "natural") == Some("wood");
    assert RuleMatches(tags, LAND_TYPES[0]);
  }

  /** A way with no land key at all is coloured as grass. */
  lemma LandTypeDefault(tags: Tags)
    requires !HasKey(tags, "natural") && !HasKey(tags, "landuse") && !HasKey(tags, "leisure")
    ensures LandColour(LandType(tags)) == Colour(0.3, 0.6, 0.3)
  {
  }
}
