/** The OSM entity model read from an extract (nodes, ways, relations,
    members, bounds, tags) and the dictionary view of a way's tags. */
module OsmModel {
  import opened Prelude

  /** One `k=v` tag. */
  datatype Tag = Tag(key: string, value: string)

  /** Tags in document order. A Python dict built from them is `ToDict(tags)`. */
  type Tags = seq<Tag>

  /** Optional provenance carried by every entity and never used by geometry. */
  datatype Provenance = Provenance(
    version: Option<int>,
    timestamp: Option<string>,
    changeset: Option<int>,
    uid: Option<int>,
    user: Option<string>)

  datatype Node = Node(id: int, lat: real, lon: real, visible: bool, provenance: Provenance, tags: Tags)

  /** A way refers to its nodes by id; the order of `nodes` is the winding. */
  datatype Way = Way(id: int, visible: bool, provenance: Provenance, nodes: seq<int>, tags: Tags)

  /** `kind` is one of "node", "way", "relation". */
  datatype Member = Member(kind: string, ref: int, role: string)

  datatype Relation = Relation(id: int, visible: bool, provenance: Provenance, members: seq<Member>, tags: Tags)

  /** A latitude/longitude rectangle; also the hard-coded areas of interest. */
  datatype Bounds = Bounds(minLat: real, minLon: real, maxLat: real, maxLon: real, origin: Option<string>)

  datatype Osm = Osm(
    version: Option<string>,
    generator: Option<string>,
    bounds: Option<Bounds>,
    nodes: seq<Node>,
    ways: seq<Way>,
    relations: seq<Relation>)

  /** The value of the first tag whose key is `k`: `tags[k]` guarded by `k in tags`. */
  function Lookup(tags: Tags, k: string): (r: Option<string>)
    ensures r.None? <==> forall i :: 0 <= i < |tags| ==> tags[i].key != k
    ensures r.Some? ==> Tag(k, r.value) in tags
  {
    if |tags| == 0 then None
    else if tags[0].key == k then Some(tags[0].value)
    else
      var r := Lookup(tags[1..], k);
      assert forall i :: 1 <= i < |tags| ==> tags[i] == tags[1..][i - 1];
      r
  }

  /** `k in tags` */
  predicate HasKey(tags: Tags, k: string) {
    Lookup(tags, k).Some?
  }

  /** `tags.get(k, default)` */
  function Get(tags: Tags, k: string, default: string): string {
    Lookup(tags, k).GetOr(default)
  }

  /** `k in tags and tags[k] == v` */
  predicate Is(tags: Tags, k: string, v: string) {
    Lookup(tags, k) == Some(v)
  }

  /** No key occurs twice: the shape of every Python dict. */
  predicate UniqueKeys(tags: Tags) {
    forall i, j :: 0 <= i < j < |tags| ==> tags[i].key != tags[j].key
  }

  /** Lookup finds the first tag carrying the key. */
  lemma {:induction false} LookupFirst(tags: Tags, i: nat)
    requires i < |tags|
    requires forall j :: 0 <= j < i ==> tags[j].key != tags[i].key
    ensures Lookup(tags, tags[i].key) == Some(tags[i].value)
  {
    if i > 0 {
      LookupFirst(tags[1..], i - 1);
    }
  }

  /** In a dict every tag is found by its own key. */
  lemma LookupUnique(tags: Tags, i: nat)
    requires UniqueKeys(tags) && i < |tags|
    ensures Lookup(tags, tags[i].key) == Some(tags[i].value)
  {
    LookupFirst(tags, i);
  }

  /** The value of the LAST tag whose key is `k`. */
  function LookupLast(tags: Tags, k: string): (r: Option<string>)
    ensures r.None? <==> forall i :: 0 <= i < |tags| ==> tags[i].key != k
    ensures r.Some? ==> Tag(k, r.value) in tags
  {
    if |tags| == 0 then None
    else if tags[|tags| - 1].key == k then Some(tags[|tags| - 1].value)
    else
      var r := LookupLast(tags[..|tags| - 1], k);
      assert forall i :: 0 <= i < |tags| - 1 ==> tags[i] == tags[..|tags| - 1][i];
      r
  }

  /** The position of the first tag carrying `k`, or `|tags|` when none does. */
  function FirstAt(tags: Tags, k: string): (r: nat)
    ensures r <= |tags|
    ensures r < |tags| ==> tags[r].key == k
    ensures forall j :: 0 <= j < r ==> tags[j].key != k
    ensures r == |tags| <==> !HasKey(tags, k)
  {
    if |tags| == 0 then 0
    else if tags[0].key == k then 0
    else
      assert forall j :: 1 <= j < |tags| ==> tags[j] == tags[1..][j - 1];
      1 + FirstAt(tags[1..], k)
  }

  /** Appending a tag moves no key's first position; a key new to the list
      first appears at the appended tag. */
  lemma {:induction false} FirstAtAppend(tags: Tags, t: Tag, k: string)
    ensures FirstAt(tags + [t], k) ==
      if FirstAt(tags, k) < |tags| then FirstAt(tags, k)
      else if t.key == k then |tags| else |tags| + 1
  {
    if |tags| > 0 && tags[0].key != k {
      assert (tags + [t])[1..] == tags[1..] + [t];
      FirstAtAppend(tags[1..], t, k);
    }
  }

  /** Looking a key up after a leading tag: that tag's value when it holds the
      key, otherwise whatever the rest holds. */
  lemma LookupCons(t: Tag, rest: Tags)
    ensures forall k :: Lookup([t] + rest, k) == if k == t.key then Some(t.value) else Lookup(rest, k)
  {
    assert ([t] + rest)[1..] == rest;
  }

  /** The step of `Put` past a leading tag with another key: lookups in
      front of the updated tail agree with the update of the whole. */
  lemma PutCons(d: Tags, t: Tag, rest: Tags)
    requires |d| > 0 && d[0].key != t.key
    requires forall k :: Lookup(rest, k) == if k == t.key then Some(t.value) else Lookup(d[1..], k)
    ensures forall k :: Lookup([d[0]] + rest, k) == if k == t.key then Some(t.value) else Lookup(d, k)
    ensures HasKey(d, t.key) == HasKey(d[1..], t.key)
  {
    LookupCons(d[0], rest);
  }

  /** When the tail gained `t` at its end, so did the whole list. */
  lemma ConsAppended(d: Tags, t: Tag, rest: Tags, found: bool)
    requires |d| > 0
    requires !found ==> rest == d[1..] + [t]
    ensures !found ==> [d[0]] + rest == d + [t]
  {
    if !found {
      assert [d[0]] + (d[1..] + [t]) == ([d[0]] + d[1..]) + [t];
      assert [d[0]] + d[1..] == d;
    }
  }

  /** `d[t.key] = t.value`: an existing key keeps its position and takes the new
      value, a new key goes to the end. */
  function Put(d: Tags, t: Tag): (r: Tags)
    ensures forall k :: Lookup(r, k) == if k == t.key then Some(t.value) else Lookup(d, k)
    ensures HasKey(d, t.key) ==> |r| == |d|
    ensures !HasKey(d, t.key) ==> r == d + [t]
  {
    if |d| == 0 then [t]
    else if d[0].key == t.key then
      LookupCons(t, d[1..]);
      [t] + d[1..]
    else
      var rest := Put(d[1..], t);
      PutCons(d, t, rest);
      ConsAppended(d, t, rest, HasKey(d[1..], t.key));
      [d[0]] + rest
  }

  /** Assigning to an existing key rewrites that key's first slot in place and
      leaves every other slot as it was. */
  lemma {:induction false} PutInPlace(d: Tags, t: Tag)
    requires HasKey(d, t.key)
    ensures |Put(d, t)| == |d|
    ensures forall i :: 0 <= i < |d| ==> Put(d, t)[i] == if i == FirstAt(d, t.key) then t else d[i]
  {
    if d[0].key != t.key {
      assert HasKey(d[1..], t.key);
      PutInPlace(d[1..], t);
      assert FirstAt(d, t.key) == 1 + FirstAt(d[1..], t.key);
    }
  }

  /** Assigning into a dict keeps it a dict. */
  lemma {:induction false} PutKeepsUnique(d: Tags, t: Tag)
    requires UniqueKeys(d)
    ensures UniqueKeys(Put(d, t))
  {
    if |d| > 0 {
      TailUnique(d);
      if d[0].key != t.key {
        PutKeepsUnique(d[1..], t);
        var rest := Put(d[1..], t);
        assert Lookup(rest, d[0].key) == Lookup(d[1..], d[0].key);
        ConsUnique(d[0], rest);
      } else {
        ConsUnique(t, d[1..]);
      }
    }
  }

  /** The tail of a dict is a dict none of whose keys is the head's. */
  lemma TailUnique(d: Tags)
    requires UniqueKeys(d) && |d| > 0
    ensures UniqueKeys(d[1..])
    ensures Lookup(d[1..], d[0].key).None?
  {
    var tail := d[1..];
    forall i, j | 0 <= i < j < |tail| ensures tail[i].key != tail[j].key {
      assert tail[i] == d[i + 1] && tail[j] == d[j + 1];
    }
    forall i | 0 <= i < |tail| ensures tail[i].key != d[0].key {
      assert tail[i] == d[i + 1];
    }
  }

  /** A tag in front of a dict lacking its key gives a dict. */
  lemma ConsUnique(h: Tag, rest: Tags)
    requires UniqueKeys(rest) && Lookup(rest, h.key).None?
    ensures UniqueKeys([h] + rest)
  {
    var r := [h] + rest;
    forall i, j | 0 <= i < j < |r| ensures r[i].key != r[j].key {
      assert r[j] == rest[j - 1];
      if i > 0 {
        assert r[i] == rest[i - 1];
      }
    }
  }

  /** `{t.k: t.v for t in tags}`: the dict a sequence of tags builds. */
  function ToDict(tags: Tags): (d: Tags)
    ensures UniqueKeys(d)
    ensures forall k :: Lookup(d, k) == LookupLast(tags, k)
  {
    if |tags| == 0 then []
    else
      var init := tags[..|tags| - 1];
      var d := Put(ToDict(init), tags[|tags| - 1]);
      PutKeepsUnique(ToDict(init), tags[|tags| - 1]);
      assert forall k :: LookupLast(tags, k) == if k == tags[|tags| - 1].key then Some(tags[|tags| - 1].value) else LookupLast(init, k);
      d
  }

  /** Keys come in the order of the first tag carrying each, the order
      `dict.items()` yields them in. */
  predicate FirstOccurrenceOrder(tags: Tags, d: Tags) {
    forall i, j :: 0 <= i < j < |d| ==> FirstAt(tags, d[i].key) < FirstAt(tags, d[j].key)
  }

  /** A repeated key keeps the slot of its first occurrence: the dict lists its
      keys in the order they first appear in the tags. */
  lemma {:induction false} ToDictOrder(tags: Tags)
    ensures FirstOccurrenceOrder(tags, ToDict(tags))
  {
    if |tags| > 0 {
      var init, last := tags[..|tags| - 1], tags[|tags| - 1];
      assert tags == init + [last];
      ToDictOrder(init);
      PutOrder(init, last, ToDict(init));
    }
  }

  /** Every key of a dict that agrees with `init` on lookups occurs in `init`,
      and appending a tag moves no first occurrence. */
  lemma KeysOccur(init: Tags, last: Tag, d0: Tags, i: nat)
    requires forall k :: Lookup(d0, k) == LookupLast(init, k)
    requires i < |d0|
    ensures FirstAt(init, d0[i].key) < |init|
    ensures FirstAt(init + [last], d0[i].key) == FirstAt(init, d0[i].key)
  {
    assert Lookup(d0, d0[i].key).Some?;
    assert LookupLast(init, d0[i].key).Some?;
    FirstAtAppend(init, last, d0[i].key);
  }

  /** The step of `ToDictOrder`: assigning one more tag keeps the order. */
  lemma PutOrder(init: Tags, last: Tag, d0: Tags)
    requires forall k :: Lookup(d0, k) == LookupLast(init, k)
    requires FirstOccurrenceOrder(init, d0)
    ensures FirstOccurrenceOrder(init + [last], Put(d0, last))
  {
    if HasKey(d0, last.key) {
      PutOrderExisting(init, last, d0);
    } else {
      PutOrderNew(init, last, d0);
    }
  }

  lemma PutOrderExisting(init: Tags, last: Tag, d0: Tags)
    requires forall k :: Lookup(d0, k) == LookupLast(init, k)
    requires FirstOccurrenceOrder(init, d0)
    requires HasKey(d0, last.key)
    ensures FirstOccurrenceOrder(init + [last], Put(d0, last))
  {
    var tags := init + [last];
    PutKeepsKeys(d0, last);
    forall i | 0 <= i < |d0| ensures FirstAt(tags, d0[i].key) == FirstAt(init, d0[i].key) {
      KeysOccur(init, last, d0, i);
    }
    SameKeysOrder(tags, init, d0, Put(d0, last));
  }

  /** Assigning to an existing key changes no slot's key. */
  lemma PutKeepsKeys(d: Tags, t: Tag)
    requires HasKey(d, t.key)
    ensures |Put(d, t)| == |d|
    ensures forall i :: 0 <= i < |d| ==> Put(d, t)[i].key == d[i].key
  {
    PutInPlace(d, t);
  }

  /** Two dicts with the same keys slot by slot, judged against two tag lists
      that place every key first at the same index, share their order. */
  lemma SameKeysOrder(tags: Tags, init: Tags, d0: Tags, d: Tags)
    requires FirstOccurrenceOrder(init, d0)
    requires |d| == |d0| && forall i :: 0 <= i < |d0| ==> d[i].key == d0[i].key
    requires forall i :: 0 <= i < |d0| ==> FirstAt(tags, d0[i].key) == FirstAt(init, d0[i].key)
    ensures FirstOccurrenceOrder(tags, d)
  {
    forall i, j | 0 <= i < j < |d| ensures FirstAt(tags, d[i].key) < FirstAt(tags, d[j].key) {
      assert d[i].key == d0[i].key && d[j].key == d0[j].key;
    }
  }

  lemma PutOrderNew(init: Tags, last: Tag, d0: Tags)
    requires forall k :: Lookup(d0, k) == LookupLast(init, k)
    requires FirstOccurrenceOrder(init, d0)
    requires !HasKey(d0, last.key)
    ensures FirstOccurrenceOrder(init + [last], Put(d0, last))
  {
    var tags := init + [last];
    forall i | 0 <= i < |d0| ensures FirstAt(tags, d0[i].key) == FirstAt(init, d0[i].key) < |init| {
      KeysOccur(init, last, d0, i);
    }
    assert !HasKey(init, last.key) by {
      assert LookupLast(init, last.key).None?;
    }
    FirstAtAppend(init, last, last.key);
    AppendOrder(tags, d0, last, |init|);
  }

  /** Appending a key whose first occurrence lies past those of the others
      keeps the order. */
  lemma AppendOrder(tags: Tags, d0: Tags, last: Tag, bound: nat)
    requires FirstOccurrenceOrder(tags, d0)
    requires forall i :: 0 <= i < |d0| ==> FirstAt(tags, d0[i].key) < bound
    requires FirstAt(tags, last.key) == bound
    ensures FirstOccurrenceOrder(tags, d0 + [last])
  {
    var d := d0 + [last];
    forall i, j | 0 <= i < j < |d| ensures FirstAt(tags, d[i].key) < FirstAt(tags, d[j].key) {
      assert d[i] == d0[i];
      if j < |d0| {
        assert d[j] == d0[j];
      }
    }
  }

  /** An illustration of `ToDict`: a repeated key keeps its first slot and
      takes its last value. */
  lemma ToDictRepeatedKey()
    ensures ToDict([Tag("natural", "wood"), Tag("leisure", "park"), Tag("natural", "scrub")])
      == [Tag("natural", "scrub"), Tag("leisure", "park")]
  {
    var a := [Tag("natural", "wood"), Tag("leisure", "park")];
    var s := Tag("natural", "scrub");
    assert [Tag("natural", "wood"), Tag("leisure", "park"), Tag("natural", "scrub")] == a + [s];
    ToDictSnoc(a, s);
    ToDictOfUnique(a);
    assert Put(a, s) == [s] + a[1..];
  }

  /** Building the dict of one more tag assigns that tag into the dict so far. */
  lemma ToDictSnoc(tags: Tags, t: Tag)
    ensures ToDict(tags + [t]) == Put(ToDict(tags), t)
  {
    assert (tags + [t])[..|tags|] == tags;
  }

  /** A tag list whose keys are already distinct (the OSM norm) becomes a dict
      with the same tags in the same order. */
  lemma {:induction false} ToDictOfUnique(tags: Tags)
    requires UniqueKeys(tags)
    ensures ToDict(tags) == tags
  {
    if |tags| > 0 {
      var init := tags[..|tags| - 1];
      var last := tags[|tags| - 1];
      assert UniqueKeys(init) by {
        forall i, j | 0 <= i < j < |init| ensures init[i].key != init[j].key {
          assert init[i] == tags[i] && init[j] == tags[j];
        }
      }
      ToDictOfUnique(init);
      assert !HasKey(init, last.key) by {
        forall i | 0 <= i < |init| ensures init[i].key != last.key {
          assert init[i] == tags[i];
        }
      }
      calc {
        ToDict(tags);
        Put(ToDict(init), last);
        Put(init, last);
        init + [last];
        tags;
      }
    }
  }
}
