/** Small generic helpers shared by every module of the model. */
module Prelude {

  /** An optional value: `None` stands for a missing dictionary key, a missing
      JSON field or a failed lookup. */
  datatype Option<+T> = None | Some(value: T) {

    /** Python's `d.get(k, default)` once the lookup has been done. */
    function GetOr(default: T): T {
      match this
      case Some(v) => v
      case None => default
    }
  }

  /** A list is a prefix of itself and of anything appended to it. */
  lemma PrefixOfAppend<T>(a: seq<T>, b: seq<T>)
    ensures a[..|a|] == a
    ensures (a + b)[..|a|] == a
  {
  }

  /** Concatenation of a sequence of blocks, as repeated `list.extend`. */
  function Concat<T>(blocks: seq<seq<T>>): seq<T>
  {
    if |blocks| == 0 then [] else Concat(blocks[..|blocks| - 1]) + blocks[|blocks| - 1]
  }

  /** Concatenating blocks of four puts element `r` of block `j` at `4 * j + r`:
      the layout of every quad list the mesh builders produce. */
  lemma {:induction false} ConcatQuads<T>(blocks: seq<seq<T>>)
    requires forall j :: 0 <= j < |blocks| ==> |blocks[j]| == 4
    ensures |Concat(blocks)| == 4 * |blocks|
    ensures forall j, r :: 0 <= j < |blocks| && 0 <= r < 4 ==> Concat(blocks)[4 * j + r] == blocks[j][r]
  {
    if |blocks| > 0 {
      var init := blocks[..|blocks| - 1];
      ConcatQuads(init);
      forall j, r | 0 <= j < |blocks| && 0 <= r < 4
        ensures Concat(blocks)[4 * j + r] == blocks[j][r]
      {
        if j < |blocks| - 1 {
          assert init[j] == blocks[j];
        }
      }
    }
  }

  /** Concatenation distributes over appending block lists. */
  lemma {:induction false} ConcatAppend<T>(a: seq<seq<T>>, b: seq<seq<T>>)
    ensures Concat(a + b) == Concat(a) + Concat(b)
  {
    if |b| == 0 {
      assert a + b == a;
    } else {
      assert (a + b)[..|a + b| - 1] == a + b[..|b| - 1];
      ConcatAppend(a, b[..|b| - 1]);
    }
  }

  /** An element of the concatenation comes from some block, and every
      element of every block is in the concatenation. */
  lemma {:induction false} ConcatMember<T>(blocks: seq<seq<T>>, x: T)
    ensures x in Concat(blocks) <==> exists j :: 0 <= j < |blocks| && x in blocks[j]
  {
    if |blocks| > 0 {
      var init := blocks[..|blocks| - 1];
      ConcatMember(init, x);
      if exists j :: 0 <= j < |init| && x in init[j] {
        var j :| 0 <= j < |init| && x in init[j];
        assert blocks[j] == init[j];
      }
      if exists j :: 0 <= j < |blocks| && x in blocks[j] {
        var j :| 0 <= j < |blocks| && x in blocks[j];
        if j < |init| {
          assert init[j] == blocks[j];
        }
      }
    }
  }
}
