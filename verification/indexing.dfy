/** The two lookup tables training builds from the `product_id` column:
    `product_indices` (id to row position) and `inverse_indices` (back again). */
module Indexing {

  /** `{pid: idx for idx, pid in enumerate(ids)}`. A repeated id keeps the
      position of its last occurrence, as later dictionary entries overwrite
      earlier ones. */
  function IndexMap(ids: seq<int>): (m: map<int, nat>)
    ensures forall id :: id in m <==> id in ids
    ensures forall id :: id in m ==> m[id] < |ids| && ids[m[id]] == id
    ensures forall id, j :: id in m && m[id] < j < |ids| ==> ids[j] != id
    ensures Injective(m)
    decreases |ids|
  {
    if |ids| == 0 then map[]
    else
      var front := ids[..|ids| - 1];
      assert ids == front + [ids[|ids| - 1]];
      IndexMap(front)[ids[|ids| - 1] := |ids| - 1]
  }

  /** No two keys share a value. */
  predicate Injective(m: map<int, nat>) {
    forall a, b :: a in m && b in m && a != b ==> m[a] != m[b]
  }

  /** `{idx: pid for pid, idx in m.items()}` on a map whose values are distinct. */
  function Invert(m: map<int, nat>): (inv: map<nat, int>)
    requires Injective(m)
    ensures forall id :: id in m ==> m[id] in inv && inv[m[id]] == id
    ensures forall i :: i in inv ==> inv[i] in m && m[inv[i]] == i
  {
    map id | id in m :: m[id] := id
  }

  predicate Distinct(ids: seq<int>) {
    forall i, j :: 0 <= i < j < |ids| ==> ids[i] != ids[j]
  }

  /** With distinct ids, the id at row `i` maps to `i` and back: the two tables
      are exact inverses over all the rows. */
  lemma IndexMapOfDistinct(ids: seq<int>)
    requires Distinct(ids)
    ensures forall i :: 0 <= i < |ids| ==> ids[i] in IndexMap(ids) && IndexMap(ids)[ids[i]] == i
  {
    var m := IndexMap(ids);
    forall i | 0 <= i < |ids|
      ensures ids[i] in m && m[ids[i]] == i
    {
      assert ids[i] in ids;
      var k := m[ids[i]];
      assert ids[k] == ids[i];
    }
  }

  /** With distinct ids, the inverse table maps every row position, and only
      those, back to the id at that row. */
  lemma InverseOfDistinct(ids: seq<int>)
    requires Distinct(ids)
    ensures forall i :: 0 <= i < |ids| ==> i in Invert(IndexMap(ids)) && Invert(IndexMap(ids))[i] == ids[i]
    ensures forall i :: i in Invert(IndexMap(ids)) ==> i < |ids|
  {
    IndexMapOfDistinct(ids);
    var m := IndexMap(ids);
    var inv := Invert(m);
    forall i | 0 <= i < |ids|
      ensures i in inv && inv[i] == ids[i]
    {
      assert m[ids[i]] == i;
    }
  }

  /** With distinct ids `product_indices` has one entry per row. */
  lemma {:induction false} IndexMapSize(ids: seq<int>)
    requires Distinct(ids)
    ensures |IndexMap(ids)| == |ids|
    decreases |ids|
  {
    if |ids| > 0 {
      var front := ids[..|ids| - 1];
      var last := ids[|ids| - 1];
      assert Distinct(front);
      IndexMapSize(front);
      var m0 := IndexMap(front);
      assert last !in m0;
      assert IndexMap(ids).Keys == m0.Keys + {last};
    }
  }

  /** With distinct ids `inverse_indices` has one entry per row too. */
  lemma InverseSize(ids: seq<int>)
    requires Distinct(ids)
    ensures |Invert(IndexMap(ids))| == |ids|
  {
    var inv := Invert(IndexMap(ids));
    InverseOfDistinct(ids);
    assert inv.Keys == Positions(|ids|);
  }

  /** The row positions `0 .. n-1`. */
  function Positions(n: nat): (p: set<nat>)
    ensures forall i :: i in p <==> 0 <= i < n
    ensures |p| == n
  {
    if n == 0 then {}
    else
      var p := Positions(n - 1);
      AddFresh(p, n - 1);
      p + {n - 1}
  }

  lemma AddFresh(s: set<nat>, x: nat)
    requires x !in s
    ensures |s + {x}| == |s| + 1
  {
  }
}
