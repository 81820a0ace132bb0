/**
 * Which canonical edges a triangle-local vertex position touches. Edge lengths
 * are stored in the order v1 - v0, v2 - v0, v2 - v1; the worker recovers, for
 * the query vertex, its two "near" edges and the "far" edge by matching index
 * sets against that order.
 */
module EdgeLookup {
  import opened Outcomes
  import opened Geometry

  /** `EDGE_INDEXING`: the local endpoints of each canonical edge. */
  const EdgeIndexing: seq<set<nat>> := [{1, 0}, {2, 0}, {2, 1}]

  /** `FULL_SET = set(range(3))` */
  const FullSet: set<nat> := {0, 1, 2}

  /** `np.flatnonzero(bs)`: the indices of the true entries, ascending. */
  function FlatNonzero(bs: seq<bool>): (r: seq<nat>)
    ensures |r| <= |bs|
  {
    if bs == [] then []
    else
      var rest := FlatNonzero(bs[..|bs| - 1]);
      if bs[|bs| - 1] then rest + [|bs| - 1] else rest
  }

  /** `np.flatnonzero` lists exactly the indices of the true entries, in ascending order. */
  lemma {:induction false} FlatNonzeroCorrect(bs: seq<bool>)
    ensures forall i | 0 <= i < |FlatNonzero(bs)| :: FlatNonzero(bs)[i] < |bs| && bs[FlatNonzero(bs)[i]]
    ensures forall i | 0 <= i < |bs| && bs[i] :: i in FlatNonzero(bs)
    ensures forall i, j | 0 <= i < j < |FlatNonzero(bs)| :: FlatNonzero(bs)[i] < FlatNonzero(bs)[j]
  {
    if bs != [] {
      var init := bs[..|bs| - 1];
      FlatNonzeroCorrect(init);
      assert forall i | 0 <= i < |init| :: init[i] == bs[i];
    }
  }

  /** `np.flatnonzero(tris[t] == p)`: the local positions at which vertex `p` sits. */
  function Positions(tri: Tri, p: nat): (cent: seq<nat>)
    ensures forall i | 0 <= i < |cent| :: cent[i] < 3 && tri.At(cent[i]) == p
    ensures forall j | 0 <= j < 3 && tri.At(j) == p :: j in cent
    ensures forall i, j | 0 <= i < j < |cent| :: cent[i] < cent[j]
    ensures |cent| <= 3
  {
    FlatNonzeroCorrect([tri.v0 == p, tri.v1 == p, tri.v2 == p]);
    FlatNonzero([tri.v0 == p, tri.v1 == p, tri.v2 == p])
  }

  /** `list(FULL_SET.difference(cent))`: a set of small integers iterates in ascending order. */
  function Remaining(cent: seq<nat>): seq<nat> {
    FlatNonzero([0 !in cent, 1 !in cent, 2 !in cent])
  }

  /** `np.flatnonzero([e == ei for ei in EDGE_INDEXING])` */
  function MatchEdge(e: set<nat>): seq<nat> {
    FlatNonzero([e == EdgeIndexing[0], e == EdgeIndexing[1], e == EdgeIndexing[2]])
  }

  /** A match is an index into the edge table. */
  lemma MatchEdgeBounds(e: set<nat>)
    ensures forall i | 0 <= i < |MatchEdge(e)| :: MatchEdge(e)[i] < 3
  {
    FlatNonzeroCorrect([e == EdgeIndexing[0], e == EdgeIndexing[1], e == EdgeIndexing[2]]);
  }

  /** The canonical indices of the two edges at the query vertex and of the edge opposite it. */
  datatype EdgeIdx = EdgeIdx(near1: nat, near2: nat, far: nat) {
    /** The three indices are 0, 1 and 2 in some order. */
    predicate Valid() {
      near1 < 3 && near2 < 3 && far < 3 && near1 != near2 && near1 != far && near2 != far
    }
  }

  /**
   * Lines 66-76 of the worker for the positions `cent` of the query vertex. With a
   * single position the two near edges and the far edge are found; with two or
   * three positions `other_idx` is too short and indexing it raises IndexError.
   */
  function Lookup(cent: seq<nat>): (r: Option<EdgeIdx>)
    ensures r.Some? ==> r.value.near1 < 3 && r.value.near2 < 3 && r.value.far < 3
  {
    var centSet := set i | i in cent;
    var e3 := FullSet - centSet;
    var otherIdx := Remaining(cent);
    if |otherIdx| < 2 then None
    else
      var e1 := centSet + {otherIdx[0]};
      var e2 := centSet + {otherIdx[1]};
      var m1, m2, m3 := MatchEdge(e1), MatchEdge(e2), MatchEdge(e3);
      MatchEdgeBounds(e1);
      MatchEdgeBounds(e2);
      MatchEdgeBounds(e3);
      // Never taken: for a single position each of the three sets is an entry of
      // the table (LookupCorrect). numpy would carry on with an empty index array here.
      if |m1| == 0 || |m2| == 0 || |m3| == 0 then None
      else Some(EdgeIdx(m1[0], m2[0], m3[0]))
  }

  /** `np.flatnonzero` on a row of three. */
  lemma FlatNonzero3(a: bool, b: bool, c: bool)
    ensures FlatNonzero([a, b, c]) == (if a then [0] else []) + (if b then [1] else []) + (if c then [2] else [])
  {
    assert [a][..0] == [];
    assert FlatNonzero([a]) == (if a then [0] else []);
    assert [a, b][..1] == [a];
    assert FlatNonzero([a, b]) == FlatNonzero([a]) + (if b then [1] else []);
    assert [a, b, c][..2] == [a, b];
  }

  /** The positions of a vertex in a triangle: an ascending list drawn from 0, 1, 2. */
  lemma {:induction false} PositionCases(cent: seq<nat>)
    requires forall i | 0 <= i < |cent| :: cent[i] < 3
    requires forall i, j | 0 <= i < j < |cent| :: cent[i] < cent[j]
    requires |cent| <= 3
    ensures cent in [[], [0], [1], [2], [0, 1], [0, 2], [1, 2], [0, 1, 2]]
  {
    if |cent| == 3 {
      assert cent[0] < cent[1] < cent[2];
      assert cent == [0, 1, 2];
    } else if |cent| == 2 {
      assert cent[0] < cent[1] < 3;
      if cent[0] == 0 && cent[1] == 1 {
        assert cent == [0, 1];
      } else if cent[0] == 0 {
        assert cent == [0, 2];
      } else {
        assert cent == [1, 2];
      }
    } else if |cent| == 1 {
      if cent[0] == 0 {
        assert cent == [0];
      } else if cent[0] == 1 {
        assert cent == [1];
      } else {
        assert cent == [2];
      }
    }
  }

  /** The constant table that the set matching amounts to: the edge opposite local position c. */
  function FarEdge(c: nat): nat
    requires c < 3
  {
    2 - c
  }

  /** Each two-element subset of {0, 1, 2} matches exactly one entry of the edge table. */
  lemma MatchEdgeValues()
    ensures MatchEdge({0, 1}) == [0] && MatchEdge({0, 2}) == [1] && MatchEdge({1, 2}) == [2]
  {
    var s01, s02, s12: set<nat> := {0, 1}, {0, 2}, {1, 2};
    assert s01 == EdgeIndexing[0] && s02 == EdgeIndexing[1] && s12 == EdgeIndexing[2];
    assert s01 != s02 by { assert 1 in s01 && 1 !in s02; }
    assert s01 != s12 by { assert 0 in s01 && 0 !in s12; }
    assert s02 != s12 by { assert 0 in s02 && 0 !in s12; }
    FlatNonzero3(true, false, false);
    FlatNonzero3(false, true, false);
    FlatNonzero3(false, false, true);
  }

  /** The set matching agrees with the constant table for every local position. */
  lemma {:induction false} LookupTable(c: nat)
    requires c < 3
    ensures Lookup([c]) == Some(
      if c == 0 then EdgeIdx(0, 1, FarEdge(0))
      else if c == 1 then EdgeIdx(0, 2, FarEdge(1))
      else EdgeIdx(1, 2, FarEdge(2)))
  {
    MatchEdgeValues();
    var centSet := set i | i in [c];
    assert centSet == {c};
    if c == 0 {
      FlatNonzero3(false, true, true);
      assert Remaining([c]) == [1, 2];
      assert centSet + {1} == {0, 1} && centSet + {2} == {0, 2} && FullSet - centSet == {1, 2};
    } else if c == 1 {
      FlatNonzero3(true, false, true);
      assert Remaining([c]) == [0, 2];
      assert centSet + {0} == {0, 1} && centSet + {2} == {1, 2} && FullSet - centSet == {0, 2};
    } else {
      FlatNonzero3(true, true, false);
      assert Remaining([c]) == [0, 1];
      assert centSet + {0} == {0, 2} && centSet + {1} == {1, 2} && FullSet - centSet == {0, 1};
    }
  }

  /** The edge indices the worker finds for a vertex at local position c of a triangle. */
  function LocalEdges(c: nat): (ix: EdgeIdx)
    requires c < 3
    ensures ix.Valid() && ix.far == FarEdge(c) && Lookup([c]) == Some(ix)
  {
    LookupTable(c);
    Lookup([c]).value
  }

  /**
   * For the positions of the query vertex in a triangle: with a single position
   * the lookup finds the two canonical edges that contain it and the one that
   * does not, a permutation of 0, 1, 2; with two or three positions it raises.
   */
  lemma {:induction false} LookupCorrect(cent: seq<nat>)
    requires forall i | 0 <= i < |cent| :: cent[i] < 3
    requires forall i, j | 0 <= i < j < |cent| :: cent[i] < cent[j]
    requires |cent| <= 3
    ensures |cent| >= 2 ==> Lookup(cent).None?
    ensures |cent| == 1 ==>
      && Lookup(cent).Some? && Lookup(cent).value.Valid()
      && cent[0] in EdgeIndexing[Lookup(cent).value.near1]
      && cent[0] in EdgeIndexing[Lookup(cent).value.near2]
      && cent[0] !in EdgeIndexing[Lookup(cent).value.far]
      && {Lookup(cent).value.near1, Lookup(cent).value.near2, Lookup(cent).value.far} == {0, 1, 2}
      && Lookup(cent).value.near1 < Lookup(cent).value.near2
  {
    PositionCases(cent);
    if |cent| == 1 {
      assert cent == [cent[0]];
      LookupSingle(cent[0]);
    } else if |cent| >= 2 {
      LookupRepeated(cent);
    }
  }

  /** A vertex that occurs once finds its two near edges and its far edge. */
  lemma LookupSingle(c: nat)
    requires c < 3
    ensures Lookup([c]).Some? && Lookup([c]).value.Valid()
    ensures c in EdgeIndexing[Lookup([c]).value.near1] && c in EdgeIndexing[Lookup([c]).value.near2]
    ensures c !in EdgeIndexing[Lookup([c]).value.far]
    ensures {Lookup([c]).value.near1, Lookup([c]).value.near2, Lookup([c]).value.far} == {0, 1, 2}
    ensures Lookup([c]).value.near1 < Lookup([c]).value.near2
  {
    LookupTable(c);
  }

  /** A vertex that occurs two or three times leaves fewer than two remaining positions: the lookup raises. */
  lemma {:induction false} LookupRepeated(cent: seq<nat>)
    requires cent in [[0, 1], [0, 2], [1, 2], [0, 1, 2]]
    ensures Lookup(cent).None?
  {
    FlatNonzero3(false, false, false);
    FlatNonzero3(cent == [1, 2], cent == [0, 2], cent == [0, 1]);
    assert |Remaining(cent)| < 2;
  }
}
