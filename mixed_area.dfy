/**
 * The mixed (Meyer) area that one triangle contributes to one of its vertices.
 *
 * The angles of the source are never evaluated here. With positive side lengths,
 * `arccos(n / (2 * l * m)) > pi/2` holds exactly when the law-of-cosines numerator
 * `n` is negative, and `1 / tan(angle)` equals `n / (2 * D)` with D the norm of
 * e0 x e1; the model uses these exact values.
 */
module MixedArea {
  import opened Geometry
  import opened EdgeLookup

  /** A float64 area value: a real number, or the NaN that numpy produces for a zero-length edge. */
  datatype Weight = Num(val: real) | NaN

  /** Law-of-cosines numerator of the angle opposite canonical edge k: negative exactly when that angle is obtuse. */
  function CosNumerator(g: TriGeometry, k: nat): real
    requires |g.sq| == 3 && k < 3
  {
    if k == 0 then g.sq[1] + g.sq[2] - g.sq[0]
    else if k == 1 then g.sq[0] + g.sq[2] - g.sq[1]
    else g.sq[0] + g.sq[1] - g.sq[2]
  }

  /** The angle opposite canonical edge k exceeds pi/2. */
  predicate ObtuseOpposite(g: TriGeometry, k: nat)
    requires |g.sq| == 3 && k < 3
  {
    CosNumerator(g, k) < 0.0
  }

  predicate AnyObtuse(g: TriGeometry)
    requires |g.sq| == 3
  {
    ObtuseOpposite(g, 0) || ObtuseOpposite(g, 1) || ObtuseOpposite(g, 2)
  }

  predicate NoZeroEdge(g: TriGeometry)
    requires |g.sq| == 3
  {
    g.sq[0] > 0.0 && g.sq[1] > 0.0 && g.sq[2] > 0.0
  }

  /** cot of the angle opposite canonical edge k, from the law of cosines and the area. */
  function Cot(g: TriGeometry, k: nat): real
    requires |g.sq| == 3 && k < 3 && g.crossNorm > 0.0
  {
    CosNumerator(g, k) / (2.0 * g.crossNorm)
  }

  /** Heron's expression is positive for a non-obtuse triangle without a zero-length edge. */
  lemma {:induction false} HeronPositive(a: real, b: real, c: real)
    requires a > 0.0 && b > 0.0 && c > 0.0
    requires b + c - a >= 0.0 && a + c - b >= 0.0 && a + b - c >= 0.0
    ensures Heron(a, b, c) > 0.0
  {
    var na, nb, nc := b + c - a, a + c - b, a + b - c;
    assert Heron(a, b, c) == na * nb + nb * nc + nc * na;
    if na > 0.0 && nb > 0.0 {
      assert na * nb > 0.0;
    } else if na > 0.0 {
      assert nc > 0.0 && nc * na > 0.0;
    } else {
      assert nb > 0.0 && nc > 0.0 && nb * nc > 0.0;
    }
  }

  /** Heron's expression does not depend on the order of the sides. */
  lemma HeronSymmetric(g: TriGeometry, ix: EdgeIdx)
    requires |g.sq| == 3 && ix.Valid()
    ensures Heron(g.sq[ix.near1], g.sq[ix.near2], g.sq[ix.far]) == Heron(g.sq[0], g.sq[1], g.sq[2])
  {
  }

  /** A non-obtuse triangle without a zero-length edge has positive area. */
  lemma NonObtuseHasArea(g: TriGeometry)
    requires Consistent(g) && NoZeroEdge(g) && !AnyObtuse(g)
    ensures g.crossNorm > 0.0
  {
    HeronPositive(g.sq[0], g.sq[1], g.sq[2]);
  }

  /** `(np.square(L01) / np.tan(gamma) + np.square(L02) / np.tan(beta)) / 8`, written with cotangents. */
  function VoronoiTerm(sq01: real, sq02: real, cotGamma: real, cotBeta: real): real {
    (sq01 * cotGamma + sq02 * cotBeta) / 8.0
  }

  /**
   * Lines 79-101 of the worker, for the query vertex whose near edges are
   * `ix.near1`, `ix.near2` and whose far edge is `ix.far`.
   */
  function VertexArea(g: TriGeometry, ix: EdgeIdx): (w: Weight)
    requires Consistent(g) && ix.Valid()
    ensures w.NaN? <==> g.sq[0] == 0.0 || g.sq[1] == 0.0 || g.sq[2] == 0.0
    ensures w.Num? ==> w.val >= 0.0
  {
    // squared lengths of the far edge (L12) and of the two near edges (L01, L02)
    var sq12, sq01, sq02 := g.sq[ix.far], g.sq[ix.near1], g.sq[ix.near2];
    if sq01 == 0.0 || sq02 == 0.0 || sq12 == 0.0 then NaN
    else
      // law-of-cosines numerators of the angles alpha (at the vertex), beta and gamma
      var numAlpha := sq01 + sq02 - sq12;
      var numBeta := sq01 + sq12 - sq02;
      var numGamma := sq02 + sq12 - sq01;
      if !(numAlpha < 0.0 || numBeta < 0.0 || numGamma < 0.0) then
        // Voronoi: (L01^2 / tan(gamma) + L02^2 / tan(beta)) / 8
        assert g.crossNorm > 0.0 by {
          HeronPositive(sq01, sq02, sq12);
          HeronSymmetric(g, ix);
        }
        var d := 2.0 * g.crossNorm;
        VoronoiPositive(sq01, sq02, numGamma, numBeta, d);
        Num(VoronoiTerm(sq01, sq02, numGamma / d, numBeta / d))
      else
        var areaT := g.Area();
        if numAlpha < 0.0 then Num(areaT / 2.0) else Num(areaT / 4.0)
  }

  /**
   * The source's computation is Meyer's mixed area: NaN for a zero-length edge;
   * for a non-obtuse triangle the Voronoi term (|near1|^2 cot + |near2|^2 cot) / 8
   * with the cotangents of the angles opposite the near edges, which is positive;
   * for an obtuse triangle half its area when the angle at the query vertex (the
   * one opposite the far edge) is obtuse, and a quarter of it otherwise.
   */
  lemma {:induction false} VertexAreaMeyer(g: TriGeometry, ix: EdgeIdx)
    requires Consistent(g) && ix.Valid()
    ensures VertexArea(g, ix) == NaN <==> !NoZeroEdge(g)
    ensures NoZeroEdge(g) && !AnyObtuse(g) ==>
      g.crossNorm > 0.0
      && VertexArea(g, ix) == Num(VoronoiTerm(g.sq[ix.near1], g.sq[ix.near2], Cot(g, ix.near1), Cot(g, ix.near2)))
      && VertexArea(g, ix).val > 0.0
    ensures NoZeroEdge(g) && ObtuseOpposite(g, ix.far) ==> VertexArea(g, ix) == Num(g.Area() / 2.0)
    ensures NoZeroEdge(g) && AnyObtuse(g) && !ObtuseOpposite(g, ix.far) ==> VertexArea(g, ix) == Num(g.Area() / 4.0)
  {
    var sq12, sq01, sq02 := g.sq[ix.far], g.sq[ix.near1], g.sq[ix.near2];
    assert CosNumerator(g, ix.far) == sq01 + sq02 - sq12;
    assert CosNumerator(g, ix.near2) == sq01 + sq12 - sq02;
    assert CosNumerator(g, ix.near1) == sq02 + sq12 - sq01;
    assert AnyObtuse(g) <==> ObtuseOpposite(g, ix.far) || ObtuseOpposite(g, ix.near1) || ObtuseOpposite(g, ix.near2);
    if NoZeroEdge(g) && !AnyObtuse(g) {
      NonObtuseHasArea(g);
      var d := 2.0 * g.crossNorm;
      var numGamma, numBeta := sq02 + sq12 - sq01, sq01 + sq12 - sq02;
      assert Cot(g, ix.near1) == numGamma / d && Cot(g, ix.near2) == numBeta / d;
      VoronoiPositive(sq01, sq02, numGamma, numBeta, d);
    }
  }

  lemma {:induction false} VoronoiPositive(sq01: real, sq02: real, numGamma: real, numBeta: real, d: real)
    requires sq01 > 0.0 && sq02 > 0.0 && d > 0.0
    requires numGamma >= 0.0 && numBeta >= 0.0 && numGamma + numBeta > 0.0
    ensures VoronoiTerm(sq01, sq02, numGamma / d, numBeta / d) > 0.0
  {
    assert numGamma / d >= 0.0 && numBeta / d >= 0.0;
    if numGamma > 0.0 {
      assert numGamma / d > 0.0;
      assert sq01 * (numGamma / d) > 0.0;
      assert sq02 * (numBeta / d) >= 0.0;
    } else {
      assert numBeta / d > 0.0;
      assert sq02 * (numBeta / d) > 0.0;
      assert sq01 * (numGamma / d) >= 0.0;
    }
  }

  /** No triangle without a zero-length edge has two obtuse angles. */
  lemma AtMostOneObtuse(g: TriGeometry, j: nat, k: nat)
    requires |g.sq| == 3 && NoZeroEdge(g) && j < 3 && k < 3 && j != k
    ensures !(ObtuseOpposite(g, j) && ObtuseOpposite(g, k))
  {
  }

  /** The Voronoi terms of the three vertices: each edge is counted from both of its ends. */
  lemma {:induction false} VoronoiSum(s0: real, s1: real, s2: real, dn: real)
    requires dn > 0.0 && 4.0 * dn * dn == Heron(s0, s1, s2)
    ensures var d := 2.0 * dn;
      var c0, c1, c2 := (s1 + s2 - s0) / d, (s0 + s2 - s1) / d, (s0 + s1 - s2) / d;
      VoronoiTerm(s0, s1, c0, c1) + VoronoiTerm(s0, s2, c0, c2) + VoronoiTerm(s1, s2, c1, c2) == 0.5 * dn
  {
    var d := 2.0 * dn;
    var n0, n1, n2 := s1 + s2 - s0, s0 + s2 - s1, s0 + s1 - s2;
    var x := s0 * n0 + s1 * n1 + s2 * n2;
    assert x == Heron(s0, s1, s2);
    assert s0 * (n0 / d) + s1 * (n1 / d) + s2 * (n2 / d) == x / d;
    assert x / d == 2.0 * dn;
  }

  /** The near and far edges of local positions 0, 1 and 2. */
  lemma LocalEdgesTable()
    ensures LocalEdges(0) == EdgeIdx(0, 1, 2) && LocalEdges(1) == EdgeIdx(0, 2, 1) && LocalEdges(2) == EdgeIdx(1, 2, 0)
  {
    LookupTable(0);
    LookupTable(1);
    LookupTable(2);
  }

  /** The non-obtuse half of TrianglePartition: the three Voronoi terms add up to the area. */
  lemma {:induction false} VoronoiPartition(g: TriGeometry)
    requires Consistent(g) && NoZeroEdge(g) && !AnyObtuse(g)
    ensures VertexArea(g, EdgeIdx(0, 1, 2)).Num? && VertexArea(g, EdgeIdx(0, 2, 1)).Num? && VertexArea(g, EdgeIdx(1, 2, 0)).Num?
    ensures VertexArea(g, EdgeIdx(0, 1, 2)).val + VertexArea(g, EdgeIdx(0, 2, 1)).val + VertexArea(g, EdgeIdx(1, 2, 0)).val == g.Area()
  {
    VertexAreaMeyer(g, EdgeIdx(0, 1, 2));
    VertexAreaMeyer(g, EdgeIdx(0, 2, 1));
    VertexAreaMeyer(g, EdgeIdx(1, 2, 0));
    CotSum(g);
  }

  /** VoronoiSum in terms of the triangle's own cotangents. */
  lemma {:induction false} CotSum(g: TriGeometry)
    requires Consistent(g) && g.crossNorm > 0.0
    ensures VoronoiTerm(g.sq[0], g.sq[1], Cot(g, 0), Cot(g, 1)) + VoronoiTerm(g.sq[0], g.sq[2], Cot(g, 0), Cot(g, 2))
      + VoronoiTerm(g.sq[1], g.sq[2], Cot(g, 1), Cot(g, 2)) == g.Area()
  {
    VoronoiSum(g.sq[0], g.sq[1], g.sq[2], g.crossNorm);
  }

  /** In an obtuse triangle, local position c gets half of the area if its far edge faces the obtuse angle, a quarter otherwise. */
  lemma {:induction false} ObtuseShare(g: TriGeometry, c: nat)
    requires Consistent(g) && NoZeroEdge(g) && AnyObtuse(g) && c < 3
    ensures VertexArea(g, LocalEdges(c)) == Num(if ObtuseOpposite(g, FarEdge(c)) then g.Area() / 2.0 else g.Area() / 4.0)
  {
    VertexAreaMeyer(g, LocalEdges(c));
  }

  /**
   * The obtuse half of TrianglePartition: exactly one local position faces an
   * obtuse angle across its far edge; it gets half of the area, the other two a
   * quarter each, and the three add up to the area.
   */
  lemma {:induction false} ObtusePartition(g: TriGeometry)
    requires Consistent(g) && NoZeroEdge(g) && AnyObtuse(g)
    ensures exists c :: 0 <= c < 3 && ObtuseOpposite(g, FarEdge(c))
    ensures forall c, c' | 0 <= c < 3 && 0 <= c' < 3 && ObtuseOpposite(g, FarEdge(c)) && ObtuseOpposite(g, FarEdge(c')) :: c == c'
    ensures forall c | 0 <= c < 3 ::
      VertexArea(g, LocalEdges(c)) == Num(if ObtuseOpposite(g, FarEdge(c)) then g.Area() / 2.0 else g.Area() / 4.0)
    ensures VertexArea(g, EdgeIdx(0, 1, 2)).Num? && VertexArea(g, EdgeIdx(0, 2, 1)).Num? && VertexArea(g, EdgeIdx(1, 2, 0)).Num?
    ensures VertexArea(g, EdgeIdx(0, 1, 2)).val + VertexArea(g, EdgeIdx(0, 2, 1)).val + VertexArea(g, EdgeIdx(1, 2, 0)).val == g.Area()
  {
    forall c, c' | 0 <= c < 3 && 0 <= c' < 3 && ObtuseOpposite(g, FarEdge(c)) && ObtuseOpposite(g, FarEdge(c'))
      ensures c == c'
    {
      if c != c' {
        AtMostOneObtuse(g, FarEdge(c), FarEdge(c'));
      }
    }
    forall c | 0 <= c < 3
      ensures VertexArea(g, LocalEdges(c)) == Num(if ObtuseOpposite(g, FarEdge(c)) then g.Area() / 2.0 else g.Area() / 4.0)
    {
      ObtuseShare(g, c);
    }
    LocalEdgesTable();
    if ObtuseOpposite(g, 2) {
      assert ObtuseOpposite(g, FarEdge(0));
    } else if ObtuseOpposite(g, 1) {
      assert ObtuseOpposite(g, FarEdge(1));
    } else {
      assert ObtuseOpposite(g, FarEdge(2));
    }
  }

  /**
   * The three contributions of a triangle without a zero-length edge add up to
   * its area, in the non-obtuse case and in the obtuse one (1/2 + 1/4 + 1/4).
   */
  lemma {:induction false} TrianglePartition(g: TriGeometry)
    requires Consistent(g) && NoZeroEdge(g)
    ensures VertexArea(g, LocalEdges(0)).Num? && VertexArea(g, LocalEdges(1)).Num? && VertexArea(g, LocalEdges(2)).Num?
    ensures VertexArea(g, LocalEdges(0)).val + VertexArea(g, LocalEdges(1)).val + VertexArea(g, LocalEdges(2)).val == g.Area()
  {
    LocalEdgesTable();
    if AnyObtuse(g) {
      ObtusePartition(g);
    } else {
      VoronoiPartition(g);
    }
  }

  /**
   * A flat triangle (zero area, no zero-length edge) has an obtuse angle, and
   * all three of its vertex areas are zero: the obtuse branch scales an area of 0.
   */
  lemma {:induction false} FlatTriangle(g: TriGeometry)
    requires Consistent(g) && NoZeroEdge(g) && g.crossNorm == 0.0
    ensures AnyObtuse(g)
    ensures VertexArea(g, LocalEdges(0)) == Num(0.0)
    ensures VertexArea(g, LocalEdges(1)) == Num(0.0)
    ensures VertexArea(g, LocalEdges(2)) == Num(0.0)
  {
    LocalEdgesTable();
    if !AnyObtuse(g) {
      NonObtuseHasArea(g);
      assert false;
    }
    VertexAreaMeyer(g, EdgeIdx(0, 1, 2));
    VertexAreaMeyer(g, EdgeIdx(0, 2, 1));
    VertexAreaMeyer(g, EdgeIdx(1, 2, 0));
  }
}
