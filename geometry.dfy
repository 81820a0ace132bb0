/**
 * The edge-geometry precomputation: per triangle, the three edge vectors in the
 * canonical order v1 - v0, v2 - v0, v2 - v1 and their squared lengths, plus the
 * norm of e0 x e1 that gives the triangle's area.
 */
module Geometry {
  import opened Outcomes

  datatype Vec3 = Vec3(x: real, y: real, z: real)

  function Sub(a: Vec3, b: Vec3): Vec3 { Vec3(a.x - b.x, a.y - b.y, a.z - b.z) }

  function Dot(a: Vec3, b: Vec3): real { a.x * b.x + a.y * b.y + a.z * b.z }

  function Cross(a: Vec3, b: Vec3): Vec3 {
    Vec3(a.y * b.z - a.z * b.y, a.z * b.x - a.x * b.z, a.x * b.y - a.y * b.x)
  }

  /** The square of `np.linalg.norm(a)`. */
  function SqNorm(a: Vec3): real { Dot(a, a) }

  /** A row of the triangle array: three indices into the point array, in stored order. */
  datatype Tri = Tri(v0: nat, v1: nat, v2: nat) {
    /** `tris[t, j]` */
    function At(j: nat): nat
      requires j < 3
    {
      if j == 0 then v0 else if j == 1 then v1 else v2
    }

    predicate InRange(count: nat) { v0 < count && v1 < count && v2 < count }
  }

  /**
   * What the worker needs of one triangle: the squared lengths of its canonical
   * edges (v1 - v0, v2 - v0, v2 - v1) and `norm(cross(e0, e1))`, twice its area.
   */
  datatype TriGeometry = TriGeometry(sq: seq<real>, crossNorm: real) {
    /** `area_t = 0.5 * norm(cross(edges[t, 0], edges[t, 1]))` */
    function Area(): real { 0.5 * crossNorm }
  }

  /** Sixteen times the squared area of a triangle with squared side lengths a, b, c (Heron). */
  function Heron(a: real, b: real, c: real): real {
    2.0 * a * b + 2.0 * b * c + 2.0 * c * a - a * a - b * b - c * c
  }

  /**
   * The geometry of a real triangle: squared lengths are non-negative and the
   * cross-product norm is the square root that Heron's formula asks for.
   */
  ghost predicate Consistent(g: TriGeometry) {
    && |g.sq| == 3
    && g.sq[0] >= 0.0 && g.sq[1] >= 0.0 && g.sq[2] >= 0.0
    && g.crossNorm >= 0.0
    && 4.0 * g.crossNorm * g.crossNorm == Heron(g.sq[0], g.sq[1], g.sq[2])
  }

  /** The three edge vectors of a triangle in canonical order. */
  function Edges(p0: Vec3, p1: Vec3, p2: Vec3): (e: seq<Vec3>)
    ensures |e| == 3
  {
    [Sub(p1, p0), Sub(p2, p0), Sub(p2, p1)]
  }

  /**
   * Four times |a x b|^2 is Heron's expression in |a|^2, |b|^2 and |b - a|^2:
   * Lagrange's identity with the law of cosines substituted.
   */
  lemma {:induction false} CrossHeron(a: Vec3, b: Vec3)
    ensures 4.0 * SqNorm(Cross(a, b)) == Heron(SqNorm(a), SqNorm(b), SqNorm(Sub(b, a)))
  {
    LawOfCosines(a, b);
    Lagrange(a, b);
    HeronOfThirdSide(SqNorm(a), SqNorm(b), SqNorm(Sub(b, a)), Dot(a, b), SqNorm(Cross(a, b)));
  }

  /** CrossHeron for the canonical edges of a triangle, whose third edge is the second minus the first. */
  lemma {:induction false} EdgesHeron(p0: Vec3, p1: Vec3, p2: Vec3)
    ensures var e := Edges(p0, p1, p2);
      4.0 * SqNorm(Cross(e[0], e[1])) == Heron(SqNorm(e[0]), SqNorm(e[1]), SqNorm(e[2]))
  {
    var a, b := Sub(p1, p0), Sub(p2, p0);
    assert Sub(b, a) == Sub(p2, p1);
    CrossHeron(a, b);
  }

  /** The law of cosines for vectors: |b - a|^2 = |a|^2 + |b|^2 - 2 a.b. */
  lemma LawOfCosines(a: Vec3, b: Vec3)
    ensures SqNorm(Sub(b, a)) == SqNorm(a) + SqNorm(b) - 2.0 * Dot(a, b)
  {
  }

  /** Lagrange's identity in three dimensions: |a x b|^2 = |a|^2 |b|^2 - (a.b)^2. */
  lemma Lagrange(a: Vec3, b: Vec3)
    ensures SqNorm(Cross(a, b)) == SqNorm(a) * SqNorm(b) - Dot(a, b) * Dot(a, b)
  {
  }

  /** Heron's expression for sides p, q and the third side given by the law of cosines. */
  lemma HeronOfThirdSide(p: real, q: real, r: real, d: real, x: real)
    requires r == p + q - 2.0 * d && x == p * q - d * d
    ensures 4.0 * x == Heron(p, q, r)
  {
  }

  /** A triangle's indices are all valid point indices. */
  predicate ValidTris(count: nat, tris: seq<Tri>) {
    forall t | 0 <= t < |tris| :: tris[t].InRange(count)
  }

  /**
   * The caller-supplied norms of the cross products are those of the mesh: each
   * is the non-negative square root of |e0 x e1|^2 of a triangle whose indices are valid.
   */
  ghost predicate NormsOf(points: seq<Vec3>, tris: seq<Tri>, crossNorms: seq<real>) {
    && |crossNorms| == |tris|
    && forall t | 0 <= t < |tris| && tris[t].InRange(|points|) ::
         var e := Edges(points[tris[t].v0], points[tris[t].v1], points[tris[t].v2]);
         crossNorms[t] >= 0.0 && crossNorms[t] * crossNorms[t] == SqNorm(Cross(e[0], e[1]))
  }

  function TriGeometryOf(points: seq<Vec3>, tri: Tri, crossNorm: real): TriGeometry
    requires tri.InRange(|points|)
  {
    var e := Edges(points[tri.v0], points[tri.v1], points[tri.v2]);
    TriGeometry([SqNorm(e[0]), SqNorm(e[1]), SqNorm(e[2])], crossNorm)
  }

  /** A squared length is never negative. */
  lemma SqNormNonNegative(a: Vec3)
    ensures SqNorm(a) >= 0.0
  {
    assert a.x * a.x >= 0.0 && a.y * a.y >= 0.0 && a.z * a.z >= 0.0;
  }

  /** The geometry of one triangle whose cross-product norm is the right square root is consistent. */
  lemma {:induction false} GeometryOfConsistent(points: seq<Vec3>, tri: Tri, crossNorm: real)
    requires tri.InRange(|points|)
    requires var e := Edges(points[tri.v0], points[tri.v1], points[tri.v2]);
      crossNorm >= 0.0 && crossNorm * crossNorm == SqNorm(Cross(e[0], e[1]))
    ensures Consistent(TriGeometryOf(points, tri, crossNorm))
  {
    var e := Edges(points[tri.v0], points[tri.v1], points[tri.v2]);
    SqNormNonNegative(e[0]);
    SqNormNonNegative(e[1]);
    SqNormNonNegative(e[2]);
    EdgesHeron(points[tri.v0], points[tri.v1], points[tri.v2]);
  }

  /**
   * `edges = np.stack([...])` and `edge_lengths = norm(edges)`: indexing the point
   * array with an index outside it raises IndexError; otherwise every triangle
   * gets consistent geometry.
   */
  function Precompute(points: seq<Vec3>, tris: seq<Tri>, crossNorms: seq<real>): (r: Result<seq<TriGeometry>>)
    requires NormsOf(points, tris, crossNorms)
    ensures r.Ok? <==> ValidTris(|points|, tris)
    ensures r.Err? ==> r.error == IndexError
    ensures r.Ok? ==> |r.value| == |tris| && forall t | 0 <= t < |tris| :: Consistent(r.value[t])
    ensures r.Ok? ==> forall t | 0 <= t < |tris| ::
      var e := Edges(points[tris[t].v0], points[tris[t].v1], points[tris[t].v2]);
      r.value[t].sq == [SqNorm(e[0]), SqNorm(e[1]), SqNorm(e[2])] && r.value[t].crossNorm == crossNorms[t]
  {
    if !ValidTris(|points|, tris) then Err(IndexError)
    else
      var geom := seq(|tris|, t requires 0 <= t < |tris| => TriGeometryOf(points, tris[t], crossNorms[t]));
      assert forall t | 0 <= t < |tris| :: Consistent(geom[t]) by {
        forall t | 0 <= t < |tris| ensures Consistent(geom[t]) {
          GeometryOfConsistent(points, tris[t], crossNorms[t]);
        }
      }
      Ok(geom)
  }
}
