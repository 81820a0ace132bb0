/**
 * The mass-matrix front end: `AREA_TYPES`, `mayer_area` (the diagonal matrix of
 * each vertex's total Meyer mixed area) and `get_mass_matrix`, which dispatches
 * on the area-type name.
 */
module MassMatrix {
  import opened Outcomes
  import opened Geometry
  import opened MixedArea
  import opened Sparse
  import opened Worker
  import opened Aggregate
  import opened EdgeLookup

  /** igl's mass-matrix type constants; only the Voronoi one is used. */
  datatype IglKind = MassMatrixVoronoi

  /** A value of `AREA_TYPES`: an igl constant, or the string 'mayer'. */
  datatype AreaType = Igl(kind: IglKind) | MayerName

  /** `AREA_TYPES`: 'barycentric' is mapped to igl's Voronoi type, as 'voronoi' is. */
  const AreaTypes: Dict<AreaType> := [("voronoi", Igl(MassMatrixVoronoi)), ("barycentric", Igl(MassMatrixVoronoi)), ("mayer", MayerName)]

  /**
   * A mass matrix: the one `igl.massmatrix` returns for a type (a foreign
   * computation, kept opaque), or a diagonal matrix given by its diagonal.
   */
  datatype Mass = IglMassMatrix(kind: IglKind) | Diagonal(diag: seq<real>)

  /** A stored weight as a number; the positivity assertion has rejected NaN before any sum is taken. */
  function Val(w: Weight): real {
    if w.Num? then w.val else 0.0
  }

  /** The sum of row i of the weight matrix over its first n columns. */
  function RowSum(m: Entries, i: nat, n: nat): real {
    if n == 0 then 0.0 else RowSum(m, i, n - 1) + Val(Sparse.Get(m, (i, n - 1)))
  }

  /** The sum of column t of the weight matrix over its first n rows. */
  function ColSum(m: Entries, t: nat, n: nat): real {
    if n == 0 then 0.0 else ColSum(m, t, n - 1) + Val(Sparse.Get(m, (n - 1, t)))
  }

  /** `np.squeeze(np.asarray(a.sum(axis=1)))`: the row sums of a rows x cols matrix. */
  function RowSums(m: Entries, rows: nat, cols: nat): (d: seq<real>)
    ensures |d| == rows && forall i | 0 <= i < rows :: d[i] == RowSum(m, i, cols)
  {
    seq(rows, i requires 0 <= i < rows => RowSum(m, i, cols))
  }

  function Sum(s: seq<real>): real {
    if s == [] then 0.0 else Sum(s[..|s| - 1]) + s[|s| - 1]
  }

  /** The sum of the column sums of the first `cols` columns. */
  function ColTotal(m: Entries, rows: nat, cols: nat): real {
    if cols == 0 then 0.0 else ColTotal(m, rows, cols - 1) + ColSum(m, cols - 1, rows)
  }

  /** The surface area of a mesh, `0.5 * norm(cross(e0, e1))` summed over its triangles. */
  function MeshArea(crossNorms: seq<real>): real {
    if crossNorms == [] then 0.0 else MeshArea(crossNorms[..|crossNorms| - 1]) + 0.5 * crossNorms[|crossNorms| - 1]
  }

  /**
   * `mayer_area(v, f)`: the triangle geometry, then the weight matrix over all
   * vertices, then the diagonal of its row sums.
   */
  function MayerSpec(points: seq<Vec3>, tris: seq<Tri>, crossNorms: seq<real>): (r: Result<seq<real>>)
    requires NormsOf(points, tris, crossNorms)
    ensures r.Ok? ==> |r.value| == |points|
    ensures r.Err? ==> r.error == IndexError || r.error == AssertionError(ZeroAreas)
  {
    match Precompute(points, tris, crossNorms)
    case Err(e) => Err(e)
    case Ok(geom) =>
      match WeightsSpec(|points|, tris, geom)
      case Err(e) => Err(e)
      case Ok(m) => Ok(RowSums(m, |points|, |tris|))
  }

  /** The text of the ValueError: the prefix followed by Python's repr of the key list. */
  function ListRepr(ks: seq<string>): string {
    "[" + ItemsRepr(ks) + "]"
  }

  function ItemsRepr(ks: seq<string>): string {
    if ks == [] then ""
    else if |ks| == 1 then "'" + ks[0] + "'"
    else "'" + ks[0] + "', " + ItemsRepr(ks[1..])
  }

  const UnsupportedPrefix: string := "Please choose one of the supported mass matrix types:"

  const UnsupportedMessage: string := UnsupportedPrefix + ListRepr(Keys(AreaTypes))

  /** `get_mass_matrix(v, f, area_type)` */
  function MassMatrixSpec(name: string, points: seq<Vec3>, tris: seq<Tri>, crossNorms: seq<real>): (r: Result<Mass>)
    requires NormsOf(points, tris, crossNorms)
    ensures r.Ok? && r.value.IglMassMatrix? ==>
      name == "voronoi" || name == "barycentric"
    ensures r.Ok? && r.value.Diagonal? ==> name == "mayer" && |r.value.diag| == |points|
    ensures r.Err? ==> (r.error == IndexError || r.error == AssertionError(ZeroAreas)) == (name == "mayer")
  {
    if name == "voronoi" || name == "barycentric" then
      var t := Outcomes.Get(AreaTypes, name);
      if t.Some? && t.value.Igl? then Ok(IglMassMatrix(t.value.kind)) else assert false; Err(KeyError)
    else if name == "mayer" then
      match MayerSpec(points, tris, crossNorms)
      case Err(e) => Err(e)
      case Ok(d) => Ok(Diagonal(d))
    else Err(ValueError(UnsupportedMessage))
  }

  /**
   * `mayer_area`, run with `cores` workers: computes the same diagonal however
   * many cores it is given.
   */
  method MayerArea(points: seq<Vec3>, tris: seq<Tri>, crossNorms: seq<real>, cores: int) returns (r: Result<seq<real>>)
    requires NormsOf(points, tris, crossNorms)
    ensures r == MayerSpec(points, tris, crossNorms)
  {
    var pre := Precompute(points, tris, crossNorms);
    if pre.Err? {
      return Err(pre.error);
    }
    var geom := pre.value;
    var w := VtxTriWeights(|points|, tris, geom, cores);
    if w.Err? {
      return Err(w.error);
    }
    r := Ok(RowSums(w.value, |points|, |tris|));
  }

  /** `get_mass_matrix`, with the Meyer areas computed on `cores` workers. */
  method GetMassMatrix(name: string, points: seq<Vec3>, tris: seq<Tri>, crossNorms: seq<real>, cores: int) returns (r: Result<Mass>)
    requires NormsOf(points, tris, crossNorms)
    ensures r == MassMatrixSpec(name, points, tris, crossNorms)
  {
    if name == "voronoi" || name == "barycentric" {
      var t := Outcomes.Get(AreaTypes, name);
      r := Ok(IglMassMatrix(t.value.kind));
    } else if name == "mayer" {
      var d := MayerArea(points, tris, crossNorms, cores);
      if d.Err? {
        return Err(d.error);
      }
      r := Ok(Diagonal(d.value));
    } else {
      r := Err(ValueError(UnsupportedMessage));
    }
  }

  /** Some edge of the triangle has length zero: two of its corners are at the same point. */
  predicate ZeroLengthEdgeIn(points: seq<Vec3>, tri: Tri)
    requires tri.InRange(|points|)
  {
    var e := Edges(points[tri.v0], points[tri.v1], points[tri.v2]);
    SqNorm(e[0]) == 0.0 || SqNorm(e[1]) == 0.0 || SqNorm(e[2]) == 0.0
  }

  /** Some triangle of the mesh has an edge of length zero. */
  predicate SomeZeroLengthEdge(points: seq<Vec3>, tris: seq<Tri>)
    requires ValidTris(|points|, tris)
  {
    exists t | 0 <= t < |tris| :: ZeroLengthEdgeIn(points, tris[t])
  }

  lemma AreaTypeKeys()
    ensures Keys(AreaTypes) == ["voronoi", "barycentric", "mayer"]
  {
  }

  /** One key is rendered as Python renders a string in a list: between single quotes. */
  lemma ItemRepr(k: string)
    ensures ItemsRepr([k]) == "'" + k + "'"
  {
  }

  lemma ItemsTail()
    ensures ItemsRepr(["barycentric", "mayer"]) == "'barycentric', " + "'mayer'"
  {
    assert ["barycentric", "mayer"][1..] == ["mayer"];
    ItemRepr("mayer");
    assert "'" + "barycentric" + "', " == "'barycentric', ";
  }

  lemma KeyListRepr()
    ensures ListRepr(["voronoi", "barycentric", "mayer"]) == "[" + "'voronoi', " + "'barycentric', " + "'mayer'" + "]"
  {
    assert ["voronoi", "barycentric", "mayer"][1..] == ["barycentric", "mayer"];
    ItemsTail();
    assert "'" + "voronoi" + "', " == "'voronoi', ";
  }

  /** The ValueError's message, with Python's rendering of the key list. */
  lemma MessageText()
    ensures Keys(AreaTypes) == ["voronoi", "barycentric", "mayer"]
    ensures UnsupportedMessage == UnsupportedPrefix + "[" + "'voronoi', " + "'barycentric', " + "'mayer'" + "]"
  {
    AreaTypeKeys();
    KeyListRepr();
  }

  /**
   * `get_mass_matrix` raises ValueError exactly for a name that is not a key of
   * `AREA_TYPES`, with the key list spelled out in its message.
   */
  lemma {:induction false} NameDispatch(name: string, points: seq<Vec3>, tris: seq<Tri>, crossNorms: seq<real>)
    requires NormsOf(points, tris, crossNorms)
    ensures var r := MassMatrixSpec(name, points, tris, crossNorms);
      (r.Err? && r.error.ValueError?) <==> name !in Keys(AreaTypes)
    ensures name !in Keys(AreaTypes) ==>
      MassMatrixSpec(name, points, tris, crossNorms) == Err(ValueError(
        UnsupportedPrefix + "[" + "'voronoi', " + "'barycentric', " + "'mayer'" + "]"))
  {
    MessageText();
  }

  /** 'barycentric' gives the very same igl Voronoi mass matrix as 'voronoi'. */
  lemma BarycentricIsVoronoi(points: seq<Vec3>, tris: seq<Tri>, crossNorms: seq<real>)
    requires NormsOf(points, tris, crossNorms)
    ensures MassMatrixSpec("barycentric", points, tris, crossNorms) == MassMatrixSpec("voronoi", points, tris, crossNorms)
      == Ok(IglMassMatrix(MassMatrixVoronoi))
  {
    MessageText();
  }

  /** One triangle's precomputed geometry has a zero squared edge length exactly where its points give one. */
  lemma ZeroEdgeAt(points: seq<Vec3>, tris: seq<Tri>, crossNorms: seq<real>, t: nat)
    requires NormsOf(points, tris, crossNorms) && ValidTris(|points|, tris) && t < |tris|
    ensures !NoZeroEdge(Precompute(points, tris, crossNorms).value[t]) <==> ZeroLengthEdgeIn(points, tris[t])
  {
  }

  /** The precomputed geometry has a zero squared edge length exactly where the points give one. */
  lemma ZeroEdgeGeometry(points: seq<Vec3>, tris: seq<Tri>, crossNorms: seq<real>)
    requires NormsOf(points, tris, crossNorms) && ValidTris(|points|, tris)
    ensures SomeZeroEdge(Precompute(points, tris, crossNorms).value) <==> SomeZeroLengthEdge(points, tris)
  {
    forall t | 0 <= t < |tris|
      ensures !NoZeroEdge(Precompute(points, tris, crossNorms).value[t]) <==> ZeroLengthEdgeIn(points, tris[t])
    {
      ZeroEdgeAt(points, tris, crossNorms, t);
    }
  }

  /**
   * `mayer_area` raises IndexError exactly when a triangle index is outside the
   * point array or a triangle repeats a vertex; otherwise it fails the
   * positivity assertion exactly when two corners of a triangle coincide, and
   * succeeds with one diagonal entry per vertex.
   */
  lemma {:induction false} MayerOutcome(points: seq<Vec3>, tris: seq<Tri>, crossNorms: seq<real>)
    requires NormsOf(points, tris, crossNorms)
    ensures var r := MayerSpec(points, tris, crossNorms);
      r == Err(IndexError) <==> !ValidTris(|points|, tris) || SomeRepeatedTri(tris)
    ensures var r := MayerSpec(points, tris, crossNorms);
      r.Ok? <==> ValidTris(|points|, tris) && !SomeRepeatedTri(tris) && !SomeZeroLengthEdge(points, tris)
    ensures var r := MayerSpec(points, tris, crossNorms);
      r.Err? && r.error != IndexError ==> r.error == AssertionError(ZeroAreas)
    ensures var r := MayerSpec(points, tris, crossNorms);
      r.Ok? ==> |r.value| == |points|
  {
    if ValidTris(|points|, tris) {
      var geom := Precompute(points, tris, crossNorms).value;
      WeightsOutcome(|points|, tris, geom);
      ZeroEdgeGeometry(points, tris, crossNorms);
    }
  }

  /** Adding the last row to the first rows - 1 adds its row sum to the total of the column sums. */
  lemma {:induction false} ColTotalLastRow(m: Entries, rows: nat, cols: nat)
    requires rows >= 1
    ensures ColTotal(m, rows, cols) == ColTotal(m, rows - 1, cols) + RowSum(m, rows - 1, cols)
  {
    if cols > 0 {
      ColTotalLastRow(m, rows, cols - 1);
    }
  }

  lemma {:induction false} ColTotalNoRows(m: Entries, cols: nat)
    ensures ColTotal(m, 0, cols) == 0.0
  {
    if cols > 0 {
      ColTotalNoRows(m, cols - 1);
    }
  }

  /** The diagonal's entries add up to the sum of all column sums: the order of summation does not matter. */
  lemma {:induction false} SumRowSums(m: Entries, rows: nat, cols: nat)
    ensures Sum(RowSums(m, rows, cols)) == ColTotal(m, rows, cols)
  {
    if rows == 0 {
      ColTotalNoRows(m, cols);
    } else {
      var d := RowSums(m, rows, cols);
      assert d[..rows - 1] == RowSums(m, rows - 1, cols);
      SumRowSums(m, rows - 1, cols);
      ColTotalLastRow(m, rows, cols);
    }
  }

  /** The part of column t held in the rows of the triangle's corners below n. */
  function CornerPart(m: Entries, tri: Tri, t: nat, n: nat): real {
    (if tri.v0 < n then Val(Sparse.Get(m, (tri.v0, t))) else 0.0)
    + (if tri.v1 < n then Val(Sparse.Get(m, (tri.v1, t))) else 0.0)
    + (if tri.v2 < n then Val(Sparse.Get(m, (tri.v2, t))) else 0.0)
  }

  /** A column whose stored entries all sit in the rows of three distinct corners sums to those three entries. */
  lemma {:induction false} ColSumCorners(m: Entries, tri: Tri, t: nat, n: nat)
    requires tri.v0 != tri.v1 && tri.v0 != tri.v2 && tri.v1 != tri.v2
    requires forall i: nat | (i, t) in m :: Incident(tri, i)
    ensures ColSum(m, t, n) == CornerPart(m, tri, t, n)
  {
    if n > 0 {
      ColSumCorners(m, tri, t, n - 1);
      if !Incident(tri, n - 1) {
        assert (n - 1, t) !in m;
      }
    }
  }

  /** The stored area of a corner of a triangle, read back from the weight matrix. */
  lemma {:induction false} CornerEntry(rows: nat, tris: seq<Tri>, geom: seq<TriGeometry>, t: nat, c: nat)
    requires |geom| == |tris| && AllConsistent(geom) && ValidTris(rows, tris)
    requires !SomeRepeatedTri(tris) && !SomeZeroEdge(geom)
    requires t < |tris| && c < 3
    ensures VertexArea(geom[t], LocalEdges(c)).Num?
    ensures Val(Sparse.Get(EntriesOf(tris, geom, Pairs(tris, 0, rows)), (tris[t].At(c), t)))
      == VertexArea(geom[t], LocalEdges(c)).val
  {
    var p := tris[t].At(c);
    assert !Repeated(tris[t], p);
    assert (p, t) in Pairs(tris, 0, rows);
    AreaAtCases(tris, geom, p, t);
    VertexAreaMeyer(geom[t], LocalEdges(c));
  }

  /** Every triangle's column of the weight matrix sums to the triangle's area. */
  lemma {:induction false} ColumnIsArea(rows: nat, tris: seq<Tri>, geom: seq<TriGeometry>, t: nat)
    requires |geom| == |tris| && AllConsistent(geom) && ValidTris(rows, tris)
    requires !SomeRepeatedTri(tris) && !SomeZeroEdge(geom)
    requires t < |tris|
    ensures ColSum(EntriesOf(tris, geom, Pairs(tris, 0, rows)), t, rows) == geom[t].Area()
  {
    var m := EntriesOf(tris, geom, Pairs(tris, 0, rows));
    var tri := tris[t];
    assert tri.v0 != tri.v1 && tri.v0 != tri.v2 && tri.v1 != tri.v2;
    assert forall i: nat | (i, t) in m :: Incident(tri, i);
    ColSumCorners(m, tri, t, rows);
    CornerEntry(rows, tris, geom, t, 0);
    CornerEntry(rows, tris, geom, t, 1);
    CornerEntry(rows, tris, geom, t, 2);
    TrianglePartition(geom[t]);
  }

  lemma {:induction false} ColTotalIsArea(rows: nat, tris: seq<Tri>, geom: seq<TriGeometry>, crossNorms: seq<real>, cols: nat)
    requires |geom| == |tris| && AllConsistent(geom) && ValidTris(rows, tris)
    requires !SomeRepeatedTri(tris) && !SomeZeroEdge(geom)
    requires |crossNorms| == |geom| && forall t | 0 <= t < |geom| :: geom[t].crossNorm == crossNorms[t]
    requires cols <= |tris|
    ensures ColTotal(EntriesOf(tris, geom, Pairs(tris, 0, rows)), rows, cols) == MeshArea(crossNorms[..cols])
  {
    if cols > 0 {
      ColTotalIsArea(rows, tris, geom, crossNorms, cols - 1);
      ColumnIsArea(rows, tris, geom, cols - 1);
      assert crossNorms[..cols][..cols - 1] == crossNorms[..cols - 1];
    }
  }

  /**
   * The Meyer mixed areas partition the surface: when `mayer_area` succeeds, its
   * diagonal adds up to the total area of the mesh's triangles.
   */
  lemma {:induction false} TotalMass(points: seq<Vec3>, tris: seq<Tri>, crossNorms: seq<real>)
    requires NormsOf(points, tris, crossNorms)
    requires MayerSpec(points, tris, crossNorms).Ok?
    ensures Sum(MayerSpec(points, tris, crossNorms).value) == MeshArea(crossNorms)
  {
    MayerOutcome(points, tris, crossNorms);
    var geom := Precompute(points, tris, crossNorms).value;
    var rows := |points|;
    WeightsOutcome(rows, tris, geom);
    ZeroEdgeGeometry(points, tris, crossNorms);
    var m := EntriesOf(tris, geom, Pairs(tris, 0, rows));
    assert MayerSpec(points, tris, crossNorms).value == RowSums(m, rows, |tris|);
    SumRowSums(m, rows, |tris|);
    ColTotalIsArea(rows, tris, geom, crossNorms, |tris|);
    assert crossNorms[..|tris|] == crossNorms;
  }
}
