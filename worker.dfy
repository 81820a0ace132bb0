/**
 * The Meyer worker: for every vertex of its work list and every triangle that
 * contains it, writes that triangle's mixed area for the vertex into a sparse
 * vertex x triangle matrix.
 */
module Worker {
  import opened Outcomes
  import opened Geometry
  import opened EdgeLookup
  import opened MixedArea
  import opened Sparse

  /** `(tris[t] == p).any()`: vertex p is a corner of the triangle. */
  predicate Incident(tri: Tri, p: nat) {
    tri.v0 == p || tri.v1 == p || tri.v2 == p
  }

  /** Vertex p occupies two or more corners of the triangle. */
  predicate Repeated(tri: Tri, p: nat) {
    (tri.v0 == p && tri.v1 == p) || (tri.v0 == p && tri.v2 == p) || (tri.v1 == p && tri.v2 == p)
  }

  ghost predicate AllConsistent(geom: seq<TriGeometry>) {
    forall t | 0 <= t < |geom| :: Consistent(geom[t])
  }

  /**
   * The area written at (p, t), or None where the edge lookup raises IndexError,
   * which happens exactly when p sits at more than one corner; a written area is
   * NaN or non-negative.
   */
  function AreaAt(tris: seq<Tri>, geom: seq<TriGeometry>, p: nat, t: nat): (r: Option<Weight>)
    requires |geom| == |tris| && t < |tris| && AllConsistent(geom)
    requires Incident(tris[t], p)
    ensures r.None? <==> Repeated(tris[t], p)
    ensures r.Some? && r.value.Num? ==> r.value.val >= 0.0
  {
    var cent := Positions(tris[t], p);
    LookupCorrect(cent);
    FlatNonzero3(tris[t].v0 == p, tris[t].v1 == p, tris[t].v2 == p);
    match Lookup(cent)
    case None => None
    case Some(ix) => Some(VertexArea(geom[t], ix))
  }

  /** The lookup raises exactly when the vertex sits at more than one corner; otherwise it writes the mixed area for its corner. */
  lemma {:induction false} AreaAtCases(tris: seq<Tri>, geom: seq<TriGeometry>, p: nat, t: nat)
    requires |geom| == |tris| && t < |tris| && AllConsistent(geom)
    requires Incident(tris[t], p)
    ensures AreaAt(tris, geom, p, t).None? <==> Repeated(tris[t], p)
    ensures !Repeated(tris[t], p) ==>
      exists c | 0 <= c < 3 :: tris[t].At(c) == p && AreaAt(tris, geom, p, t) == Some(VertexArea(geom[t], LocalEdges(c)))
  {
    var tri := tris[t];
    if !Repeated(tri, p) {
      var c := if tri.v0 == p then 0 else if tri.v1 == p then 1 else 2;
      FlatNonzero3(tri.v0 == p, tri.v1 == p, tri.v2 == p);
      assert Positions(tri, p) == [c];
      assert LocalEdges(c) == Lookup([c]).value;
      assert tri.At(c) == p && AreaAt(tris, geom, p, t) == Some(VertexArea(geom[t], LocalEdges(c)));
    }
  }

  /** The (vertex, triangle) pairs with the vertex in [lo, hi) and a corner of the triangle. */
  function Pairs(tris: seq<Tri>, lo: nat, hi: nat): (ks: set<Key>)
    ensures forall k | k in ks :: k.1 < |tris| && Incident(tris[k.1], k.0)
  {
    set p: nat, t: nat | lo <= p < hi && t < |tris| && Incident(tris[t], p) :: (p, t)
  }

  /** The pairs of vertex p with the triangles before `tEnd`. */
  function Row(tris: seq<Tri>, p: nat, tEnd: nat): (ks: set<Key>)
    requires tEnd <= |tris|
    ensures forall k | k in ks :: k.1 < |tris| && Incident(tris[k.1], k.0)
  {
    set t: nat | t < tEnd && Incident(tris[t], p) :: (p, t)
  }

  /** The matrix that results from writing the area of every pair in `ks`. */
  function EntriesOf(tris: seq<Tri>, geom: seq<TriGeometry>, ks: set<Key>): Entries
    requires |geom| == |tris| && AllConsistent(geom)
    requires forall k | k in ks :: k.1 < |tris| && Incident(tris[k.1], k.0)
  {
    Stored(AreaFn(tris, geom), ks)
  }

  /** AreaAt as a function of the (vertex, triangle) key. */
  function AreaFn(tris: seq<Tri>, geom: seq<TriGeometry>): Key --> Option<Weight>
    requires |geom| == |tris| && AllConsistent(geom)
  {
    (k: Key) requires k.1 < |tris| && Incident(tris[k.1], k.0) => AreaAt(tris, geom, k.0, k.1)
  }

  /** Some vertex in [lo, hi) sits at two corners of one triangle. */
  predicate HasRepeated(tris: seq<Tri>, lo: nat, hi: nat) {
    exists p: nat, t: nat | lo <= p < hi && t < |tris| :: Repeated(tris[t], p)
  }

  /**
   * What `__meyer_worker` returns for the work list range(lo, hi): IndexError if
   * one of its vertices is repeated within a triangle, otherwise the areas of
   * all its (vertex, incident triangle) pairs.
   */
  function WorkerSpec(tris: seq<Tri>, geom: seq<TriGeometry>, lo: nat, hi: nat): (r: Result<Entries>)
    requires |geom| == |tris| && AllConsistent(geom)
    ensures r.Err? ==> r.error == IndexError
  {
    if HasRepeated(tris, lo, hi) then Err(IndexError) else Ok(EntriesOf(tris, geom, Pairs(tris, lo, hi)))
  }

  /**
   * The worker stores nothing outside its (vertex, incident triangle) pairs,
   * and no zero.
   */
  lemma WorkerSpecKeys(tris: seq<Tri>, geom: seq<TriGeometry>, lo: nat, hi: nat)
    requires |geom| == |tris| && AllConsistent(geom)
    ensures var r := WorkerSpec(tris, geom, lo, hi);
      r.Ok? ==> forall k | k in r.value :: lo <= k.0 < hi && k.1 < |tris| && Incident(tris[k.1], k.0) && r.value[k] != Zero
  {
  }

  /** Writing the area of one more pair into the matrix of the pairs before it. */
  lemma {:induction false} EntriesInsert(tris: seq<Tri>, geom: seq<TriGeometry>, ks: set<Key>, p: nat, t: nat)
    requires |geom| == |tris| && AllConsistent(geom)
    requires forall k | k in ks :: k.1 < |tris| && Incident(tris[k.1], k.0)
    requires t < |tris| && Incident(tris[t], p) && (p, t) !in ks
    requires AreaAt(tris, geom, p, t).Some?
    ensures var x := AreaAt(tris, geom, p, t).value;
      EntriesOf(tris, geom, ks + {(p, t)})
        == if x == Zero then EntriesOf(tris, geom, ks) - {(p, t)} else EntriesOf(tris, geom, ks)[(p, t) := x]
  {
    StoredInsert(AreaFn(tris, geom), ks, (p, t));
  }

  lemma RowStep(tris: seq<Tri>, p: nat, t: nat)
    requires t < |tris|
    ensures Row(tris, p, t + 1) == Row(tris, p, t) + if Incident(tris[t], p) then {(p, t)} else {}
    ensures (p, t) !in Row(tris, p, t)
  {
  }

  lemma PairsStep(tris: seq<Tri>, lo: nat, p: nat)
    requires lo <= p
    ensures Pairs(tris, lo, p) + Row(tris, p, |tris|) == Pairs(tris, lo, p + 1)
    ensures Row(tris, p, 0) == {}
    ensures forall t | 0 <= t < |tris| :: (p, t) !in Pairs(tris, lo, p)
  {
  }

  /** No duplicates in a sequence. */
  predicate Distinct<T(==)>(s: seq<T>) {
    forall i, j | 0 <= i < j < |s| :: s[i] != s[j]
  }

  lemma LogAppend(log: seq<Key>, ks: set<Key>, k: Key)
    requires Distinct(log) && (set x | x in log) == ks && k !in ks
    ensures Distinct(log + [k]) && (set x | x in log + [k]) == ks + {k}
  {
  }

  /**
   * Lines 66-103 for vertex p and a triangle t that contains it: the edge lookup,
   * which raises when p is repeated in the triangle, then the assignment of the area.
   */
  method WritePair(m: Dok, tris: seq<Tri>, geom: seq<TriGeometry>, ghost done: set<Key>, p: nat, t: nat)
    returns (ok: bool)
    requires |geom| == |tris| && AllConsistent(geom)
    requires m.Valid() && m.cols == |tris| && p < m.rows && t < |tris| && Incident(tris[t], p)
    requires forall k | k in done :: k.1 < |tris| && Incident(tris[k.1], k.0)
    requires (p, t) !in done
    requires m.entries == EntriesOf(tris, geom, done)
    requires Distinct(m.writes) && (set k | k in m.writes) == done
    modifies m
    ensures m.Valid()
    ensures ok <==> !Repeated(tris[t], p)
    ensures ok ==> m.entries == EntriesOf(tris, geom, done + {(p, t)})
    ensures ok ==> Distinct(m.writes) && (set k | k in m.writes) == done + {(p, t)}
  {
    var cent := Positions(tris[t], p);
    LookupCorrect(cent);
    var ix := Lookup(cent);
    AreaAtCases(tris, geom, p, t);
    if ix.None? {
      return false;
    }
    var a := VertexArea(geom[t], ix.value);
    EntriesInsert(tris, geom, done, p, t);
    LogAppend(m.writes, done, (p, t));
    m.Set(p, t, a);
    return true;
  }

  /** One step of the inner loop: triangle t is visited for vertex p, and written if p is one of its corners. */
  method VisitTriangle(m: Dok, tris: seq<Tri>, geom: seq<TriGeometry>, lo: nat, p: nat, t: nat) returns (ok: bool)
    requires |geom| == |tris| && AllConsistent(geom)
    requires m.Valid() && m.cols == |tris| && p < m.rows && lo <= p && t < |tris|
    requires m.entries == EntriesOf(tris, geom, Pairs(tris, lo, p) + Row(tris, p, t))
    requires Distinct(m.writes) && (set k | k in m.writes) == Pairs(tris, lo, p) + Row(tris, p, t)
    modifies m
    ensures m.Valid()
    ensures ok <==> !Repeated(tris[t], p)
    ensures ok ==> m.entries == EntriesOf(tris, geom, Pairs(tris, lo, p) + Row(tris, p, t + 1))
    ensures ok ==> Distinct(m.writes) && (set k | k in m.writes) == Pairs(tris, lo, p) + Row(tris, p, t + 1)
  {
    ghost var done := Pairs(tris, lo, p) + Row(tris, p, t);
    RowStep(tris, p, t);
    PairsStep(tris, lo, p);
    if Incident(tris[t], p) {
      ok := WritePair(m, tris, geom, done, p, t);
      assert done + {(p, t)} == Pairs(tris, lo, p) + Row(tris, p, t + 1);
    } else {
      assert done == Pairs(tris, lo, p) + Row(tris, p, t + 1);
      ok := true;
    }
  }

  /**
   * The body of the outer loop for vertex p: visits the triangles in order and
   * writes the area of each one that contains p, stopping at the first triangle
   * in which p is repeated.
   */
  method WriteVertex(m: Dok, tris: seq<Tri>, geom: seq<TriGeometry>, lo: nat, p: nat) returns (ok: bool)
    requires |geom| == |tris| && AllConsistent(geom)
    requires m.Valid() && m.cols == |tris| && p < m.rows && lo <= p
    requires m.entries == EntriesOf(tris, geom, Pairs(tris, lo, p))
    requires Distinct(m.writes) && (set k | k in m.writes) == Pairs(tris, lo, p)
    modifies m
    ensures m.Valid()
    ensures ok <==> forall t | 0 <= t < |tris| :: !Repeated(tris[t], p)
    ensures ok ==> m.entries == EntriesOf(tris, geom, Pairs(tris, lo, p + 1))
    ensures ok ==> Distinct(m.writes) && (set k | k in m.writes) == Pairs(tris, lo, p + 1)
  {
    PairsStep(tris, lo, p);
    assert Pairs(tris, lo, p) + Row(tris, p, 0) == Pairs(tris, lo, p);
    var t := 0;
    while t < |tris|
      invariant 0 <= t <= |tris|
      invariant m.Valid()
      invariant forall s | 0 <= s < t :: !Repeated(tris[s], p)
      invariant m.entries == EntriesOf(tris, geom, Pairs(tris, lo, p) + Row(tris, p, t))
      invariant Distinct(m.writes) && (set k | k in m.writes) == Pairs(tris, lo, p) + Row(tris, p, t)
    {
      var visited := VisitTriangle(m, tris, geom, lo, p, t);
      if !visited {
        return false;
      }
      t := t + 1;
    }
    assert Pairs(tris, lo, p) + Row(tris, p, |tris|) == Pairs(tris, lo, p + 1);
    return true;
  }

  /**
   * `__meyer_worker(points, tris, edges, edge_lengths, range(lo, hi))` on a
   * matrix with `rows` rows. The ghost `log` lists the assignments made: each
   * (vertex, incident triangle) pair exactly once.
   */
  method MeyerWorker(rows: nat, tris: seq<Tri>, geom: seq<TriGeometry>, lo: nat, hi: nat)
    returns (r: Result<Entries>, ghost log: seq<Key>)
    requires |geom| == |tris| && AllConsistent(geom)
    requires hi <= rows
    ensures r == WorkerSpec(tris, geom, lo, hi)
    ensures r.Ok? ==> Distinct(log) && (set k | k in log) == Pairs(tris, lo, hi)
  {
    var m := new Dok(rows, |tris|);
    var p := lo;
    PairsStep(tris, lo, lo);
    while p < hi
      invariant lo <= p && (p <= hi || p == lo)
      invariant m.Valid() && m.rows == rows && m.cols == |tris|
      invariant !HasRepeated(tris, lo, p)
      invariant m.entries == EntriesOf(tris, geom, Pairs(tris, lo, p))
      invariant Distinct(m.writes) && (set k | k in m.writes) == Pairs(tris, lo, p)
    {
      var ok := WriteVertex(m, tris, geom, lo, p);
      if !ok {
        var t :| 0 <= t < |tris| && Repeated(tris[t], p);
        assert HasRepeated(tris, lo, hi);
        return Err(IndexError), m.writes;
      }
      p := p + 1;
    }
    if hi < lo {
      assert Pairs(tris, lo, hi) == {};
      assert !HasRepeated(tris, lo, hi);
    } else {
      assert p == hi;
    }
    assert WorkerSpec(tris, geom, lo, hi) == Ok(m.entries);
    return Ok(m.entries), m.writes;
  }
}
