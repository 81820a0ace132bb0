/**
 * `_vtx_tri_weights`: runs the worker on every chunk of the vertex range (in a
 * process pool when more than one core is asked for), sums the partial matrices
 * and asserts that every stored area is positive.
 */
module Aggregate {
  import opened Outcomes
  import opened Geometry
  import opened MixedArea
  import opened Sparse
  import opened Chunks
  import opened Worker
  import opened EdgeLookup

  /**
   * `(m.data > 0).all()`: every stored entry is a positive number. A NaN or a
   * stored zero fails it, and a matrix with nothing stored passes (numpy's
   * `all` of an empty array is True).
   */
  predicate AllPositive(m: Entries): (b: bool)
    ensures b ==> forall k | k in m :: m[k] != NaN && m[k] != Zero
    ensures m == map[] ==> b
  {
    forall k | k in m :: m[k].Num? && m[k].val > 0.0
  }

  /**
   * The sum of the partial matrices passes the assertion when every part does,
   * and then it stores exactly the keys the parts store.
   */
  lemma {:induction false} AllPositiveAdd(a: Entries, b: Entries)
    requires AllPositive(a) && AllPositive(b)
    ensures AllPositive(Add(a, b))
    ensures Add(a, b).Keys == a.Keys + b.Keys
  {
    var r := Add(a, b);
    forall k | k in a.Keys + b.Keys
      ensures k in r && r[k].Num? && r[k].val > 0.0
    {
      assert Sparse.Get(a, k).Num? && Sparse.Get(a, k).val >= 0.0;
      assert Sparse.Get(b, k).Num? && Sparse.Get(b, k).val >= 0.0;
      assert Sparse.Get(a, k).val > 0.0 || Sparse.Get(b, k).val > 0.0;
    }
  }

  const ZeroAreas: string := "Zero areas returned"

  /**
   * The vertex x triangle weight matrix of a mesh with `rows` vertices: the
   * single worker run over range(rows), followed by the positivity assertion.
   */
  function WeightsSpec(rows: nat, tris: seq<Tri>, geom: seq<TriGeometry>): (r: Result<Entries>)
    requires |geom| == |tris| && AllConsistent(geom)
    ensures r.Ok? ==> AllPositive(r.value)
    ensures r.Ok? ==> forall k | k in r.value :: k.0 < rows && k.1 < |tris|
    ensures r.Err? ==> r.error == IndexError || r.error == AssertionError(ZeroAreas)
  {
    match WorkerSpec(tris, geom, 0, rows)
    case Err(e) => Err(e)
    case Ok(m) => if AllPositive(m) then Ok(m) else Err(AssertionError(ZeroAreas))
  }

  lemma PairsSplit(tris: seq<Tri>, lo: nat, mid: nat, hi: nat)
    requires lo <= mid <= hi
    ensures Pairs(tris, lo, hi) == Pairs(tris, lo, mid) + Pairs(tris, mid, hi)
    ensures Pairs(tris, lo, mid) !! Pairs(tris, mid, hi)
  {
  }

  lemma {:induction false} RepeatedSplit(tris: seq<Tri>, lo: nat, mid: nat, hi: nat)
    requires lo <= mid <= hi
    ensures HasRepeated(tris, lo, hi) <==> HasRepeated(tris, lo, mid) || HasRepeated(tris, mid, hi)
  {
    if HasRepeated(tris, lo, hi) {
      var p: nat, t: nat :| lo <= p < hi && t < |tris| && Repeated(tris[t], p);
      if p < mid {
        assert HasRepeated(tris, lo, mid);
      } else {
        assert HasRepeated(tris, mid, hi);
      }
    }
    if HasRepeated(tris, lo, mid) {
      RepeatedWithin(tris, lo, mid, lo, hi);
    }
    if HasRepeated(tris, mid, hi) {
      RepeatedWithin(tris, mid, hi, lo, hi);
    }
  }

  /** The matrix written for two disjoint sets of pairs is the union of the two. */
  lemma {:induction false} EntriesUnion(tris: seq<Tri>, geom: seq<TriGeometry>, a: set<Key>, b: set<Key>)
    requires |geom| == |tris| && AllConsistent(geom)
    requires forall k | k in a + b :: k.1 < |tris| && Incident(tris[k.1], k.0)
    requires a !! b
    ensures EntriesOf(tris, geom, a).Keys !! EntriesOf(tris, geom, b).Keys
    ensures EntriesOf(tris, geom, a + b) == EntriesOf(tris, geom, a) + EntriesOf(tris, geom, b)
  {
    StoredUnion(AreaFn(tris, geom), a, b);
  }

  /**
   * Splitting a vertex range in two splits the worker's result: an IndexError
   * occurs in the whole exactly when it occurs in a part, and the whole matrix is
   * the sum of the two partial ones.
   */
  lemma {:induction false} WorkerSplit(tris: seq<Tri>, geom: seq<TriGeometry>, lo: nat, mid: nat, hi: nat)
    requires |geom| == |tris| && AllConsistent(geom)
    requires lo <= mid <= hi
    ensures HasRepeated(tris, lo, hi) <==> HasRepeated(tris, lo, mid) || HasRepeated(tris, mid, hi)
    ensures EntriesOf(tris, geom, Pairs(tris, lo, hi))
      == Add(EntriesOf(tris, geom, Pairs(tris, lo, mid)), EntriesOf(tris, geom, Pairs(tris, mid, hi)))
  {
    RepeatedSplit(tris, lo, mid, hi);
    PairsSplit(tris, lo, mid, hi);
    var a, b := EntriesOf(tris, geom, Pairs(tris, lo, mid)), EntriesOf(tris, geom, Pairs(tris, mid, hi));
    EntriesUnion(tris, geom, Pairs(tris, lo, mid), Pairs(tris, mid, hi));
    AddDisjoint(a, b);
  }

  /** A repeated vertex in a sub-range is one in the whole range. */
  lemma RepeatedWithin(tris: seq<Tri>, lo: nat, hi: nat, lo': nat, hi': nat)
    requires lo' <= lo && hi <= hi'
    requires HasRepeated(tris, lo, hi)
    ensures HasRepeated(tris, lo', hi')
  {
    var p: nat, t: nat :| lo <= p < hi && t < |tris| && Repeated(tris[t], p);
    assert lo' <= p < hi';
  }

  /**
   * `_vtx_tri_weights(points, tris, cores)` for a mesh with `rows` points: with
   * more than one core, one worker per chunk and the sum of their results;
   * otherwise one worker over all vertices. Either way the result is that of the
   * single run, so it does not depend on `cores`.
   */
  method VtxTriWeights(rows: nat, tris: seq<Tri>, geom: seq<TriGeometry>, cores: int) returns (r: Result<Entries>)
    requires |geom| == |tris| && AllConsistent(geom)
    ensures r == WeightsSpec(rows, tris, geom)
  {
    var m: Entries;
    if cores > 1 {
      var dist := DistributeObjects(rows, cores);
      var chunks := dist.value;
      PartitionBounds(chunks, rows);
      var results := MapWorkers(rows, tris, geom, chunks);
      if results.Err? {
        return Err(results.error);
      }
      m := SumResults(rows, tris, geom, chunks, results.value);
    } else {
      var w, _ := MeyerWorker(rows, tris, geom, 0, rows);
      if w.Err? {
        return Err(w.error);
      }
      m := w.value;
    }
    if !AllPositive(m) {
      return Err(AssertionError(ZeroAreas));
    }
    return Ok(m);
  }

  /**
   * `p.map(worker_func, worker_lists)`, one chunk after the other: the worker's
   * result for every chunk, or the first IndexError, which the single run over
   * all vertices raises as well.
   */
  method MapWorkers(rows: nat, tris: seq<Tri>, geom: seq<TriGeometry>, chunks: seq<Range>) returns (r: Result<seq<Entries>>)
    requires |geom| == |tris| && AllConsistent(geom)
    requires forall n | 0 <= n < |chunks| :: chunks[n].hi <= rows
    ensures r.Err? ==> WorkerSpec(tris, geom, 0, rows) == Err(r.error)
    ensures r.Ok? ==> |r.value| == |chunks|
    ensures r.Ok? ==> forall n | 0 <= n < |chunks| :: WorkerSpec(tris, geom, chunks[n].lo, chunks[n].hi) == Ok(r.value[n])
  {
    var results: seq<Entries> := [];
    var i := 0;
    while i < |chunks|
      invariant 0 <= i <= |chunks| && |results| == i
      invariant forall n | 0 <= n < i :: WorkerSpec(tris, geom, chunks[n].lo, chunks[n].hi) == Ok(results[n])
    {
      var w, _ := MeyerWorker(rows, tris, geom, chunks[i].lo, chunks[i].hi);
      if w.Err? {
        RepeatedWithin(tris, chunks[i].lo, chunks[i].hi, 0, rows);
        return Err(w.error);
      }
      assert forall n | 0 <= n < i :: (results + [w.value])[n] == results[n];
      results := results + [w.value];
      i := i + 1;
    }
    return Ok(results);
  }

  /** The partial matrices of the chunks of a partition of range(rows) add up to the single run's matrix. */
  method SumResults(rows: nat, tris: seq<Tri>, geom: seq<TriGeometry>, chunks: seq<Range>, results: seq<Entries>) returns (m: Entries)
    requires |geom| == |tris| && AllConsistent(geom)
    requires IsPartition(chunks, rows) && |results| == |chunks|
    requires forall n | 0 <= n < |chunks| :: WorkerSpec(tris, geom, chunks[n].lo, chunks[n].hi) == Ok(results[n])
    ensures WorkerSpec(tris, geom, 0, rows) == Ok(m)
  {
    m := results[0];
    var j := 1;
    while j < |results|
      invariant 1 <= j <= |results|
      invariant WorkerSpec(tris, geom, 0, chunks[j - 1].hi) == Ok(m)
    {
      WorkerSplit(tris, geom, 0, chunks[j].lo, chunks[j].hi);
      m := Add(m, results[j]);
      j := j + 1;
    }
  }

  /** Some triangle names one vertex at two of its corners. */
  predicate SomeRepeatedTri(tris: seq<Tri>) {
    exists t | 0 <= t < |tris| :: tris[t].v0 == tris[t].v1 || tris[t].v0 == tris[t].v2 || tris[t].v1 == tris[t].v2
  }

  /** Some triangle has an edge of length zero. */
  ghost predicate SomeZeroEdge(geom: seq<TriGeometry>)
    requires AllConsistent(geom)
  {
    exists t | 0 <= t < |geom| :: !NoZeroEdge(geom[t])
  }

  /** Every (vertex, incident triangle) area of a triangle without a zero-length edge is a non-negative number. */
  lemma {:induction false} AreaAtNonNegative(tris: seq<Tri>, geom: seq<TriGeometry>, p: nat, t: nat)
    requires |geom| == |tris| && AllConsistent(geom)
    requires t < |tris| && Incident(tris[t], p) && !Repeated(tris[t], p) && NoZeroEdge(geom[t])
    ensures AreaAt(tris, geom, p, t).Some? && AreaAt(tris, geom, p, t).value.Num?
    ensures AreaAt(tris, geom, p, t).value.val >= 0.0
  {
    AreaAtCases(tris, geom, p, t);
    var c :| 0 <= c < 3 && tris[t].At(c) == p && AreaAt(tris, geom, p, t) == Some(VertexArea(geom[t], LocalEdges(c)));
    VertexAreaMeyer(geom[t], LocalEdges(c));
  }

  /**
   * When every triangle's corners are vertices of the mesh, the weight matrix
   * fails with IndexError exactly when some triangle repeats a vertex, and
   * otherwise fails the positivity assertion exactly when some triangle has a
   * zero-length edge (its areas are NaN). A zero-area triangle passes: its zero
   * areas are never stored.
   */
  lemma {:induction false} WeightsOutcome(rows: nat, tris: seq<Tri>, geom: seq<TriGeometry>)
    requires |geom| == |tris| && AllConsistent(geom) && ValidTris(rows, tris)
    ensures WeightsSpec(rows, tris, geom) == Err(IndexError) <==> SomeRepeatedTri(tris)
    ensures !SomeRepeatedTri(tris) ==> (WeightsSpec(rows, tris, geom).Ok? <==> !SomeZeroEdge(geom))
    ensures !SomeRepeatedTri(tris) && SomeZeroEdge(geom) ==> WeightsSpec(rows, tris, geom) == Err(AssertionError(ZeroAreas))
  {
    if SomeRepeatedTri(tris) {
      var t :| 0 <= t < |tris| && (tris[t].v0 == tris[t].v1 || tris[t].v0 == tris[t].v2 || tris[t].v1 == tris[t].v2);
      var p := if tris[t].v0 == tris[t].v1 || tris[t].v0 == tris[t].v2 then tris[t].v0 else tris[t].v1;
      assert Repeated(tris[t], p) && p < rows;
      assert HasRepeated(tris, 0, rows);
    } else {
      assert !HasRepeated(tris, 0, rows);
      var m: Entries := EntriesOf(tris, geom, Pairs(tris, 0, rows));
      assert WorkerSpec(tris, geom, 0, rows) == Ok(m);
      if SomeZeroEdge(geom) {
        var t :| 0 <= t < |geom| && !NoZeroEdge(geom[t]);
        var p := tris[t].v0;
        assert (p, t) in Pairs(tris, 0, rows);
        AreaAtCases(tris, geom, p, t);
        var c :| 0 <= c < 3 && tris[t].At(c) == p && AreaAt(tris, geom, p, t) == Some(VertexArea(geom[t], LocalEdges(c)));
        VertexAreaMeyer(geom[t], LocalEdges(c));
        assert m[(p, t)] == NaN;
        assert !AllPositive(m);
      } else {
        forall k | k in m
          ensures m[k].Num? && m[k].val > 0.0
        {
          AreaAtNonNegative(tris, geom, k.0, k.1);
        }
      }
    }
  }
}
