# Mixed-area mass matrices and the graph Laplacian, modelled in Dafny

This project models the algorithmic core of a small surface-analysis package
for triangle meshes.

The main part computes a **mass matrix** for a mesh: a diagonal matrix that
holds, for each vertex, the area of the surface belonging to that vertex.
Three strategies exist:

- `voronoi` and `barycentric` both delegate to the igl library with its Voronoi
  mass-matrix type;
- `mayer` uses the package's own implementation of the *mixed area* of Meyer,
  Desbrun, Schröder and Barr ("Discrete Differential-Geometry Operators for
  Triangulated 2-Manifolds").

The Meyer path works as follows:

1. It precomputes each triangle's three edges in the canonical order
   `v1-v0, v2-v0, v2-v1` and their lengths.
2. It splits the vertex range `[0, N)` into contiguous chunks, one per worker
   (`_distributeObjects`).
3. In each worker, for every vertex of the chunk and every triangle containing
   it, it finds which canonical edges meet at the vertex. It then writes one
   area into a sparse vertex × triangle matrix (`__meyer_worker`). The area is:
   - the Voronoi term for a non-obtuse triangle;
   - half the triangle's area if the obtuse angle is at the vertex;
   - a quarter of the triangle's area otherwise.
4. It adds the partial matrices together and asserts that every stored entry is
   positive (`_vtx_tri_weights`).
5. It places the row sums on a diagonal (`mayer_area`).

The second part is the **graph Laplacian** of a mesh's adjacency matrix
(`get_graph_laplacian`). The driver `get_laplacian` first checks the requested
function name against its function table; that check is modelled too.

## How the model is built

- **Geometry in exact real arithmetic.**
  - A squared edge length is a dot product.
  - An angle exceeds π/2 exactly when the numerator of its law-of-cosines
    expression is negative. This is an abstraction of the source's
    `arccos(...) > pi/2`.
  - The cotangent of the angle opposite a side is that numerator divided by
    `2·|e0 × e1|`. This replaces `1/tan(arccos(...))`.
  - The norm `|e0 × e1|` is a square root. It comes in as the input
    `crossNorms`: one non-negative number per triangle whose square is
    `|e0 × e1|²` (`Geometry.NormsOf`).
  - `Geometry.CrossHeron` and `Geometry.EdgesHeron` prove that these norms
    satisfy Heron's formula in the squared edge lengths.
- **NaN.** An area is a `Weight`: a number or `NaN`. NaN is what numpy produces
  when a triangle has a zero-length edge (a division by zero inside `arccos`).
- **Sparse matrices are maps.** `scipy.sparse.dok_matrix` becomes the class
  `Sparse.Dok`, whose `Set` stores a non-zero value and removes the key for a
  zero. Compressed-matrix `+` becomes `Sparse.Add`, which keeps only non-zero
  sums.
- **Workers are imperative.**
  - `_distributeObjects`, `__meyer_worker` and `_vtx_tri_weights` are methods
    with loops.
  - Each is proved equal to a specification function: `Chunks.Distribution`,
    `Worker.WorkerSpec` and `Aggregate.WeightsSpec`.
  - The worker's nested loop is split into the methods `WriteVertex` (one
    vertex), `VisitTriangle` (one triangle) and `WritePair` (one write).
  - The pool's map over the chunks is `Aggregate.MapWorkers` and the sum of
    the partial matrices is `Aggregate.SumResults`.
- **Pure functions stay pure.** `mayer_area` and `get_mass_matrix` are
  specified by the functions `MassMatrix.MayerSpec` and
  `MassMatrix.MassMatrixSpec`. Since they call the weight computation, which is
  a method, they are also given as the methods `MayerArea` and `GetMassMatrix`,
  proved equal to those functions.
- **Exceptions are values** (`Outcomes.PyError`): `ZeroDivisionError`,
  `IndexError`, `KeyError`, `AssertionError` with its message, and `ValueError`
  with its message.

## Model

| member | source | states |
|---|---|---|
| Chunks.DistributeObjects | surf/areas.py:13-33 | zero groups raise ZeroDivisionError; otherwise the result is exactly `groups` ranges forming a partition of `[0, count)` whose lengths sum to `count` (the asserted invariant) |
| Chunks.Distribution | surf/areas.py:21-28 | there is one range per group, and range n is `[n*size, (n+1)*size)`, or `[n*size, count)` for the last |
| Chunks.DistributionIsPartition | surf/areas.py:21-31 | the ranges start at 0, each starts where the previous ends, and the last ends at `count` |
| Chunks.PartitionTotalLen | surf/areas.py:30-31 | the lengths of a partition's ranges sum to `count`, so the coverage assertion never fails |
| Chunks.PartitionCovers | surf/areas.py:21-31 | an index lies in some range iff it is below `count`, and no index lies in two ranges |
| Chunks.ChunkSizes | surf/areas.py:21-28 | every range but the last has `floor(count/groups)` elements and the last has the remainder; with fewer objects than groups all but the last are empty |
| Chunks.LastChunkLargest | surf/areas.py:21-28 | the last range, which takes the remainder, is never shorter than the others |
| Geometry.CrossHeron | surf/areas.py:97 | four times `|a × b|²` equals Heron's expression in `|a|²`, `|b|²` and `|b - a|²` (Lagrange's identity with the law of cosines) |
| Geometry.EdgesHeron | surf/areas.py:127-130 | for the three canonical edges of a triangle, four times `|e0 × e1|²` equals Heron's expression in their squared lengths |
| Geometry.GeometryOfConsistent | surf/areas.py:127-130 | one triangle's squared edge lengths are non-negative and agree with its cross-product norm by Heron's formula |
| Geometry.Precompute | surf/areas.py:127-130 | the edge precomputation raises IndexError iff some triangle index is outside the point array; otherwise each triangle gets its squared canonical edge lengths, consistent with its cross-product norm |
| Outcomes.Keys | surf/areas.py:162 | `list(d.keys())` (also `FUNCS.keys()` in surf/testing_igl.py): one key per entry, in insertion order |
| Outcomes.Get | surf/areas.py:157 | dictionary lookup: no value exactly when the key is absent, otherwise the value stored under the key |
| EdgeLookup.FlatNonzeroCorrect | surf/areas.py:66 | `np.flatnonzero` yields exactly the positions of the true entries, in ascending order |
| EdgeLookup.Positions | surf/areas.py:59-66 | the positions found for a vertex are exactly the corners holding it, ascending |
| EdgeLookup.MatchEdgeValues | surf/areas.py:53-76 | each two-corner set matches exactly one entry of `EDGE_INDEXING` |
| EdgeLookup.LookupTable | surf/areas.py:53-76 | for a vertex at local position 0, 1, 2 the lookup yields near edges (0,1), (0,2), (1,2) and far edge 2, 1, 0 |
| EdgeLookup.LocalEdges | surf/areas.py:66-76 | the lookup's result for position c has three distinct edge indices, and its far edge is `2 - c` |
| EdgeLookup.Lookup | surf/areas.py:66-76 | every edge index the lookup returns is an index into the three-entry edge table |
| EdgeLookup.LookupRepeated | surf/areas.py:66-76 | a vertex at two or three corners leaves fewer than two remaining positions, so the lookup raises IndexError |
| EdgeLookup.LookupCorrect | surf/areas.py:66-76 | with one position, the lookup returns the two canonical edges containing the vertex (ascending) and the one that does not, a permutation of 0, 1, 2; with two or three positions it fails (IndexError) |
| MixedArea.VertexArea | surf/areas.py:79-101 | the area written for a vertex is NaN exactly when the triangle has a zero-length edge, and otherwise a non-negative number |
| MixedArea.VertexAreaMeyer | surf/areas.py:79-101 | the area is NaN iff an edge has length zero; a non-obtuse triangle (a right angle included) gives the positive Voronoi term with the cotangents of the angles opposite the near edges; an obtuse angle at the vertex gives area/2; an obtuse angle elsewhere gives area/4 |
| MixedArea.AtMostOneObtuse | surf/areas.py:84-93 | a triangle without a zero-length edge has at most one obtuse angle |
| MixedArea.VoronoiPartition | surf/areas.py:93-94 | in a non-obtuse triangle the three Voronoi terms add up to the triangle's area |
| MixedArea.ObtuseShare | surf/areas.py:95-101 | in an obtuse triangle a vertex gets half of the area when the angle at it (opposite its far edge) is obtuse, a quarter otherwise |
| MixedArea.ObtusePartition | surf/areas.py:95-101 | in an obtuse triangle exactly one vertex has the obtuse angle; it gets half of the area, the other two a quarter each, and the three add up to the triangle's area |
| MixedArea.TrianglePartition | surf/areas.py:93-101 | the three vertex areas of a triangle without a zero-length edge sum to the triangle's area, for both the Voronoi branch and the 1/2 + 1/4 + 1/4 branch |
| Sparse.Dok.constructor | surf/areas.py:55 | a new matrix has no stored entries |
| Sparse.Dok.Set | surf/areas.py:103 | the write stores a non-zero value (NaN included) and removes the key for a zero; nothing else changes, and the write is logged |
| Sparse.Add | surf/areas.py:141-142 | every entry of the sum is the sum of the two entries (NaN absorbing), and no zero is stored |
| Sparse.AddCommutes | surf/areas.py:140-142 | the sum of two sparse matrices does not depend on the order of the summands |
| Sparse.AddDisjoint | surf/areas.py:140-142 | adding zero-free matrices with disjoint stored keys is their union |
| Worker.AreaAt | surf/areas.py:59-103 | the value written at (p, t) is missing (IndexError) exactly when p sits at two or more corners of t; a written area is NaN or non-negative |
| Worker.AreaAtCases | surf/areas.py:59-103 | the worker raises IndexError for (p, t) iff p sits at two corners of t; otherwise it writes the mixed area of p's local position |
| Sparse.StoredInsert | surf/areas.py:103 | assigning one more key to a DOK matrix stores its value, or drops the key when the value is zero |
| Sparse.StoredUnion | surf/areas.py:103 | the entries stored for two disjoint sets of keys are disjoint and together are those stored for the union |
| Worker.EntriesInsert | surf/areas.py:103 | writing one more pair updates the matrix of the earlier pairs by that single assignment |
| Worker.WritePair | surf/areas.py:66-103 | one write: fails iff the vertex is repeated in the triangle; otherwise the matrix is that of the pairs so far plus this one, each written once |
| Worker.VisitTriangle | surf/areas.py:61-103 | one inner-loop step: the pair is written only if the triangle contains the vertex |
| Worker.WriteVertex | surf/areas.py:58-103 | one vertex of the work list: all its incident triangles are written, or IndexError |
| Worker.WorkerSpec | surf/areas.py:35-105 | the worker fails only with IndexError |
| Worker.WorkerSpecKeys | surf/areas.py:35-105 | the worker's matrix holds no zero and no key outside the (vertex in the work list, triangle containing it) pairs |
| Worker.MeyerWorker | surf/areas.py:35-105 | the worker's result is `WorkerSpec`: IndexError if a work-list vertex is repeated in a triangle, otherwise the areas of exactly the pairs (p in the work list, t containing p); each such pair is written exactly once and no other entry is written |
| Aggregate.WorkerSplit | surf/areas.py:134-145 | splitting the vertex range in two splits the worker's result into two matrices with disjoint keys whose sum is the whole |
| Aggregate.MapWorkers | surf/areas.py:134-137 | the map over the chunks yields each chunk's worker result, or an IndexError that the single run over all vertices raises too |
| Aggregate.SumResults | surf/areas.py:139-142 | the sum of the partial matrices of a partition's chunks is the single run's matrix |
| Aggregate.AllPositive | surf/areas.py:147 | `(data > 0).all()`: a stored NaN or zero fails it, and a matrix with nothing stored passes |
| Aggregate.AllPositiveAdd | surf/areas.py:139-147 | when every partial matrix passes the positivity assertion, so does their sum, which stores exactly the keys of the parts |
| Aggregate.WeightsSpec | surf/areas.py:107-148 | a successful weight matrix has only positive entries, all inside the vertex × triangle shape; a failure is IndexError or the "Zero areas returned" assertion |
| Aggregate.VtxTriWeights | surf/areas.py:132-148 | the result is the single worker run over all vertices followed by the positivity assertion, whatever the number of cores |
| MixedArea.FlatTriangle | surf/areas.py:93-101 | a triangle of zero area without a zero-length edge counts as obtuse, and each of its three vertex areas is exactly zero |
| Aggregate.AreaAtNonNegative | surf/areas.py:93-101 | the area of a vertex in a triangle without a zero-length edge is a non-negative number |
| Aggregate.WeightsOutcome | surf/areas.py:132-148 | with valid indices, the weights fail with IndexError iff a triangle repeats a vertex; otherwise they fail the positivity assertion iff some triangle has a zero-length edge; a zero-area triangle passes |
| MassMatrix.RowSums | surf/areas.py:152 | the diagonal has one entry per vertex, the sum of that vertex's row |
| MassMatrix.MayerArea | surf/areas.py:150-153 | `mayer_area` is the geometry, then the weights, then the row sums (`MayerSpec`) |
| MassMatrix.GetMassMatrix | surf/areas.py:155-162 | `get_mass_matrix` follows `MassMatrixSpec`: igl for voronoi/barycentric, `mayer_area` for mayer, ValueError otherwise |
| MassMatrix.MessageText | surf/areas.py:161-162 | the ValueError message ends in Python's rendering of the key list `['voronoi', 'barycentric', 'mayer']` |
| MassMatrix.MayerSpec | surf/areas.py:150-153 | `mayer_area` yields one diagonal entry per vertex, or fails only with IndexError or the "Zero areas returned" assertion |
| MassMatrix.MassMatrixSpec | surf/areas.py:155-162 | an igl matrix comes only from 'voronoi' or 'barycentric', a diagonal only from 'mayer' with one entry per vertex, and `mayer_area`'s errors only from 'mayer' |
| MassMatrix.NameDispatch | surf/areas.py:155-162 | ValueError is raised exactly for names that are not keys of `AREA_TYPES`, with the full message |
| MassMatrix.BarycentricIsVoronoi | surf/areas.py:7-11 | 'barycentric' yields the same igl Voronoi mass matrix as 'voronoi' |
| MassMatrix.ZeroEdgeGeometry | surf/areas.py:127-130 | the precomputed geometry has a zero edge length exactly where an edge vector computed from the points has length zero |
| MassMatrix.MayerOutcome | surf/areas.py:150-153 | `mayer_area` raises IndexError iff an index is out of range or a triangle repeats a vertex; otherwise it succeeds iff no edge has length zero, with one diagonal entry per vertex |
| MassMatrix.ColumnIsArea | surf/areas.py:93-103 | each triangle's column of the weight matrix sums to the triangle's area |
| MassMatrix.SumRowSums | surf/areas.py:152 | the diagonal's entries add up to the sum of all column sums |
| MassMatrix.TotalMass | surf/areas.py:150-153 | when `mayer_area` succeeds, its diagonal adds up to the total surface area of the mesh |
| TestingIgl.Laplacian | surf/testing_igl.py:20-24 | the Laplacian of a square matrix is square of the same size |
| TestingIgl.GraphLaplacian | surf/testing_igl.py:20-24 | the result is a new n×n array equal to the Laplacian: its off-diagonal entries are the negated adjacency, left untouched by `setdiag`, and its diagonal entry i is the sum of adjacency row i (the degree) |
| TestingIgl.Negated | surf/testing_igl.py:21 | `A` is a new matrix holding the negated adjacency |
| TestingIgl.SumRows | surf/testing_igl.py:22 | `D` holds, per row, the sum of that row of `A`, the negated degree |
| TestingIgl.SetDiag | surf/testing_igl.py:23 | `setdiag(-D)` writes the degree on the diagonal and leaves every other entry unchanged |
| TestingIgl.LaplacianPartialRow | surf/testing_igl.py:21-23 | a prefix of a Laplacian row sums to the negated prefix of the adjacency row, plus the degree once the diagonal is included |
| TestingIgl.LaplacianRowSum | surf/testing_igl.py:21-23 | every row of the Laplacian sums to the adjacency's diagonal entry, so it sums to zero iff the vertex has no self-loop |
| TestingIgl.LaplacianSymmetric | surf/testing_igl.py:21-23 | a symmetric adjacency matrix gives a symmetric Laplacian |
| TestingIgl.CheckFunctionName | surf/testing_igl.py:28-40 | a function is selected exactly for a key of `FUNCS`, exactly when nothing is printed; otherwise the notice and the keys are printed and the lookup raises KeyError |
| TestingIgl.CheckFunctionNameCases | surf/testing_igl.py:28-40 | 'sumsincos' prints nothing and is selected; any other name prints the notice and every key of `FUNCS`, does not stop, and the lookup at line 40 then raises KeyError |

## Behaviour of the code worth noting

- **Zero-length edges.** Two coincident corners give a zero edge length, and
  the angle computation then produces NaN areas. These are stored, because NaN
  is truthy, and the computation fails at the positivity assertion with
  `AssertionError('Zero areas returned')`.
- **Repeated vertex indices.** A triangle that names one vertex at two corners
  fails earlier, with an IndexError in the edge lookup.
- **Chunk counts.** `_distributeObjects` with zero groups raises
  `ZeroDivisionError`. Zero objects are accepted and yield that many empty
  ranges.
- **Zero areas.** A zero area is never stored, because assigning 0 to a
  `dok_matrix` removes the entry. The positivity check therefore catches only
  NaN. In exact arithmetic a collinear triangle with distinct corners passes it
  with all three areas zero (`MixedArea.FlatTriangle`,
  `Aggregate.WeightsOutcome`, `MassMatrix.MayerOutcome`).
- **Unknown mass-matrix type.** `get_mass_matrix` raises `ValueError` with the
  list of supported names.

## Left out

- Floating-point arithmetic: `arccos`, `tan`, `sqrt` and rounding. All geometry
  is exact real arithmetic. The obtuse test uses the sign of the law-of-cosines
  numerator, and the cotangent uses its exact value. A float computation whose
  rounding flips a near-right angle is not modelled.
- The `arccos` argument is not clamped in the code. For a nearly collinear
  triangle, rounding can push it just past ±1. `arccos` then returns NaN, the
  Voronoi branch stores a NaN area and the positivity assertion fails. Rounding
  can also leave such a triangle a tiny positive area. The model's exact
  arithmetic captures neither.
- The square root in `np.linalg.norm(np.cross(...))` is not computed. It is
  the caller-supplied `crossNorms`, constrained by `Geometry.NormsOf`.
- `multiprocessing.Pool`: the map over chunks runs sequentially. Because all
  worker errors are IndexError, stopping at the first failing chunk raises the
  same exception as `Pool.map`. `mp.cpu_count()` is the parameter `cores`.
- Chunks.DistributeObjects: a negative number of groups is outside the model
  (`groups` is a natural). The source then builds no ranges, and its coverage
  assertion fails whenever there is at least one object. The only caller
  passes a core count above one.
- Chunks.DistributeObjects: the `np.int32` cast of the chunk size and the
  float division in `len(objs) / ngroups` are exact here. Overflow or rounding
  for more than 2^31 or 2^53 objects is not modelled.
- Negative triangle indices are outside the model. Triangles hold naturals, so
  numpy's wrap-around indexing does not arise.
- MassMatrix.RowSums: a NaN entry would be summed as 0. This never happens on
  the modelled path, because the positivity assertion rejects NaN before the
  row sums are taken.
- MassMatrix.MayerSpec: on a one-vertex mesh, which can only have zero triangles
  (any triangle on one vertex raises IndexError), `np.squeeze` turns the single
  row sum into a 0-d array and `sparse.diags` fails on it with a TypeError; the
  model returns `Ok([0.0])` instead.
- `igl.massmatrix` and `igl.adjacency_matrix` are foreign calls.
  - The igl mass matrix is the opaque value `IglMassMatrix(kind)`.
  - The adjacency matrix is an input to `TestingIgl.GraphLaplacian`.
- `get_lbo` (a foreign cotangent matrix scaled by inverted mass-matrix
  diagonals) and the rest of `get_laplacian` after the name check are not part
  of this model. That rest is GIFTI loading and writing, evaluation of the
  chosen function, and the products with the operators.
- The printed lines of `get_laplacian` are returned as a list of strings
  rather than written to standard output.
- The function table's entry `sumsincos` is a name only. Its sine/cosine
  evaluation is floating point.
- The command-line script `scripts/laplacian.py` is not part of this model. It
  calls `get_laplacian` with eight arguments, although the function takes at
  most five.
- The curvature modules are not part of this model.
