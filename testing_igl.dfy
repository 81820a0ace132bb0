/**
 * The combinatorial parts of the Laplacian test driver: the graph Laplacian of
 * an adjacency matrix, built by negating the matrix and then overwriting its
 * diagonal in place, and the check of the requested function name against
 * `FUNCS` in `get_laplacian`.
 */
module TestingIgl {
  import opened Outcomes

  /** A square matrix given row by row, as `igl.adjacency_matrix` returns it. */
  predicate Square(adj: seq<seq<int>>) {
    forall i | 0 <= i < |adj| :: |adj[i]| == |adj|
  }

  /** The sum of the first j entries of a row. */
  function RowSum(row: seq<int>, j: nat): int
    requires j <= |row|
  {
    if j == 0 then 0 else RowSum(row, j - 1) + row[j - 1]
  }

  /**
   * The graph Laplacian of an adjacency matrix: the degree (the full row sum,
   * a self-loop included) on the diagonal and the negated adjacency elsewhere.
   */
  function Laplacian(adj: seq<seq<int>>): (l: seq<seq<int>>)
    requires Square(adj)
    ensures |l| == |adj| && Square(l)
  {
    seq(|adj|, i requires 0 <= i < |adj| =>
      seq(|adj|, j requires 0 <= j < |adj| => if i == j then RowSum(adj[i], |adj|) else -adj[i][j]))
  }

  /** Summing part of a Laplacian row: the negated adjacency entries, plus the degree once the diagonal is passed. */
  lemma {:induction false} LaplacianPartialRow(adj: seq<seq<int>>, i: nat, j: nat)
    requires Square(adj) && i < |adj| && j <= |adj|
    ensures RowSum(Laplacian(adj)[i], j)
      == -RowSum(adj[i], j) + if i < j then RowSum(adj[i], |adj|) + adj[i][i] else 0
  {
    if j > 0 {
      LaplacianPartialRow(adj, i, j - 1);
    }
  }

  /**
   * Every row of the graph Laplacian sums to the adjacency's diagonal entry:
   * to zero exactly when the vertex has no self-loop.
   */
  lemma LaplacianRowSum(adj: seq<seq<int>>, i: nat)
    requires Square(adj) && i < |adj|
    ensures RowSum(Laplacian(adj)[i], |adj|) == adj[i][i]
    ensures RowSum(Laplacian(adj)[i], |adj|) == 0 <==> adj[i][i] == 0
  {
    LaplacianPartialRow(adj, i, |adj|);
  }

  predicate Symmetric(m: seq<seq<int>>)
    requires Square(m)
  {
    forall i, j | 0 <= i < |m| && 0 <= j < |m| :: m[i][j] == m[j][i]
  }

  /** The Laplacian of a symmetric adjacency matrix is symmetric. */
  lemma LaplacianSymmetric(adj: seq<seq<int>>)
    requires Square(adj) && Symmetric(adj)
    ensures Symmetric(Laplacian(adj))
  {
  }

  /**
   * `get_graph_laplacian(faces)` for the adjacency matrix `igl.adjacency_matrix`
   * returns: A = -adj, D = the row sums of A, and `A.setdiag(-D)` overwrites
   * the diagonal in place.
   */
  method GraphLaplacian(adj: seq<seq<int>>) returns (a: array2<int>)
    requires Square(adj)
    ensures fresh(a)
    ensures a.Length0 == |adj| && a.Length1 == |adj|
    ensures forall i, j | 0 <= i < |adj| && 0 <= j < |adj| :: a[i, j] == Laplacian(adj)[i][j]
    ensures forall i, j | 0 <= i < |adj| && 0 <= j < |adj| && i != j :: a[i, j] == -adj[i][j]
    ensures forall i | 0 <= i < |adj| :: a[i, i] == RowSum(adj[i], |adj|)
  {
    a := Negated(adj);
    var d := SumRows(a, adj);
    SetDiag(a, d, adj);
  }

  /** `A = -adj`, into a fresh matrix. */
  method Negated(adj: seq<seq<int>>) returns (a: array2<int>)
    requires Square(adj)
    ensures fresh(a)
    ensures a.Length0 == |adj| && a.Length1 == |adj|
    ensures forall i, j | 0 <= i < |adj| && 0 <= j < |adj| :: a[i, j] == -adj[i][j]
  {
    var n := |adj|;
    a := new int[n, n];
    for i := 0 to n
      invariant forall r, c | 0 <= r < i && 0 <= c < n :: a[r, c] == -adj[r][c]
    {
      for j := 0 to n
        invariant forall r, c | 0 <= r < i && 0 <= c < n :: a[r, c] == -adj[r][c]
        invariant forall c | 0 <= c < j :: a[i, c] == -adj[i][c]
      {
        a[i, j] := -adj[i][j];
      }
    }
  }

  /** `D = A.sum(axis=1)` for A = -adj: each entry is the negated row sum of the adjacency. */
  method SumRows(a: array2<int>, adj: seq<seq<int>>) returns (d: array<int>)
    requires Square(adj) && a.Length0 == |adj| && a.Length1 == |adj|
    requires forall i, j | 0 <= i < |adj| && 0 <= j < |adj| :: a[i, j] == -adj[i][j]
    ensures fresh(d) && d.Length == |adj|
    ensures forall i | 0 <= i < |adj| :: d[i] == -RowSum(adj[i], |adj|)
  {
    var n := |adj|;
    d := new int[n];
    for i := 0 to n
      invariant forall r | 0 <= r < i :: d[r] == -RowSum(adj[r], n)
    {
      var s := 0;
      for j := 0 to n
        invariant s == -RowSum(adj[i], j)
      {
        s := s + a[i, j];
      }
      d[i] := s;
    }
  }

  /** `A.setdiag(-D)`: the diagonal is overwritten, everything off it stays. */
  method SetDiag(a: array2<int>, d: array<int>, adj: seq<seq<int>>)
    requires Square(adj) && a.Length0 == |adj| && a.Length1 == |adj| && d.Length == |adj|
    requires forall i, j | 0 <= i < |adj| && 0 <= j < |adj| :: a[i, j] == -adj[i][j]
    requires forall i | 0 <= i < |adj| :: d[i] == -RowSum(adj[i], |adj|)
    modifies a
    ensures forall i, j | 0 <= i < |adj| && 0 <= j < |adj| && i != j :: a[i, j] == -adj[i][j]
    ensures forall i | 0 <= i < |adj| :: a[i, i] == RowSum(adj[i], |adj|)
  {
    var n := |adj|;
    for i := 0 to n
      invariant forall r, c | 0 <= r < n && 0 <= c < n && r != c :: a[r, c] == -adj[r][c]
      invariant forall r | 0 <= r < i :: a[r, r] == RowSum(adj[r], n)
    {
      a[i, i] := -d[i];
    }
  }

  /** The functions a surface can be evaluated with; `sumsincos` is the only one. */
  datatype SurfaceFunction = SumSinCos

  /** `FUNCS` */
  const Funcs: Dict<SurfaceFunction> := [("sumsincos", SumSinCos)]

  const NotRecognised: string := "That function isn't recognised! Please choose from:"

  /** What the name check prints, and what the lookup `FUNCS[function]` then yields. */
  datatype NameCheck = NameCheck(printed: seq<string>, selected: Result<SurfaceFunction>)

  /**
   * The start of `get_laplacian`: an unknown name makes it print a notice and
   * the known keys, one per line, and carry on; the lookup that follows raises
   * KeyError for that name.
   */
  function CheckFunctionName(name: string): (r: NameCheck)
    ensures r.selected.Ok? <==> name in Keys(Funcs)
    ensures r.selected.Ok? <==> r.printed == []
    ensures r.selected.Err? ==> r.selected.error == KeyError && r.printed == [NotRecognised] + Keys(Funcs)
  {
    var printed := if Get(Funcs, name).None? then [NotRecognised] + Keys(Funcs) else [];
    var selected := match Get(Funcs, name)
      case Some(f) => Ok(f)
      case None => Err(KeyError);
    NameCheck(printed, selected)
  }

  /**
   * A known name prints nothing and selects its function; an unknown one
   * prints the notice and every key, and does not stop `get_laplacian`: the
   * lookup after it still fails with KeyError.
   */
  lemma CheckFunctionNameCases(name: string)
    ensures name == "sumsincos" ==> CheckFunctionName(name) == NameCheck([], Ok(SumSinCos))
    ensures name != "sumsincos" ==>
      CheckFunctionName(name) == NameCheck([NotRecognised, "sumsincos"], Err(KeyError))
  {
    assert Keys(Funcs) == ["sumsincos"];
  }
}
