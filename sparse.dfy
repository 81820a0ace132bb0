/**
 * The two sparse-matrix behaviours the computation relies on: assignment into a
 * dictionary-of-keys matrix, which stores only non-zero values, and elementwise
 * addition of compressed matrices, which keeps only non-zero sums.
 */
module Sparse {
  import opened Outcomes
  import opened MixedArea

  /** (row, column) */
  type Key = (nat, nat)

  /** The stored entries of a sparse matrix; an absent key reads as zero. */
  type Entries = map<Key, Weight>

  /** A stored or implicit zero entry reads as this. */
  const Zero: Weight := Num(0.0)

  /** Entry `k` of a sparse matrix. */
  function Get(m: Entries, k: Key): Weight {
    if k in m then m[k] else Zero
  }

  /** float64 addition, where NaN absorbs. */
  function Plus(x: Weight, y: Weight): Weight {
    if x.NaN? || y.NaN? then NaN else Num(x.val + y.val)
  }

  /** `a + b` of two sparse matrices: entrywise sums, zero sums not stored. */
  function Add(a: Entries, b: Entries): (r: Entries)
    ensures forall k :: Get(r, k) == Plus(Get(a, k), Get(b, k))
    ensures forall k | k in r :: r[k] != Zero
  {
    map k | k in a.Keys + b.Keys && Plus(Get(a, k), Get(b, k)) != Zero :: Plus(Get(a, k), Get(b, k))
  }

  /** Adding sparse matrices does not depend on their order. */
  lemma AddCommutes(a: Entries, b: Entries)
    ensures Add(a, b) == Add(b, a)
  {
    assert forall k :: Plus(Get(a, k), Get(b, k)) == Plus(Get(b, k), Get(a, k));
  }

  /** Two matrices without zero entries and with disjoint keys add up to their union. */
  lemma {:induction false} AddDisjoint(a: Entries, b: Entries)
    requires a.Keys !! b.Keys
    requires forall k | k in a :: a[k] != Zero
    requires forall k | k in b :: b[k] != Zero
    ensures Add(a, b) == a + b
  {
    var r := Add(a, b);
    forall k
      ensures k in r <==> k in a + b
      ensures k in r ==> r[k] == (a + b)[k]
    {
      if k in a {
        assert Plus(a[k], Zero) == a[k];
      } else if k in b {
        assert Plus(Zero, b[k]) == b[k];
      }
    }
  }

  /**
   * The entries a DOK matrix holds after each key of `ks` has been assigned
   * `value(k)` (a `None` marks a key that is never assigned): the zeros are not stored.
   */
  function Stored(value: Key --> Option<Weight>, ks: set<Key>): Entries
    requires forall k | k in ks :: value.requires(k)
  {
    map k | k in ks && value(k).Some? && value(k).value != Zero :: value(k).value
  }

  /** Assigning one more key stores its value, or drops the key when the value is zero. */
  lemma StoredInsert(value: Key --> Option<Weight>, ks: set<Key>, k: Key)
    requires forall j | j in ks :: value.requires(j)
    requires value.requires(k) && value(k).Some?
    ensures Stored(value, ks + {k})
      == if value(k).value == Zero then Stored(value, ks) - {k} else Stored(value, ks)[k := value(k).value]
  {
  }

  /** The entries stored for two disjoint sets of keys are disjoint, and together they are those of the union. */
  lemma StoredUnion(value: Key --> Option<Weight>, a: set<Key>, b: set<Key>)
    requires forall k | k in a + b :: value.requires(k)
    requires a !! b
    ensures Stored(value, a).Keys !! Stored(value, b).Keys
    ensures Stored(value, a + b) == Stored(value, a) + Stored(value, b)
  {
  }

  /** A `scipy.sparse.dok_matrix` of shape rows x cols, with a log of the assignments made to it. */
  class Dok {
    const rows: nat
    const cols: nat
    var entries: Entries
    ghost var writes: seq<Key>

    ghost predicate Valid()
      reads this
    {
      forall k | k in entries :: k.0 < rows && k.1 < cols && entries[k] != Zero
    }

    /** `sparse.dok_matrix((rows, cols))`: all zeros. */
    constructor (rows: nat, cols: nat)
      ensures this.rows == rows && this.cols == cols
      ensures entries == map[] && writes == []
      ensures Valid()
    {
      this.rows := rows;
      this.cols := cols;
      entries := map[];
      writes := [];
    }

    /** `m[i, j] = x`: a non-zero value (NaN included) is stored, a zero removes the key. */
    method Set(i: nat, j: nat, x: Weight)
      requires Valid() && i < rows && j < cols
      modifies this
      ensures Valid()
      ensures entries == if x == Zero then old(entries) - {(i, j)} else old(entries)[(i, j) := x]
      ensures writes == old(writes) + [(i, j)]
    {
      if x != Zero {
        entries := entries[(i, j) := x];
      } else if (i, j) in entries {
        entries := entries - {(i, j)};
      }
      writes := writes + [(i, j)];
    }
  }
}
