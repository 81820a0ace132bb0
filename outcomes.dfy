/** Python's exceptions as values, and the small dictionary the source uses for its name tables. */
module Outcomes {

  /** The exceptions the modelled code can raise. */
  datatype PyError =
    | ZeroDivisionError
    | IndexError
    | KeyError
    | AssertionError(message: string)
    | ValueError(message: string)

  datatype Result<T> = Ok(value: T) | Err(error: PyError)

  datatype Option<T> = None | Some(value: T)

  /** A Python dict literal, kept as its (key, value) pairs in insertion order. */
  type Dict<V> = seq<(string, V)>

  /** `list(d.keys())`: the keys in insertion order. */
  function Keys<V>(d: Dict<V>): (ks: seq<string>)
    ensures |ks| == |d|
    ensures forall i | 0 <= i < |d| :: ks[i] == d[i].0
  {
    if d == [] then [] else [d[0].0] + Keys(d[1..])
  }

  /**
   * `d[k]`: the value stored under `k`, or None where Python raises KeyError.
   * The first entry for `k` is taken, whereas a Python dict literal keeps the
   * last; the two agree on dictionaries without repeated keys, which both
   * dictionaries of the model are.
   */
  function Get<V>(d: Dict<V>, k: string): (r: Option<V>)
    ensures r.None? <==> k !in Keys(d)
    ensures r.Some? ==> exists i | 0 <= i < |d| :: d[i] == (k, r.value)
  {
    if d == [] then None
    else if d[0].0 == k then Some(d[0].1)
    else Get(d[1..], k)
  }
}
