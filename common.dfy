/** Small shared vocabulary: an optional value, distinctness of a sequence,
    and how a scripted fault oracle is read. */
module Common {

  datatype Option<+T> = None | Some(value: T)

  /** No value occurs twice in `s`. */
  predicate Distinct<T(==)>(s: seq<T>)
  {
    forall i, j :: 0 <= i < j < |s| ==> s[i] != s[j]
  }

  /** The fault (an error message) that the environment raises on the k-th call
      of one call site; once the script runs out every call succeeds. */
  function FaultAt(faults: seq<Option<string>>, k: nat): Option<string>
  {
    if k < |faults| then faults[k] else None
  }
}
