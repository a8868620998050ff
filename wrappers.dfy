/** Small value helpers shared by the other modules. */
module Wrappers {
  /** The optional value the source expresses as `nullptr` or a failed `find`. */
  datatype Option<+T> = None | Some(value: T)

  /**
   * What `operator[]` of a C++ map yields for reading: the stored value, or the
   * default-constructed one when the key is absent.
   */
  function GetOr<K, V>(m: map<K, V>, k: K, default: V): (v: V)
    ensures k in m ==> v == m[k]
    ensures k !in m ==> v == default
  {
    if k in m then m[k] else default
  }

  /** No element occurs twice. */
  predicate Distinct<T(==)>(s: seq<T>)
  {
    forall i, j :: 0 <= i < j < |s| ==> s[i] != s[j]
  }

  /** The set of a sequence's elements. */
  function Elements<T(!new)>(s: seq<T>): (r: set<T>)
    ensures forall x :: x in r <==> x in s
  {
    if s == [] then {} else Elements(s[..|s| - 1]) + {s[|s| - 1]}
  }
}
