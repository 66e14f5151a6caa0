/** The optional-value type shared by the other modules. */
module Wrappers {

  datatype Option<+T> = None | Some(value: T)

  /** Go's `m[k]` on a map[string]string: the stored value, or the zero value "" when `k` is absent. */
  function MapGet(m: map<string, string>, k: string): (v: string)
    ensures k in m ==> v == m[k]
    ensures k !in m ==> v == ""
  {
    if k in m then m[k] else ""
  }
}
