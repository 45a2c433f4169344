/** The optional value used for SQL NULL, JavaScript null and Python None, and looking up with a default. */
module Wrappers {

  datatype Option<+T> = None | Some(value: T) {
    function GetOr(default: T): T {
      match this
      case Some(v) => v
      case None => default
    }
  }

  /** `m.get(k) ?? otherwise`. */
  function Lookup<K, V>(m: map<K, V>, k: K, otherwise: V): V {
    if k in m then m[k] else otherwise
  }
}
