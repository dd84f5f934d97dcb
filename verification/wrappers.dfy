/** Value types shared by every module of the model. */
module Wrappers {

  datatype Option<+T> = None | Some(value: T)

  /** A map cut down to some keys. */
  function Restricted<V>(m: map<string, V>, keys: set<string>): map<string, V> { map k | k in m && k in keys :: m[k] }

  newtype byte = x: int | 0 <= x < 0x100
}
