/** Small value types shared by every component. */
module Common {

  datatype Option<+T> = None | Some(value: T)

  /** One octet of file content or of a wire buffer. */
  newtype Byte = x: int | 0 <= x < 256

  function Get<K, V>(m: map<K, V>, k: K): Option<V> {
    if k in m then Some(m[k]) else None
  }

  type Bytes = seq<Byte>
}
