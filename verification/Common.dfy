/** Vocabulary shared by the modules. */
module Common {
  datatype Option<+T> = None | Some(value: T)

  /** How hard the host is pressed. */
  datatype Pressure = Normal | Pressured | Degraded

  function Max(a: int, b: int): (m: int)
    ensures m >= a && m >= b && (m == a || m == b)
  {
    if a >= b then a else b
  }

  function Min(a: int, b: int): (m: int)
    ensures m <= a && m <= b && (m == a || m == b)
  {
    if a <= b then a else b
  }

  /** The map with one key removed. */
  function Without<K, V>(m: map<K, V>, k: K): (rest: map<K, V>)
    ensures rest.Keys == m.Keys - {k}
    ensures forall x | x in rest :: rest[x] == m[x]
  {
    map x | x in m && x != k :: m[x]
  }
}
