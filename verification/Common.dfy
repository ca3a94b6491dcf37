/** Small value types shared by the models. */
module Common {
  datatype Option<+T> = None | Some(value: T)

  datatype Result<+T, +E> = Ok(value: T) | Err(error: E)

  function Min(a: int, b: int): int {
    if a <= b then a else b
  }

  function Max(a: int, b: int): int {
    if a >= b then a else b
  }

  /** A record in the cache: the value and the millisecond at which it disappears. */
  datatype Cell<+T> = Cell(value: T, expiresAt: int)

  /** What a cache read returns: an expired record reads as a missing one. */
  function Fetch<K, T>(cache: map<K, Cell<T>>, key: K, now: int): Option<T> {
    if key in cache && now < cache[key].expiresAt then Some(cache[key].value) else None
  }
}
