/** Small value types shared by the other modules. */
module Values {

  /** A value that may be absent; stands for JavaScript's `undefined` / `null`. */
  datatype Option<T> = None | Some(value: T)

  /** JavaScript's `Math.max` on two integers. */
  function Max(a: int, b: int): (m: int)
    ensures m >= a && m >= b
    ensures m == a || m == b
  {
    if a >= b then a else b
  }
}
