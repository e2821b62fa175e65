/** Small shared vocabulary of the model: optional values, database ids. */
module Common {

  /** A value that may be absent: a nullable column, a missing row, an unset session field. */
  datatype Option<T> = None | Some(value: T)

  /**
   * Row ids come from serial columns, which start at 1. A present id is
   * therefore always truthy, so the resolvers' truthiness tests on the
   * session's user id are the same as "the session holds a user id".
   */
  type Id = x: int | 1 <= x witness 1

  function Min(a: int, b: int): (m: int)
    ensures m <= a && m <= b && (m == a || m == b)
  {
    if a <= b then a else b
  }
}
