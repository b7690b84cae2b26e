/** The state of a JavaScript promise as seen through its resolving functions. */
module Promises {

  /** A promise is pending until the first call of `resolve` or `reject`. */
  datatype Settlement<+T, +E> = Pending | Resolved(value: T) | Rejected(reason: E)

  /**
   * The state after calling `resolve(v)` (t == Resolved(v)) or `reject(e)`
   * (t == Rejected(e)) on a promise in state `s`: only the first call has an
   * effect, every later one is ignored.
   */
  function Settle<T, E>(s: Settlement<T, E>, t: Settlement<T, E>): Settlement<T, E>
  {
    if s.Pending? then t else s
  }
}
