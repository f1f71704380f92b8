/** Small value types shared by the other modules. */
module Basics {

  /** A value that may be absent (a JavaScript `undefined` or a missing header). */
  datatype Option<+T> = None | Some(value: T)

  /** An octet, as held by a Node.js `Buffer`. */
  type byte = x: int | 0 <= x < 256
}
