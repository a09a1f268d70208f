/** What several modules share. */
module Prelude {
  datatype Option<T> = None | Some(value: T)

  type Byte = x: int | 0 <= x < 256
}
