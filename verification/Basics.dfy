/** Types that several modules share. */
module Basics {

  type byte = x: int | 0 <= x < 256

  const KB: nat := 1024
  const MB: nat := 1024 * 1024

  datatype Option<+T> = None | Some(value: T)
}
