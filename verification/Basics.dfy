/** Types that several parts share. */
module Basics {

  type Byte = x: int | 0 <= x < 0x100

  datatype Option<T> = None | Some(value: T)
}
