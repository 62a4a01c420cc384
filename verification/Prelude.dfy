/** Types that several modules share. */
module Prelude {

  datatype Option<+T> = None | Some(value: T)

  type byte = x: nat | x < 256
}
