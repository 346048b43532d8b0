/**
Types that several modules share.
*/
module Basics {
  datatype Option<T> = None | Some(value: T)

  type byte = b: int | 0 <= b < 256

  /// The machine is 32 bits wide.
  const WORD := 0x1_0000_0000

  /// absolute_capability_address: the thread, and the address and depth in its capability space. No depth
  /// stands for SIZE_MAX.
  datatype Where = Where(thread: nat, address: nat, depth: Option<nat>)
}
