/** Bytes and the fixed-width integers of the delta code. */
module Bytes {
  type byte = x: int | 0 <= x < 256

  const TWO_32: int := 0x1_0000_0000
  const TWO_63: int := 0x8000_0000_0000_0000
  const TWO_64: int := 0x1_0000_0000_0000_0000

  /** No Go byte slice is longer: the runtime's size check refuses larger ones with a panic. Sizes that pass the check
      but that memory cannot provide end the process; that is not modelled. */
  const MAX_SLICE: int := 0x1_0000_0000_0000

  /** The sizes that pass the check when a byte slice is made. */
  predicate Allocatable(size: int) { 0 <= size <= MAX_SLICE }

  type Slice = s: seq<byte> | |s| <= MAX_SLICE witness []

  /** Arithmetic on uint64. */
  function Wrap64(x: nat): nat { x % TWO_64 }

  /** The conversion from uint64 to int. */
  function AsInt(x: nat): int
    requires x < TWO_64
  {
    if x < TWO_63 then x else x - TWO_64
  }

  /** Arithmetic on uint32. */
  function Wrap32(x: nat): nat { x % TWO_32 }

  datatype Option<+T> = None | Some(value: T)

  datatype Result<+T, +E> = Ok(value: T) | Err(error: E)
}
