/** Option and Result values shared by every module of the model. */
module Wrappers {

  datatype Option<+T> = None | Some(value: T)
  {
    function GetOr(default: T): T
    {
      match this
      case Some(v) => v
      case None => default
    }
  }

  datatype Result<+T, +E> = Ok(value: T) | Err(error: E)
}

/** Fixed-width integer types of the Rust source, as bounded subsets of int. */
module Ints {

  const U8_MAX: int := 0xFF
  const U32_MAX: int := 0xFFFF_FFFF
  const U64_MAX: int := 0xFFFF_FFFF_FFFF_FFFF
  /** usize::MAX on the 64-bit targets the server is built for. */
  const USIZE_MAX: int := U64_MAX

  type u8 = x: int | 0 <= x <= U8_MAX
  type u32 = x: int | 0 <= x <= U32_MAX
  type u64 = x: int | 0 <= x <= U64_MAX
  type byte = u8
  type Bytes = seq<byte>
}
