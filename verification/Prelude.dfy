/** Shared vocabulary of the model. */
module Prelude {
  datatype Option<+T> = None | Some(value: T)

  datatype Result<+T, +E> = Ok(value: T) | Err(error: E)

  /** One octet on a wire or in a buffer. */
  type byte = x: int | 0 <= x < 256
  type bytes = seq<byte>

  /** Two octets, most significant first. */
  function Be16(hi: byte, lo: byte): int {
    hi * 256 + lo
  }

  function Max(a: int, b: int): int { if a < b then b else a }

  function Min(a: int, b: int): int { if a < b then a else b }
}
