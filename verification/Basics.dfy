/** Values shared by every part of the model. */
module Basics {

  datatype Option<+T> = None | Some(value: T)

  /** A Go result paired with an error; the error text is not modelled. */
  datatype Result<+T> = Ok(value: T) | Err

  const TWO_64: nat := 0x1_0000_0000_0000_0000
  const TWO_63: nat := 0x8000_0000_0000_0000

  type uint64 = n: int | 0 <= n < TWO_64

  /** `big.Int.Uint64`: the low 64 bits. */
  function Low64(n: nat): uint64 {
    n % TWO_64
  }

  /** `x++` on a Go `uint64`. */
  function Increment(n: uint64): uint64 {
    Low64(n + 1)
  }

  type Byte = b: int | 0 <= b < 256
  type Bytes = seq<Byte>
  type Bytes32 = s: Bytes | |s| == 32 witness seq(32, _ => 0)
  type Bytes20 = s: Bytes | |s| == 20 witness seq(20, _ => 0)

  /** `common.Hash` and `common.Address`. */
  datatype Hash = Hash(bytes: Bytes32)
  datatype Address = Address(bytes: Bytes20)
}
