/** Fixed-width machine integers and byte strings shared by the client and the kernel modules. */
module Types {

  /** An unsigned 8-bit value. */
  type Byte = b: int | 0 <= b < 0x100

  /** An unsigned 32-bit value (Go's uint32, C's unsigned int). */
  type U32 = n: int | 0 <= n < 0x1_0000_0000

  const U32Modulus: int := 0x1_0000_0000

  /** A 16-byte globally unique identifier (chunk ids, volume ids, transaction ids). */
  const GuidSize: nat := 16

  type Guid = g: seq<Byte> | |g| == GuidSize witness [0, 0, 0, 0, 0, 0, 0, 0, 0, 0, 0, 0, 0, 0, 0, 0]

  /** A buffer of `n` zero bytes, the initial content of a freshly allocated fixed array. */
  function Zeros(n: nat): (z: seq<Byte>)
    ensures |z| == n
    ensures forall i :: 0 <= i < n ==> z[i] == 0
  {
    seq(n, _ => 0)
  }

  datatype Option<+T> = None | Some(value: T)

  datatype Result<+T, +E> = Ok(value: T) | Err(error: E)
}
