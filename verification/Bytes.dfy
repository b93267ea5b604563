/**
 Machine integers and their big-endian byte form.

 Every integer is mathematical and carries its range in its type; each place
 where the C++ narrows or wraps is written out with `%`.
 */
module Bytes {

  const TWO8 := 0x100
  const TWO32 := 0x1_0000_0000
  const TWO64 := 0x1_0000_0000_0000_0000

  type u8 = x: int | 0 <= x < 0x100
  type u16 = x: int | 0 <= x < 0x1_0000
  type u32 = x: int | 0 <= x < 0x1_0000_0000
  type u64 = x: int | 0 <= x < 0x1_0000_0000_0000_0000
  type i32 = x: int | -0x8000_0000 <= x < 0x8000_0000
  type i64 = x: int | -0x8000_0000_0000_0000 <= x < 0x8000_0000_0000_0000

  /** A `std::string` or byte vector. */
  type Bytes = seq<u8>

  datatype Option<+T> = None | Some(value: T)

  /** `Throw` stands for any C++ exception; callers in this system catch with `catch(...)`. */
  datatype Result<+T> = Ok(value: T) | Throw {
    predicate IsFailure() { Throw? }

    function PropagateFailure<U>(): (r: Result<U>)
      requires Throw?
    {
      Throw
    }

    function Extract(): (r: T)
      requires Ok?
    {
      value
    }
  }

  /** Big-endian form of a 32-bit word. */
  function U32Bytes(v: u32): (b: Bytes)
    ensures |b| == 4
  {
    var v1: int := v / TWO8;
    var v2: int := v1 / TWO8;
    [v2 / TWO8, v2 % TWO8, v1 % TWO8, v % TWO8]
  }

  /** The value of four big-endian bytes. */
  function U32Of(b: Bytes): (v: u32)
    requires |b| == 4
  {
    var high: int := b[0];
    ((high * TWO8 + b[1]) * TWO8 + b[2]) * TWO8 + b[3]
  }

  /** A 64-bit word is its high half followed by its low half. */
  function U64Bytes(v: u64): (b: Bytes)
    ensures |b| == 8
  {
    U32Bytes(v / TWO32) + U32Bytes(v % TWO32)
  }

  lemma U32OfBytes(v: u32)
    ensures U32Of(U32Bytes(v)) == v
  {
  }

  lemma DivMod(h: int, l: u8)
    ensures (h * TWO8 + l) / TWO8 == h && (h * TWO8 + l) % TWO8 == l
  {
  }

  lemma BytesOfU32(b: Bytes)
    requires |b| == 4
    ensures U32Bytes(U32Of(b)) == b
  {
    var h: int := b[0];
    DivMod(h, b[1]);
    DivMod(h * TWO8 + b[1], b[2]);
    DivMod((h * TWO8 + b[1]) * TWO8 + b[2], b[3]);
  }

  /** Two's complement view of a signed word. */
  function I32ToU32(v: i32): (r: u32)
    ensures r % TWO32 == v % TWO32
  {
    v % TWO32
  }

  function U32ToI32(v: u32): (r: i32)
    ensures r % TWO32 == v
  {
    if v < 0x8000_0000 then v else v - TWO32
  }

  lemma I32RoundTrip(v: i32)
    ensures U32ToI32(I32ToU32(v)) == v
  {
  }
}
