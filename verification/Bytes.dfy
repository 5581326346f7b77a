/** Byte strings and the big-endian integer fields of every wire format in the program. */
module Bytes {
  type byte = x: int | 0 <= x < 256
  type Bytes = seq<byte>

  const U32_LIMIT := 0x1_0000_0000
  type u32 = x: int | 0 <= x < 0x1_0000_0000

  /** `struct.pack(">I", n)`. */
  function U32(n: u32): (b: Bytes)
    ensures |b| == 4
  {
    [n / 0x100_0000, n / 0x1_0000 % 0x100, n / 0x100 % 0x100, n % 0x100]
  }

  /** `struct.unpack(">I", b)[0]`. */
  function FromU32(b: Bytes): (n: u32)
    requires |b| == 4
  {
    b[0] as int * 0x100_0000 + b[1] as int * 0x1_0000 + b[2] as int * 0x100 + b[3]
  }

  /** `n.to_bytes(2, "big")`. */
  function U16(n: int): (b: Bytes)
    requires 0 <= n < 0x1_0000
    ensures |b| == 2
  {
    [n / 0x100, n % 0x100]
  }

  function FromU16(hi: byte, lo: byte): (n: int)
    ensures 0 <= n < 0x1_0000
  {
    hi as int * 0x100 + lo
  }

  lemma U32RoundTrip(n: u32)
    ensures FromU32(U32(n)) == n
  {
    assert n == n / 0x100 * 0x100 + n % 0x100;
    assert n / 0x100 == n / 0x1_0000 * 0x100 + n / 0x100 % 0x100;
    assert n / 0x1_0000 == n / 0x100_0000 * 0x100 + n / 0x1_0000 % 0x100;
  }

  lemma FromU32RoundTrip(b: Bytes)
    requires |b| == 4
    ensures U32(FromU32(b)) == b
  {
    var n := FromU32(b);
    assert n / 0x100 == b[0] as int * 0x1_0000 + b[1] as int * 0x100 + b[2];
    assert n / 0x1_0000 == b[0] as int * 0x100 + b[1];
    assert n / 0x100_0000 == b[0];
  }
}
