/** Fixed-width words as numbers. `x & 0xffff` is `x % 0x10000`, `x >> 16` is `x / 0x10000`, and `|` of fields that
  do not overlap is `+`.
 */
module Words {
  type u4 = x: nat | x < 16
  type u8 = x: nat | x < 0x100
  type u16 = x: nat | x < 0x1_0000
  type u32 = x: nat | x < 0x1_0000_0000
  type u36 = x: nat | x < 0x10_0000_0000
  type u64 = x: nat | x < 0x1_0000_0000_0000_0000
  type i16 = x: int | -0x8000 <= x < 0x8000

  /** A 64-bit word as its eight bytes, bits 7 to 0 first: the order in which they go on the wire. */
  type Word64 = b: seq<u8> | |b| == 8 witness [0, 0, 0, 0, 0, 0, 0, 0]

  function Low16(x: nat): u16 { x % 0x1_0000 }
  /** `(uint32_t) x`; a `size_t` that has wrapped gives the same. */
  function Cast32(x: nat): u32 { x % 0x1_0000_0000 }
  function High16(x: u32): u16 { x / 0x1_0000 }
  function Join16(hi: u16, lo: u16): u32 { hi * 0x1_0000 + lo }

  lemma Low16Same(x: u16)
    ensures Low16(x) == x
  {
  }
}
