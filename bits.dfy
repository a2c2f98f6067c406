/** 16-bit word helpers of the LC-3 virtual machine: byte swapping, the
    host-order and big-endian views of two bytes, bit fields and sign
    extension. All arithmetic is on `bv16`, so it wraps modulo 2^16 as the
    source's `uint16_t` arithmetic does. */
module Bits {

  /** Bit `i` of `w` (bit 0 is the least significant). */
  predicate Bit(w: bv16, i: bv16)
    requires i < 16
  {
    (w >> i) & 1 == 1
  }

  /** The value of `w` read as a two's-complement 16-bit integer. */
  function ToInt16(w: bv16): (r: int)
    ensures -0x8000 <= r < 0x8000
    ensures r < 0 <==> Bit(w, 15)
    ensures r == 0 <==> w == 0
  {
    if w & 0x8000 != 0 then w as int - 0x1_0000 else w as int
  }

  /** Swaps the two bytes of a word. */
  function Swap16(v: bv16): (r: bv16)
    ensures r >> 8 == v & 0xFF
    ensures r & 0xFF == v >> 8
  {
    (v << 8) | (v >> 8)
  }

  lemma Swap16Involutive(v: bv16)
    ensures Swap16(Swap16(v)) == v
  {
  }

  /** The word a little-endian host reads from the two bytes `b0, b1` stored
      at increasing addresses (a `uint16_t` load through a byte pointer). */
  function HostWord(b0: bv8, b1: bv8): (r: bv16)
    ensures r >> 8 == b1 as bv16 && r & 0xFF == b0 as bv16
  {
    (b1 as bv16 << 8) | b0 as bv16
  }

  /** The big-endian reading of the two bytes `b0, b1`: `b0` is the high byte. */
  function BigEndian(b0: bv8, b1: bv8): (r: bv16)
    ensures r == b0 as bv16 * 256 + b1 as bv16
  {
    (b0 as bv16 << 8) | b1 as bv16
  }

  lemma WidenByteValue(b: bv8)
    ensures (b as bv16) as int == b as int
  {
  }

  lemma ByteSumValue(hi: bv16, lo: bv16)
    requires hi < 256 && lo < 256
    ensures (hi * 256 + lo) as int == hi as int * 256 + lo as int
  {
  }

  /** The big-endian word as a number: `b0 * 256 + b1`. */
  lemma BigEndianValue(b0: bv8, b1: bv8)
    ensures BigEndian(b0, b1) as int == b0 as int * 256 + b1 as int
  {
    WidenByteValue(b0);
    WidenByteValue(b1);
    ByteSumValue(b0 as bv16, b1 as bv16);
  }

  /** Swapping a host-order load yields the big-endian word, which is how the
      loader turns the image's bytes into words. */
  lemma SwapHostWordIsBigEndian(b0: bv8, b1: bv8)
    ensures Swap16(HostWord(b0, b1)) == BigEndian(b0, b1)
  {
  }

  /** The low `n` bits set: `(1 << n) - 1`, which the source computes in
      `int` and so never overflows for `n == 16`. */
  function Mask(n: bv16): bv16
    requires 1 <= n <= 16
  {
    if n == 16 then 0xFFFF else (1 << n) - 1
  }

  /** Addition of two words, wrapping around modulo 2^16 as unsigned 16-bit
      arithmetic does. */
  function Add16(a: bv16, b: bv16): bv16
  {
    a + b
  }

  /** Sign-extends the `n`-bit two's-complement field held in the low `n` bits
      of `val`: mask to `n` bits, then flip and subtract the sign bit. */
  function SignExtend(val: bv16, n: bv16): (r: bv16)
    requires 1 <= n <= 16
    ensures r & Mask(n) == val & Mask(n)
  {
    var m: bv16 := 1 << (n - 1);
    ((val & Mask(n)) ^ m) - m
  }

  /** Sign extension keeps the low `n` bits of `val` (so truncating the result
      back to `n` bits gives the field back) and fills every bit above them
      with the field's sign bit `n - 1`. */
  lemma SignExtendKeepsField(val: bv16, n: bv16)
    requires 1 <= n <= 16
    ensures SignExtend(val, n) & Mask(n) == val & Mask(n)
    ensures SignExtend(val, n) & !Mask(n) == if Bit(val, n - 1) then !Mask(n) else 0
  {
  }

  /** Sign extension reads only the field: two words that agree on their
      low `n` bits extend to the same word. */
  lemma SignExtendReadsField(a: bv16, b: bv16, n: bv16)
    requires 1 <= n <= 16 && a & Mask(n) == b & Mask(n)
    ensures SignExtend(a, n) == SignExtend(b, n)
  {
  }

  /** A 5-bit field with its sign bit set fills the word with ones; one
      with its sign bit clear is kept as it is. */
  lemma SignExtendExamples()
    ensures SignExtend(0x1F, 5) == 0xFFFF
    ensures SignExtend(0x0F, 5) == 0x000F
    ensures SignExtend(0x1FF, 9) == 0xFFFF && SignExtend(0x100, 9) == 0xFF00
  {
  }

  /** The same statement bit by bit: every bit at or above `n` equals bit
      `n - 1` of the input, so in particular the result is negative exactly
      when the field's sign bit is set. */
  lemma SignExtendReplicatesSign(val: bv16, n: bv16, i: bv16)
    requires 1 <= n <= i < 16
    ensures Bit(SignExtend(val, n), i) <==> Bit(val, n - 1)
  {
    SignExtendKeepsField(val, n);
    var high := SignExtend(val, n) & !Mask(n);
    assert Bit(SignExtend(val, n), i) <==> Bit(high, i);
    assert Bit(!Mask(n), i);
  }
}
