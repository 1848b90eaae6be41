/** Little-endian decoding of byte buffers into 32-bit words.

    Every native `*(uint32_t *)p` load of the hash functions is modelled as
    a little-endian decode, which is what such a load produces on the
    little-endian hosts the hashes are defined for. A window of a buffer
    is named by its offset and length rather than by a slice. */
module LittleEndian {

  /** The little-endian value of the n bytes of data starting at off:
      data[off] is the least significant byte. Bytes past the fourth fall
      off the top of the 32-bit register, exactly as in a machine word. */
  function LEAt(data: seq<bv8>, off: nat, n: nat): (r: bv32)
    requires off + n <= |data|
    decreases n
  {
    if n == 0 then 0 else (data[off] as bv32) | (LEAt(data, off + 1, n - 1) << 8)
  }

  /** A 32-bit load of the four bytes at offset `off`. */
  function LE32(data: seq<bv8>, off: nat): (r: bv32)
    requires off + 4 <= |data|
  {
    LEAt(data, off, 4)
  }

  /** The width in bits of k bytes, as a register shift amount. */
  function ByteBits(k: nat): (r: bv32)
    requires k <= 4
    ensures r == 8 * (k as bv32)
  {
    if k == 0 then 0 else if k == 1 then 8 else if k == 2 then 16 else if k == 3 then 24 else 32
  }

  /** The value of up to three bytes, written out byte by byte. */
  lemma {:induction false} LEClosedForm(data: seq<bv8>, off: nat, n: nat)
    requires n <= 3 && off + n <= |data|
    ensures n == 0 ==> LEAt(data, off, n) == 0
    ensures n == 1 ==> LEAt(data, off, n) == data[off] as bv32
    ensures n == 2 ==> LEAt(data, off, n) == (data[off] as bv32) | ((data[off + 1] as bv32) << 8)
    ensures n == 3 ==> LEAt(data, off, n)
                       == (data[off] as bv32) | ((data[off + 1] as bv32) << 8) | ((data[off + 2] as bv32) << 16)
    decreases n
  {
    if n > 0 {
      LEClosedForm(data, off + 1, n - 1);
    }
  }

  /** A window of k <= 3 bytes has a value below 2^(8k). */
  lemma {:induction false} LEBound(data: seq<bv8>, off: nat, n: nat)
    requires n <= 3 && off + n <= |data|
    ensures LEAt(data, off, n) < (1 as bv32) << ByteBits(n)
    decreases n
  {
    if n > 0 {
      LEBound(data, off + 1, n - 1);
      ByteBelowShift(data[off], LEAt(data, off + 1, n - 1), ByteBits(n - 1));
    }
  }

  /** Concatenation: the b bytes after the first a sit just above them. */
  lemma {:induction false} LEConcat(data: seq<bv8>, off: nat, a: nat, b: nat)
    requires a <= 3 && off + a + b <= |data|
    ensures LEAt(data, off, a + b) == LEAt(data, off, a) | (LEAt(data, off + a, b) << ByteBits(a))
    decreases a
  {
    if a > 0 {
      LEConcat(data, off + 1, a - 1, b);
      ShiftOverOr(LEAt(data, off + 1, a - 1), LEAt(data, off + a, b), ByteBits(a - 1));
    }
  }

  /** Only the first four bytes of a longer window reach the register. */
  lemma LETruncate(data: seq<bv8>, off: nat, n: nat)
    requires 4 <= n && off + n <= |data|
    ensures LEAt(data, off, n) == LE32(data, off)
  {
    LEConcat(data, off + 1, 3, n - 4);
    assert n - 1 == 3 + (n - 4);
    ShiftOffTop(LEAt(data, off + 1, 3), LEAt(data, off + 4, n - 4));
  }

  /** Shifting a loaded word right by k bytes leaves its top 4 - k bytes. */
  lemma LEShiftRight(data: seq<bv8>, off: nat, k: nat)
    requires 1 <= k <= 3 && off + 4 <= |data|
    ensures LE32(data, off) >> ByteBits(k) == LEAt(data, off + k, 4 - k)
  {
    LEConcat(data, off, k, 4 - k);
    LEBound(data, off, k);
    LEBound(data, off + k, 4 - k);
    ShiftOutLow(LEAt(data, off, k), LEAt(data, off + k, 4 - k), ByteBits(k));
  }

  // Facts about 32-bit registers used above, for shift amounts that are a
  // whole number of bytes.

  lemma ByteBelowShift(b: bv8, x: bv32, n: bv32)
    requires n <= 16 && x < (1 as bv32) << n
    ensures (b as bv32) | (x << 8) < (1 as bv32) << (n + 8)
  {
  }

  lemma ShiftOverOr(a: bv32, b: bv32, n: bv32)
    requires n <= 16
    ensures (a | (b << n)) << 8 == (a << 8) | (b << (n + 8))
  {
  }

  lemma ShiftOffTop(a: bv32, b: bv32)
    ensures (a | (b << 24)) << 8 == a << 8
  {
  }

  lemma ShiftOutLow(lo: bv32, hi: bv32, n: bv32)
    requires 8 <= n <= 24
    requires lo < (1 as bv32) << n
    requires hi < (1 as bv32) << (32 - n)
    ensures (lo | (hi << n)) >> n == hi
  {
  }
}
