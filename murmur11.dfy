/** MurmurHash11: a variant that keeps a 64-bit state, viewed as two
    32-bit halves lo and hi, and mixes by 64-bit products of the halves
    xor-ed with keys and data. Inputs of up to 16 bytes take one of four
    dedicated paths; longer inputs run four independent lanes over 32-byte
    blocks, then a 24/16/8/4-byte cascade and one overlapping read of the
    last four bytes. The digest is `hi ^ lo` of the final state.

    The specification is the pure function Hash11; the method MurmurHash11
    is proved to return it. */
module Murmur11 {
  import opened LittleEndian
  import Murmur1

  const C1: bv64 := 0x8b174952c8e6e651
  const C2: bv64 := 0xc46257516d31d2ab
  const C3: bv64 := 0xd9649531d138d397
  const C4: bv64 := 0xa25d6cdc4d54eacd

  /** The hashing context: the 64-bit value `val` with `lo` its low and
      `hi` its high 32 bits. */
  datatype Ctx = Ctx(lo: bv32, hi: bv32)

  /** The 64-bit value of a context. */
  function Val(c: Ctx): (r: bv64)
  {
    (c.lo as bv64) | ((c.hi as bv64) << 32)
  }

  /** The context whose value is v. */
  function FromVal(v: bv64): (c: Ctx)
    ensures Val(c) == v
  {
    ValHalves(v);
    Ctx((v & 0xFFFF_FFFF) as bv32, (v >> 32) as bv32)
  }

  /** The seed context `{ s + 1, s - 1 }`, each half wrapping mod 2^32. */
  function Seed(s: bv32): (r: Ctx)
  {
    Ctx(s + 1, s - 1)
  }

  /** The digest `hi ^ lo`. */
  function Digest(c: Ctx): (r: bv32)
  {
    c.hi ^ c.lo
  }

  /** murmix1 (lines 34-35): the 64-bit product of the key-, state- and
      data-whitened halves, taken mod 2^64. */
  function Murmix1(ca: bv64, cb: bv64, st: Ctx, x: bv32): (r: Ctx)
  {
    FromVal((ca ^ (st.lo as bv64) ^ (x as bv64)) * (cb ^ (st.hi as bv64)))
  }

  /** murmix2 (lines 36-37): as murmix1 with one data word per half. */
  function Murmix2(ca: bv64, cb: bv64, st: Ctx, x1: bv32, x2: bv32): (r: Ctx)
  {
    FromVal((ca ^ (x1 as bv64) ^ (st.lo as bv64)) * (cb ^ (x2 as bv64) ^ (st.hi as bv64)))
  }

  /** `a.val ^= b.val`, computed half by half: the two views of the
      context agree on it. */
  function Xor(a: Ctx, b: Ctx): (r: Ctx)
    ensures Val(r) == Val(a) ^ Val(b)
  {
    Ctx(a.lo ^ b.lo, a.hi ^ b.hi)
  }

  /** _wyr4 (lines 20-25): the first, middle and last of k = 1..3 bytes,
      in bits 16-23, 8-15 and 0-7. */
  function Wyr4(data: seq<bv8>, k: nat): (r: bv32)
    requires 1 <= k <= 3 && k <= |data|
    ensures r >> 16 == data[0] as bv32
    ensures (r >> 8) & 0xFF == data[k / 2] as bv32
    ensures r & 0xFF == data[k - 1] as bv32
  {
    ((data[0] as bv32) << 16) | ((data[k / 2] as bv32) << 8) | (data[k - 1] as bv32)
  }

  /** _wyr4_shift (lines 27-32): the 32-bit load at `shift` bytes from the
      current position `pos`; the shift may be negative. */
  function WyrShift(data: seq<bv8>, pos: nat, shift: int): (r: bv32)
    requires 0 <= pos + shift && pos + shift + 4 <= |data|
  {
    LE32(data, pos + shift)
  }

  // ---------------------------------------------------------------------
  // Inputs of at most 16 bytes (lines 52-87).

  /** The final state of an input of at most 16 bytes. */
  function ShortState(data: seq<bv8>, s: bv32): (r: Ctx)
    requires |data| <= 16
  {
    var n := |data|;
    var seed := Seed(s);
    if n < 4 then
      if n != 0 then Murmix1(C2, C4, Murmix1(C1, C2, seed, Wyr4(data, n)), Murmur1.LenWord(n))
      else Murmix1(C2, C4, seed, 0)
    else if n <= 8 then
      Murmix1(C3, C4, Murmix2(C1, C2, seed, LE32(data, 0), WyrShift(data, 0, n - 4)), Murmur1.LenWord(n))
    else if n <= 12 then
      var a := Murmix2(C1, C2, seed, LE32(data, 0), LE32(data, 4));
      var b := Murmix1(C3, C4, seed, WyrShift(data, 0, n - 4));
      Murmix1(C2, C4, Xor(a, b), Murmur1.LenWord(n))
    else
      var a := Murmix2(C1, C2, seed, LE32(data, 0), LE32(data, 4));
      var b := Murmix2(C3, C4, seed, LE32(data, 8), WyrShift(data, 0, n - 4));
      Murmix1(C2, C4, Xor(a, b), Murmur1.LenWord(n))
  }

  // ---------------------------------------------------------------------
  // Inputs of more than 16 bytes (lines 88-151).

  /** The four lane contexts of the block loop: seed, see1, see2, see3. */
  datatype Lanes = Lanes(seed: Ctx, see1: Ctx, see2: Ctx, see3: Ctx)

  /** One pass of the loop body (lines 95-98) over the 32-byte block at
      off: each lane mixes two of the block's eight words under its own
      keys. */
  function Round(l: Lanes, data: seq<bv8>, off: nat): (r: Lanes)
    requires off + 32 <= |data|
  {
    Lanes(Murmix2(C1, C2, l.seed, LE32(data, off), LE32(data, off + 4)),
          Murmix2(C3, C4, l.see1, LE32(data, off + 8), LE32(data, off + 12)),
          Murmix2(C2, C3, l.see2, LE32(data, off + 16), LE32(data, off + 20)),
          Murmix2(C4, C1, l.see3, LE32(data, off + 24), LE32(data, off + 28)))
  }

  /** The lanes l carried through every whole block from off on, stopping
      once fewer than 32 bytes remain. */
  function LanesFrom(l: Lanes, data: seq<bv8>, off: nat): (r: Lanes)
    requires off <= |data|
    decreases |data| - off
  {
    if |data| - off < 32 then l else LanesFrom(Round(l, data, off), data, off + 32)
  }

  /** The state after the block loop (lines 90-110): the lanes after all
      whole blocks, folded together by `seed ^= see1 ^ see2 ^ see3`. */
  function Blocks(data: seq<bv8>, st: Ctx): (r: Ctx)
    requires 32 <= |data|
  {
    var l := LanesFrom(Lanes(st, st, st, st), data, 0);
    Xor(l.seed, Xor(Xor(l.see1, l.see2), l.see3))
  }

  /** The 24-, 16- or 8-byte step of the cascade (lines 111-140), taking
      the largest that fits in the fewer than 32 bytes left at off. */
  function Stride(data: seq<bv8>, st: Ctx, off: nat): (r: (Ctx, nat))
    requires off <= |data| < off + 32
    ensures off <= r.1 <= |data| < r.1 + 8
    ensures r.1 == off || r.1 == off + 8 || r.1 == off + 16 || r.1 == off + 24
  {
    var len := |data| - off;
    if len >= 24 then
      var see1 := Murmix2(C3, C4, st, LE32(data, off + 8), LE32(data, off + 12));
      var see2 := Murmix2(C2, C3, st, LE32(data, off + 16), LE32(data, off + 20));
      (Xor(Murmix2(C1, C2, st, LE32(data, off), LE32(data, off + 4)), Xor(see1, see2)), off + 24)
    else if len >= 16 then
      var see1 := Murmix2(C3, C4, st, LE32(data, off + 8), LE32(data, off + 12));
      (Xor(Murmix2(C1, C2, st, LE32(data, off), LE32(data, off + 4)), see1), off + 16)
    else if len >= 8 then
      (Murmix2(C1, C2, st, LE32(data, off), LE32(data, off + 4)), off + 8)
    else
      (st, off)
  }

  /** The 4-byte step of the cascade (lines 141-146). */
  function Single(data: seq<bv8>, st: Ctx, off: nat): (r: (Ctx, nat))
    requires off <= |data| < off + 8
    ensures off <= r.1 <= |data| < r.1 + 4
    ensures r.1 == off || r.1 == off + 4
  {
    if |data| - off >= 4 then (Murmix1(C1, C2, st, LE32(data, off)), off + 4) else (st, off)
  }

  /** The tail (lines 148-151): when 1-3 bytes remain, one load reaching
      back from them to cover the last four bytes of the input. */
  function Tail(data: seq<bv8>, st: Ctx, off: nat): (r: Ctx)
    requires 16 <= off <= |data| < off + 4
  {
    var len := |data| - off;
    if len != 0 then Murmix1(C1, C2, st, WyrShift(data, off, len - 4)) else st
  }

  /** The final state of an input of more than 16 bytes. */
  function LongState(data: seq<bv8>, s: bv32): (r: Ctx)
    requires 16 < |data| <= Murmur1.MaxLen
  {
    var n := |data|;
    var off0 := 32 * (n / 32);
    assert off0 <= n < off0 + 32 && (n < 32 ==> off0 == 0);
    var st := if n >= 32 then Blocks(data, Seed(s)) else Seed(s);
    var (st1, off1) := Stride(data, st, off0);
    var (st2, off2) := Single(data, st1, off1);
    assert 16 <= off2;
    Murmix1(C2, C4, Tail(data, st2, off2), Murmur1.LenWord(n))
  }

  /** MurmurHash11 of data under seed s. */
  function Hash11(data: seq<bv8>, s: bv32): (r: bv32)
    requires |data| <= Murmur1.MaxLen
  {
    if |data| <= 16 then Digest(ShortState(data, s)) else Digest(LongState(data, s))
  }

  // ---------------------------------------------------------------------
  // The hash function.

  /** MurmurHash11 (lines 39-152). The two length classes are written as
      two methods, one per path of the source. */
  method MurmurHash11(data: seq<bv8>, s: bv32) returns (r: bv32)
    requires |data| <= Murmur1.MaxLen
    ensures r == Hash11(data, s)
  {
    if |data| <= 16 {
      r := ShortInput(data, s);
    } else {
      r := LongInput(data, s);
    }
  }

  /** The paths for inputs of at most 16 bytes (lines 52-87). */
  method ShortInput(data: seq<bv8>, s: bv32) returns (r: bv32)
    requires |data| <= 16
    ensures r == Digest(ShortState(data, s))
  {
    var seed := Seed(s);
    var len := |data|;
    var len2 := len;
    if len < 4 {
      if len != 0 {
        seed := Murmix1(C1, C2, seed, Wyr4(data, len));
        seed := Murmix1(C2, C4, seed, Murmur1.LenWord(len));
      } else {
        seed := Murmix1(C2, C4, seed, 0);
      }
      return Digest(seed);
    }
    if len <= 8 {
      seed := Murmix2(C1, C2, seed, LE32(data, 0), WyrShift(data, 0, len - 4));
      seed := Murmix1(C3, C4, seed, Murmur1.LenWord(len2));
      return Digest(seed);
    }
    var see1 := seed;
    if len <= 12 {
      seed := Murmix2(C1, C2, seed, LE32(data, 0), LE32(data, 4));
      see1 := Murmix1(C3, C4, see1, WyrShift(data, 0, len - 4));
      seed := Xor(seed, see1);
      seed := Murmix1(C2, C4, seed, Murmur1.LenWord(len2));
      return Digest(seed);
    }
    seed := Murmix2(C1, C2, seed, LE32(data, 0), LE32(data, 4));
    see1 := Murmix2(C3, C4, see1, LE32(data, 8), WyrShift(data, 0, len - 4));
    seed := Xor(seed, see1);
    seed := Murmix1(C2, C4, seed, Murmur1.LenWord(len2));
    return Digest(seed);
  }

  /** The path for inputs of more than 16 bytes (lines 88-151). The
      `do ... while` block loop is entered only under `len >= 32`, so it
      is written as a `while` loop. */
  method LongInput(data: seq<bv8>, s: bv32) returns (r: bv32)
    requires 16 < |data| <= Murmur1.MaxLen
    ensures r == Digest(LongState(data, s))
  {
    var seed := Seed(s);
    var len := |data|;
    var len2 := len;
    var off := 0;
    if len >= 32 {
      seed, off := BlockLoop(data, seed);
      len := |data| - off;
    }
    seed, off := Cascade(data, seed, off);
    len := |data| - off;
    if len != 0 {
      seed := Murmix1(C1, C2, seed, WyrShift(data, off, len - 4));
    }
    seed := Murmix1(C2, C4, seed, Murmur1.LenWord(len2));
    return Digest(seed);
  }

  /** The 32-byte block loop (lines 88-110): four lanes started from the
      same state, each mixing two of the eight words of every block, xor-ed
      together at the end. */
  method BlockLoop(data: seq<bv8>, st: Ctx) returns (seed: Ctx, off: nat)
    requires 32 <= |data|
    ensures off == 32 * (|data| / 32)
    ensures seed == Blocks(data, st)
  {
    seed := st;
    var see1, see2, see3 := st, st, st;
    off := 0;
    var len := |data|;
    ghost var b := 0;
    while len >= 32
      invariant 0 <= len && off + len == |data| && off == 32 * b
      invariant LanesFrom(Lanes(seed, see1, see2, see3), data, off) == LanesFrom(Lanes(st, st, st, st), data, 0)
    {
      seed := Murmix2(C1, C2, seed, LE32(data, off), LE32(data, off + 4));
      see1 := Murmix2(C3, C4, see1, LE32(data, off + 8), LE32(data, off + 12));
      see2 := Murmix2(C2, C3, see2, LE32(data, off + 16), LE32(data, off + 20));
      see3 := Murmix2(C4, C1, see3, LE32(data, off + 24), LE32(data, off + 28));
      off, len := off + 32, len - 32;
      b := b + 1;
    }
    BlockCount(|data|, b, len);
    seed := Xor(seed, Xor(Xor(see1, see2), see3));
  }

  /** The 24/16/8 then 4-byte cascade (lines 111-146) on the fewer than 32
      bytes left at off0. */
  method Cascade(data: seq<bv8>, st: Ctx, off0: nat) returns (seed: Ctx, off: nat)
    requires off0 <= |data| < off0 + 32
    ensures (seed, off) == Single(data, Stride(data, st, off0).0, Stride(data, st, off0).1)
  {
    seed, off := st, off0;
    var len := |data| - off;
    if len >= 24 {
      var see1, see2 := seed, seed;
      seed := Murmix2(C1, C2, seed, LE32(data, off), LE32(data, off + 4));
      see1 := Murmix2(C3, C4, see1, LE32(data, off + 8), LE32(data, off + 12));
      see2 := Murmix2(C2, C3, see2, LE32(data, off + 16), LE32(data, off + 20));
      off, len := off + 24, len - 24;
      seed := Xor(seed, Xor(see1, see2));
    } else if len >= 16 {
      var see1 := seed;
      seed := Murmix2(C1, C2, seed, LE32(data, off), LE32(data, off + 4));
      see1 := Murmix2(C3, C4, see1, LE32(data, off + 8), LE32(data, off + 12));
      off, len := off + 16, len - 16;
      seed := Xor(seed, see1);
    } else if len >= 8 {
      seed := Murmix2(C1, C2, seed, LE32(data, off), LE32(data, off + 4));
      off, len := off + 8, len - 8;
    }
    if len >= 4 {
      seed := Murmix1(C1, C2, seed, LE32(data, off));
      off, len := off + 4, len - 4;
    }
  }

  /** A length of 32b + r bytes, r < 32, holds b whole blocks. */
  lemma BlockCount(n: nat, b: nat, r: nat)
    requires n == 32 * b + r && r < 32
    ensures n / 32 == b
  {
  }

  // ---------------------------------------------------------------------
  // What the reads cover.

  /** _wyr4 reads all of its k = 1..3 bytes and nothing else: two buffers
      give the same register exactly when their first k bytes agree. */
  lemma Wyr4Determines(a: seq<bv8>, b: seq<bv8>, k: nat)
    requires 1 <= k <= 3 && k <= |a| && k <= |b|
    ensures Wyr4(a, k) == Wyr4(b, k) <==> a[..k] == b[..k]
  {
    if Wyr4(a, k) == Wyr4(b, k) {
      assert a[0] == b[0] && a[k / 2] == b[k / 2] && a[k - 1] == b[k - 1] by {
        ByteOfWord(a[0], b[0]);
        ByteOfWord(a[k / 2], b[k / 2]);
        ByteOfWord(a[k - 1], b[k - 1]);
      }
      assert forall i | 0 <= i < k :: a[..k][i] == b[..k][i];
    } else {
      assert a[0] != b[0] || a[k / 2] != b[k / 2] || a[k - 1] != b[k - 1];
      assert a[..k][0] != b[..k][0] || a[..k][k / 2] != b[..k][k / 2] || a[..k][k - 1] != b[..k][k - 1];
    }
  }

  lemma ByteOfWord(x: bv8, y: bv8)
    ensures x as bv32 == y as bv32 ==> x == y
  {
  }

  /** The tail load (line 146) reaches back from the 1-3 bytes left to
      read exactly the last four bytes of the input, and happens only when
      bytes are left. */
  lemma TailReadsLastWord(data: seq<bv8>, st: Ctx, off: nat)
    requires 16 <= off <= |data| < off + 4
    ensures off < |data| ==> Tail(data, st, off) == Murmix1(C1, C2, st, LE32(data, |data| - 4))
    ensures off == |data| ==> Tail(data, st, off) == st
  {
    if off < |data| {
      LastWord(data, off);
    }
  }

  lemma LastWord(data: seq<bv8>, off: nat)
    requires 4 <= off < |data| < off + 4
    ensures WyrShift(data, off, |data| - off - 4) == LE32(data, |data| - 4)
  {
    assert off + (|data| - off - 4) == |data| - 4;
  }

  /** After the cascade, started at a multiple of four, a multiple of four
      bytes has been consumed and the 0-3 bytes left are the input's
      length mod 4. */
  lemma CascadeLeaves(data: seq<bv8>, st: Ctx, off0: nat)
    requires off0 <= |data| < off0 + 32 && off0 % 4 == 0
    ensures var off1 := Stride(data, st, off0).1;
            var off2 := Single(data, Stride(data, st, off0).0, off1).1;
            off2 % 4 == 0 && |data| - off2 == |data| % 4
  {
    var off1 := Stride(data, st, off0).1;
    var off2 := Single(data, Stride(data, st, off0).0, off1).1;
    ConsumedMod(|data|, off0, off1, off2);
  }

  lemma ConsumedMod(n: nat, off0: nat, off1: nat, off2: nat)
    requires off0 % 4 == 0
    requires off1 == off0 || off1 == off0 + 8 || off1 == off0 + 16 || off1 == off0 + 24
    requires off2 == off1 || off2 == off1 + 4
    requires off2 <= n < off2 + 4
    ensures off2 % 4 == 0 && n - off2 == n % 4
  {
  }

  /** An empty input takes the zero-length path: no data word is read, and
      the seed is mixed once under the final keys with a zero length. */
  lemma EmptyInput(s: bv32)
    ensures Hash11([], s) == Digest(Murmix1(C2, C4, Seed(s), 0))
  {
  }

  // ---------------------------------------------------------------------
  // Facts about the context.

  /** A context is recovered from its 64-bit value: the halves and the
      value are two views of the same state. */
  lemma FromValOfVal(c: Ctx)
    ensures FromVal(Val(c)) == c
  {
    HalvesOfVal(c.lo, c.hi);
  }

  /** The digest `hi ^ lo` is the xor of the two halves of the 64-bit
      value. */
  lemma DigestOfVal(c: Ctx)
    ensures Digest(c) == ((Val(c) >> 32) as bv32) ^ ((Val(c) & 0xFFFF_FFFF) as bv32)
  {
    HalvesOfVal(c.lo, c.hi);
  }

  lemma HalvesOfVal(lo: bv32, hi: bv32)
    ensures ((((lo as bv64) | ((hi as bv64) << 32)) & 0xFFFF_FFFF) as bv32) == lo
    ensures (((((lo as bv64) | ((hi as bv64) << 32)) >> 32)) as bv32) == hi
  {
  }

  /** A 64-bit value is its low half or-ed with its high half. */
  lemma ValHalves(v: bv64)
    ensures (((v & 0xFFFF_FFFF) as bv32) as bv64) | ((((v >> 32) as bv32) as bv64) << 32) == v
  {
  }
}
