/** MurmurHash1 and MurmurHash1Aligned: a 32-bit accumulator that absorbs the
    buffer one little-endian word at a time, folds in a 1-3 byte tail and
    is finalised by two multiply/xor-shift rounds.

    The specification is the pure function Hash1; both methods are proved to
    return it, so the aligned variant returns the digest of the simple one
    for every buffer, seed and start-address alignment. */
module Murmur1 {
  import opened LittleEndian

  /** The multiplier m. */
  const M: bv32 := 0xc6a4a793

  /** The largest length an `int len` parameter can carry. */
  const MaxLen: nat := 0x7FFF_FFFF

  /** `h *= m`, modulo 2^32. */
  function MulM(h: bv32): (r: bv32)
  {
    h * M
  }

  /** `h ^= h >> r`. */
  function XorShift(h: bv32, r: bv32): (g: bv32)
    requires r < 32
  {
    h ^ (h >> r)
  }

  /** One mixing step `h += k; h *= m; h ^= h >> 16`. */
  function Mix(h: bv32, k: bv32): (r: bv32)
  {
    XorShift(MulM(h + k), 16)
  }

  /** The two finalisation rounds, with shifts of 10 and 17. */
  function Finalize(h: bv32): (r: bv32)
  {
    XorShift(MulM(XorShift(MulM(h), 10)), 17)
  }

  /** The length as the unsigned 32-bit operand of `len * m`. */
  function LenWord(len: nat): (r: bv32)
    requires len <= MaxLen
  {
    len as bv32
  }

  /** The starting accumulator `seed ^ (len * m)`, the product taken mod 2^32. */
  function Init(seed: bv32, len: nat): (r: bv32)
    requires len <= MaxLen
  {
    seed ^ MulM(LenWord(len))
  }

  /** The accumulator after the first n words of data have been mixed in, in order. */
  function MixWords(h0: bv32, data: seq<bv8>, n: nat): (r: bv32)
    requires 4 * n <= |data|
  {
    if n == 0 then h0 else Mix(MixWords(h0, data, n - 1), LE32(data, 4 * (n - 1)))
  }

  /** The 0-3 bytes from off to the end are mixed in as one little-endian
      word; no bytes leave h alone. */
  function MixTail(h: bv32, data: seq<bv8>, off: nat): (r: bv32)
    requires off <= |data| <= off + 3
  {
    if off == |data| then h else Mix(h, LEAt(data, off, |data| - off))
  }

  /** The digest: all whole words, then the tail, then the finaliser. */
  function Hash1(data: seq<bv8>, seed: bv32): (r: bv32)
    requires |data| <= MaxLen
  {
    var words := |data| / 4;
    Finalize(MixTail(MixWords(Init(seed, |data|), data, words), data, 4 * words))
  }

  /** An empty input mixes nothing in: `len * m` is 0, so the digest is
      the two finalisation rounds applied to the seed itself. */
  lemma EmptyInput(seed: bv32)
    ensures Hash1([], seed) == Finalize(seed)
  {
    assert LenWord(0) == 0;
    assert MulM(0) == 0;
    assert Init(seed, 0) == seed;
  }

  /** The word folded in for a 1-3 byte tail is below 2^24: its top byte is
      always zero, unlike a whole word. */
  lemma TailWordBelow24(data: seq<bv8>, off: nat)
    requires off < |data| <= off + 3
    ensures LEAt(data, off, |data| - off) < 1 << 24
  {
    LEBound(data, off, |data| - off);
  }

  /** The fold over n words reads only the first 4n bytes. */
  lemma {:induction false} MixWordsReadsPrefix(h0: bv32, a: seq<bv8>, b: seq<bv8>, n: nat)
    requires 4 * n <= |a| && 4 * n <= |b|
    requires forall i :: 0 <= i < 4 * n ==> a[i] == b[i]
    ensures MixWords(h0, a, n) == MixWords(h0, b, n)
  {
    if n > 0 {
      MixWordsReadsPrefix(h0, a, b, n - 1);
      SameWindow(a, b, 4 * (n - 1), 4);
    }
  }

  /** Windows holding the same bytes decode to the same value. */
  lemma {:induction false} SameWindow(a: seq<bv8>, b: seq<bv8>, off: nat, n: nat)
    requires off + n <= |a| && off + n <= |b|
    requires forall i :: off <= i < off + n ==> a[i] == b[i]
    ensures LEAt(a, off, n) == LEAt(b, off, n)
    decreases n
  {
    if n > 0 {
      SameWindow(a, b, off + 1, n - 1);
    }
  }

  /** The word loop shared by both functions (lines 170-180 and 291-299):
      while four bytes remain, mix in the next word. */
  method MixWordLoop(data: seq<bv8>, h0: bv32) returns (h: bv32, off: nat)
    ensures off == 4 * (|data| / 4) && 0 <= |data| - off <= 3
    ensures h == MixWords(h0, data, |data| / 4)
  {
    h, off := h0, 0;
    var len := |data|;
    ghost var words := 0;
    while len >= 4
      invariant 0 <= len && off + len == |data| && off == 4 * words
      invariant h == MixWords(h0, data, words)
    {
      var k := LE32(data, off);
      h := Mix(h, k);
      off, len := off + 4, len - 4;
      words := words + 1;
    }
  }

  /** The fall-through tail switch shared by both functions (lines 184-194
      and 305-315): the bytes left are added up into one word, and one
      mixing step runs exactly when at least one byte is left. */
  method MixTailBytes(h0: bv32, data: seq<bv8>, off: nat) returns (h: bv32)
    requires off <= |data| <= off + 3
    ensures h == MixTail(h0, data, off)
  {
    var len := |data| - off;
    var k: bv32 := 0;
    if len == 3 {
      k := k + ((data[off + 2] as bv32) << 16);
    }
    if len >= 2 {
      k := k + ((data[off + 1] as bv32) << 8);
    }
    h := h0;
    if len >= 1 {
      k := k + (data[off] as bv32);
      LEClosedForm(data, off, len);
      if len == 3 {
        SumIsOr(data[off], data[off + 1], data[off + 2]);
      } else if len == 2 {
        SumIsOr(data[off], data[off + 1], 0);
      } else {
        SumIsOr(data[off], 0, 0);
      }
      h := Mix(h, k);
    }
  }

  /** MurmurHash1 (lines 157-204), on a little-endian host. */
  method MurmurHash1(data: seq<bv8>, seed: bv32) returns (h: bv32)
    requires |data| <= MaxLen
    ensures h == Hash1(data, seed)
  {
    h := seed ^ MulM(LenWord(|data|));
    var off;
    h, off := MixWordLoop(data, h);
    h := MixTailBytes(h, data, off);
    h := MulM(h);
    h := XorShift(h, 10);
    h := MulM(h);
    h := XorShift(h, 17);
  }

  /** MurmurHash1Aligned (lines 215-323). The buffer starts `align` bytes
      past a 4-byte boundary (`(uint64_t)data & 3` in the source). */
  method MurmurHash1Aligned(data: seq<bv8>, seed: bv32, align: nat) returns (h: bv32)
    requires |data| <= MaxLen && align <= 3
    ensures h == Hash1(data, seed)
  {
    h := seed ^ MulM(LenWord(|data|));
    ghost var h0 := h;
    var off;
    if align != 0 && |data| >= 4 {
      h, off := AlignedReads(data, h, align);
    } else {
      h, off := MixWordLoop(data, h);
    }
    // Both paths leave at most three bytes, whose tail step completes the absorption.
    h := MixTailBytes(h, data, off);
    h := MulM(h);
    h := XorShift(h, 10);
    h := MulM(h);
    h := XorShift(h, 17);
  }

  /** The unaligned-start branch of MurmurHash1Aligned (lines 227-288):
      the first 4 - align bytes are pre-loaded into t, every later load is
      of a whole aligned word d, and each word of the buffer is reassembled
      from the two before it is mixed in; the leftover bytes go into the
      last reassembled word, and what is then left for the tail switch
      completes the same digest as the simple function. */
  method AlignedReads(data: seq<bv8>, h0: bv32, align: nat) returns (h: bv32, off: nat)
    requires 1 <= align <= 3 && 4 <= |data|
    ensures off <= |data| <= off + 3
    ensures MixTail(h, data, off) == MixTail(MixWords(h0, data, |data| / 4), data, 4 * (|data| / 4))
  {
    ghost var k := 4 - align;
    var t := PreloadTemp(data, align, k);
    ghost var q, words, prev;
    ghost var t0 := t;
    h, t, off, q, words, prev := AlignedWordLoop(data, h0, align, k, t);
    h, off := PackLeftover(data, h0, h, t0, t, align, k, off, q, words, prev);
  }

  /** Pre-loading the temp register (lines 231-243): the k = 4 - align bytes
      before the first aligned address are read byte by byte and moved to
      the top of t, so that `t >> sr` recovers them. */
  method PreloadTemp(data: seq<bv8>, align: nat, ghost k: nat) returns (t: bv32)
    requires 1 <= align <= 3 && k + align == 4 && 4 <= |data|
    ensures Preloaded(data, t, ByteBits(align), k)
  {
    t := 0;
    if align == 1 {
      t := t | ((data[2] as bv32) << 16);
    }
    if align <= 2 {
      t := t | ((data[1] as bv32) << 8);
    }
    t := t | (data[0] as bv32);
    LEClosedForm(data, 0, k);
    LEBound(data, 0, k);
    ShiftBack(t, ByteBits(align), k);
    t := t << ByteBits(align);
  }

  /** The aligned word loop (lines 245-264). Each load d is at an offset
      `off` with `(align + off) % 4 == 0`, i.e. at an aligned address, and
      `(t >> sr) | (d << sl)` is exactly the unaligned word the simple
      function loads at q = off - k. */
  method AlignedWordLoop(data: seq<bv8>, h0: bv32, align: nat, ghost k: nat, t0: bv32)
    returns (h: bv32, t: bv32, off: nat, ghost q: nat, ghost words: nat, ghost prev: nat)
    requires 1 <= align <= 3 && k == 4 - align && 4 <= |data|
    requires Preloaded(data, t0, ByteBits(align), k)
    ensures off == q + k && q == 4 * words && off <= |data| < off + 4
    ensures q == 0 ==> t == t0
    ensures 0 < q ==> prev + 4 == off && t == LE32(data, prev)
    ensures h == MixWords(h0, data, words)
  {
    var sl, sr := ByteBits(4 - align), ByteBits(align);
    h, t := h0, t0;
    var len;
    off, len := 4 - align, |data| - (4 - align);
    q, words, prev := 0, 0, 0;
    while len >= 4
      invariant 0 <= len && off + len == |data| && off == q + k && q == 4 * words
      invariant align + off == 4 * (words + 1)  // every load is at an aligned address
      invariant q == 0 ==> t == t0
      invariant 0 < q ==> prev + 4 == off && t == LE32(data, prev)
      invariant h == MixWords(h0, data, words)
    {
      h, t := AlignedStep(data, h0, h, t0, t, off, sr, sl, align, k, q, words, prev);
      prev := off;
      off, len := off + 4, len - 4;
      q, words := q + 4, words + 1;
    }
  }

  /** The pre-loaded register t0 holds the first k bytes of the buffer in
      its top bytes, so that `t0 >> sr` recovers them. */
  predicate Preloaded(data: seq<bv8>, t0: bv32, sr: bv32, k: nat)
    requires k <= 3 && k <= |data| && sr <= 24
  {
    t0 >> sr == LEAt(data, 0, k)
  }

  /** One turn of the aligned loop (lines 254-260): the aligned word d at
      off completes the word at q = off - k, which is mixed in, and d is
      kept as the next t. */
  method AlignedStep(data: seq<bv8>, ghost h0: bv32, h: bv32, ghost t0: bv32, t: bv32, off: nat, sr: bv32, sl: bv32,
                     ghost align: nat, ghost k: nat, ghost q: nat, ghost words: nat, ghost prev: nat)
    returns (h': bv32, t': bv32)
    requires 1 <= align <= 3 && k == 4 - align && sr == ByteBits(align) && sl == ByteBits(k)
    requires off == q + k && q == 4 * words && off + 4 <= |data|
    requires Preloaded(data, t0, sr, k)
    requires q == 0 ==> t == t0
    requires 0 < q ==> prev + 4 == off && t == LE32(data, prev)
    requires h == MixWords(h0, data, words)
    ensures t' == LE32(data, off)
    ensures h' == MixWords(h0, data, words + 1)
  {
    var d := LE32(data, off);
    Carried(data, t0, t, off, q, align, k, sr, prev);
    ReassembleStep(data, q, k, off, t, d, sr, sl);
    MixWordsNext(h0, data, words, q);
    t' := (t >> sr) | (d << sl);
    h' := Mix(h, t');
    t' := d;
  }

  /** Handling the leftover data in the temp registers (lines 266-287):
      pack = min(len, align) bytes complete the last reassembled word. When
      len >= align that word is a whole word of the buffer and fewer than
      four bytes remain for the tail; otherwise it is the buffer's whole
      1-3 byte tail and nothing remains. */
  method PackLeftover(data: seq<bv8>, ghost h0: bv32, hw: bv32, ghost t0: bv32, t: bv32, align: nat, ghost k: nat,
                      off0: nat, ghost q: nat, ghost words: nat, ghost prev: nat)
    returns (h: bv32, off: nat)
    requires 1 <= align <= 3 && k == 4 - align
    requires off0 == q + k && q == 4 * words && off0 <= |data| < off0 + 4
    requires Preloaded(data, t0, ByteBits(align), k)
    requires q == 0 ==> t == t0
    requires 0 < q ==> prev + 4 == off0 && t == LE32(data, prev)
    requires hw == MixWords(h0, data, words)
    ensures off <= |data| <= off + 3
    ensures MixTail(h, data, off) == MixTail(MixWords(h0, data, |data| / 4), data, 4 * (|data| / 4))
  {
    var sl, sr := ByteBits(4 - align), ByteBits(align);
    var len := |data| - off0;
    var pack := if len < align then len else align;
    var d := PackBytes(data, off0, pack);
    off := off0 + pack;
    if pack == align {
      h := MixPacked(data, hw, t0, t, d, sr, sl, align, k, q, prev, off0, pack, 4);
      LastWholeWord(h0, data, words, q, off, hw, h);
    } else {
      h := MixPacked(data, hw, t0, t, d, sr, sl, align, k, q, prev, off0, pack, |data| - q);
      LastPartialWord(h0, data, words, q, hw, h);
    }
  }

  /** The mix of the last reassembled word (lines 281-283): the k bytes
      carried in t and the `pack` bytes in d are the n = k + pack bytes at
      q. */
  method MixPacked(data: seq<bv8>, hw: bv32, ghost t0: bv32, t: bv32, d: bv32, sr: bv32, sl: bv32,
                   ghost align: nat, ghost k: nat, ghost q: nat, ghost prev: nat, ghost off: nat,
                   ghost pack: nat, ghost n: nat)
    returns (h: bv32)
    requires 1 <= align <= 3 && k == 4 - align && sr == ByteBits(align) && sl == ByteBits(k)
    requires off == q + k && pack <= 3 && off + pack <= |data| && n == k + pack
    requires Preloaded(data, t0, sr, k)
    requires q == 0 ==> t == t0
    requires 0 < q ==> prev + 4 == off && t == LE32(data, prev)
    requires d == LEAt(data, off, pack)
    ensures h == Mix(hw, LEAt(data, q, n))
  {
    Carried(data, t0, t, off, q, align, k, sr, prev);
    ReassemblePart(data, q, k, off, pack, n, t >> sr, d, sl);
    h := Mix(hw, (t >> sr) | (d << sl));
  }

  /** The leftover switch (lines 272-280): the `pack` bytes at off are
      or-ed into a register, lowest byte first. */
  method PackBytes(data: seq<bv8>, off: nat, pack: nat) returns (d: bv32)
    requires pack <= 3 && off + pack <= |data|
    ensures d == LEAt(data, off, pack)
  {
    d := 0;
    if pack == 3 {
      d := d | ((data[off + 2] as bv32) << 16);
    }
    if pack >= 2 {
      d := d | ((data[off + 1] as bv32) << 8);
    }
    if pack >= 1 {
      d := d | (data[off] as bv32);
    }
    LEClosedForm(data, off, pack);
  }

  /** When the leftover bytes complete a whole word w of the buffer, mixing
      it in leaves the same state as the word fold, with fewer than four
      bytes still to go. */
  lemma LastWholeWord(h0: bv32, data: seq<bv8>, words: nat, q: nat, off: nat, hw: bv32, h: bv32)
    requires q == 4 * words && off == q + 4 && off <= |data| < off + 4
    requires hw == MixWords(h0, data, words) && h == Mix(hw, LEAt(data, q, 4))
    ensures MixTail(h, data, off) == MixTail(MixWords(h0, data, |data| / 4), data, 4 * (|data| / 4))
  {
    WordCount(|data|, words + 1, |data| - off);
    MixWordsNext(h0, data, words, q);
    assert h == MixWords(h0, data, |data| / 4);
    assert off == 4 * (|data| / 4);
  }

  /** When they complete only the buffer's 1-3 byte tail w, mixing it in
      is the tail step of the simple function. */
  lemma LastPartialWord(h0: bv32, data: seq<bv8>, words: nat, q: nat, hw: bv32, h: bv32)
    requires q == 4 * words && q < |data| < q + 4
    requires hw == MixWords(h0, data, words) && h == Mix(hw, LEAt(data, q, |data| - q))
    ensures MixTail(h, data, |data|) == MixTail(MixWords(h0, data, |data| / 4), data, 4 * (|data| / 4))
  {
    WordCount(|data|, words, |data| - q);
  }

  /** Same algorithm as MurmurHash1, but only aligned reads: for every buffer,
      seed and alignment offset the two digests coincide. */
  method AlignedAgreesWithSimple(data: seq<bv8>, seed: bv32, align: nat) returns (simple: bv32, aligned: bv32)
    requires |data| <= MaxLen && align <= 3
    ensures simple == aligned == Hash1(data, seed)
  {
    simple := MurmurHash1(data, seed);
    aligned := MurmurHash1Aligned(data, seed, align);
  }

  /** One turn of the aligned loop: with t holding the k = 4 - align bytes
      at q and d the aligned word after them, the reassembled word
      `(t >> sr) | (d << sl)` is the word at q. */
  lemma ReassembleStep(data: seq<bv8>, q: nat, k: nat, off: nat, t: bv32, d: bv32, sr: bv32, sl: bv32)
    requires 1 <= k <= 3 && off == q + k && off + 4 <= |data| && sl == ByteBits(k) && sr <= 24
    requires t >> sr == LEAt(data, q, k)
    requires d == LE32(data, off)
    ensures (t >> sr) | (d << sl) == LE32(data, q)
  {
    ReassembleWord(data, q, k);
    SameOffset(data, off, q + k, 4);
  }

  /** ... and the loaded word d, kept as the next t, holds the k bytes at
      off + align = q + 4 in its top bytes. */
  lemma CarryStep(data: seq<bv8>, off: nat, align: nat, k: nat, next: nat, d: bv32, sr: bv32)
    requires 1 <= align <= 3 && k == 4 - align && next == off + align && off + 4 <= |data|
    requires sr == ByteBits(align)
    requires d == LE32(data, off)
    ensures d >> sr == LEAt(data, next, k)
  {
    LEShiftRight(data, off, align);
    SameOffset(data, off + align, next, k);
  }

  /** What the temp register t carries into each turn: at first the
      pre-loaded bytes, afterwards the previous aligned word, whose top k
      bytes are those at q. */
  lemma Carried(data: seq<bv8>, t0: bv32, t: bv32, off: nat, q: nat, align: nat, k: nat, sr: bv32, prev: nat)
    requires 1 <= align <= 3 && k == 4 - align && sr == ByteBits(align) && off == q + k && off <= |data|
    requires Preloaded(data, t0, sr, k)
    requires q == 0 ==> t == t0
    requires 0 < q ==> prev + 4 == off && t == LE32(data, prev)
    ensures t >> sr == LEAt(data, q, k)
  {
    if 0 < q {
      CarryStep(data, prev, align, k, q, t, sr);
    }
  }

  /** The word fold advanced by one word, the word at q = 4n. */
  lemma MixWordsNext(h0: bv32, data: seq<bv8>, n: nat, q: nat)
    requires q == 4 * n && q + 4 <= |data|
    ensures MixWords(h0, data, n + 1) == Mix(MixWords(h0, data, n), LE32(data, q))
  {
  }

  /** The reconstruction of a whole word from the k bytes at q and the
      loaded word after them (the bytes of that word past the register
      fall off the top). */
  lemma ReassembleWord(data: seq<bv8>, q: nat, k: nat)
    requires 1 <= k <= 3 && q + k + 4 <= |data|
    ensures LEAt(data, q, k) | (LE32(data, q + k) << ByteBits(k)) == LE32(data, q)
  {
    if k == 1 {
      LEConcat(data, q, 1, 4);
      LETruncate(data, q, 5);
    } else if k == 2 {
      LEConcat(data, q, 2, 4);
      LETruncate(data, q, 6);
    } else {
      LEConcat(data, q, 3, 4);
      LETruncate(data, q, 7);
    }
  }

  /** The last reconstruction: the k bytes held in t, below the `more`
      leftover bytes packed into d, give the k + more bytes from q on. */
  lemma ReassemblePart(data: seq<bv8>, q: nat, k: nat, off: nat, more: nat, n: nat, x: bv32, d: bv32, sl: bv32)
    requires 1 <= k <= 3 && off == q + k && n == k + more && off + more <= |data| && sl == ByteBits(k)
    requires x == LEAt(data, q, k) && d == LEAt(data, off, more)
    ensures x | (d << sl) == LEAt(data, q, n)
  {
    LEConcat(data, q, k, more);
    SameOffset(data, q + k, off, more);
  }

  /** Windows named by equal offsets are the same window. */
  lemma SameOffset(data: seq<bv8>, a: nat, b: nat, n: nat)
    requires a == b && b + n <= |data|
    ensures LEAt(data, a, n) == LEAt(data, b, n)
  {
  }

  /** Bytes at disjoint bit positions: adding them is or-ing them. */
  lemma SumIsOr(b0: bv8, b1: bv8, b2: bv8)
    ensures ((b2 as bv32) << 16) + ((b1 as bv32) << 8) + (b0 as bv32)
         == (b0 as bv32) | ((b1 as bv32) << 8) | ((b2 as bv32) << 16)
  {
  }

  /** A length of 4w + r bytes, r < 4, holds w whole words. */
  lemma WordCount(n: nat, w: nat, r: nat)
    requires n == 4 * w + r && r < 4
    ensures n / 4 == w
  {
  }

  /** A value of k bytes survives a left then right shift by the other
      4 - k bytes. */
  lemma ShiftBack(x: bv32, n: bv32, k: nat)
    requires 1 <= k <= 3 && n == ByteBits(4 - k) && x < (1 as bv32) << ByteBits(k)
    ensures (x << n) >> n == x
  {
  }
}
