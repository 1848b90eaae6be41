# MurmurHash1 family and bit-pattern validators, in Dafny

This project models two parts of the MurmurHash1 repository and proves properties of the models.

The first part is the hash functions of `MurmurHash1.cpp`:

- **MurmurHash1** mixes a 32-bit accumulator seeded with `seed ^ (len * m)`.
  - It absorbs the buffer one little-endian word at a time.
  - It folds in a 1-3 byte tail.
  - It finishes with two multiply/xor-shift rounds.
- **MurmurHash1Aligned** computes the same digest, but it only issues aligned loads.
  - It pre-loads the bytes before the first aligned address into a temp register.
  - It reassembles every word of the buffer from two aligned words.
  - It packs the leftover bytes into the last reassembled word.
- **MurmurHash11** keeps a 64-bit context, viewed as two 32-bit halves `lo` and `hi`.
  - It mixes with 64-bit products of whitened halves.
  - Inputs of up to 16 bytes take one of four short paths.
  - Longer inputs run four lanes over 32-byte blocks, then a 24/16/8/4-byte cascade, then one overlapping load of the last four bytes.
  - The final mix is keyed on the original length.

The second part is the four validator predicates of `PythonApplication1/PythonApplication1.py`: `is_prime`, `has_consecutive_ones_or_zeros`, `has_unique_hex_digits` and `has_no_same_siblings`.

Files:

- `little_endian.dfy` (module `LittleEndian`) decodes byte windows as the little-endian words a native `uint32_t` load produces.
- `murmur1.dfy` (module `Murmur1`) holds:
  - the specification function `Hash1`;
  - the methods `MurmurHash1` and `MurmurHash1Aligned`, both proved to return it;
  - the lemmas about the aligned reassembly.
- `murmur11.dfy` (module `Murmur11`) holds:
  - the context `Ctx(lo, hi)`, with `Val`/`FromVal` as the 64-bit view;
  - the mixing steps `Murmix1` and `Murmix2`;
  - the specification `Hash11`;
  - the method `MurmurHash11`, proved to return it.
- `validators.dfy` (module `Validators`) holds each Python predicate as a method with its loop. Each method is proved equivalent to a declarative definition, and lemmas relate those definitions.

Buffers are `seq<bv8>`. The start-address alignment of `MurmurHash1Aligned` is the parameter `align`, which is the value of `(uint64_t)data & 3`. Python integers are unbounded and may be negative. For positive divisors, Dafny's Euclidean `%` and `/` coincide with Python's `& (2^k - 1)` masks and `>>` shifts, so the model writes those operations as `%` and `/`.

Two details of MurmurHash11's long path:

- The block loop xors its four lanes together once, after the loop.
- The 1-3 bytes left after the cascade are read by one 4-byte load that reaches back into bytes already consumed (`_wyr4_shift` at line 146, see `TailReadsLastWord`).

How MurmurHash1Aligned handles its leftover bytes:

- When at least `align` bytes follow the aligned loop, the packed word is a whole word of the buffer. The 0-3 bytes after it are the same tail MurmurHash1 sees (`LastWholeWord`).
- When fewer than `align` bytes follow the loop, all of them are packed into the last word and the tail switch sees none. MurmurHash1 mixes those same bytes as its 1-3 byte tail instead. The digests still agree, because mixing the partial word is exactly MurmurHash1's tail step (`LastPartialWord`).

## Model

| member | source | states |
|---|---|---|
| `Murmur1.MurmurHash1` | MurmurHash1.cpp:157-204 | returns `Hash1`: start from `seed ^ (len * m)`, mix every whole little-endian word in order, mix the 1-3 byte tail as one word when present, then the two finalisation rounds (shifts 10 and 17) |
| `Murmur1.MixWordLoop` | MurmurHash1.cpp:170-180 | the word loop consumes exactly `4 * (len / 4)` bytes, leaves 0-3, and its accumulator is the in-order fold of `Mix` over those words |
| `Murmur1.MixTailBytes` | MurmurHash1.cpp:184-194 | the fall-through sum of the remaining bytes is their little-endian value, and the mixing step runs exactly when at least one byte remains |
| `Murmur1.TailWordBelow24` | MurmurHash1.cpp:186-191 | the word built from a 1-3 byte tail is below 2^24 |
| `Murmur1.MixWordsReadsPrefix` | MurmurHash1.cpp:170-180 | folding n words reads only the first 4n bytes: buffers that agree on them give the same accumulator |
| `Murmur1.SameWindow` | MurmurHash1.cpp:172 | a word load depends only on the bytes of its window |
| `Murmur1.MurmurHash1Aligned` | MurmurHash1.cpp:215-323 | for every buffer, seed and start alignment 0..3 it returns `Hash1`, the digest of MurmurHash1 |
| `Murmur1.AlignedAgreesWithSimple` | MurmurHash1.cpp:157-323 | the simple and the aligned function return the same digest on every input |
| `Murmur1.AlignedReads` | MurmurHash1.cpp:227-288 | the unaligned-start branch leaves 0-3 bytes, and mixing them as a tail yields the same state as MurmurHash1's word fold followed by its tail |
| `Murmur1.PreloadTemp` | MurmurHash1.cpp:231-243 | after the pre-load and `t <<= 8 * align`, `t >> sr` is the little-endian value of the first `4 - align` bytes |
| `Murmur1.AlignedWordLoop` | MurmurHash1.cpp:245-264 | every load is at an aligned address (`align + off` a multiple of 4); the accumulator is MurmurHash1's fold over the words before the last load; `t` holds the last aligned word |
| `Murmur1.AlignedStep` | MurmurHash1.cpp:254-260 | one turn mixes in exactly the next word of the buffer, reassembled as `(t >> sr) \| (d << sl)`, and carries `d` forward as `t` |
| `Murmur1.ReassembleStep` | MurmurHash1.cpp:255-256 | `(t >> sr) \| (d << sl)` equals the unaligned little-endian word at `off - (4 - align)` |
| `Murmur1.CarryStep` | MurmurHash1.cpp:255-260 | the carried aligned word, shifted right by `sr`, holds the `4 - align` bytes that start the next word |
| `Murmur1.Carried` | MurmurHash1.cpp:243-260 | on each turn, `t >> sr` holds the first `4 - align` bytes of the word being reassembled: the pre-loaded bytes on the first turn, the top of the previous aligned word afterwards |
| `Murmur1.PackLeftover` | MurmurHash1.cpp:266-287 | with `pack = min(len, align)`, the leftover step leaves 0-3 bytes, and mixing them completes the same state as MurmurHash1's fold and tail |
| `Murmur1.PackBytes` | MurmurHash1.cpp:270-279 | the leftover switch builds the little-endian value of the `pack` bytes |
| `Murmur1.MixPacked` | MurmurHash1.cpp:281-283 | the packed word is the little-endian value of the `4 - align + pack` bytes where the last reassembled word starts |
| `Murmur1.ReassemblePart` | MurmurHash1.cpp:281 | the carried bytes below the packed bytes form the window of both together |
| `Murmur1.LastWholeWord` | MurmurHash1.cpp:268-287 | when `len >= align`, the packed word is the next whole word of MurmurHash1's fold, and the remaining bytes are its tail |
| `Murmur1.LastPartialWord` | MurmurHash1.cpp:268-287 | when `len < align`, the packed word is MurmurHash1's whole tail, mixed by the same step |
| `Murmur1.EmptyInput` | MurmurHash1.cpp:164-201 | for an empty buffer `len * m` is 0 and no word or tail is mixed, so the digest is the two finalisation rounds applied to the seed |
| `Murmur1.MixWordsNext` | MurmurHash1.cpp:170-180 | the fold over n + 1 words is the fold over n words, then one mix of the word at 4n |
| `Murmur11.MurmurHash11` | MurmurHash1.cpp:39-152 | returns `Hash11`: the short path for its length class, or the block loop, cascade, tail and length-keyed final mix; the result is `hi ^ lo` |
| `Murmur11.ShortInput` | MurmurHash1.cpp:52-87 | for up to 16 bytes: 0 bytes mix only the empty key; 1-3 bytes are gathered by `_wyr4`; 4-8 bytes use the first and the last word; 9-12 and 13-16 bytes use two lanes xor-ed together; then the mix keyed on the length |
| `Murmur11.LongInput` | MurmurHash1.cpp:88-151 | for more than 16 bytes: the state is the whole blocks, then the cascade, then the tail, then the mix keyed on the original length |
| `Murmur11.EmptyInput` | MurmurHash1.cpp:52-65 | an empty input reads no data: the digest is the seed mixed once under `c2`, `c4` with a zero word |
| `Murmur11.BlockLoop` | MurmurHash1.cpp:88-107 | the loop consumes exactly `32 * (len / 32)` bytes; the lanes advance one block per turn; at the end `seed` is `seed ^ see1 ^ see2 ^ see3` of the lanes after all whole blocks |
| `Murmur11.Cascade` | MurmurHash1.cpp:108-142 | the 24/16/8-byte step takes the largest band that fits, then the 4-byte step runs when 4 bytes remain |
| `Murmur11.Stride` | MurmurHash1.cpp:108-136 | the band step consumes 0, 8, 16 or 24 bytes and leaves fewer than 8 |
| `Murmur11.Single` | MurmurHash1.cpp:137-142 | the 4-byte step consumes 0 or 4 bytes and leaves fewer than 4 |
| `Murmur11.CascadeLeaves` | MurmurHash1.cpp:108-142 | after the cascade, started after the whole blocks, a multiple of 4 bytes has been consumed and the bytes left number `len % 4` |
| `Murmur11.TailReadsLastWord` | MurmurHash1.cpp:144-147 | the tail load happens only when 1-3 bytes are left and reads exactly the last four bytes of the input; with none left, the state is unchanged |
| `Murmur11.LastWord` | MurmurHash1.cpp:27-32 | `_wyr4_shift` at `len - 4` from the position of the 1-3 leftover bytes is the load of the last four bytes |
| `Murmur11.Wyr4` | MurmurHash1.cpp:20-25 | byte 0 lands in bits 16-23, byte `k >> 1` in bits 8-15 and byte `k - 1` in bits 0-7 |
| `Murmur11.Wyr4Determines` | MurmurHash1.cpp:20-25 | `_wyr4` reads all of its k = 1..3 bytes and no others: two buffers give the same word if and only if their first k bytes agree |
| `Murmur11.FromVal` | MurmurHash1.cpp:34-37 | writing `val` and reading back the halves, the 64-bit value is the low half `lo` or-ed with `hi << 32` |
| `Murmur11.FromValOfVal` | MurmurHash1.cpp:34-37 | the halves are recovered from the 64-bit value, so the two views are one state |
| `Murmur11.Xor` | MurmurHash1.cpp:106 | `seed.val ^= ...` on the 64-bit view is the xor of the matching halves |
| `Murmur11.DigestOfVal` | MurmurHash1.cpp:151 | the result `hi ^ lo` is the xor of the upper and lower 32 bits of the final 64-bit value |
| `Validators.IsPrime` | PythonApplication1/PythonApplication1.py:5-11 | returns true if and only if `num >= 2` and no `i` with `2 <= i` and `i * i <= num` divides `num` |
| `Validators.PrimeByRoot` | PythonApplication1/PythonApplication1.py:5-11 | trial division up to the square root decides primality: `num >= 2` with no divisor up to the root holds exactly when `num` has no divisor in `2 .. num - 1` |
| `Validators.CoFactor` | PythonApplication1/PythonApplication1.py:8-10 | a divisor above the square root has a co-divisor at or below it, which is why the loop can stop at the root |
| `Validators.HasConsecutiveOnesOrZeros` | PythonApplication1/PythonApplication1.py:13-30 | returns true if and only if four equal bits in a row occur among bits 0..64 (two's complement for negative `num`) |
| `Validators.RunOfFour` | PythonApplication1/PythonApplication1.py:19-24 | the run counter reaches four exactly when the last four bits scanned are equal, and cannot reach four before bit 3 |
| `Validators.RunLength` | PythonApplication1/PythonApplication1.py:15-27 | the run counter is at least 1 and at most the number of bits scanned |
| `Validators.Digits` | PythonApplication1/PythonApplication1.py:35-40 | every digit peeled off by mask-and-shift is below the radix |
| `Validators.DistinctDigits` | PythonApplication1/PythonApplication1.py:34-41 | with the set of seen digits, the scan returns false exactly when some digit repeats, and true when all are distinct |
| `Validators.FreshDigitsDistinct` | PythonApplication1/PythonApplication1.py:34-41 | what the scan still has to confirm, given the digits already seen, is that the remaining digits are distinct and none of them was seen |
| `Validators.HasUniqueHexDigits` | PythonApplication1/PythonApplication1.py:32-41 | as written: returns false if and only if two of `num`'s 5-bit groups are equal; true for `num <= 0` |
| `Validators.HasUniqueHexDigitsIntended` | PythonApplication1/PythonApplication1.py:32-41 | as the comments describe: returns false if and only if two hex digits of `num` are equal; true for `num <= 0` |
| `Validators.HexDigitsAsWrittenDiffer` | PythonApplication1/PythonApplication1.py:36-40 | the 5-bit reading and the hex-digit reading disagree in both directions |
| `Validators.HasNoSameSiblings` | PythonApplication1/PythonApplication1.py:43-54 | returns false if and only if two adjacent hex digits are equal, scanning from the lowest digit up to the highest nonzero one |
| `Validators.SingleDigitNoSiblings` | PythonApplication1/PythonApplication1.py:46-48 | any `num < 16`, negative ones included, has no equal siblings |
| `Validators.DistinctDigitsNoSiblings` | PythonApplication1/PythonApplication1.py:32-54 | for positive `num`, unique hex digits imply no two equal siblings |

## Left out

- Pointers and memory are not modelled. A buffer is a `seq<bv8>`, and the alignment of its start address is the parameter `align`.
- Big-endian hosts are left out. Every native `uint32_t` load is modelled as a little-endian decode, which is what the functions compute on the hosts they are written for.
- The `MURMUR11_CTX` union is declared in `MurmurHash1.h`, which is not part of this model. The model fixes `lo` as the low and `hi` as the high 32 bits of `val`, which is the layout on a little-endian host.
- The `int len` parameter is modelled as a length of at most 2^31 - 1 bytes (`MaxLen`). Negative lengths are outside the model.
- The constant `c5` of MurmurHash11 is never used by the source and is omitted.
- `MurmurHash1Aligned` and `MurmurHash11` are split into helper methods. `MurmurHash11` has two: `ShortInput` for inputs of up to 16 bytes and `LongInput` for longer ones. The `do ... while` block loop is written as a `while` loop: it is entered only when `len >= 32`, so the two agree.
- `Murmur1.MixTailBytes`: the source's tail switch adds each byte straight into `h` (lines 186-191 and 308-312). The model sums the bytes into a separate word `k` first and then runs `Mix(h, k)`. Both give the same value mod 2^32, but the model does not follow the order of the individual additions.
- `generate_prime_numbers` and the module-level script are left out. They depend on `random.getrandbits`, `sympy.ntheory.nextprime` and `print`.
- `Validators.IsPrime`: the bound `int(num**0.5)` is modelled as the exact integer square root (`i * i <= num`). Floating-point rounding of the square root for very large `num` is not captured.
- `Validators.HasNoSameSiblings`: the set `seen_digits` that the source creates but never uses is omitted.

## Findings

| source | as written | input that shows it | evidently intended | confidence | as-written member | corrected member |
|---|---|---|---|---|---|---|
| PythonApplication1/PythonApplication1.py:36-40 | Python's `&` binds more loosely than `+`, so the mask is `0xF + 16 = 0x1F`. The shift is by 5. The loop therefore compares 5-bit groups, not hex digits. | `0x11`, whose hex digits are 1 and 1, is reported unique. `0x21`, whose hex digits are 2 and 1, is reported not unique. | mask `0xF` and shift by 4, which checks that all hex digits are unique, as the comments say | high; not executed | `Validators.HasUniqueHexDigits`, `Validators.HexDigitsAsWrittenDiffer` | `Validators.HasUniqueHexDigitsIntended` |
