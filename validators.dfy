/** The bit-pattern validators used to screen candidate 64-bit constants.

    The operands are unbounded integers that may be negative. Taking the
    lowest k bits with `& (2^k - 1)` is `% 2^k`, and shifting right by k
    bits is floor division by 2^k. With positive divisors Dafny's Euclidean
    `%` and `/` are exactly these, so `x % 2^k` and `x / 2^k` below are the
    masks and shifts for negative operands too. */
module Validators {

  // ---------------------------------------------------------------------
  // is_prime (PythonApplication1.py, lines 5-11).

  predicate Divides(d: int, n: int)
    requires d != 0
  {
    n % d == 0
  }

  /** No candidate divisor d with 2 <= d and d * d <= n divides n. */
  ghost predicate NoDivisorUpToRoot(n: int)
  {
    forall d :: 2 <= d && d * d <= n ==> !Divides(d, n)
  }

  /** The textbook definition: n >= 2 and no divisor strictly between 1
      and n. */
  ghost predicate Prime(n: int)
  {
    n >= 2 && forall d :: 2 <= d < n ==> !Divides(d, n)
  }

  /** is_prime: trial division by 2, 3, ... up to the integer square root.
      The bound is written `i * i <= num`, the integer reading of the
      `range` up to the truncated square root. */
  method IsPrime(num: int) returns (b: bool)
    ensures b <==> num >= 2 && NoDivisorUpToRoot(num)
  {
    if num < 2 {
      return false;
    }
    var i := 2;
    while i * i <= num
      invariant 2 <= i
      invariant forall d :: 2 <= d < i ==> !Divides(d, num)
      decreases num - i
    {
      if num % i == 0 {
        assert Divides(i, num);
        return false;
      }
      i := i + 1;
    }
    forall d | 2 <= d && d * d <= num
      ensures !Divides(d, num)
    {
      if d >= i {
        SquareMonotone(i, d);
      }
    }
    return true;
  }

  /** Trial division up to the square root decides primality. */
  lemma PrimeByRoot(n: int)
    ensures n >= 2 && NoDivisorUpToRoot(n) <==> Prime(n)
  {
    if Prime(n) {
      forall d | 2 <= d && d * d <= n
        ensures !Divides(d, n)
      {
        SquareMonotone(2, d);
        assert d < d * d;
      }
    }
    if n >= 2 && NoDivisorUpToRoot(n) {
      forall d | 2 <= d < n
        ensures !Divides(d, n)
      {
        if Divides(d, n) && d * d > n {
          CoFactor(d, n);
        }
      }
    }
  }

  /** A divisor d above the square root has a co-divisor below it. */
  lemma CoFactor(d: int, n: int)
    requires 2 <= d < n && Divides(d, n) && d * d > n
    ensures var e := n / d; 2 <= e && e * e <= n && Divides(e, n)
  {
    var e := n / d;
    assert n == d * e;
    assert 2 <= e by {
      if e <= 1 {
        MulMonotone(e, 1, d);
      }
    }
    assert e < d by {
      if e >= d {
        MulMonotone(d, e, d);
      }
    }
    MulMonotone(e, d, e);
    MultipleMod(e, d);
  }

  lemma MulMonotone(a: int, b: int, c: int)
    requires a <= b && 0 <= c
    ensures a * c <= b * c
  {
    assert b * c - a * c == (b - a) * c;
  }

  /** A multiple of e leaves no remainder on division by e. */
  lemma MultipleMod(e: int, d: int)
    requires 0 < e
    ensures (e * d) % e == 0
  {
    var q, r := (e * d) / e, (e * d) % e;
    assert r == e * (d - q);
    if d - q >= 1 {
      MulMonotone(1, d - q, e);
    } else if d - q <= -1 {
      MulMonotone(d - q, -1, e);
    }
  }

  lemma SquareMonotone(a: int, b: int)
    requires 0 <= a <= b
    ensures a * a <= b * b
  {
    assert a * a <= a * b;
    assert a * b <= b * b;
  }

  // ---------------------------------------------------------------------
  // has_consecutive_ones_or_zeros (lines 13-30).

  /** x shifted right by i bits. */
  function Shr(x: int, i: nat): (r: int)
  {
    if i == 0 then x else Shr(x, i - 1) / 2
  }

  /** Bit i of x, in two's complement for negative x. */
  function Bit(x: int, i: nat): (r: int)
  {
    Shr(x, i) % 2
  }

  /** Bits j - 3 .. j of x are all equal: a run of four ends at bit j. */
  predicate FourEqualEndingAt(x: int, j: nat)
    requires 3 <= j
  {
    Bit(x, j - 3) == Bit(x, j - 2) && Bit(x, j - 2) == Bit(x, j - 1) && Bit(x, j - 1) == Bit(x, j)
  }

  /** Some run of four or more equal bits lies within bits 0..64. */
  predicate HasRunOfFour(x: int)
  {
    exists j :: 3 <= j <= 64 && FourEqualEndingAt(x, j)
  }

  /** The length of the run of equal bits that ends at bit j. */
  function RunLength(x: int, j: nat): (r: nat)
    ensures 1 <= r <= j + 1
  {
    if j == 0 then 1 else if Bit(x, j) == Bit(x, j - 1) then RunLength(x, j - 1) + 1 else 1
  }

  /** has_consecutive_ones_or_zeros: scan bit 0 and then 64 more bits,
      counting the current run of equal bits, and report as soon as the
      run exceeds three. */
  method HasConsecutiveOnesOrZeros(num: int) returns (b: bool)
    ensures b <==> HasRunOfFour(num)
  {
    var count := 1;
    var prevBit := num % 2;
    var n := num / 2;
    var c := 1;
    while c <= 64
      invariant 1 <= c <= 65
      invariant n == Shr(num, c)
      invariant prevBit == Bit(num, c - 1)
      invariant 1 <= count <= 3 && count == RunLength(num, c - 1)
      invariant forall j :: 3 <= j < c ==> !FourEqualEndingAt(num, j)
    {
      var curBit := n % 2;
      if curBit == prevBit {
        count := count + 1;
        if count > 3 {
          RunOfFour(num, c);
          return true;
        }
      } else {
        count := 1;
        prevBit := curBit;
      }
      RunOfFour(num, c);
      n := n / 2;
      c := c + 1;
    }
    return false;
  }

  /** A run reaches four bits exactly when the last four bits are equal. */
  lemma RunOfFour(x: int, j: nat)
    ensures 3 <= j ==> (RunLength(x, j) >= 4 <==> FourEqualEndingAt(x, j))
    ensures j < 3 ==> RunLength(x, j) < 4
  {
    if 3 <= j {
      assert RunLength(x, j) >= 4 <==> Bit(x, j) == Bit(x, j - 1) && RunLength(x, j - 1) >= 3;
      assert RunLength(x, j - 1) >= 3 <==> Bit(x, j - 1) == Bit(x, j - 2) && RunLength(x, j - 2) >= 2;
      assert RunLength(x, j - 2) >= 2 <==> Bit(x, j - 2) == Bit(x, j - 3);
    }
  }

  // ---------------------------------------------------------------------
  // has_unique_hex_digits (lines 32-41).

  /** The digits of x in base radix, least significant first, while x is
      positive: the values seen by a loop that masks the low digit off and
      shifts it out until nothing is left. */
  function Digits(x: int, radix: int): (r: seq<int>)
    requires radix >= 2
    ensures forall i :: 0 <= i < |r| ==> 0 <= r[i] < radix
    decreases if x > 0 then x else 0
  {
    if x <= 0 then [] else DivShrinks(x, radix); [x % radix] + Digits(x / radix, radix)
  }

  predicate Distinct(s: seq<int>)
  {
    forall i, j :: 0 <= i < j < |s| ==> s[i] != s[j]
  }

  /** The digits of x are distinct and none of them is in seen: what is
      left for the scan to confirm once it has collected the set seen. */
  predicate FreshDigits(seen: set<int>, x: int, radix: int)
    requires radix >= 2
    decreases if x > 0 then x else 0
  {
    x <= 0 ||
    (DivShrinks(x, radix);
     x % radix !in seen && FreshDigits(seen + {x % radix}, x / radix, radix))
  }

  /** The scanning loop of has_unique_hex_digits over digits of the given
      radix: each digit is looked up in, then added to, the set of digits
      already seen. */
  method DistinctDigits(num: int, radix: int) returns (b: bool)
    requires radix >= 2
    ensures b <==> Distinct(Digits(num, radix))
  {
    FreshDigitsDistinct({}, num, radix);
    var seen: set<int> := {};
    var n := num;
    while n > 0
      invariant FreshDigits(seen, n, radix) == FreshDigits({}, num, radix)
      decreases n
    {
      var digit := n % radix;
      if digit in seen {
        return false;
      }
      seen := seen + {digit};
      DivShrinks(n, radix);
      n := n / radix;
    }
    return true;
  }

  /** No element of s is in the set seen. */
  predicate Avoids(s: seq<int>, seen: set<int>)
  {
    forall i :: 0 <= i < |s| ==> s[i] !in seen
  }

  /** The scan's predicate is distinctness of the digits together with
      their absence from the set already seen. */
  lemma {:induction false} FreshDigitsDistinct(seen: set<int>, x: int, radix: int)
    requires radix >= 2
    ensures FreshDigits(seen, x, radix) <==> Distinct(Digits(x, radix)) && Avoids(Digits(x, radix), seen)
    decreases if x > 0 then x else 0
  {
    if x > 0 {
      DivShrinks(x, radix);
      var d, rest := x % radix, Digits(x / radix, radix);
      FreshDigitsDistinct(seen + {d}, x / radix, radix);
      assert Digits(x, radix) == [d] + rest;
      DistinctCons(d, rest);
      AvoidsCons(d, rest, seen);
    }
  }

  /** How a head element and a newly seen value split the Avoids test. */
  lemma AvoidsCons(d: int, rest: seq<int>, seen: set<int>)
    ensures Avoids([d] + rest, seen) <==> d !in seen && Avoids(rest, seen)
    ensures Avoids(rest, seen + {d}) <==> Avoids(rest, seen) && d !in rest
  {
    var s := [d] + rest;
    if d !in seen && Avoids(rest, seen) {
      forall i | 0 <= i < |s|
        ensures s[i] !in seen
      {
        if i > 0 {
          assert s[i] == rest[i - 1];
        }
      }
    }
    if Avoids(s, seen) {
      assert s[0] == d;
      forall i | 0 <= i < |rest|
        ensures rest[i] !in seen
      {
        assert s[i + 1] == rest[i];
      }
    }
  }

  /** A sequence with a head is distinct exactly when its tail is and the
      head does not occur in the tail. */
  lemma DistinctCons(d: int, rest: seq<int>)
    ensures Distinct([d] + rest) <==> Distinct(rest) && d !in rest
  {
    var s := [d] + rest;
    if Distinct(rest) && d !in rest {
      forall i, j | 0 <= i < j < |s|
        ensures s[i] != s[j]
      {
        if i > 0 {
          assert s[i] == rest[i - 1] && s[j] == rest[j - 1];
        } else {
          assert s[j] == rest[j - 1];
        }
      }
    }
    if Distinct(s) {
      forall i, j | 0 <= i < j < |rest|
        ensures rest[i] != rest[j]
      {
        assert s[i + 1] == rest[i] && s[j + 1] == rest[j];
      }
      forall k | 0 <= k < |rest|
        ensures rest[k] != d
      {
        assert s[0] == d && s[k + 1] == rest[k];
      }
    }
  }

  /** Shifting a positive number one digit to the right makes it smaller. */
  lemma DivShrinks(n: int, radix: int)
    requires n > 0 && radix >= 2
    ensures 0 <= n / radix < n
  {
    var q, r := n / radix, n % radix;
    assert n == radix * q + r && 0 <= r < radix;
    if q < 0 {
      MulMonotone(q, -1, radix);
      assert false;
    }
    if q >= n {
      MulMonotone(2, radix, q);
      assert false;
    }
  }

  /** has_unique_hex_digits as written. Python's `&` binds more loosely
      than `+`, so the mask is 0xF + 16 = 0x1F, and the shift is by 5: the
      loop compares 5-bit groups, not hex digits. */
  method HasUniqueHexDigits(num: int) returns (b: bool)
    ensures b <==> Distinct(Digits(num, 32))
    ensures num <= 0 ==> b
  {
    b := DistinctDigits(num, 32);
  }

  /** has_unique_hex_digits as its comments describe it: mask 0xF, shift
      by 4. */
  method HasUniqueHexDigitsIntended(num: int) returns (b: bool)
    ensures b <==> Distinct(Digits(num, 16))
    ensures num <= 0 ==> b
  {
    b := DistinctDigits(num, 16);
  }

  /** The two readings disagree in both directions: 0x11 has the repeated
      hex digit 1 but a single 5-bit group, and 0x21 has distinct hex
      digits 1 and 2 but two 5-bit groups equal to 1. */
  lemma HexDigitsAsWrittenDiffer()
    ensures Distinct(Digits(0x11, 32)) && !Distinct(Digits(0x11, 16))
    ensures !Distinct(Digits(0x21, 32)) && Distinct(Digits(0x21, 16))
  {
    assert Digits(0x11, 32) == [0x11];
    assert Digits(0x11, 16) == [1, 1];
    assert Digits(0x11, 16)[0] == Digits(0x11, 16)[1];
    assert Digits(0x21, 32) == [1, 1];
    assert Digits(0x21, 32)[0] == Digits(0x21, 32)[1];
    assert Digits(0x21, 16) == [1, 2];
  }

  // ---------------------------------------------------------------------
  // has_no_same_siblings (lines 43-54).

  /** The hex digits has_no_same_siblings compares: the lowest one always,
      then each further one while the shifted number stays positive. */
  function Siblings(num: int): (r: seq<int>)
  {
    [num % 16] + Digits(num / 16, 16)
  }

  predicate NoAdjacentEqual(s: seq<int>)
  {
    forall i :: 0 <= i < |s| - 1 ==> s[i] != s[i + 1]
  }

  /** has_no_same_siblings: compare every hex digit with the one below it.
      The source also creates a set of seen digits that it never uses;
      the model leaves it out. */
  method HasNoSameSiblings(num: int) returns (b: bool)
    ensures b <==> NoAdjacentEqual(Siblings(num))
  {
    var prevDigit := num % 16;
    var n := num / 16;
    ghost var done := [prevDigit];
    while n > 0
      invariant Siblings(num) == done + Digits(n, 16)
      invariant |done| >= 1 && prevDigit == done[|done| - 1]
      invariant NoAdjacentEqual(done)
      decreases if n > 0 then n else 0
    {
      var digit := n % 16;
      if digit == prevDigit {
        assert Siblings(num)[|done| - 1] == Siblings(num)[|done|];
        return false;
      }
      prevDigit := digit;
      done := done + [digit];
      n := n / 16;
    }
    return true;
  }

  /** A number below 16, negative ones included, has a single digit to
      compare and so no equal siblings. */
  lemma SingleDigitNoSiblings(num: int)
    requires num < 16
    ensures NoAdjacentEqual(Siblings(num))
  {
    assert Digits(num / 16, 16) == [];
  }

  /** For a positive number the siblings are exactly its hex digits, so
      distinct hex digits (the intended has_unique_hex_digits) imply no two
      equal siblings. */
  lemma DistinctDigitsNoSiblings(num: int)
    requires num > 0 && Distinct(Digits(num, 16))
    ensures NoAdjacentEqual(Siblings(num))
  {
    assert Siblings(num) == Digits(num, 16);
  }
}
