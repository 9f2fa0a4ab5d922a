/** The fast integer printer: a digit count from a bit count, and digits written
    two at a time from the back. */
module Itoa {
  import opened Text

  const POWERS32: seq<nat> :=
    [0, 10, 100, 1000, 10000, 100000, 1000000, 10000000, 100000000, 1000000000]

  const POWERS64: seq<nat> :=
    [0, 10, 100, 1000, 10000, 100000, 1000000, 10000000, 100000000, 1000000000,
     10000000000, 100000000000, 1000000000000, 10000000000000, 100000000000000,
     1000000000000000, 10000000000000000, 100000000000000000, 1000000000000000000,
     10000000000000000000]

  function Pow2(k: nat): (p: nat)
    ensures p > 0
  {
    if k == 0 then 1 else 2 * Pow2(k - 1)
  }

  lemma {:induction false} Pow2Grows(a: nat, b: nat)
    requires a <= b
    ensures Pow2(a) <= Pow2(b)
    decreases b
  {
    if a < b {
      Pow2Grows(a, b - 1);
    }
  }

  /** The number of bits of a positive number: the word size less its leading zeros. */
  function BitLength(n: nat): (b: nat)
    requires n > 0
    ensures b > 0
  {
    if n == 1 then 1 else 1 + BitLength(n / 2)
  }

  lemma {:induction false} BitLengthBounds(n: nat)
    requires n > 0
    ensures Pow2(BitLength(n) - 1) <= n < Pow2(BitLength(n))
  {
    if n == 1 {
      assert Pow2(1) == 2;
    } else {
      BitLengthBounds(n / 2);
      var b := BitLength(n / 2);
      assert Pow2(b) == 2 * Pow2(b - 1);
      assert Pow2(b + 1) == 2 * Pow2(b);
    }
  }

  const SIZE32 := 0x1_0000_0000
  const SIZE64 := 0x1_0000_0000_0000_0000

  /** n | 1 */
  function OrOne(n: nat): nat { if n % 2 == 0 then n + 1 else n }

  /** The index into the table of powers: 1233 / 4096 is close to log10(2). */
  function Guess(n: nat): nat { BitLength(OrOne(n)) * 1233 / 4096 }

  lemma {:induction false} BitsAtMost(n: nat, k: nat)
    requires 0 < n < Pow2(k)
    ensures BitLength(n) <= k
  {
    BitLengthBounds(n);
    if BitLength(n) > k {
      Pow2Grows(k, BitLength(n) - 1);
    }
  }

  lemma OrOneBits(n: nat, k: nat)
    requires k > 0 && n < Pow2(k)
    ensures BitLength(OrOne(n)) <= k
  {
    assert Pow2(k) == 2 * Pow2(k - 1);
    assert OrOne(n) < Pow2(k);
    BitsAtMost(OrOne(n), k);
  }

  /** The guess is a valid index into the table of its width. */
  lemma GuessInTable(n: nat)
    ensures n < SIZE32 ==> Guess(n) < |POWERS32|
    ensures n < SIZE64 ==> Guess(n) < |POWERS64| && BitLength(OrOne(n)) <= 64
  {
    Pow2Low();
    Pow2High();
    if n < SIZE32 {
      OrOneBits(n, 32);
    }
    if n < SIZE64 {
      OrOneBits(n, 64);
    }
  }

  function CountDigits32(n: nat): nat
    requires n < SIZE32
  {
    GuessInTable(n);
    var t := Guess(n);
    if n < POWERS32[t] then t else t + 1
  }

  function CountDigits64(n: nat): nat
    requires n < SIZE64
  {
    GuessInTable(n);
    var t := Guess(n);
    if n < POWERS64[t] then t else t + 1
  }

  /** The most bits, up to 64, for which the guess is t. */
  const MOST_BITS: seq<nat> :=
    [3, 6, 9, 13, 16, 19, 23, 26, 29, 33, 36, 39, 43, 46, 49, 53, 56, 59, 63, 64]

  lemma {:induction false} Pow2Sum(a: nat, b: nat)
    ensures Pow2(a + b) == Pow2(a) * Pow2(b)
  {
    if b > 0 {
      Pow2Sum(a, b - 1);
      assert Pow2(b) == 2 * Pow2(b - 1);
      assert Pow2(a + b) == 2 * Pow2(a + (b - 1));
    }
  }

  lemma Pow2Low()
    ensures Pow2(3) == 8 && Pow2(6) == 64 && Pow2(9) == 512 && Pow2(13) == 8192
    ensures Pow2(16) == 65536 && Pow2(19) == 524288 && Pow2(23) == 8388608
    ensures Pow2(26) == 67108864 && Pow2(29) == 536870912 && Pow2(32) == 4294967296
  {
    Pow2Sum(16, 3);
    Pow2Sum(16, 7);
    Pow2Sum(16, 10);
    Pow2Sum(16, 13);
    Pow2Sum(16, 16);
  }

  lemma Pow2Middle()
    ensures Pow2(33) == 8589934592 && Pow2(36) == 68719476736 && Pow2(39) == 549755813888
    ensures Pow2(43) == 8796093022208 && Pow2(46) == 70368744177664
    ensures Pow2(48) == 281474976710656
  {
    Pow2Low();
    Pow2Sum(32, 1);
    Pow2Sum(32, 4);
    Pow2Sum(32, 7);
    Pow2Sum(32, 11);
    Pow2Sum(32, 14);
    Pow2Sum(32, 16);
  }

  lemma Pow2High()
    ensures Pow2(49) == 562949953421312 && Pow2(53) == 9007199254740992
    ensures Pow2(56) == 72057594037927936 && Pow2(59) == 576460752303423488
    ensures Pow2(63) == 9223372036854775808 && Pow2(64) == 18446744073709551616
  {
    Pow2Middle();
    Pow2Sum(48, 1);
    Pow2Sum(48, 5);
    Pow2Sum(48, 8);
    Pow2Sum(48, 11);
    Pow2Sum(48, 15);
    Pow2Sum(48, 16);
  }

  lemma PowersAre(t: nat)
    requires 0 < t < 20
    ensures POWERS64[t] == Pow10(t)
    ensures t < 10 ==> POWERS32[t] == Pow10(t)
  {
    assert Pow10(1) == 10 && Pow10(2) == 100 && Pow10(3) == 1000 && Pow10(4) == 10000;
    assert Pow10(5) == 100000 && Pow10(6) == 1000000 && Pow10(7) == 10000000;
    assert Pow10(8) == 100000000 && Pow10(9) == 1000000000 && Pow10(10) == 10000000000;
    assert Pow10(11) == 100000000000 && Pow10(12) == 1000000000000;
    assert Pow10(13) == 10000000000000 && Pow10(14) == 100000000000000;
    assert Pow10(15) == 1000000000000000 && Pow10(16) == 10000000000000000;
    assert Pow10(17) == 100000000000000000 && Pow10(18) == 1000000000000000000;
    assert Pow10(19) == 10000000000000000000;
  }

  /** With at most 2^MOST_BITS[t] a number has at most t + 1 digits. */
  lemma MostBitsAbove(t: nat)
    requires t < 20
    ensures Pow2(MOST_BITS[t]) <= Pow10(t + 1)
  {
    Pow2Low();
    Pow2Middle();
    Pow2High();
    if t < 19 {
      PowersAre(t + 1);
    } else {
      PowersAre(19);
      assert Pow10(20) == 10 * Pow10(19);
    }
  }

  /** From 2^MOST_BITS[t - 1] on it has at least t digits. */
  lemma MostBitsBelow(t: nat)
    requires 0 < t < 20
    ensures Pow10(t - 1) <= Pow2(MOST_BITS[t - 1])
  {
    Pow2Low();
    Pow2Middle();
    Pow2High();
    if t == 1 {
      assert Pow10(0) == 1;
    } else {
      PowersAre(t - 1);
    }
  }

  /** Which bit counts lead to which guess. */
  lemma GuessRange(b: nat)
    requires 0 < b <= 64
    ensures var t := b * 1233 / 4096;
            t < 20 && b <= MOST_BITS[t] && (t > 0 ==> MOST_BITS[t - 1] < b)
  {
  }

  lemma GuessUpper(n: nat, b: nat, t: nat)
    requires 0 < b <= 64 && t < 20 && b <= MOST_BITS[t] && n < Pow2(b)
    ensures n < Pow10(t + 1)
  {
    MostBitsAbove(t);
    Pow2Grows(b, MOST_BITS[t]);
  }

  lemma GuessLower(n: nat, b: nat, t: nat)
    requires 0 < t < 20 && MOST_BITS[t - 1] < b && Pow2(b - 1) <= n
    ensures Pow10(t - 1) <= n
  {
    MostBitsBelow(t);
    Pow2Grows(MOST_BITS[t - 1], b - 1);
  }

  /** A number of more than one bit has as many bits as n | 1. */
  lemma OrOneBounds(n: nat)
    ensures var b := BitLength(OrOne(n)); n < Pow2(b) && (b > 1 ==> Pow2(b - 1) <= n)
  {
    var b := BitLength(OrOne(n));
    BitLengthBounds(OrOne(n));
    if b > 1 {
      assert Pow2(b - 1) == 2 * Pow2(b - 2);
    }
  }

  /** n has as many digits as the guess, or one more. */
  lemma GuessClose(n: nat, b: nat, t: nat)
    requires b == BitLength(OrOne(n)) && b <= 64 && t == b * 1233 / 4096
    ensures t < 20 && n < Pow10(t + 1) && (t > 0 ==> Pow10(t - 1) <= n)
  {
    GuessRange(b);
    OrOneBounds(n);
    GuessUpper(n, b, t);
    if t > 0 {
      GuessLower(n, b, t);
    }
  }

  /** The bit trick counts the decimal digits of every 64-bit number exactly. */
  lemma CountDigitsExact64(n: nat)
    requires n < SIZE64
    ensures CountDigits64(n) == |Decimal(n)|
  {
    var t := Guess(n);
    GuessInTable(n);
    GuessClose(n, BitLength(OrOne(n)), t);
    if t > 0 {
      PowersAre(t);
      DecimalLength(n, CountDigits64(n));
    } else {
      assert Pow10(1) == 10;
      DecimalLength(n, 1);
    }
  }

  /** And of every 32-bit number. */
  lemma CountDigitsExact32(n: nat)
    requires n < SIZE32
    ensures CountDigits32(n) == |Decimal(n)|
  {
    GuessInTable(n);
    CountDigitsExact64(n);
    if Guess(n) > 0 {
      PowersAre(Guess(n));
    }
  }

  // ------------------------------------------------------------------ itoa

  /** The table "00010203...9899": the two digits of i at 2 * i. */
  const DIGITS: string :=
    seq(200, i requires 0 <= i < 200 => if i % 2 == 0 then DigitChar(i / 20) else DigitChar(i / 2 % 10))

  lemma DigitPair(i: nat)
    requires i < 100
    ensures DIGITS[2 * i] == DigitChar(i / 10) && DIGITS[2 * i + 1] == DigitChar(i % 10)
  {
  }

  lemma DivMod100(n: nat)
    ensures n / 10 / 10 == n / 100
    ensures n % 100 / 10 == n / 10 % 10 && n % 100 % 10 == n % 10
  {
  }

  lemma TwoDigits(n: nat)
    requires n >= 100
    ensures Decimal(n) == Decimal(n / 100) + [DigitChar(n % 100 / 10)] + [DigitChar(n % 10)]
  {
    DivMod100(n);
    assert Decimal(n) == Decimal(n / 10) + [DigitChar(n % 10)];
    assert Decimal(n / 10) == Decimal(n / 10 / 10) + [DigitChar(n / 10 % 10)];
  }

  /** countDigits, for the width of the argument. */
  function CountDigits(n: nat, wide: bool): (count: nat)
    requires n < if wide then SIZE64 else SIZE32
    ensures count == |Decimal(n)|
  {
    if wide then
      CountDigitsExact64(n);
      CountDigits64(n)
    else
      CountDigitsExact32(n);
      CountDigits32(n)
  }

  /** The two digits of v that end at `next` in d, and what is left in front. */
  lemma NextPair(v: nat, d: string, next: nat)
    requires v >= 100 && next < |d| && Decimal(v) == d[..next + 1]
    ensures next >= 2 && Decimal(v / 100) == d[..next - 1]
    ensures d[next] == DIGITS[v % 100 * 2 + 1] && d[next - 1] == DIGITS[v % 100 * 2]
  {
    TwoDigits(v);
    DivMod100(v);
    DigitPair(v % 100);
    assert d[next] == Decimal(v)[next] && d[next - 1] == Decimal(v)[next - 1];
  }

  /** Writes the digits of val into buf from `at` on; `next`, which the source
      keeps unsigned, never goes below zero. */
  method Digits(val: nat, wide: bool, buf: array<char>, at: nat) returns (count: nat)
    requires val < if wide then SIZE64 else SIZE32
    requires at + |Decimal(val)| <= buf.Length
    modifies buf
    ensures count == |Decimal(val)|
    ensures buf[at..at + count] == Decimal(val)
    ensures forall k :: 0 <= k < buf.Length && (k < at || at + count <= k) ==> buf[k] == old(buf[k])
  {
    count := CountDigits(val, wide);
    ghost var d := Decimal(val);
    var next := count - 1;
    var v := val;
    while v >= 100
      invariant next < count && |Decimal(v)| == next + 1
      invariant Decimal(v) == d[..next + 1]
      invariant forall k :: next < k < count ==> buf[at + k] == d[k]
      invariant forall k :: 0 <= k < buf.Length && (k < at || at + count <= k) ==> buf[k] == old(buf[k])
      decreases v
    {
      NextPair(v, d, next);
      var i := v % 100 * 2;
      v := v / 100;
      buf[at + next] := DIGITS[i + 1];
      buf[at + next - 1] := DIGITS[i];
      next := next - 2;
    }
    LastDigits(v, d, buf, at, next);
  }

  /** The one or two digits left when v is below 100. */
  method LastDigits(v: nat, ghost d: string, buf: array<char>, at: nat, next: nat)
    requires v < 100 && at + |d| <= buf.Length
    requires next < |d| && Decimal(v) == d[..next + 1]
    requires forall k :: next < k < |d| ==> buf[at + k] == d[k]
    modifies buf
    ensures buf[at..at + |d|] == d
    ensures forall k :: 0 <= k < buf.Length && (k < at || at + |d| <= k) ==> buf[k] == old(buf[k])
  {
    assert forall k :: 0 <= k <= next ==> d[k] == Decimal(v)[k];
    if v < 10 {
      buf[at + next] := DigitChar(v);
    } else {
      DigitPair(v);
      assert Decimal(v) == [DigitChar(v / 10), DigitChar(v % 10)];
      var i := v * 2;
      buf[at + next] := DIGITS[i + 1];
      buf[at + next - 1] := DIGITS[i];
    }
  }

  lemma DecimalShort(n: nat)
    ensures n <= 0x8000_0000 ==> |Decimal(n)| <= 10
    ensures n <= 0x8000_0000_0000_0000 ==> |Decimal(n)| <= 19
  {
    assert Pow10(10) == 10000000000 && Pow10(19) == 10000000000000000000;
    if n < Pow10(10) {
      DecimalAtMost(n, 10);
    }
    if n < Pow10(19) {
      DecimalAtMost(n, 19);
    }
  }

  lemma {:induction false} DecimalAtMost(n: nat, k: nat)
    requires k > 0 && n < Pow10(k)
    ensures |Decimal(n)| <= k
  {
    if k > 1 && n >= 10 {
      assert Pow10(k) == 10 * Pow10(k - 1);
      DecimalAtMost(n / 10, k - 1);
    }
  }

  /** ~u + 1 in an unsigned type with `size` values. */
  function Negated(u: nat, size: nat): (r: nat)
    requires 0 < u < size
    ensures r == size - u
  {
    ((size - 1 - u) + 1) % size
  }

  function Magnitude(n: int): nat { if n < 0 then -n else n }

  /** itoa for 32 bits: eleven characters are enough, for -2147483648 too. */
  method Itoa32(val: int32, buf: array<char>) returns (count: nat)
    requires buf.Length == 11
    modifies buf
    ensures count <= 11 && buf[..count] == DecimalInt(val)
  {
    DecimalShort(Magnitude(val));
    var u: nat := if val < 0 then SIZE32 + val else val;
    var at := 0;
    if val < 0 {
      buf[0] := '-';
      at := 1;
      u := Negated(u, SIZE32);
    }
    ghost var front := buf[..at];
    assert u == Magnitude(val);
    var n := Digits(u, false, buf, at);
    count := at + n;
    assert buf[..count] == front + Decimal(u);
  }

  /** itoa for 64 bits: twenty characters are enough. */
  method Itoa64(val: int64, buf: array<char>) returns (count: nat)
    requires buf.Length == 20
    modifies buf
    ensures count <= 20 && buf[..count] == DecimalInt(val)
  {
    DecimalShort(Magnitude(val));
    var u: nat := if val < 0 then SIZE64 + val else val;
    var at := 0;
    if val < 0 {
      buf[0] := '-';
      at := 1;
      u := Negated(u, SIZE64);
    }
    ghost var front := buf[..at];
    assert u == Magnitude(val);
    var n := Digits(u, true, buf, at);
    count := at + n;
    assert buf[..count] == front + Decimal(u);
  }
}
