/** Characters, decimal text and the integer widths the codec uses.

    A C++ `char` is modelled as the Dafny `char` with the same code.  Nothing in
    the code under study depends on codes above 255, so texts are left as plain
    strings and every theorem about them covers all byte strings. */
module Text {

  type int32 = n: int | -0x8000_0000 <= n < 0x8000_0000
  type int64 = n: int | -0x8000_0000_0000_0000 <= n < 0x8000_0000_0000_0000

  predicate InInt32(n: int) { -0x8000_0000 <= n < 0x8000_0000 }
  predicate InInt64(n: int) { -0x8000_0000_0000_0000 <= n < 0x8000_0000_0000_0000 }

  datatype Option<+T> = None | Some(value: T)

  /** Concatenation is associative, and the empty sequence is its unit. */
  lemma Glue<T>(a: seq<T>, b: seq<T>, c: seq<T>)
    ensures (a + b) + c == a + (b + c) && a + [] == a && [] + a == a
  {
  }

  /** Where a character comes first, or the length where it does not come. */
  function IndexOf(s: string, c: char): (i: nat)
    ensures i <= |s|
  {
    if s == [] || s[0] == c then 0 else 1 + IndexOf(s[1..], c)
  }

  function Concat(chunks: seq<string>): string {
    if chunks == [] then [] else chunks[0] + Concat(chunks[1..])
  }

  predicate IsDigit(c: char) { '0' <= c <= '9' }

  predicate AllDigits(s: string) { forall i :: 0 <= i < |s| ==> IsDigit(s[i]) }

  predicate IsWs(c: char) { c == ' ' || c == '\t' || c == '\r' || c == '\n' }

  predicate AllWs(s: string) { forall i :: 0 <= i < |s| ==> IsWs(s[i]) }

  function DigitChar(d: nat): (c: char)
    requires d < 10
    ensures IsDigit(c) && DigitOf(c) == d
  {
    ('0' as int + d) as char
  }

  function DigitOf(c: char): (d: nat)
    requires IsDigit(c)
    ensures d < 10
  {
    c as int - '0' as int
  }

  /** The decimal text of a natural number. */
  function Decimal(n: nat): (s: string)
    ensures |s| > 0 && AllDigits(s)
  {
    if n < 10 then [DigitChar(n)] else Decimal(n / 10) + [DigitChar(n % 10)]
  }

  /** The decimal text of an integer. */
  function DecimalInt(n: int): string {
    if n < 0 then "-" + Decimal(-n) else Decimal(n)
  }

  /** The number a run of digits denotes. */
  function DigitsValue(s: string): nat
    requires AllDigits(s)
  {
    if s == [] then 0 else 10 * DigitsValue(s[..|s| - 1]) + DigitOf(s[|s| - 1])
  }

  lemma {:induction false} DecimalValue(n: nat)
    ensures DigitsValue(Decimal(n)) == n
  {
    if n >= 10 {
      DecimalValue(n / 10);
      var s := Decimal(n);
      assert s[..|s| - 1] == Decimal(n / 10);
    }
  }

  /** Decimal text carries no leading zero. */
  lemma {:induction false} DecimalLeading(n: nat)
    ensures Decimal(n)[0] == '0' <==> n == 0
    ensures n == 0 ==> Decimal(n) == "0"
  {
    if n >= 10 {
      DecimalLeading(n / 10);
      assert Decimal(n)[0] == Decimal(n / 10)[0];
    }
  }

  function Pow10(k: nat): (p: nat)
    ensures p > 0
  {
    if k == 0 then 1 else 10 * Pow10(k - 1)
  }

  /** The text of n has k digits exactly when n lies in [10^(k-1), 10^k). */
  lemma {:induction false} DecimalLength(n: nat, k: nat)
    requires k > 0
    requires n < Pow10(k)
    requires k == 1 || Pow10(k - 1) <= n
    ensures |Decimal(n)| == k
  {
    if k > 1 {
      assert Pow10(k) == 10 * Pow10(k - 1);
      assert Pow10(k - 1) == 10 * Pow10(k - 2);
      DecimalLength(n / 10, k - 1);
    }
  }

  /** Drops the white space at the front, as parseWhitespace does. */
  function SkipWs(s: string): (r: string)
    ensures |r| <= |s|
  {
    if s != [] && IsWs(s[0]) then SkipWs(s[1..]) else s
  }

  /** What SkipWs drops is white space, and it drops all of it. */
  lemma {:induction false} SkipWsSplits(s: string) returns (w: string)
    ensures AllWs(w) && s == w + SkipWs(s)
    ensures SkipWs(s) == [] || !IsWs(SkipWs(s)[0])
  {
    if s != [] && IsWs(s[0]) {
      var w1 := SkipWsSplits(s[1..]);
      w := [s[0]] + w1;
      assert s == [s[0]] + s[1..];
    } else {
      w := [];
    }
  }

  lemma {:induction false} SkipWsOver(w: string, r: string)
    requires AllWs(w)
    requires r == [] || !IsWs(r[0])
    ensures SkipWs(w + r) == r
  {
    if w == [] {
      assert w + r == r;
    } else {
      SkipWsOver(w[1..], r);
      assert (w + r)[0] == w[0] && (w + r)[1..] == w[1..] + r;
    }
  }

  /** The longest run of digits at the front. */
  function LeadDigits(s: string): (d: string)
    ensures |d| <= |s| && AllDigits(d)
  {
    if s != [] && IsDigit(s[0]) then [s[0]] + LeadDigits(s[1..]) else []
  }

  lemma {:induction false} LeadDigitsSplits(s: string)
    ensures var d := LeadDigits(s); s == d + s[|d|..] && (|d| == |s| || !IsDigit(s[|d|]))
  {
    if s != [] && IsDigit(s[0]) {
      LeadDigitsSplits(s[1..]);
      var d := LeadDigits(s[1..]);
      assert s[1..][|d|..] == s[|d| + 1..];
    }
  }

  lemma {:induction false} LeadDigitsOver(d: string, r: string)
    requires AllDigits(d)
    requires r == [] || !IsDigit(r[0])
    ensures LeadDigits(d + r) == d
  {
    if d == [] {
      assert d + r == r;
    } else {
      LeadDigitsOver(d[1..], r);
      assert (d + r)[0] == d[0] && (d + r)[1..] == d[1..] + r;
    }
  }
}
