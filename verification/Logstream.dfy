/** The log stream: a fixed buffer that takes items whole or not at all, and integers
    converted in place, last digit first and then reversed. */
module Logstream {
  import opened Text
  import Itoa

  /** digits: indexed from its middle by a remainder of either sign. */
  const DIGITS := "9876543210123456789"
  const ZERO: nat := 9

  const MAX_NUMERIC: nat := 32  // kMaxNumericSize
  const SMALL: nat := 4000      // kSmallBuffer

  /** The integer types that are converted, from int to unsigned long long. */
  predicate Convertible(v: int) { -0x8000_0000_0000_0000 <= v < 0x1_0000_0000_0000_0000 }

  /** C++'s / and % by ten: they truncate towards zero. */
  function Quot10(i: int): int { if i >= 0 then i / 10 else -(-i / 10) }

  function Rem10(i: int): (r: int)
    ensures -10 < r < 10
  {
    if i >= 0 then i % 10 else -(-i % 10)
  }

  /** Both signs of a remainder find the digit of its magnitude. */
  lemma DigitOfRem(i: int)
    ensures DIGITS[ZERO + Rem10(i)] == DigitChar(Itoa.Magnitude(i) % 10)
    ensures Itoa.Magnitude(Quot10(i)) == Itoa.Magnitude(i) / 10
  {
    var d := Rem10(i);
    assert d == Itoa.Magnitude(i) % 10 || d == -(Itoa.Magnitude(i) % 10);
    DigitsTable(if d < 0 then -d else d);
  }

  lemma DigitsTable(d: nat)
    requires d < 10
    ensures DIGITS[ZERO + d] == DigitChar(d) && DIGITS[ZERO - d] == DigitChar(d)
  {
    if d == 0 || d == 1 || d == 2 || d == 3 || d == 4 {
    } else {
      assert d == 5 || d == 6 || d == 7 || d == 8 || d == 9;
    }
  }

  function Reversed(s: string): string {
    if s == "" then "" else [s[|s| - 1]] + Reversed(s[..|s| - 1])
  }

  lemma {:induction false} ReversedAt(s: string)
    ensures |Reversed(s)| == |s|
    ensures forall k :: 0 <= k < |s| ==> Reversed(s)[k] == s[|s| - 1 - k]
  {
    if s != "" {
      ReversedAt(s[..|s| - 1]);
    }
  }

  lemma ReversedSnoc(s: string, c: char)
    ensures Reversed(s + [c]) == [c] + Reversed(s)
  {
    assert (s + [c])[..|s|] == s;
  }

  /** One turn of the loop of convert: a digit moves from the number to the text. */
  lemma DigitMoves(m: nat, text: string)
    ensures var more := Reversed(text + [DigitChar(m % 10)]);
            Decimal(m) + Reversed(text) == if m >= 10 then Decimal(m / 10) + more else more
  {
    ReversedSnoc(text, DigitChar(m % 10));
    if m >= 10 {
      Glue(Decimal(m / 10), [DigitChar(m % 10)], Reversed(text));
    }
  }

  lemma DecimalFits(v: int)
    requires Convertible(v)
    ensures |Decimal(Itoa.Magnitude(v))| <= 20 && |DecimalInt(v)| <= 20
  {
    var m := Itoa.Magnitude(v);
    Itoa.DecimalShort(m / 10);
    Itoa.DecimalShort(m);
  }

  /** std::reverse on part of an array. */
  method ReverseRange(buf: array<char>, first: nat, last: nat)
    requires first <= last <= buf.Length
    modifies buf
    ensures forall k :: first <= k < last ==> buf[k] == old(buf[first + last - 1 - k])
    ensures forall k :: 0 <= k < buf.Length && (k < first || last <= k) ==> buf[k] == old(buf[k])
  {
    var i, j := first, last;
    while i < j
      invariant first <= i <= j + 1 && j <= last && i + j == first + last
      invariant forall k :: i <= k < j ==> buf[k] == old(buf[k])
      invariant forall k :: first <= k < last && !(i <= k < j) ==> buf[k] == old(buf[first + last - 1 - k])
      invariant forall k :: 0 <= k < buf.Length && (k < first || last <= k) ==> buf[k] == old(buf[k])
    {
      j := j - 1;
      buf[i], buf[j] := buf[j], buf[i];
      i := i + 1;
    }
  }

  /** Writes the digits of value backwards from `at` on. */
  method DigitsBackwards(buf: array<char>, at: nat, value: int) returns (p: nat)
    requires at + |Decimal(Itoa.Magnitude(value))| <= buf.Length
    modifies buf
    ensures p == |Decimal(Itoa.Magnitude(value))|
    ensures Reversed(buf[at..at + p]) == Decimal(Itoa.Magnitude(value))
    ensures forall k :: 0 <= k < buf.Length && (k < at || at + p <= k) ==> buf[k] == old(buf[k])
  {
    var i := value;
    p := 0;
    ghost var all := Decimal(Itoa.Magnitude(value));
    ghost var text := "";
    Glue(all, "", "");
    while true
      invariant all == Decimal(Itoa.Magnitude(i)) + Reversed(text)
      invariant |text| == p && |Reversed(text)| == p && at + p <= buf.Length && buf[at..at + p] == text
      invariant forall k :: 0 <= k < buf.Length && (k < at || at + p <= k) ==> buf[k] == old(buf[k])
      decreases Itoa.Magnitude(i)
    {
      ghost var m := Itoa.Magnitude(i);
      DigitOfRem(i);
      DigitMoves(m, text);
      var lsd := Rem10(i);
      i := Quot10(i);
      buf[at + p] := DIGITS[ZERO + lsd];
      text := text + [DigitChar(m % 10)];
      ReversedAt(text);
      p := p + 1;
      assert buf[at..at + p] == text;
      if i == 0 {
        break;
      }
    }
  }

  lemma SignedText(value: int, digits: string)
    requires Reversed(digits) == Decimal(Itoa.Magnitude(value))
    ensures Reversed(digits + if value < 0 then "-" else "") == DecimalInt(value)
  {
    Glue(digits, "", "");
    ReversedSnoc(digits, '-');
  }

  lemma MirrorIs(s: string, text: string)
    requires |s| == |text| && forall k :: 0 <= k < |s| ==> s[k] == text[|s| - 1 - k]
    ensures s == Reversed(text)
  {
    ReversedAt(text);
  }

  /** Stores a character behind the p that were written from `at` on. */
  method Store(buf: array<char>, at: nat, p: nat, c: char)
    requires at + p < buf.Length
    modifies buf
    ensures buf[at..at + p] == old(buf[at..at + p]) && buf[at..at + p + 1] == old(buf[at..at + p]) + [c]
    ensures forall k :: 0 <= k < at ==> buf[k] == old(buf[k])
  {
    buf[at + p] := c;
  }

  /** The digits, the sign and a zero byte that does not count, still backwards. */
  method TextBackwards(buf: array<char>, at: nat, value: int) returns (p: nat)
    requires Convertible(value) && at + MAX_NUMERIC <= buf.Length
    modifies buf
    ensures p < MAX_NUMERIC && Reversed(buf[at..at + p]) == DecimalInt(value)
    ensures forall k :: 0 <= k < at ==> buf[k] == old(buf[k])
  {
    hide Decimal, DecimalInt, Reversed;
    DecimalFits(value);
    p := DigitsBackwards(buf, at, value);
    ghost var digits := buf[at..at + p];
    SignedText(value, digits);
    ghost var sign := if value < 0 then "-" else "";
    if value < 0 {
      Store(buf, at, p, '-');
      p := p + 1;
    } else {
      Glue(digits, "", "");
    }
    assert buf[at..at + p] == digits + sign;
    Store(buf, at, p, '\0');
  }

  /** convert: the decimal text of value at `at`.  The smallest value of a signed type
      needs no care, for it is never negated. */
  method Convert(buf: array<char>, at: nat, value: int) returns (len: nat)
    requires Convertible(value) && at + MAX_NUMERIC <= buf.Length
    modifies buf
    ensures len < MAX_NUMERIC && at + len <= buf.Length
    ensures buf[..at + len] == old(buf[..at]) + DecimalInt(value)
  {
    len := TextBackwards(buf, at, value);
    ghost var text := buf[at..at + len];
    ReverseRange(buf, at, at + len);
    MirrorIs(buf[at..at + len], text);
    assert buf[..at + len] == buf[..at] + buf[at..at + len];
  }

  // ------------------------------------------------------------- the buffer

  /** What a buffer of the given size holds after an append: an item that does not
      leave a byte free is dropped whole. */
  function Appended(content: string, text: string, size: nat): string {
    if |content| + |text| < size then content + text else content
  }

  /** And after an integer, which is dropped unless the longest one would fit. */
  function Formatted(content: string, v: int, size: nat): string {
    if |content| + MAX_NUMERIC <= size then content + DecimalInt(v) else content
  }

  datatype Item = Text(text: string) | Number(v: int)

  function Put(content: string, item: Item): string {
    match item
    case Text(text) => Appended(content, text, SMALL)
    case Number(v) => Formatted(content, v, SMALL)
  }

  function PutAll(items: seq<Item>): string {
    if items == [] then "" else Put(PutAll(items[..|items| - 1]), items[|items| - 1])
  }

  function TextOf(item: Item): string { if item.Text? then item.text else DecimalInt(item.v) }

  function TextOfAll(items: seq<Item>): string {
    if items == [] then "" else TextOfAll(items[..|items| - 1]) + TextOf(items[|items| - 1])
  }

  predicate AllConvertible(items: seq<Item>) {
    forall i :: 0 <= i < |items| && items[i].Number? ==> Convertible(items[i].v)
  }

  /** The buffer is never full, and while the items are short enough together to leave
      room for the longest number it holds all of them. */
  lemma {:induction false} PutAllKeeps(items: seq<Item>)
    requires AllConvertible(items)
    ensures |PutAll(items)| <= 3999
    ensures |TextOfAll(items)| <= 3968 ==> PutAll(items) == TextOfAll(items)
  {
    if items != [] {
      var front, last := items[..|items| - 1], items[|items| - 1];
      PutAllKeeps(front);
      if last.Number? {
        DecimalFits(last.v);
      }
    }
  }

  /** Exactly when an item is dropped: a text when it would not leave a byte of the 4000
      free, an integer when fewer than 32 bytes are free, however short it is. */
  lemma DroppedIff(content: string, text: string, v: int)
    requires text != ""
    ensures Put(content, Text(text)) == content <==> |content| + |text| >= 4000
    ensures Put(content, Number(v)) == content <==> |content| >= 3969
    ensures Put(content, Text(text)) != content ==> Put(content, Text(text)) == content + text
    ensures Put(content, Number(v)) != content ==> Put(content, Number(v)) == content + DecimalInt(v)
  {
    assert |DecimalInt(v)| > 0;
    assert |content + DecimalInt(v)| > |content| && |content + text| > |content|;
  }

  class FixedBuffer {
    const data: array<char>
    var cur: nat

    ghost predicate Valid()
      reads this
    {
      cur <= data.Length
    }

    ghost function Contents(): string
      reads this, data
      requires Valid()
    {
      data[..cur]
    }

    constructor (size: nat)
      ensures Valid() && fresh(data) && data.Length == size && Contents() == ""
    {
      data := new char[size](_ => '\0');
      cur := 0;
    }

    function Avail(): nat
      reads this
      requires Valid()
    {
      data.Length - cur
    }

    method Append(text: string)
      requires Valid()
      modifies this, data
      ensures Valid() && Contents() == Appended(old(Contents()), text, data.Length)
    {
      if Avail() > |text| {
        forall k | 0 <= k < |text| {
          data[cur + k] := text[k];
        }
        cur := cur + |text|;
        assert data[..cur] == old(data[..cur]) + text;
      }
    }

    method Reset()
      modifies this
      ensures Valid() && Contents() == ""
    {
      cur := 0;
    }
  }

  class Logstream {
    const buffer: FixedBuffer

    ghost predicate Valid()
      reads this, buffer
    {
      buffer.Valid() && buffer.data.Length == SMALL
    }

    constructor ()
      ensures Valid() && fresh(buffer) && fresh(buffer.data) && buffer.Contents() == ""
    {
      buffer := new FixedBuffer(SMALL);
    }

    method PutText(text: string)
      requires Valid()
      modifies buffer, buffer.data
      ensures Valid() && buffer.Contents() == Put(old(buffer.Contents()), Text(text))
    {
      buffer.Append(text);
    }

    method FormatInteger(v: int)
      requires Valid() && Convertible(v)
      modifies buffer, buffer.data
      ensures Valid() && buffer.Contents() == Put(old(buffer.Contents()), Number(v))
    {
      if buffer.Avail() >= MAX_NUMERIC {
        var at := buffer.cur;
        var len := Convert(buffer.data, at, v);
        buffer.cur := at + len;
      }
    }

    /** A line of items, written one after another to a stream that is empty. */
    method PutItems(items: seq<Item>)
      requires Valid() && buffer.Contents() == "" && AllConvertible(items)
      modifies buffer, buffer.data
      ensures Valid() && buffer.Contents() == PutAll(items)
    {
      for i := 0 to |items|
        invariant Valid() && buffer.Contents() == PutAll(items[..i])
      {
        assert items[..i + 1][..i] == items[..i] && items[..i + 1][i] == items[i];
        match items[i] {
          case Text(text) => PutText(text);
          case Number(v) => FormatInteger(v);
        }
      }
      assert items[..|items|] == items;
    }
  }
}
