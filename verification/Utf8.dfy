/** UTF-8 encoding of the code points that \u escapes denote (section 3 of RFC 3629). */
module Utf8 {
  import opened Text

  const MAX_CODE := 0x10FFFF

  function Byte(n: nat): (c: char)
    requires n < 0x100
    ensures c as int == n
  {
    n as char
  }

  /** The bytes encodeUtf8 appends.  The or-ed bit groups of the source do not
      overlap, so each `|` is written as a sum and each shift as a division. */
  function Encode(u: nat): (s: string)
    requires u <= MAX_CODE
  {
    if u <= 0x7F then
      [Byte(u)]
    else if u <= 0x7FF then
      [Byte(0xC0 + u / 0x40), Byte(0x80 + u % 0x40)]
    else if u <= 0xFFFF then
      [Byte(0xE0 + u / 0x1000), Byte(0x80 + u / 0x40 % 0x40), Byte(0x80 + u % 0x40)]
    else
      [Byte(0xF0 + u / 0x40000), Byte(0x80 + u / 0x1000 % 0x40),
       Byte(0x80 + u / 0x40 % 0x40), Byte(0x80 + u % 0x40)]
  }

  /** The byte at i is a continuation byte 10xxxxxx. */
  predicate Continues(s: string, i: nat) { i < |s| && 0x80 <= s[i] as int < 0xC0 }

  function Payload(s: string, i: nat): (p: nat)
    requires Continues(s, i)
    ensures p < 0x40
  {
    s[i] as int - 0x80
  }

  /** Reads one code by the bit layout of RFC 3629; the leading byte alone fixes
      how many bytes belong to it. */
  function Decode(s: string): Option<(nat, string)> {
    if s == [] then None
    else
      var b := s[0] as int;
      if b < 0x80 then Some((b, s[1..]))
      else if 0xC0 <= b < 0xE0 && Continues(s, 1) then
        Some(((b - 0xC0) * 0x40 + Payload(s, 1), s[2..]))
      else if 0xE0 <= b < 0xF0 && Continues(s, 1) && Continues(s, 2) then
        Some(((b - 0xE0) * 0x1000 + Payload(s, 1) * 0x40 + Payload(s, 2), s[3..]))
      else if 0xF0 <= b < 0xF8 && Continues(s, 1) && Continues(s, 2) && Continues(s, 3) then
        Some(((b - 0xF0) * 0x40000 + Payload(s, 1) * 0x1000 + Payload(s, 2) * 0x40 + Payload(s, 3),
              s[4..]))
      else None
  }

  lemma Digits64(u: nat)
    requires u <= MAX_CODE
    ensures u == u / 0x40 * 0x40 + u % 0x40
    ensures u / 0x40 == u / 0x1000 * 0x40 + u / 0x40 % 0x40
    ensures u / 0x1000 == u / 0x40000 * 0x40 + u / 0x1000 % 0x40
  {
  }

  /** Decoding undoes encoding, for every code and whatever bytes follow. */
  lemma EncodeDecode(u: nat, rest: string)
    requires u <= MAX_CODE
    ensures Decode(Encode(u) + rest) == Some((u, rest))
  {
    var e := Encode(u);
    var s := e + rest;
    assert s[|e|..] == rest;
    assert forall i :: 0 <= i < |e| ==> s[i] == e[i];
    Digits64(u);
  }

  // ----------------------------------------------------- surrogate pairs

  predicate IsHigh(u: nat) { 0xD800 <= u <= 0xDBFF }
  predicate IsLow(u: nat) { 0xDC00 <= u <= 0xDFFF }

  /** The code a surrogate pair denotes. */
  function Combine(hi: nat, lo: nat): (u: nat)
    requires IsHigh(hi) && IsLow(lo)
    ensures 0x10000 <= u <= MAX_CODE
  {
    0x10000 + (hi - 0xD800) * 0x400 + (lo - 0xDC00)
  }

  /** Section 2.1 of RFC 2781: how UTF-16 splits a code above 0xFFFF. */
  function Split(u: nat): (p: (nat, nat))
    requires 0x10000 <= u <= MAX_CODE
    ensures IsHigh(p.0) && IsLow(p.1)
  {
    var v := u - 0x10000;
    (0xD800 + v / 0x400, 0xDC00 + v % 0x400)
  }

  /** Pairs and supplementary codes are in bijection. */
  lemma CombineSplit(u: nat, hi: nat, lo: nat)
    requires 0x10000 <= u <= MAX_CODE && IsHigh(hi) && IsLow(lo)
    ensures Combine(Split(u).0, Split(u).1) == u
    ensures Split(Combine(hi, lo)) == (hi, lo)
  {
    var v := (hi - 0xD800) * 0x400 + (lo - 0xDC00);
    assert v / 0x400 == hi - 0xD800;
  }
}
