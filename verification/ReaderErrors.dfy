/** Which error the reader reports for a text it refuses, and what it has sent by then.
    The texts are described by the grammar and by tables of characters. */
module ReaderErrors {
  import opened Text
  import opened Json
  import opened ReaderSpec
  import opened Grammar
  import opened ReaderTables
  import C = ReaderComplete
  import ReaderSound
  import Utf8

  // ----------------------------------------------------------------- strings

  /** Four digits, in any case, at the front. */
  ghost predicate FourAhead(t: string, u: nat) {
    u <= 0xFFFF && exists cases: seq<bool> :: |cases| == 4 && Four(u, cases) <= t
  }

  predicate DigitAt(t: string, i: nat) { i < |t| && (t[i] in LOWER || t[i] in UPPER) }

  /** Fewer than four hexadecimal digits at the front. */
  predicate NoFour(t: string) { !(DigitAt(t, 0) && DigitAt(t, 1) && DigitAt(t, 2) && DigitAt(t, 3)) }

  /** What goes wrong at the front of the rest of a string literal. */
  ghost predicate StringError(s: string, e: ParseError) {
    match e
    case MISS_QUOTATION_MARK => s == ""
    case BAD_STRING_CHAR => s != "" && 0x01 <= s[0] as int <= 0x1F
    case BAD_STRING_ESCAPE =>
      && s != "" && s[0] == '\\'
      && (|s| > 1 ==> s[1] != 'u' && forall k :: 0 <= k < |ESCAPES| ==> ESCAPES[k].0 != s[1])
    case BAD_UNICODE_HEX =>
      && "\\u" <= s
      && (NoFour(s[2..]) || (HighAhead(s[2..]) && "\\u" <= s[6..] && NoFour(s[8..])))
    case BAD_UNICODE_SURROGATE =>
      && "\\u" <= s && HighAhead(s[2..])
      && (!("\\u" <= s[6..]) || exists u: nat :: FourAhead(s[8..], u) && !(0xDC00 <= u <= 0xDFFF))
    case _ => false
  }

  ghost predicate HighAhead(t: string) {
    |t| >= 4 && exists u: nat :: FourAhead(t, u) && 0xD800 <= u <= 0xDBFF
  }

  lemma HexAt(c: char)
    ensures IsHex(c) <==> c in LOWER || c in UPPER
  {
    HexExactly(c);
    if c in LOWER {
      var d: nat :| d < 16 && LOWER[d] == c;
      assert c == Digit(d, false);
    }
    if c in UPPER {
      var d: nat :| d < 16 && UPPER[d] == c;
      assert c == Digit(d, true);
    }
  }

  lemma DigitIff(t: string, i: nat)
    requires i < |t|
    ensures DigitAt(t, i) <==> IsHex(t[i])
  {
    HexAt(t[i]);
  }

  lemma FourHex(t: string)
    requires |t| >= 4
    ensures AllHex(t[..4]) <==> IsHex(t[0]) && IsHex(t[1]) && IsHex(t[2]) && IsHex(t[3])
  {
    hide IsHex;
    var h := t[..4];
    assert h[0] == t[0] && h[1] == t[1] && h[2] == t[2] && h[3] == t[3];
  }

  lemma NoFourScans(t: string)
    ensures ScanHex(t).None? <==> NoFour(t)
  {
    hide IsHex, HexValue;
    if |t| >= 4 {
      DigitIff(t, 0);
      DigitIff(t, 1);
      DigitIff(t, 2);
      DigitIff(t, 3);
      hide DigitAt;
      FourHex(t);
      hide AllHex;
    }
  }

  lemma FourScans(t: string, u: nat)
    requires FourAhead(t, u)
    ensures |t| >= 4 && ScanHex(t) == Option.Some((u, t[4..]))
  {
    var cases :| |cases| == 4 && Four(u, cases) <= t;
    FourHas(u, cases);
    assert t[..4] == Four(u, cases);
    hide Four, HexValue;
  }

  lemma EscapeFails(s: string, e: ParseError)
    requires StringError(s, e) && s != "" && s[0] == '\\'
    ensures ScanEscape(s[1..]) == CharsError(e)
  {
    var t := s[1..];
    ShortExactly(Peek(t));
    if |s| > 1 && s[1] == 'u' {
      UnicodeFails(s, e);
    }
  }

  lemma UnicodeFails(s: string, e: ParseError)
    requires StringError(s, e) && "\\u" <= s
    ensures ScanEscape(s[1..]) == CharsError(e)
  {
    if NoFour(s[2..]) && e.BAD_UNICODE_HEX? {
      FirstFails(s);
    } else if !("\\u" <= s[6..]) {
      PairMissing(s);
    } else if e.BAD_UNICODE_HEX? {
      SecondFails(s);
    } else {
      PairFails(s);
    }
    hide ScanEscape, NoFour, FourAhead;
  }

  lemma FirstFails(s: string)
    requires "\\u" <= s && NoFour(s[2..])
    ensures ScanEscape(s[1..]) == CharsError(BAD_UNICODE_HEX)
  {
    assert s[1..][1..] == s[2..] && Peek(s[1..]) == 'u';
    NoFourScans(s[2..]);
    hide ScanHex, NoFour;
  }

  /** What is read behind a high surrogate, by definition. */
  lemma BehindHigh(s: string)
    requires "\\u" <= s && HighAhead(s[2..])
    ensures ScanEscape(s[1..]) ==
            if !("\\u" <= s[6..]) then CharsError(BAD_UNICODE_SURROGATE)
            else match ScanHex(s[8..])
                 case None => CharsError(BAD_UNICODE_HEX)
                 case Some((u, w)) =>
                   if 0xDC00 <= u <= 0xDFFF then ScanEscape(s[1..]) else CharsError(BAD_UNICODE_SURROGATE)
  {
    assert s[1..][1..] == s[2..] && Peek(s[1..]) == 'u';
    HighScans(s[2..]);
    assert s[2..][4..] == s[6..];
    if "\\u" <= s[6..] {
      assert s[6..][2..] == s[8..];
    }
    hide ScanHex, HighAhead, Utf8.Encode, Utf8.Combine;
  }

  lemma HighScans(t: string)
    requires HighAhead(t)
    ensures |t| >= 4 && ScanHex(t).Some? && ScanHex(t).value.1 == t[4..] && Utf8.IsHigh(ScanHex(t).value.0)
  {
    var h: nat :| FourAhead(t, h) && 0xD800 <= h <= 0xDBFF;
    FourScans(t, h);
    hide ScanHex, FourAhead;
  }

  lemma PairMissing(s: string)
    requires "\\u" <= s && HighAhead(s[2..]) && !("\\u" <= s[6..])
    ensures ScanEscape(s[1..]) == CharsError(BAD_UNICODE_SURROGATE)
  {
    BehindHigh(s);
    hide ScanEscape, HighAhead;
  }

  lemma SecondFails(s: string)
    requires "\\u" <= s && HighAhead(s[2..]) && "\\u" <= s[6..] && NoFour(s[8..])
    ensures ScanEscape(s[1..]) == CharsError(BAD_UNICODE_HEX)
  {
    BehindHigh(s);
    NoFourScans(s[8..]);
    hide ScanEscape, HighAhead, ScanHex, NoFour;
  }

  lemma PairFails(s: string)
    requires "\\u" <= s && HighAhead(s[2..]) && "\\u" <= s[6..]
    requires exists u: nat :: FourAhead(s[8..], u) && !(0xDC00 <= u <= 0xDFFF)
    ensures ScanEscape(s[1..]) == CharsError(BAD_UNICODE_SURROGATE)
  {
    BehindHigh(s);
    var u: nat :| FourAhead(s[8..], u) && !(0xDC00 <= u <= 0xDFFF);
    FourScans(s[8..], u);
    hide ScanEscape, HighAhead, ScanHex, FourAhead;
  }

  lemma CharsFail(s: string, e: ParseError)
    requires StringError(s, e)
    ensures ScanChars(s) == CharsError(e)
  {
    if s != "" && s[0] == '\\' {
      EscapeFails(s, e);
    }
    hide ScanEscape;
  }

  lemma {:induction false} ItemsThenFail(items: seq<Item>, s: string, e: ParseError)
    requires ValidItems(items) && ScanChars(s) == CharsError(e)
    ensures ScanChars(ShowItems(items) + s) == CharsError(e)
  {
    if items == [] {
      Glue(s, [], []);
    } else {
      var t := ShowItems(items[1..]) + s;
      ItemsThenFail(items[1..], s, e);
      Glue(ShowItem(items[0]), ShowItems(items[1..]), s);
      if items[0].Raw? {
        C.Unfront(items[0].c, t);
      } else {
        C.EscapeComplete(items[0], t);
      }
    }
  }

  // The other way round: every error is one of these.

  lemma CaseOf(c: char) returns (upper: bool)
    requires IsHex(c)
    ensures Digit(HexOf(c), upper) == c
  {
    upper := 'A' <= c <= 'F';
  }

  lemma DigitsOf(a: nat, b: nat, c: nat, d: nat)
    requires a < 16 && b < 16 && c < 16 && d < 16
    ensures var u := ((a * 16 + b) * 16 + c) * 16 + d;
            a == u / 0x1000 && b == u / 0x100 % 0x10 && c == u / 0x10 % 0x10 && d == u % 0x10
  {
  }

  lemma ScannedFour(t: string)
    requires ScanHex(t).Some?
    ensures FourAhead(t, ScanHex(t).value.0)
  {
    var h := t[..4];
    var a := CaseOf(h[0]);
    var b := CaseOf(h[1]);
    var c := CaseOf(h[2]);
    var d := CaseOf(h[3]);
    FourIs(h, [a, b, c, d]);
    hide Four, Digit, HexOf, IsHex;
    assert Four(HexValue(h), [a, b, c, d]) <= t;
  }

  lemma FourIs(h: string, cases: seq<bool>)
    requires |h| == 4 && AllHex(h) && |cases| == 4
    requires forall i :: 0 <= i < 4 ==> Digit(HexOf(h[i]), cases[i]) == h[i]
    ensures Four(HexValue(h), cases) == h
  {
    hide Digit, HexOf, IsHex;
    var a, b, c, d := HexOf(h[0]), HexOf(h[1]), HexOf(h[2]), HexOf(h[3]);
    DigitsOf(a, b, c, d);
    var u := HexValue(h);
    assert a == u / 0x1000 && b == u / 0x100 % 0x10 && c == u / 0x10 % 0x10 && d == u % 0x10;
    FourDigitsOf(u, cases, a, b, c, d);
  }

  lemma FourDigitsOf(u: nat, cases: seq<bool>, a: nat, b: nat, c: nat, d: nat)
    requires u <= 0xFFFF && |cases| == 4 && a < 16 && b < 16 && c < 16 && d < 16
    requires a == u / 0x1000 && b == u / 0x100 % 0x10 && c == u / 0x10 % 0x10 && d == u % 0x10
    ensures Four(u, cases) == [Digit(a, cases[0]), Digit(b, cases[1]), Digit(c, cases[2]), Digit(d, cases[3])]
  {
  }

  lemma UnicodeError(s: string, e: ParseError)
    requires "\\u" <= s && ScanEscape(s[1..]) == CharsError(e)
    ensures StringError(s, e)
  {
    assert s[1..][1..] == s[2..] && Peek(s[1..]) == 'u';
    match ScanHex(s[2..])
    case None => NoFourScans(s[2..]);
    case Some((h, t)) =>
      ScannedFour(s[2..]);
      assert t == s[6..];
      if "\\u" <= t {
        assert t[2..] == s[8..];
        match ScanHex(s[8..]) {
          case None => NoFourScans(s[8..]);
          case Some((u, _)) => ScannedFour(s[8..]);
        }
      }
      hide ScanHex, FourAhead, NoFour;
  }

  lemma EscapeError(s: string, e: ParseError)
    requires s != "" && s[0] == '\\' && ScanEscape(s[1..]) == CharsError(e)
    ensures StringError(s, e)
  {
    ShortExactly(Peek(s[1..]));
    if |s| > 1 && s[1] == 'u' {
      UnicodeError(s, e);
    } else if |s| > 1 {
      assert s[1..][0] == s[1];
    }
  }

  lemma {:induction false} CharsStop(s: string, e: ParseError) returns (items: seq<Item>, rest: string)
    requires ScanChars(s) == CharsError(e)
    ensures ValidItems(items) && s == ShowItems(items) + rest && StringError(rest, e)
    decreases |s|
  {
    if s == "" || IsControl(s[0]) {
      items, rest := [], s;
    } else if s[0] == '\\' && ScanEscape(s[1..]).CharsError? {
      EscapeError(s, e);
      items, rest := [], s;
    } else {
      var i: Item;
      var r: string;
      if s[0] == '\\' {
        i := ReaderSound.EscapeSound(s[1..]);
        r := ScanEscape(s[1..]).rest;
        assert s == "\\" + s[1..];
      } else {
        i, r := Raw(s[0]), s[1..];
      }
      assert s == ShowItem(i) + r;
      var tail;
      tail, rest := CharsStop(r, e);
      items := [i] + tail;
      assert items[1..] == tail;
      Glue(ShowItem(i), ShowItems(tail), rest);
    }
    hide StringError;
  }

  /** The literal s is valid items and then goes wrong with this error. */
  ghost predicate StopsAt(s: string, items: seq<Item>, rest: string, e: ParseError) {
    ValidItems(items) && s == ShowItems(items) + rest && StringError(rest, e)
  }

  /** A text that begins with a quotation mark is refused inside that string with an
      error exactly if the error is what comes behind some items. */
  lemma StringRefusedExactly(fits: DoubleRange, s: string, e: ParseError)
    ensures ParseString("\"" + s, false) == Stopped(e, []) <==>
            exists items: seq<Item>, rest: string :: StopsAt(s, items, rest, e)
    ensures ParseString("\"" + s, false) == Stopped(e, []) ==> Parse(fits, "\"" + s) == Rejected(e, [])
  {
    AtQuote(fits, s);
    if ScanChars(s) == CharsError(e) {
      var items, rest := CharsStop(s, e);
      assert StopsAt(s, items, rest, e);
    }
    forall items: seq<Item>, rest: string | StopsAt(s, items, rest, e) ensures ScanChars(s) == CharsError(e) {
      CharsFail(rest, e);
      ItemsThenFail(items, rest, e);
    }
    hide *;
  }

  lemma AtQuote(fits: DoubleRange, s: string)
    ensures Peek("\"" + s) == '"'
    ensures forall e :: ParseString("\"" + s, false) == Stopped(e, []) <==> ScanChars(s) == CharsError(e)
    ensures forall e :: ParseString("\"" + s, false) == Stopped(e, []) ==> Parse(fits, "\"" + s) == Rejected(e, [])
  {
    var t := "\"" + s;
    C.Unfront('"', s);
    assert SkipWs(t) == t;
    hide ScanChars;
  }

  // ----------------------------------------------------------------- numbers

  predicate NoDigit(s: string) { s == "" || !('0' <= s[0] <= '9') }

  /** What may not follow the digits of a whole number: a point or an exponent mark
      without digits behind it, and an `i` that begins no suffix. */
  predicate BadTail(s: string) {
    && s != ""
    && (|| (s[0] == '.' && NoDigit(s[1..]))
        || (s[0] in "eE" && NoDigit(if |s| > 1 && s[1] in "+-" then s[2..] else s[1..]))
        || (s[0] == 'i' && !("32" <= s[1..]) && !("64" <= s[1..])))
  }

  lemma SuffixAhead(s: string, a: char, b: char)
    requires s != "" && s[0] == 'i'
    ensures ['i', a, b] <= s <==> [a, b] <= s[1..]
  {
    assert |s| > 1 ==> s[1..][0] == s[1];
    assert |s| > 2 ==> s[1..][1] == s[2];
  }

  lemma BadTailScans(s: string)
    requires BadTail(s)
    ensures !IsDigit(Peek(s))
    ensures ScanFraction(s).None? || (ScanFraction(s) == Option.Some((Option.None, s)) &&
              (ScanExponent(s).None? || (ScanExponent(s) == Option.Some((Option.None, s))
                                         && ScanSuffix(s, false).None?)))
  {
    if s[0] == 'i' {
      SuffixAhead(s, '3', '2');
      SuffixAhead(s, '6', '4');
      assert "i32" == ['i', '3', '2'] && "i64" == ['i', '6', '4'] && "32" == ['3', '2'] && "64" == ['6', '4'];
    } else if s[0] != '.' {
      assert Rest(s) == s[1..];
      if |s| > 1 && s[1] in "+-" {
        assert Rest(Rest(s)) == s[2..] && Peek(Rest(s)) == s[1];
      }
    }
  }

  lemma AtWhole(fits: DoubleRange, s: string)
    requires s != "" && (s[0] == '-' || IsDigit(s[0])) && ScanNumber(s).None?
    ensures Parse(fits, s) == Rejected(BAD_VALUE, [])
  {
    assert SkipWs(s) == s;
    C.AtNumber(fits, s);
    hide ScanNumber, ParseValue;
  }

  /** A whole number, and then what may not follow it. */
  lemma TailRefused(fits: DoubleRange, negative: bool, n: nat, tail: string)
    requires BadTail(tail)
    ensures Parse(fits, WholeText(negative, Decimal(n)) + tail) == Rejected(BAD_VALUE, [])
  {
    var d := Decimal(n);
    DecimalLeading(n);
    BadTailScans(tail);
    C.WholeComplete(d, tail);
    C.SignComplete(negative, d, tail);
    var s := WholeText(negative, d) + tail;
    assert s[0] == WholeText(negative, d)[0];
    hide ScanWhole, ScanFraction, ScanExponent, ScanSuffix, Decimal;
    assert ScanNumber(s).None?;
    AtWhole(fits, s);
  }

  /** A double takes no suffix. */
  lemma DoubleSuffixRefused(fits: DoubleRange, t: NumberText, r: string)
    requires t.Valid() && t.IsDouble()
    ensures Parse(fits, t.Show() + ("i" + r)) == Rejected(BAD_VALUE, [])
  {
    var tail := "i" + r;
    var s := t.Show() + tail;
    C.NumberHead(t);
    assert s[0] == t.Show()[0];
    DoubleHeads(t, tail);
    DoubleScans(t, tail);
    ShowBefore(t, tail);
    AtWhole(fits, s);
    hide *;
  }

  lemma ShowBefore(t: NumberText, tail: string)
    requires t.suffix.Plain?
    ensures t.Show() + tail ==
            WholeText(t.negative, t.whole) + (FractionText(t.fraction) + (ExponentText(t.exponent) + tail))
  {
    var a, b := WholeText(t.negative, t.whole), FractionText(t.fraction);
    var c := ExponentText(t.exponent);
    Glue((a + b) + c, "", "");
    Glue(a + b, c, tail);
    Glue(a, b, c + tail);
    hide WholeText, FractionText, ExponentText;
  }

  lemma DoubleScans(t: NumberText, tail: string)
    requires t.Valid() && t.IsDouble() && tail != "" && tail[0] == 'i'
    requires var s2 := ExponentText(t.exponent) + tail;
             && !IsDigit(Peek(FractionText(t.fraction) + s2))
             && (if t.fraction.Some? then !IsDigit(Peek(s2)) else Peek(s2) != '.')
             && (if t.exponent.Some? then !IsDigit(Peek(tail)) else Peek(tail) != 'e' && Peek(tail) != 'E')
    ensures var s2 := ExponentText(t.exponent) + tail;
            ScanNumber(WholeText(t.negative, t.whole) + (FractionText(t.fraction) + s2)).None?
  {
    var s2 := ExponentText(t.exponent) + tail;
    var s1 := FractionText(t.fraction) + s2;
    C.ExponentComplete(t.exponent, tail);
    C.FractionComplete(t.fraction, s2);
    C.WholeComplete(t.whole, s1);
    C.SignComplete(t.negative, t.whole, s1);
    NoSuffix(WholeText(t.negative, t.whole) + s1, t, s1, s2, tail);
    hide *;
  }

  /** ScanNumber where only the suffix is bad, by definition. */
  lemma NoSuffix(s: string, t: NumberText, s1: string, s2: string, s3: string)
    requires t.negative == (Peek(s) == '-') && t.IsDouble() && Peek(s3) == 'i'
    requires ScanWhole(if t.negative then Rest(s) else s) == Option.Some((t.whole, s1))
    requires ScanFraction(s1) == Option.Some((t.fraction, s2))
    requires ScanExponent(s2) == Option.Some((t.exponent, s3))
    ensures ScanNumber(s).None?
  {
    hide ScanWhole, ScanFraction, ScanExponent;
  }

  /** No part of a double runs on into the next, nor the last into an i. */
  lemma DoubleHeads(t: NumberText, tail: string)
    requires t.Valid() && t.IsDouble() && tail != "" && tail[0] == 'i'
    ensures var s2 := ExponentText(t.exponent) + tail;
            && !IsDigit(Peek(FractionText(t.fraction) + s2))
            && (if t.fraction.Some? then !IsDigit(Peek(s2)) else Peek(s2) != '.')
            && (if t.exponent.Some? then !IsDigit(Peek(tail)) else Peek(tail) != 'e' && Peek(tail) != 'E')
  {
    var s2 := ExponentText(t.exponent) + tail;
    assert Peek(s2) == if t.exponent.Some? then t.exponent.value.mark else 'i';
    assert Peek(FractionText(t.fraction) + s2) == if t.fraction.Some? then '.' else Peek(s2);
  }

  /** A zero in front of another digit, and a minus sign in front of none. */
  lemma WholeRefused(fits: DoubleRange, negative: bool, s: string)
    requires (|s| > 1 && s[0] == '0' && '0' <= s[1] <= '9') || (negative && NoDigit(s))
    ensures Parse(fits, WholeText(negative, s)) == Rejected(BAD_VALUE, [])
  {
    var t := WholeText(negative, s);
    if negative {
      C.Unfront('-', s);
    } else {
      assert t == s;
    }
    hide ScanFraction, ScanExponent, ScanSuffix;
    assert s != "" ==> Rest(s) == s[1..];
    assert ScanWhole(s).None?;
    AtWhole(fits, t);
  }

  // ------------------------------------------------------------------ values

  /** The characters a value may begin with. */
  const FIRST := "ntf\"[{-0123456789NI"

  /** What begins no value; the end of the text is another error. */
  lemma ValueRefused(fits: DoubleRange, w: string, s: string)
    requires AllWs(w) && (s == "" || (!IsWs(s[0]) && s[0] !in FIRST))
    ensures Parse(fits, w + s) == Rejected(if s == "" then EXPECT_VALUE else BAD_VALUE, [])
  {
    SkipWsOver(w, s);
    if s != "" {
      forall c: char | c in "ntf\"[{-NI" || IsDigit(c) ensures c in FIRST {
        FirstHas(c);
      }
      NoNumber(s);
    }
    hide ParseNumber;
  }

  lemma FirstHas(c: char)
    requires c in "ntf\"[{-NI" || IsDigit(c)
    ensures c in FIRST
  {
    assert FIRST[0] == 'n' && FIRST[1] == 't' && FIRST[2] == 'f' && FIRST[3] == '"' && FIRST[4] == '[';
    assert FIRST[5] == '{' && FIRST[6] == '-' && FIRST[17] == 'N' && FIRST[18] == 'I';
    if IsDigit(c) {
      assert FIRST[7 + (c as int - '0' as int)] == c;
    }
  }

  lemma NoNumber(s: string)
    requires s != "" && s[0] != '-' && !IsDigit(s[0])
    ensures ScanNumber(s).None?
  {
  }

  const LITERALS := ["null", "true", "false", "NaN", "Infinity"]

  /** What begins as a literal and is none. */
  lemma LiteralRefused(fits: DoubleRange, k: nat, s: string)
    requires k < |LITERALS| && s != "" && s[0] == LITERALS[k][0] && !(LITERALS[k] <= s)
    ensures Parse(fits, s) == Rejected(BAD_VALUE, [])
  {
    assert SkipWs(s) == s;
    if k == 3 || k == 4 {
      C.AtNumber(fits, s);
    }
  }

  /** A value and then, behind white space, anything more. */
  lemma MoreRefused(fits: DoubleRange, w: string, v: Syntax, after: string, x: string)
    requires AllWs(w) && Valid(fits, v) && AllWs(after) && x != "" && !IsWs(x[0]) && C.Ends(after + x)
    ensures Parse(fits, w + (Show(v) + (after + x))) == Rejected(ROOT_NOT_SINGULAR, Meaning(fits, v))
  {
    C.SkipToValue(fits, w, v, after + x);
    C.ValueComplete(fits, v, after + x);
    SkipWsOver(after, x);
    hide ParseValue, Show, Meaning, SkipWs;
  }

  // -------------------------------------------------------------- containers

  /** Behind an element neither a comma nor a bracket. */
  lemma ArrayRefused(fits: DoubleRange, gap: string, v: Syntax, after: string, x: string)
    requires AllWs(gap) && Valid(fits, v) && AllWs(after) && C.Ends(after + x)
    requires x == "" || (!IsWs(x[0]) && x[0] !in ",]")
    ensures Parse(fits, "[" + (gap + (Show(v) + (after + x)))) ==
            Rejected(MISS_COMMA_OR_SQUARE_BRACKET, [StartArray] + Meaning(fits, v))
  {
    var t := Show(v) + (after + x);
    var s := "[" + (gap + t);
    C.Unfront('[', gap + t);
    C.SkipToValue(fits, gap, v, after + x);
    C.ValueHead(fits, v);
    assert t[0] == Show(v)[0] && SkipWs(s) == s;
    C.AtArray(fits, s, t);
    C.ValueComplete(fits, v, after + x);
    SkipWsOver(after, x);
    BehindElement(fits, t);
    hide ParseValue, ParseElements, Show, Meaning, SkipWs;
  }

  /** In an object, no key where one must be. */
  lemma KeyRefused(fits: DoubleRange, gap: string, x: string)
    requires AllWs(gap) && (x == "" || (!IsWs(x[0]) && x[0] !in "\"}"))
    ensures Parse(fits, "{" + (gap + x)) == Rejected(MISS_KEY, [StartObject])
  {
    var s := "{" + (gap + x);
    C.Unfront('{', gap + x);
    SkipWsOver(gap, x);
    assert SkipWs(s) == s;
    C.AtObject(fits, s, x);
    Glue([StartObject], [], []);
    hide ParseValue, SkipWs, ParseMember;
  }

  lemma InObject(fits: DoubleRange, gap: string, key: seq<Item>, r: string)
    requires AllWs(gap)
    ensures var t := ShowString(key) + r;
            Peek(t) == '"' && ParseValue(fits, SkipWs("{" + (gap + t))) == ParseMembers(fits, t).After([StartObject])
  {
    var t := ShowString(key) + r;
    var s := "{" + (gap + t);
    C.Unfront('{', gap + t);
    assert t[0] == '"';
    SkipWsOver(gap, t);
    assert SkipWs(s) == s;
    C.AtObject(fits, s, t);
    hide ParseValue, SkipWs, ParseMembers, ShowItems;
  }

  /** Behind a key no colon. */
  lemma ColonRefused(fits: DoubleRange, gap: string, key: seq<Item>, pre: string, x: string)
    requires AllWs(gap) && ValidItems(key) && AllWs(pre) && (x == "" || (!IsWs(x[0]) && x[0] != ':'))
    ensures Parse(fits, "{" + (gap + (ShowString(key) + (pre + x)))) ==
            Rejected(MISS_COLON, [StartObject, Key(ItemsText(key))])
  {
    InObject(fits, gap, key, pre + x);
    C.StringComplete(key, true, pre + x);
    SkipWsOver(pre, x);
    BehindMember(fits, ShowString(key) + (pre + x));
    hide ParseValue, ParseMembers, SkipWs, ShowString, ItemsText;
    assert [StartObject] + [Key(ItemsText(key))] == [StartObject, Key(ItemsText(key))];
  }

  /** Behind a member neither a comma nor a bracket. */
  lemma ObjectRefused(fits: DoubleRange, gap: string, p: Pair, after: string, x: string)
    requires AllWs(gap) && ValidPair(fits, p) && AllWs(after) && C.Ends(after + x)
    requires x == "" || (!IsWs(x[0]) && x[0] !in ",}")
    ensures Parse(fits, "{" + (gap + (ShowPair(p) + (after + x)))) ==
            Rejected(MISS_COMMA_OR_CURLY_BRACKET, [StartObject] + PairMeaning(fits, p))
  {
    C.PairComplete(fits, p, after + x);
    InObject(fits, gap, p.key, (p.preColon + (":" + (p.postColon + Show(p.value)))) + (after + x));
    Glue(ShowString(p.key), p.preColon + (":" + (p.postColon + Show(p.value))), after + x);
    SkipWsOver(after, x);
    BehindMember(fits, ShowPair(p) + (after + x));
    hide ParseValue, ParseMembers, ParseMember, SkipWs, Show, ShowString, PairMeaning;
  }
}
