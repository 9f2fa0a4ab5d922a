/** What the reader makes of single characters, escapes and integers, stated over
    tables of characters and not over the reader's own functions. */
module ReaderTables {
  import opened Text
  import opened Json
  import opened ReaderSpec
  import opened Grammar
  import C = ReaderComplete
  import ReaderSound
  import Utf8

  // ------------------------------------------------------ hexadecimal digits

  const LOWER := "0123456789abcdef"
  const UPPER := "0123456789ABCDEF"

  /** The digit of value d, in either case. */
  function Digit(d: nat, upper: bool): char
    requires d < 16
  {
    if upper then UPPER[d] else LOWER[d]
  }

  lemma DigitHas(d: nat, upper: bool)
    requires d < 16
    ensures IsHex(Digit(d, upper)) && HexOf(Digit(d, upper)) == d
  {
  }

  /** The digits of the two tables, and no other characters, are hexadecimal digits. */
  lemma HexExactly(c: char)
    ensures IsHex(c) <==> exists d: nat, upper: bool :: d < 16 && c == Digit(d, upper)
  {
    if IsHex(c) {
      var upper := 'A' <= c <= 'F';
      var d := HexOf(c);
      assert c == Digit(d, upper);
    }
    forall d: nat, upper: bool | d < 16 && c == Digit(d, upper) ensures IsHex(c) {
      DigitHas(d, upper);
    }
  }

  /** The four digits of u, each in the case that `cases` says. */
  function Four(u: nat, cases: seq<bool>): string
    requires u <= 0xFFFF && |cases| == 4
  {
    [Digit(u / 0x1000, cases[0]), Digit(u / 0x100 % 0x10, cases[1]),
     Digit(u / 0x10 % 0x10, cases[2]), Digit(u % 0x10, cases[3])]
  }

  lemma FourDigits(a: nat, b: nat, c: nat, d: nat, u: nat)
    requires u <= 0xFFFF && a == u / 0x1000 && b == u / 0x100 % 0x10 && c == u / 0x10 % 0x10 && d == u % 0x10
    ensures a < 16 && ((a * 16 + b) * 16 + c) * 16 + d == u
  {
  }

  lemma FourHas(u: nat, cases: seq<bool>)
    requires u <= 0xFFFF && |cases| == 4
    ensures |Four(u, cases)| == 4 && AllHex(Four(u, cases)) && HexValue(Four(u, cases)) == u
  {
    DigitHas(u / 0x1000, cases[0]);
    DigitHas(u / 0x100 % 0x10, cases[1]);
    DigitHas(u / 0x10 % 0x10, cases[2]);
    DigitHas(u % 0x10, cases[3]);
    FourDigits(u / 0x1000, u / 0x100 % 0x10, u / 0x10 % 0x10, u % 0x10, u);
    hide Digit, HexOf, IsHex;
  }

  // ----------------------------------------------------------------- escapes

  /** A literal with one item, alone in a text. */
  lemma OneItem(fits: DoubleRange, i: Item)
    requires ValidItem(i)
    ensures Parse(fits, "\"" + (ShowItem(i) + "\"")) == Accepted([Event.String(ItemText(i))])
  {
    var v := Syntax.String([i]);
    assert [i][1..] == [];
    assert ShowItems([]) == [] && ItemsText([]) == [];
    assert ShowItems([i]) == ShowItem(i) + [] && ItemsText([i]) == ItemText(i) + [];
    Glue(ShowItem(i), [], []);
    Glue(ItemText(i), [], []);
    var d := Grammar.Document.Document("", v, "");
    C.ParseComplete(fits, d);
    var t := ShowString([i]);
    Glue(t, [], []);
    assert ShowDocument(d) == t;
  }

  /** Four digits in any case behind `\u` are read as the bytes of the code they stand
      for, and those decode to that code. */
  lemma UnicodeRead(fits: DoubleRange, u: nat, cases: seq<bool>)
    requires u <= 0xFFFF && !(0xD800 <= u <= 0xDBFF) && |cases| == 4
    ensures ValidItem(Unicode(Four(u, cases))) && ItemText(Unicode(Four(u, cases))) == Utf8.Encode(u)
    ensures Parse(fits, "\"" + (("\\u" + Four(u, cases)) + "\"")) == Accepted([Event.String(Utf8.Encode(u))])
    ensures Utf8.Decode(Utf8.Encode(u)) == Option.Some((u, ""))
  {
    FourHas(u, cases);
    OneItem(fits, Unicode(Four(u, cases)));
    Utf8.EncodeDecode(u, "");
    Glue(Utf8.Encode(u), "", "");
    hide Utf8.Encode, Utf8.Decode, Four, Parse;
  }

  /** A code beyond 0xFFFF is read from the pair that UTF-16 splits it into. */
  lemma PairRead(fits: DoubleRange, u: nat, high: seq<bool>, low: seq<bool>)
    requires 0x10000 <= u <= 0x10FFFF && |high| == 4 && |low| == 4
    ensures var (h, l) := Utf8.Split(u);
            var i := Surrogates(Four(h, high), Four(l, low));
            && ValidItem(i) && ItemText(i) == Utf8.Encode(u)
            && Parse(fits, "\"" + ((("\\u" + Four(h, high)) + "\\u" + Four(l, low)) + "\""))
               == Accepted([Event.String(Utf8.Encode(u))])
    ensures Utf8.Decode(Utf8.Encode(u)) == Option.Some((u, ""))
  {
    var (h, l) := Utf8.Split(u);
    Utf8.CombineSplit(u, h, l);
    FourHas(h, high);
    FourHas(l, low);
    OneItem(fits, Surrogates(Four(h, high), Four(l, low)));
    Utf8.EncodeDecode(u, "");
    Glue(Utf8.Encode(u), "", "");
    hide Utf8.Encode, Utf8.Decode, Four, Parse, Utf8.Split, Utf8.Combine;
  }

  /** The short escapes of section 7 of RFC 8259 and the codes they stand for. */
  const ESCAPES: seq<(char, int)> := [('"', 0x22), ('\\', 0x5C), ('/', 0x2F), ('b', 0x08), ('f', 0x0C),
                                      ('n', 0x0A), ('r', 0x0D), ('t', 0x09)]

  lemma ShortRead(fits: DoubleRange, k: nat)
    requires k < |ESCAPES|
    ensures var (c, code) := ESCAPES[k];
            ValidItem(Escape(c)) && |ItemText(Escape(c))| == 1 && ItemText(Escape(c))[0] as int == code
            && Parse(fits, "\"" + (("\\" + [c]) + "\"")) == Accepted([Event.String(ItemText(Escape(c)))])
  {
    OneItem(fits, Escape(ESCAPES[k].0));
  }

  /** And there are no other short escapes. */
  lemma ShortExactly(c: char)
    ensures SimpleEscape(c).Some? <==> exists k :: 0 <= k < |ESCAPES| && ESCAPES[k].0 == c
  {
    if SimpleEscape(c).Some? {
      var k :=
        if c == '"' then 0 else if c == '\\' then 1 else if c == '/' then 2 else if c == 'b' then 3
        else if c == 'f' then 4 else if c == 'n' then 5 else if c == 'r' then 6 else 7;
      assert ESCAPES[k].0 == c;
    }
  }

  /** The characters that may stand for themselves in a string. */
  lemma RawExactly(c: char)
    ensures ValidItem(Raw(c)) <==> c as int == 0 || (c as int >= 0x20 && c as int != 0x22 && c as int != 0x5C)
  {
  }

  // ------------------------------------------------------ white space, numbers

  /** The white space of section 2 of RFC 8259, by its codes: what may stand in front of
      a value. */
  lemma WhiteSpaceExactly(fits: DoubleRange, c: char)
    ensures Parse(fits, [c] + "null") == Accepted([Event.Null]) <==> c as int in {0x20, 0x09, 0x0A, 0x0D}
  {
    var s := [c] + "null";
    if IsWs(c) {
      var d := Grammar.Document.Document([c], Syntax.Null, "");
      C.ParseComplete(fits, d);
      assert ShowDocument(d) == s;
    } else if Parse(fits, s) == Accepted([Event.Null]) {
      var d := ReaderSound.ParseSound(fits, s);
      NullBehind(fits, d, c);
    }
    hide *;
  }

  lemma NullBehind(fits: DoubleRange, d: Grammar.Document, c: char)
    requires ValidDocument(fits, d) && Meaning(fits, d.value) == [Event.Null]
    requires ShowDocument(d) == [c] + "null"
    ensures IsWs(c)
  {
    OnlyNull(fits, d.value);
    var s, t := [c] + "null", "null" + d.trail;
    assert s == d.lead + t && s[1] == 'n' && t[1] == 'u';
    assert d.lead != "" && s[0] == d.lead[0];
  }

  lemma OnlyNull(fits: DoubleRange, v: Syntax)
    requires Valid(fits, v) && Meaning(fits, v) == [Event.Null]
    ensures Show(v) == "null"
  {
    assert Meaning(fits, v)[0] == Event.Null;
  }

  /** What an integer with a suffix becomes, in decimal constants. */
  function IntegerEvent(n: int, suffix: string): Option<Event> {
    var in32 := -2147483648 <= n <= 2147483647;
    var in64 := -9223372036854775808 <= n <= 9223372036854775807;
    if suffix == "i32" then if in32 then Option.Some(Event.Int32(n)) else Option.None
    else if suffix == "" && in32 then Option.Some(Event.Int32(n))
    else if in64 then Option.Some(Event.Int64(n)) else Option.None
  }

  /** Every integer, with no suffix or either one, is read as itself, as an Int32 or an
      Int64 by suffix and size, or is too big. */
  lemma IntegerRead(fits: DoubleRange, n: int, suffix: string)
    requires suffix in {"", "i32", "i64"}
    ensures Parse(fits, DecimalInt(n) + suffix) ==
            match IntegerEvent(n, suffix)
            case Some(e) => Accepted([e])
            case None => Rejected(NUMBER_TOO_BIG, [])
  {
    var t := NumberText(n < 0, Decimal(if n < 0 then -n else n), Option.None, Option.None,
                        if suffix == "" then Plain else if suffix == "i32" then I32 else I64);
    SuffixedNumber(n, t, suffix);
    NumberAlone(fits, t);
    assert t.Meaning(fits) == IntegerEvent(n, suffix);
    hide *;
  }

  lemma NumberAlone(fits: DoubleRange, t: NumberText)
    requires t.Valid()
    ensures Parse(fits, t.Show()) ==
            match t.Meaning(fits) { case Some(e) => Accepted([e]) case None => Rejected(NUMBER_TOO_BIG, []) }
  {
    C.ScanNumberComplete(t, "");
    C.NumberHead(t);
    var s := t.Show();
    Glue(s, "", "");
    assert SkipWs(s) == s && SkipWs("") == "";
    C.AtNumber(fits, s);
    hide ScanNumber, ParseValue, NumberText.Meaning, NumberText.Valid, NumberText.Show;
  }

  /** A number with a fraction or an exponent is read as the double of its own text if
      that is in range, and is too big if not. */
  lemma DoubleRead(fits: DoubleRange, t: NumberText)
    requires t.Valid() && t.IsDouble()
    ensures Parse(fits, t.Show()) ==
            if fits(t.Show()) then Accepted([Event.Double(t.Show())]) else Rejected(NUMBER_TOO_BIG, [])
  {
    NumberAlone(fits, t);
    hide Parse, NumberText.Show;
  }

  lemma SuffixedNumber(n: int, t: NumberText, suffix: string)
    requires suffix in {"", "i32", "i64"}
    requires t == NumberText(n < 0, Decimal(if n < 0 then -n else n), Option.None, Option.None,
                             if suffix == "" then Plain else if suffix == "i32" then I32 else I64)
    ensures t.Valid() && t.Show() == DecimalInt(n) + suffix && !t.IsDouble()
    ensures t.Integer() == n
  {
    var m: nat := if n < 0 then -n else n;
    DecimalLeading(m);
    DecimalValue(m);
    Glue(WholeText(n < 0, Decimal(m)), "", "");
    assert SuffixText(t.suffix) == suffix;
    assert "" + Decimal(m) == Decimal(m);
  }
}
