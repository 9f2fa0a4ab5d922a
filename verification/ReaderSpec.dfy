/** What the recursive-descent reader computes, as functions on the text that
    is left to read.  `Peek` and `Rest` are the stream's peek() and next(): at
    the end of the text both yield '\0'. */
module ReaderSpec {
  import opened Text
  import opened Json
  import Utf8

  /** The error codes other than PARSE_OK. */
  datatype ParseError =
    | ROOT_NOT_SINGULAR
    | BAD_VALUE
    | EXPECT_VALUE
    | NUMBER_TOO_BIG
    | BAD_STRING_CHAR
    | BAD_STRING_ESCAPE
    | BAD_UNICODE_HEX
    | BAD_UNICODE_SURROGATE
    | MISS_QUOTATION_MARK
    | MISS_COMMA_OR_SQUARE_BRACKET
    | MISS_KEY
    | MISS_COLON
    | MISS_COMMA_OR_CURLY_BRACKET

  /** Whether strtod converts a text without a range error.  Every theorem holds
      for any such predicate. */
  type DoubleRange = string -> bool

  function Peek(s: string): char { if s == [] then '\0' else s[0] }

  function Rest(s: string): (r: string)
    ensures |r| <= |s|
  {
    if s == [] then [] else s[1..]
  }

  /** The outcome of one parse function: the text that is left, or the error it
      throws; in both cases the events sent to the handler on the way. */
  datatype Scan =
    | Scanned(rest: string, events: seq<Event>)
    | Stopped(err: ParseError, events: seq<Event>)
  {
    /** The same outcome, with events that were sent before it. */
    function After(before: seq<Event>): Scan {
      match this
      case Scanned(r, es) => Scanned(r, before + es)
      case Stopped(e, es) => Stopped(e, before + es)
    }
  }

  // --------------------------------------------------------------- literals

  function ParseLiteral(s: string, literal: string, e: Event): (r: Scan)
    requires literal != []
    ensures r.Scanned? ==> |r.rest| < |s|
  {
    if literal <= s then Scanned(s[|literal|..], [e]) else Stopped(BAD_VALUE, [])
  }

  // ---------------------------------------------------------------- numbers

  datatype Suffix = Plain | I32 | I64

  datatype Exponent = Exponent(mark: char, sign: string, digits: string)

  /** The parts of a number, as they stand in the text. */
  datatype NumberText = NumberText(
    negative: bool, whole: string, fraction: Option<string>,
    exponent: Option<Exponent>, suffix: Suffix)
  {
    predicate IsDouble() { fraction.Some? || exponent.Some? }

    function Show(): string {
      WholeText(negative, whole) + FractionText(fraction) + ExponentText(exponent)
      + SuffixText(suffix)
    }

    /** The grammar of numbers: section 6 of RFC 8259 and the two suffixes. */
    predicate Valid() {
      && AllDigits(whole) && whole != [] && (whole[0] == '0' ==> whole == "0")
      && (fraction.Some? ==> fraction.value != [] && AllDigits(fraction.value))
      && (exponent.Some? ==> ValidExponent(exponent.value))
      && (IsDouble() ==> suffix.Plain?)
    }

    /** The integer that the whole part denotes. */
    function Integer(): int
      requires Valid()
    {
      var n: int := DigitsValue(whole);
      if negative then -n else n
    }

    /** The event of a number, or None where the conversion is out of range. */
    function Meaning(fits: DoubleRange): (e: Option<Event>)
      requires Valid()
      ensures e.Some? ==> IsScalar(e.value)
    {
      var n := Integer();
      if IsDouble() then
        if fits(Show()) then Some(Event.Double(Show())) else None
      else if !InInt64(n) then None
      else match suffix
           case I64 => Some(Event.Int64(n))
           case I32 => if InInt32(n) then Some(Event.Int32(n)) else None
           case Plain => Some(if InInt32(n) then Event.Int32(n) else Event.Int64(n))
    }
  }

  function WholeText(negative: bool, whole: string): string {
    (if negative then "-" else "") + whole
  }

  function FractionText(f: Option<string>): string {
    match f case None => "" case Some(d) => "." + d
  }

  function ExponentText(e: Option<Exponent>): string {
    match e case None => "" case Some(x) => [x.mark] + x.sign + x.digits
  }

  function SuffixText(x: Suffix): string {
    match x case Plain => "" case I32 => "i32" case I64 => "i64"
  }

  predicate ValidExponent(e: Exponent) {
    && (e.mark == 'e' || e.mark == 'E')
    && (e.sign == "" || e.sign == "+" || e.sign == "-")
    && e.digits != [] && AllDigits(e.digits)
  }

  /** A piece of text and what follows it; None stands for BAD_VALUE. */
  type Piece<T> = Option<(T, string)>

  /** A zero alone, or digits that do not begin with a zero. */
  function ScanWhole(s: string): Piece<string> {
    if Peek(s) == '0' then
      if IsDigit(Peek(Rest(s))) then None else Some(("0", Rest(s)))
    else
      var d := LeadDigits(s);
      if d == [] then None else Some((d, s[|d|..]))
  }

  function ScanFraction(s: string): Piece<Option<string>> {
    if Peek(s) != '.' then Some((None, s))
    else
      var d := LeadDigits(Rest(s));
      if d == [] then None else Some((Option.Some(d), Rest(s)[|d|..]))
  }

  function ScanExponent(s: string): Piece<Option<Exponent>> {
    if Peek(s) != 'e' && Peek(s) != 'E' then Some((None, s))
    else
      var t := Rest(s);
      var sign := if Peek(t) == '+' || Peek(t) == '-' then [Peek(t)] else "";
      var u := if sign == "" then t else Rest(t);
      var d := LeadDigits(u);
      if d == [] then None else Some((Option.Some(Exponent(Peek(s), sign, d)), u[|d|..]))
  }

  function ScanSuffix(s: string, isDouble: bool): Piece<Suffix> {
    if Peek(s) != 'i' then Some((Plain, s))
    else if isDouble then None
    else if "i32" <= s then Some((I32, s[3..]))
    else if "i64" <= s then Some((I64, s[3..]))
    else None
  }

  function ScanNumber(s: string): Piece<NumberText> {
    var negative := Peek(s) == '-';
    match ScanWhole(if negative then Rest(s) else s)
    case None => None
    case Some((whole, s1)) =>
      match ScanFraction(s1)
      case None => None
      case Some((fraction, s2)) =>
        match ScanExponent(s2)
        case None => None
        case Some((exponent, s3)) =>
          match ScanSuffix(s3, fraction.Some? || exponent.Some?)
          case None => None
          case Some((suffix, s4)) =>
            Some((NumberText(negative, whole, fraction, exponent, suffix), s4))
  }

  lemma ScanWholeSound(s: string)
    requires ScanWhole(s).Some?
    ensures var (d, r) := ScanWhole(s).value;
            s == d + r && d != [] && AllDigits(d) && (d[0] == '0' ==> d == "0")
  {
    LeadDigitsSplits(s);
  }

  lemma SignedWhole(s: string, negative: bool, d: string, r: string)
    requires negative == (Peek(s) == '-')
    requires (if negative then Rest(s) else s) == d + r
    ensures s == WholeText(negative, d) + r
  {
  }

  lemma ScanFractionSound(s: string)
    requires ScanFraction(s).Some?
    ensures var (f, r) := ScanFraction(s).value;
            s == FractionText(f) + r && (f.Some? ==> f.value != [] && AllDigits(f.value))
  {
    LeadDigitsSplits(Rest(s));
  }

  lemma ScanExponentSound(s: string)
    requires ScanExponent(s).Some?
    ensures var (e, r) := ScanExponent(s).value;
            s == ExponentText(e) + r && (e.Some? ==> ValidExponent(e.value))
  {
    if Peek(s) == 'e' || Peek(s) == 'E' {
      var t := Rest(s);
      var sign := if Peek(t) == '+' || Peek(t) == '-' then [Peek(t)] else "";
      var u := if sign == "" then t else Rest(t);
      LeadDigitsSplits(u);
      Joined(s, s[0], t, sign, u, LeadDigits(u), u[|LeadDigits(u)|..]);
    }
  }

  lemma Joined(s: string, mark: char, t: string, sign: string, u: string, d: string, r: string)
    requires s == [mark] + t && t == sign + u && u == d + r
    ensures s == [mark] + sign + d + r
  {
  }

  lemma ScanSuffixSound(s: string, isDouble: bool)
    requires ScanSuffix(s, isDouble).Some?
    ensures var (x, r) := ScanSuffix(s, isDouble).value;
            s == SuffixText(x) + r && (isDouble ==> x.Plain?)
  {
  }

  lemma Chain(s: string, a: string, s1: string, b: string, s2: string, c: string, s3: string,
              d: string, r: string)
    requires s == a + s1 && s1 == b + s2 && s2 == c + s3 && s3 == d + r
    ensures s == a + b + c + d + r
  {
    assert a + (b + (c + (d + r))) == a + b + c + d + r;
  }

  /** The four scans that make up a scanned number. */
  lemma ScanNumberParts(s: string) returns (s1: string, s2: string, s3: string)
    requires ScanNumber(s).Some?
    ensures var (t, r) := ScanNumber(s).value;
            && t.negative == (Peek(s) == '-')
            && ScanWhole(if t.negative then Rest(s) else s) == Some((t.whole, s1))
            && ScanFraction(s1) == Some((t.fraction, s2))
            && ScanExponent(s2) == Some((t.exponent, s3))
            && ScanSuffix(s3, t.IsDouble()) == Some((t.suffix, r))
  {
    var s0 := if Peek(s) == '-' then Rest(s) else s;
    s1 := ScanWhole(s0).value.1;
    s2 := ScanFraction(s1).value.1;
    s3 := ScanExponent(s2).value.1;
  }

  /** A scanned number is exactly the text in front of what is left. */
  lemma ScanNumberSound(s: string)
    requires ScanNumber(s).Some?
    ensures var (t, r) := ScanNumber(s).value;
            t.Valid() && s == t.Show() + r && |r| < |s|
  {
    var (t, r) := ScanNumber(s).value;
    var s1, s2, s3 := ScanNumberParts(s);
    ScanWholeSound(if t.negative then Rest(s) else s);
    SignedWhole(s, t.negative, t.whole, s1);
    ScanFractionSound(s1);
    ScanExponentSound(s2);
    ScanSuffixSound(s3, t.IsDouble());
    Chain(s, WholeText(t.negative, t.whole), s1, FractionText(t.fraction), s2,
          ExponentText(t.exponent), s3, SuffixText(t.suffix), r);
  }

  function ParseNumber(fits: DoubleRange, s: string): (r: Scan)
    ensures r.Scanned? ==> |r.rest| < |s|
  {
    if Peek(s) == 'N' then ParseLiteral(s, "NaN", Event.Double("NaN"))
    else if Peek(s) == 'I' then ParseLiteral(s, "Infinity", Event.Double("Infinity"))
    else match ScanNumber(s)
         case None => Stopped(BAD_VALUE, [])
         case Some((t, rest)) =>
           ScanNumberSound(s);
           match t.Meaning(fits)
           case None => Stopped(NUMBER_TOO_BIG, [])
           case Some(e) => Scanned(rest, [e])
  }

  // ---------------------------------------------------------------- strings

  predicate IsHex(c: char) { '0' <= c <= '9' || 'a' <= c <= 'f' || 'A' <= c <= 'F' }

  function HexOf(c: char): (d: nat)
    requires IsHex(c)
    ensures d < 16
  {
    if c <= '9' then c as int - '0' as int
    else if 'a' <= c then c as int - 'a' as int + 10
    else c as int - 'A' as int + 10
  }

  predicate AllHex(h: string) { forall i :: 0 <= i < |h| ==> IsHex(h[i]) }

  function HexValue(h: string): (u: nat)
    requires |h| == 4 && AllHex(h)
    ensures u <= 0xFFFF
  {
    ((HexOf(h[0]) * 16 + HexOf(h[1])) * 16 + HexOf(h[2])) * 16 + HexOf(h[3])
  }

  /** Four hexadecimal digits, or None where there are not four. */
  function ScanHex(s: string): (r: Piece<nat>)
    ensures r.Some? ==> r.value.0 <= 0xFFFF && |s| >= 4 && r.value.1 == s[4..]
  {
    if |s| >= 4 && AllHex(s[..4]) then Some((HexValue(s[..4]), s[4..])) else None
  }

  /** A decoded piece of a string literal and the text after it. */
  datatype Chars = Chars(text: string, rest: string) | CharsError(err: ParseError) {
    function After(before: string): Chars {
      match this
      case Chars(t, r) => Chars(before + t, r)
      case CharsError(_) => this
    }
  }

  function SimpleEscape(c: char): Option<char> {
    match c
    case '"' => Some('"')
    case '\\' => Some('\\')
    case '/' => Some('/')
    case 'b' => Some(0x08 as char)
    case 'f' => Some(0x0C as char)
    case 'n' => Some('\n')
    case 'r' => Some('\r')
    case 't' => Some('\t')
    case _ => None
  }

  /** What follows a backslash. */
  function ScanEscape(s: string): (r: Chars)
    ensures r.Chars? ==> |r.rest| < |s|
  {
    match SimpleEscape(Peek(s))
    case Some(c) => Chars([c], Rest(s))
    case None =>
      if Peek(s) != 'u' then CharsError(BAD_STRING_ESCAPE)
      else match ScanHex(Rest(s))
           case None => CharsError(BAD_UNICODE_HEX)
           case Some((u, t)) =>
             if !Utf8.IsHigh(u) then Chars(Utf8.Encode(u), t)
             else if !("\\u" <= t) then CharsError(BAD_UNICODE_SURROGATE)
             else match ScanHex(t[2..])
                  case None => CharsError(BAD_UNICODE_HEX)
                  case Some((u2, w)) =>
                    if Utf8.IsLow(u2) then Chars(Utf8.Encode(Utf8.Combine(u, u2)), w)
                    else CharsError(BAD_UNICODE_SURROGATE)
  }

  /** Control characters a string may not hold unescaped; 0x00 is let through. */
  predicate IsControl(c: char) { 0x01 <= c as int <= 0x1F }

  /** The rest of a string literal, past its opening quotation mark. */
  function ScanChars(s: string): (r: Chars)
    ensures r.Chars? ==> |r.rest| < |s|
    decreases |s|
  {
    if s == [] then CharsError(MISS_QUOTATION_MARK)
    else if s[0] == '"' then Chars("", s[1..])
    else if IsControl(s[0]) then CharsError(BAD_STRING_CHAR)
    else if s[0] == '\\' then
      match ScanEscape(s[1..])
      case CharsError(e) => CharsError(e)
      case Chars(t, r) => ScanChars(r).After(t)
    else ScanChars(s[1..]).After([s[0]])
  }

  function ParseString(s: string, isKey: bool): (r: Scan)
    requires Peek(s) == '"'
    ensures r.Scanned? ==> |r.rest| < |s|
  {
    match ScanChars(Rest(s))
    case CharsError(e) => Stopped(e, [])
    case Chars(t, r) => Scanned(r, [if isKey then Key(t) else Event.String(t)])
  }

  // ----------------------------------------------------------------- values

  function ParseValue(fits: DoubleRange, s: string): (r: Scan)
    ensures r.Scanned? ==> |r.rest| < |s|
    decreases |s|, 1
  {
    if s == [] then Stopped(EXPECT_VALUE, [])
    else if s[0] == 'n' then ParseLiteral(s, "null", Event.Null)
    else if s[0] == 't' then ParseLiteral(s, "true", Event.Bool(true))
    else if s[0] == 'f' then ParseLiteral(s, "false", Event.Bool(false))
    else if s[0] == '"' then ParseString(s, false)
    else if s[0] == '[' then ParseArray(fits, s)
    else if s[0] == '{' then ParseObject(fits, s)
    else ParseNumber(fits, s)
  }

  function ParseArray(fits: DoubleRange, s: string): (r: Scan)
    requires Peek(s) == '['
    ensures r.Scanned? ==> |r.rest| < |s|
    decreases |s|, 0
  {
    var t := SkipWs(Rest(s));
    if Peek(t) == ']' then Scanned(Rest(t), [StartArray, EndArray])
    else ParseElements(fits, t).After([StartArray])
  }

  /** The loop of parseArray, from the first character of an element. */
  function ParseElements(fits: DoubleRange, s: string): (r: Scan)
    ensures r.Scanned? ==> |r.rest| < |s|
    decreases |s|, 2
  {
    match ParseValue(fits, s)
    case Stopped(e, es) => Stopped(e, es)
    case Scanned(r, es) =>
      var t := SkipWs(r);
      if Peek(t) == ',' then ParseElements(fits, SkipWs(Rest(t))).After(es)
      else if Peek(t) == ']' then Scanned(Rest(t), es + [EndArray])
      else Stopped(MISS_COMMA_OR_SQUARE_BRACKET, es)
  }

  function ParseObject(fits: DoubleRange, s: string): (r: Scan)
    requires Peek(s) == '{'
    ensures r.Scanned? ==> |r.rest| < |s|
    decreases |s|, 0
  {
    var t := SkipWs(Rest(s));
    if Peek(t) == '}' then Scanned(Rest(t), [StartObject, EndObject])
    else ParseMembers(fits, t).After([StartObject])
  }

  /** One member: its key, the colon and its value. */
  function ParseMember(fits: DoubleRange, s: string): (r: Scan)
    requires Peek(s) == '"'
    ensures r.Scanned? ==> |r.rest| < |s|
    decreases |s|, 2
  {
    match ParseString(s, true)
    case Stopped(e, ks) => Stopped(e, ks)
    case Scanned(r, ks) =>
      var t := SkipWs(r);
      if Peek(t) != ':' then Stopped(MISS_COLON, ks)
      else ParseValue(fits, SkipWs(Rest(t))).After(ks)
  }

  /** The loop of parseObject, from the first character of a member. */
  function ParseMembers(fits: DoubleRange, s: string): (r: Scan)
    ensures r.Scanned? ==> |r.rest| < |s|
    decreases |s|, 3
  {
    if Peek(s) != '"' then Stopped(MISS_KEY, [])
    else match ParseMember(fits, s)
         case Stopped(e, es) => Stopped(e, es)
         case Scanned(r, es) =>
           var t := SkipWs(r);
           if Peek(t) == ',' then ParseMembers(fits, SkipWs(Rest(t))).After(es)
           else if Peek(t) == '}' then Scanned(Rest(t), es + [EndObject])
           else Stopped(MISS_COMMA_OR_CURLY_BRACKET, es)
  }

  // ParseElements and ParseMembers behind one element, by definition.

  lemma BehindElement(fits: DoubleRange, s: string)
    ensures var v := ParseValue(fits, s);
            ParseElements(fits, s) ==
            if v.Stopped? then v
            else
              var t := SkipWs(v.rest);
              if Peek(t) == ',' then ParseElements(fits, SkipWs(Rest(t))).After(v.events)
              else if Peek(t) == ']' then Scanned(Rest(t), [EndArray]).After(v.events)
              else Stopped(MISS_COMMA_OR_SQUARE_BRACKET, v.events)
  {
  }

  lemma BehindMember(fits: DoubleRange, s: string)
    requires Peek(s) == '"'
    ensures var m := ParseMember(fits, s);
            ParseMembers(fits, s) ==
            if m.Stopped? then m
            else
              var t := SkipWs(m.rest);
              if Peek(t) == ',' then ParseMembers(fits, SkipWs(Rest(t))).After(m.events)
              else if Peek(t) == '}' then Scanned(Rest(t), [EndObject]).After(m.events)
              else Stopped(MISS_COMMA_OR_CURLY_BRACKET, m.events)
  {
  }

  /** What parse returns, with the events it sent; PARSE_OK is Accepted. */
  datatype Parsed = Accepted(events: seq<Event>) | Rejected(err: ParseError, events: seq<Event>)

  /** A whole document. */
  function Parse(fits: DoubleRange, s: string): Parsed {
    match ParseValue(fits, SkipWs(s))
    case Stopped(e, es) => Rejected(e, es)
    case Scanned(r, es) => if SkipWs(r) == [] then Accepted(es) else Rejected(ROOT_NOT_SINGULAR, es)
  }
}
