/** The reader as it is written: one cursor that moves over the text, and loops
    that send events as they go.  An exception is an error code that is returned
    and passed on. */
module Reader {
  import opened Text
  import opened Json
  import opened ReaderSpec
  import Utf8

  class StringReadStream {
    const json: string
    var iter: nat

    ghost predicate Valid()
      reads this
    {
      iter <= |json|
    }

    /** The text that is left to read. */
    ghost function Left(): string
      reads this
      requires Valid()
    {
      json[iter..]
    }

    constructor (json: string)
      ensures Valid() && this.json == json && Left() == json
    {
      this.json := json;
      iter := 0;
    }

    predicate HasNext()
      reads this
      requires Valid()
      ensures HasNext() == (Left() != [])
    {
      iter != |json|
    }

    function Look(): (c: char)
      reads this
      requires Valid()
      ensures c == Peek(Left())
    {
      if HasNext() then json[iter] else '\0'
    }

    method Next() returns (c: char)
      requires Valid()
      modifies this
      ensures Valid()
      ensures c == Peek(old(Left())) && Left() == Rest(old(Left()))
    {
      if HasNext() {
        c := json[iter];
        iter := iter + 1;
      } else {
        c := '\0';
      }
    }

    /** Its precondition is the assertion of the source. */
    method AssertNext(c: char)
      requires Valid() && Look() == c
      modifies this
      ensures Valid() && Left() == Rest(old(Left()))
    {
      var _ := Next();
    }
  }

  /** A handler that accepts every event, seen through the events it gets. */
  class EventLog {
    var events: seq<Event>

    constructor ()
      ensures events == []
    {
      events := [];
    }

    method Send(e: Event)
      modifies this
      ensures events == old(events) + [e]
    {
      events := events + [e];
    }
  }

  /** A method did what a scan says: it sent the scan's events, and it left the
      scan's rest or threw the scan's error. */
  ghost predicate Did(r: Scan, thrown: Option<ParseError>, left: string,
                      before: seq<Event>, after: seq<Event>) {
    && after == before + r.events
    && match r
       case Scanned(rest, _) => thrown.None? && left == rest
       case Stopped(e, _) => thrown == Some(e)
  }

  /** Running one scan after another has sent `sent`. */
  lemma DidAfter(r: Scan, sent: seq<Event>, thrown: Option<ParseError>, left: string,
                 before: seq<Event>, between: seq<Event>, after: seq<Event>)
    requires between == before + sent && Did(r, thrown, left, between, after)
    ensures Did(r.After(sent), thrown, left, before, after)
  {
  }

  lemma AfterTwice(r: Scan, a: seq<Event>, b: seq<Event>)
    ensures r.After(b).After(a) == r.After(a + b)
  {
    Glue(a, b, r.events);
  }

  method ParseWhitespace(input: StringReadStream)
    requires input.Valid()
    modifies input
    ensures input.Valid() && input.Left() == SkipWs(old(input.Left()))
  {
    ghost var s := input.Left();
    while input.HasNext()
      invariant input.Valid() && SkipWs(input.Left()) == SkipWs(s)
      decreases |input.Left()|
    {
      var c := input.Look();
      if c == ' ' || c == '\t' || c == '\r' || c == '\n' {
        var _ := input.Next();
      } else {
        break;
      }
    }
  }

  method ParseLiteral(input: StringReadStream, log: EventLog, literal: string, e: Event)
    returns (thrown: Option<ParseError>)
    requires input.Valid()
    requires literal != [] && literal[0] == input.Look()
    requires forall i :: 0 <= i < |literal| ==> literal[i] != '\0'
    modifies input, log
    ensures input.Valid()
    ensures Did(ReaderSpec.ParseLiteral(old(input.Left()), literal, e), thrown, input.Left(),
                old(log.events), log.events)
  {
    ghost var s := input.Left();
    input.AssertNext(literal[0]);
    var k := 1;
    while k < |literal| && literal[k] == input.Look()
      invariant input.Valid() && 1 <= k <= |literal| && k <= |s|
      invariant input.Left() == s[k..] && literal[..k] == s[..k]
      invariant log.events == old(log.events)
    {
      var _ := input.Next();
      k := k + 1;
    }
    if k == |literal| {
      assert literal <= s;
      log.Send(e);
      return None;
    }
    assert k < |s| ==> s[k] == input.Left()[0];
    return Some(BAD_VALUE);
  }

  method SkipDigits(input: StringReadStream)
    requires input.Valid()
    modifies input
    ensures input.Valid()
    ensures var s := old(input.Left()); input.Left() == s[|LeadDigits(s)|..]
  {
    ghost var s := input.Left();
    ghost var n := 0;
    while IsDigit(input.Look())
      invariant input.Valid() && n <= |s| && input.Left() == s[n..]
      invariant |LeadDigits(s)| == n + |LeadDigits(input.Left())|
      decreases |input.Left()|
    {
      var _ := input.Next();
      n := n + 1;
    }
  }

  /** strtol on the text of a number: a sign and the digits at the front. */
  function Strtol(s: string): int {
    var n: int := DigitsValue(LeadDigits(if Peek(s) == '-' then Rest(s) else s));
    if Peek(s) == '-' then -n else n
  }

  lemma StrtolInteger(t: NumberText)
    requires t.Valid() && !t.IsDouble()
    ensures Strtol(t.Show()) == t.Integer()
  {
    var d, x := t.whole, SuffixText(t.suffix);
    assert t.Show() == WholeText(t.negative, d) + x;
    LeadDigitsOver(d, x);
    if t.negative {
      assert t.Show() == ['-'] + (d + x);
    } else {
      assert t.Show() == d + x;
    }
  }

  /** parseNumber up to the end of the number's text, part by part. */
  method ScanNumberText(input: StringReadStream)
    returns (thrown: bool, isDouble: bool, suffix: Suffix)
    requires input.Valid()
    modifies input
    ensures input.Valid()
    ensures match ScanNumber(old(input.Left()))
            case None => thrown
            case Some((t, rest)) =>
              !thrown && isDouble == t.IsDouble() && suffix == t.suffix && input.Left() == rest
  {
    isDouble, suffix := false, Plain;
    if input.Look() == '-' {
      var _ := input.Next();
    }
    thrown := ScanWholeText(input);
    if thrown {
      return;
    }
    var hasFraction;
    thrown, hasFraction := ScanFractionText(input);
    if thrown {
      return;
    }
    var hasExponent;
    thrown, hasExponent := ScanExponentText(input);
    if thrown {
      return;
    }
    isDouble := hasFraction || hasExponent;
    thrown, suffix := ScanSuffixText(input, isDouble);
  }

  method ScanWholeText(input: StringReadStream) returns (thrown: bool)
    requires input.Valid()
    modifies input
    ensures input.Valid()
    ensures match ScanWhole(old(input.Left()))
            case None => thrown
            case Some((_, rest)) => !thrown && input.Left() == rest
  {
    if input.Look() == '0' {
      var _ := input.Next();
      return IsDigit(input.Look());
    } else if IsDigit(input.Look()) {
      SkipDigits(input);
      return false;
    }
    return true;
  }

  method ScanFractionText(input: StringReadStream) returns (thrown: bool, has: bool)
    requires input.Valid()
    modifies input
    ensures input.Valid()
    ensures match ScanFraction(old(input.Left()))
            case None => thrown
            case Some((f, rest)) => !thrown && has == f.Some? && input.Left() == rest
  {
    if input.Look() != '.' {
      return false, false;
    }
    var _ := input.Next();
    if !IsDigit(input.Look()) {
      return true, true;
    }
    SkipDigits(input);
    return false, true;
  }

  method ScanExponentText(input: StringReadStream) returns (thrown: bool, has: bool)
    requires input.Valid()
    modifies input
    ensures input.Valid()
    ensures match ScanExponent(old(input.Left()))
            case None => thrown
            case Some((e, rest)) => !thrown && has == e.Some? && input.Left() == rest
  {
    if input.Look() != 'e' && input.Look() != 'E' {
      return false, false;
    }
    var _ := input.Next();
    if input.Look() == '+' || input.Look() == '-' {
      var _ := input.Next();
    }
    if !IsDigit(input.Look()) {
      return true, true;
    }
    SkipDigits(input);
    return false, true;
  }

  method ScanSuffixText(input: StringReadStream, isDouble: bool)
    returns (thrown: bool, suffix: Suffix)
    requires input.Valid()
    modifies input
    ensures input.Valid()
    ensures match ScanSuffix(old(input.Left()), isDouble)
            case None => thrown
            case Some((x, rest)) => !thrown && suffix == x && input.Left() == rest
  {
    ghost var s := input.Left();
    suffix := Plain;
    if input.Look() != 'i' {
      return false, suffix;
    }
    var _ := input.Next();
    if isDouble {
      return true, suffix;
    }
    var c := input.Next();
    var d := '\0';
    if c == '3' || c == '6' {
      d := input.Next();
    }
    if c == '3' && d == '2' {
      assert s[..3] == "i32";
      return false, I32;
    } else if c == '6' && d == '4' {
      assert s[..3] == "i64";
      return false, I64;
    }
    return true, suffix;
  }

  method ParseNumber(fits: DoubleRange, input: StringReadStream, log: EventLog)
    returns (thrown: Option<ParseError>)
    requires input.Valid()
    modifies input, log
    ensures input.Valid()
    ensures Did(ReaderSpec.ParseNumber(fits, old(input.Left())), thrown, input.Left(),
                old(log.events), log.events)
  {
    hide ScanNumber, ReaderSpec.ParseLiteral;
    if input.Look() == 'N' {
      thrown := ParseLiteral(input, log, "NaN", Event.Double("NaN"));
      return;
    } else if input.Look() == 'I' {
      thrown := ParseLiteral(input, log, "Infinity", Event.Double("Infinity"));
      return;
    }
    ghost var s := input.Left();
    var start := input.iter;
    var bad, isDouble, suffix := ScanNumberText(input);
    if bad {
      return Some(BAD_VALUE);
    }
    ScanNumberSound(s);
    ghost var t := ScanNumber(s).value.0;
    var slice := input.json[start..input.iter];
    assert slice == t.Show() by {
      assert s == input.json[start..];
      assert s[..|t.Show()|] == t.Show();
    }
    if isDouble {
      if !fits(slice) {
        return Some(NUMBER_TOO_BIG);
      }
      log.Send(Event.Double(slice));
      return None;
    }
    StrtolInteger(t);
    var i64 := Strtol(slice);
    if !InInt64(i64) {
      return Some(NUMBER_TOO_BIG);
    }
    if suffix == I64 {
      log.Send(Event.Int64(i64));
    } else if suffix == I32 {
      if i64 > 0x7FFF_FFFF || i64 < -0x8000_0000 {
        return Some(NUMBER_TOO_BIG);
      }
      log.Send(Event.Int32(i64));
    } else if i64 <= 0x7FFF_FFFF && i64 >= -0x8000_0000 {
      log.Send(Event.Int32(i64));
    } else {
      log.Send(Event.Int64(i64));
    }
    return None;
  }

  /** The value of the first k of four hexadecimal digits. */
  ghost function HexPrefix(s: string, k: nat): nat
    requires k <= 4 && k <= |s| && AllHex(s[..k])
  {
    if k == 0 then 0
    else
      assert forall i :: 0 <= i < k - 1 ==> s[..k - 1][i] == s[..k][i];
      assert IsHex(s[..k][k - 1]);
      HexPrefix(s, k - 1) * 16 + HexOf(s[k - 1])
  }

  lemma HexPrefixFour(s: string)
    requires |s| >= 4 && AllHex(s[..4])
    ensures HexPrefix(s, 4) == HexValue(s[..4])
  {
    hide HexOf;
    HexPrefixOne(s, 3);
    HexPrefixOne(s, 2);
    HexPrefixOne(s, 1);
    HexPrefixOne(s, 0);
  }

  lemma HexPrefixOne(s: string, k: nat)
    requires k < 4 && k < |s| && AllHex(s[..k + 1])
    ensures AllHex(s[..k]) && HexPrefix(s, k + 1) == HexPrefix(s, k) * 16 + HexOf(s[..k + 1][k])
    ensures k == 0 ==> HexPrefix(s, k) == 0
  {
    hide HexOf;
    assert forall i :: 0 <= i < k ==> s[..k][i] == s[..k + 1][i];
  }

  method ParseHex4(input: StringReadStream) returns (thrown: bool, u: nat)
    requires input.Valid()
    modifies input
    ensures input.Valid()
    ensures match ScanHex(old(input.Left()))
            case None => thrown
            case Some((v, rest)) => !thrown && u == v && input.Left() == rest
  {
    ghost var s := input.Left();
    u := 0;
    for i := 0 to 4
      invariant input.Valid() && i <= |s| && input.Left() == s[i..]
      invariant AllHex(s[..i]) && u == HexPrefix(s, i)
    {
      var c := input.Next();
      if !IsHex(c) {
        assert |s| >= 4 ==> s[..4][i] == c;
        return true, u;
      }
      assert s[..i + 1] == s[..i] + [c];
      u := u * 16 + HexOf(c);
    }
    HexPrefixFour(s);
    thrown := false;
  }

  /** Appends to buffer, as the source does, byte by byte. */
  method EncodeUtf8(buffer: string, u: nat) returns (r: string)
    requires u <= Utf8.MAX_CODE
    ensures r == buffer + Utf8.Encode(u)
  {
    r := buffer;
    if u <= 0x7F {
      r := r + [Utf8.Byte(u)];
    } else if u <= 0x7FF {
      r := r + [Utf8.Byte(0xC0 + u / 0x40)];
      r := r + [Utf8.Byte(0x80 + u % 0x40)];
    } else if u <= 0xFFFF {
      r := r + [Utf8.Byte(0xE0 + u / 0x1000)];
      r := r + [Utf8.Byte(0x80 + u / 0x40 % 0x40)];
      r := r + [Utf8.Byte(0x80 + u % 0x40)];
    } else {
      r := r + [Utf8.Byte(0xF0 + u / 0x40000)];
      r := r + [Utf8.Byte(0x80 + u / 0x1000 % 0x40)];
      r := r + [Utf8.Byte(0x80 + u / 0x40 % 0x40)];
      r := r + [Utf8.Byte(0x80 + u % 0x40)];
    }
  }

  /** The inner switch of parseString, behind a backslash. */
  method ParseEscape(input: StringReadStream, buffer: string)
    returns (thrown: Option<ParseError>, r: string)
    requires input.Valid()
    modifies input
    ensures input.Valid()
    ensures match ScanEscape(old(input.Left()))
            case CharsError(e) => thrown == Some(e)
            case Chars(t, rest) => thrown.None? && r == buffer + t && input.Left() == rest
  {
    hide ScanHex, HexValue, SimpleEscape, Utf8.Encode;
    r := buffer;
    var c := input.Next();
    match SimpleEscape(c) {
      case Some(x) => return None, r + [x];
      case None =>
    }
    if c != 'u' {
      return Some(BAD_STRING_ESCAPE), r;
    }
    var bad, u := ParseHex4(input);
    if bad {
      return Some(BAD_UNICODE_HEX), r;
    }
    if 0xD800 <= u <= 0xDBFF {
      ghost var t := input.Left();
      var c1 := input.Next();
      if c1 != '\\' {
        return Some(BAD_UNICODE_SURROGATE), r;
      }
      var c2 := input.Next();
      if c2 != 'u' {
        return Some(BAD_UNICODE_SURROGATE), r;
      }
      assert t[..2] == "\\u";
      var bad2, u2 := ParseHex4(input);
      if bad2 {
        return Some(BAD_UNICODE_HEX), r;
      }
      if 0xDC00 <= u2 <= 0xDFFF {
        u := 0x10000 + (u - 0xD800) * 0x400 + (u2 - 0xDC00);
      } else {
        return Some(BAD_UNICODE_SURROGATE), r;
      }
    }
    r := EncodeUtf8(r, u);
    thrown := None;
  }

  method ParseString(input: StringReadStream, log: EventLog, isKey: bool)
    returns (thrown: Option<ParseError>)
    requires input.Valid() && input.Look() == '"'
    modifies input, log
    ensures input.Valid()
    ensures Did(ReaderSpec.ParseString(old(input.Left()), isKey), thrown, input.Left(),
                old(log.events), log.events)
  {
    input.AssertNext('"');
    ghost var s := input.Left();
    var buffer := "";
    while input.HasNext()
      invariant input.Valid() && log.events == old(log.events)
      invariant ScanChars(s) == ScanChars(input.Left()).After(buffer)
      decreases |input.Left()|
    {
      ghost var t := input.Left();
      var c := input.Next();
      if c == '"' {
        log.Send(if isKey then Key(buffer) else Event.String(buffer));
        assert buffer + "" == buffer;
        return None;
      } else if 0x01 <= c as int <= 0x1F {
        return Some(BAD_STRING_CHAR);
      } else if c == '\\' {
        ghost var u := input.Left();
        ghost var b := buffer;
        thrown, buffer := ParseEscape(input, buffer);
        if thrown.Some? {
          return;
        }
        CharsAfterTwice(ScanChars(input.Left()), b, ScanEscape(u).text);
      } else {
        CharsAfterTwice(ScanChars(input.Left()), buffer, [c]);
        buffer := buffer + [c];
      }
    }
    return Some(MISS_QUOTATION_MARK);
  }

  lemma CharsAfterTwice(r: Chars, a: string, b: string)
    ensures r.After(b).After(a) == r.After(a + b)
  {
    if r.Chars? {
      assert a + (b + r.text) == (a + b) + r.text;
    }
  }

  method ParseValue(fits: DoubleRange, input: StringReadStream, log: EventLog)
    returns (thrown: Option<ParseError>)
    requires input.Valid()
    modifies input, log
    ensures input.Valid()
    ensures Did(ReaderSpec.ParseValue(fits, old(input.Left())), thrown, input.Left(),
                old(log.events), log.events)
    decreases |input.Left()|, 1
  {
    if !input.HasNext() {
      return Some(EXPECT_VALUE);
    }
    var c := input.Look();
    if c == 'n' {
      thrown := ParseLiteral(input, log, "null", Event.Null);
    } else if c == 't' {
      thrown := ParseLiteral(input, log, "true", Event.Bool(true));
    } else if c == 'f' {
      thrown := ParseLiteral(input, log, "false", Event.Bool(false));
    } else if c == '"' {
      thrown := ParseString(input, log, false);
    } else if c == '[' {
      thrown := ParseArray(fits, input, log);
    } else if c == '{' {
      thrown := ParseObject(fits, input, log);
    } else {
      thrown := ParseNumber(fits, input, log);
    }
  }

  method ParseArray(fits: DoubleRange, input: StringReadStream, log: EventLog)
    returns (thrown: Option<ParseError>)
    requires input.Valid() && input.Look() == '['
    modifies input, log
    ensures input.Valid()
    ensures Did(ReaderSpec.ParseArray(fits, old(input.Left())), thrown, input.Left(),
                old(log.events), log.events)
    decreases |input.Left()|, 0
  {
    ghost var before := log.events;
    log.Send(StartArray);
    input.AssertNext('[');
    ParseWhitespace(input);
    if input.Look() == ']' {
      var _ := input.Next();
      log.Send(EndArray);
      return None;
    }
    ghost var r := ParseElements(fits, input.Left());
    thrown := LoopElements(fits, input, log);
    DidAfter(r, [StartArray], thrown, input.Left(), before, before + [StartArray], log.events);
  }

  method LoopElements(fits: DoubleRange, input: StringReadStream, log: EventLog)
    returns (thrown: Option<ParseError>)
    requires input.Valid()
    modifies input, log
    ensures input.Valid()
    ensures Did(ParseElements(fits, old(input.Left())), thrown, input.Left(),
                old(log.events), log.events)
    decreases |input.Left()|, 4
  {
    ghost var before := log.events;
    ghost var total := ParseElements(fits, input.Left());
    ghost var now, sent := total, [];
    assert total.After([]) == total;
    var more := true;
    thrown := None;
    while more
      invariant input.Valid()
      invariant more ==> |input.Left()| <= |old(input.Left())|
      invariant more ==> log.events == before + sent
      invariant more ==> now == ParseElements(fits, input.Left()) && total == now.After(sent)
      invariant !more ==> Did(total, thrown, input.Left(), before, log.events)
      decreases more, |input.Left()|
    {
      ghost var es := ReaderSpec.ParseValue(fits, input.Left()).events;
      ghost var between := log.events;
      thrown, more := ParseOneElement(fits, input, log);
      if more {
        now := ParseElements(fits, input.Left());
        AfterTwice(now, sent, es);
        Glue(before, sent, es);
        sent := sent + es;
      } else {
        DidAfter(now, sent, thrown, input.Left(), before, between, log.events);
      }
    }
  }

  /** One turn of parseArray's loop; `more` says that a comma followed. */
  method ParseOneElement(fits: DoubleRange, input: StringReadStream, log: EventLog)
    returns (thrown: Option<ParseError>, more: bool)
    requires input.Valid()
    modifies input, log
    ensures input.Valid()
    ensures var s := old(input.Left());
            if more then
              && thrown.None? && |input.Left()| < |s|
              && ParseElements(fits, s) ==
                 ParseElements(fits, input.Left()).After(ReaderSpec.ParseValue(fits, s).events)
              && log.events == old(log.events) + ReaderSpec.ParseValue(fits, s).events
            else
              Did(ParseElements(fits, s), thrown, input.Left(), old(log.events), log.events)
    decreases |input.Left()|, 3
  {
    ghost var s := input.Left();
    more := false;
    BehindElement(fits, s);
    thrown := ParseValue(fits, input, log);
    if thrown.Some? {
      return;
    }
    ParseWhitespace(input);
    var c := input.Next();
    if c == ',' {
      ParseWhitespace(input);
      more := true;
    } else if c == ']' {
      log.Send(EndArray);
    } else {
      thrown := Some(MISS_COMMA_OR_SQUARE_BRACKET);
    }
  }

  method ParseObject(fits: DoubleRange, input: StringReadStream, log: EventLog)
    returns (thrown: Option<ParseError>)
    requires input.Valid() && input.Look() == '{'
    modifies input, log
    ensures input.Valid()
    ensures Did(ReaderSpec.ParseObject(fits, old(input.Left())), thrown, input.Left(),
                old(log.events), log.events)
    decreases |input.Left()|, 0
  {
    ghost var before := log.events;
    log.Send(StartObject);
    input.AssertNext('{');
    ParseWhitespace(input);
    if input.Look() == '}' {
      var _ := input.Next();
      log.Send(EndObject);
      return None;
    }
    ghost var r := ParseMembers(fits, input.Left());
    thrown := LoopMembers(fits, input, log);
    DidAfter(r, [StartObject], thrown, input.Left(), before, before + [StartObject], log.events);
  }

  method LoopMembers(fits: DoubleRange, input: StringReadStream, log: EventLog)
    returns (thrown: Option<ParseError>)
    requires input.Valid()
    modifies input, log
    ensures input.Valid()
    ensures Did(ParseMembers(fits, old(input.Left())), thrown, input.Left(),
                old(log.events), log.events)
    decreases |input.Left()|, 4
  {
    ghost var before := log.events;
    ghost var total := ParseMembers(fits, input.Left());
    ghost var now, sent := total, [];
    assert total.After([]) == total;
    var more := true;
    thrown := None;
    while more
      invariant input.Valid()
      invariant more ==> |input.Left()| <= |old(input.Left())|
      invariant more ==> log.events == before + sent
      invariant more ==> now == ParseMembers(fits, input.Left()) && total == now.After(sent)
      invariant !more ==> Did(total, thrown, input.Left(), before, log.events)
      decreases more, |input.Left()|
    {
      ghost var es := if Peek(input.Left()) == '"' then ParseMember(fits, input.Left()).events else [];
      ghost var between := log.events;
      thrown, more := ParseOneMember(fits, input, log);
      if more {
        now := ParseMembers(fits, input.Left());
        AfterTwice(now, sent, es);
        Glue(before, sent, es);
        sent := sent + es;
      } else {
        DidAfter(now, sent, thrown, input.Left(), before, between, log.events);
      }
    }
  }

  /** One turn of parseObject's loop; `more` says that a comma followed. */
  method ParseOneMember(fits: DoubleRange, input: StringReadStream, log: EventLog)
    returns (thrown: Option<ParseError>, more: bool)
    requires input.Valid()
    modifies input, log
    ensures input.Valid()
    ensures var s := old(input.Left());
            if more then
              && thrown.None? && |input.Left()| < |s| && Peek(s) == '"'
              && ParseMembers(fits, s) ==
                 ParseMembers(fits, input.Left()).After(ParseMember(fits, s).events)
              && log.events == old(log.events) + ParseMember(fits, s).events
            else
              Did(ParseMembers(fits, s), thrown, input.Left(), old(log.events), log.events)
    decreases |input.Left()|, 3
  {
    ghost var s := input.Left();
    more := false;
    if input.Look() != '"' {
      return Some(MISS_KEY), false;
    }
    BehindMember(fits, s);
    thrown := ParsePair(fits, input, log);
    if thrown.Some? {
      return;
    }
    ParseWhitespace(input);
    var c := input.Next();
    if c == ',' {
      ParseWhitespace(input);
      more := true;
    } else if c == '}' {
      log.Send(EndObject);
    } else {
      thrown := Some(MISS_COMMA_OR_CURLY_BRACKET);
    }
  }

  /** The key, the colon and the value in one turn of parseObject's loop. */
  method ParsePair(fits: DoubleRange, input: StringReadStream, log: EventLog)
    returns (thrown: Option<ParseError>)
    requires input.Valid() && input.Look() == '"'
    modifies input, log
    ensures input.Valid()
    ensures Did(ParseMember(fits, old(input.Left())), thrown, input.Left(),
                old(log.events), log.events)
    decreases |input.Left()|, 2
  {
    ghost var k := ReaderSpec.ParseString(input.Left(), true);
    ghost var before := log.events;
    thrown := ParseString(input, log, true);
    if thrown.Some? {
      return;
    }
    ParseWhitespace(input);
    var c := input.Next();
    if c != ':' {
      return Some(MISS_COLON);
    }
    ParseWhitespace(input);
    ghost var v := ReaderSpec.ParseValue(fits, input.Left());
    ghost var between := log.events;
    thrown := ParseValue(fits, input, log);
    DidAfter(v, k.events, thrown, input.Left(), before, between, log.events);
  }

  /** Reader::parse; no error stands for PARSE_OK. */
  method Parse(fits: DoubleRange, input: StringReadStream, log: EventLog)
    returns (err: Option<ParseError>)
    requires input.Valid()
    modifies input, log
    ensures input.Valid()
    ensures var r := ReaderSpec.Parse(fits, old(input.Left()));
            log.events == old(log.events) + r.events
            && err == if r.Accepted? then None else Some(r.err)
  {
    ParseWhitespace(input);
    err := ParseValue(fits, input, log);
    if err.Some? {
      return;
    }
    ParseWhitespace(input);
    if input.HasNext() {
      return Some(ROOT_NOT_SINGULAR);
    }
  }
}
