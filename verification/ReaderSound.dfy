/** Every text the reader accepts is the text of a syntax tree whose meaning is
    exactly the events that were sent. */
module ReaderSound {
  import opened Text
  import opened Json
  import opened ReaderSpec
  import opened Grammar
  import Utf8

  // The shapes of text the grammar is built from, put together from the pieces
  // the reader took off one by one.

  lemma Enclosed(c: char, s: string, gap: string, t: string, body: string, r: string)
    requires s != [] && s[0] == c && Rest(s) == gap + t && t == body + r
    ensures s == ([c] + (gap + body)) + r
  {
    assert s == [c] + Rest(s);
    Glue(gap, body, r);
    Glue([c], gap + body, r);
  }

  lemma Closed(s: string, x: string, r1: string, after: string, t: string, r: string)
    requires s == x + r1 && r1 == after + t && t != [] && Rest(t) == r
    ensures s == (x + (after + [t[0]])) + r
  {
    assert t == [t[0]] + r;
    Glue(after, [t[0]], r);
    Glue(x, after + [t[0]], r);
  }

  lemma Listed(s: string, x: string, r1: string, after: string, t: string,
               before: string, u: string, tail: string, r: string)
    requires s == x + r1 && r1 == after + t && Peek(t) == ','
    requires Rest(t) == before + u && u == tail + r
    ensures s == (x + (after + ("," + (before + tail)))) + r
  {
    Enclosed(',', t, before, u, tail, r);
    var y := "," + (before + tail);
    Glue(after, y, r);
    Glue(x, after + y, r);
  }

  lemma Colon(s: string, k: string, r1: string, pre: string, t: string,
              post: string, u: string, v: string, r: string)
    requires s == k + r1 && r1 == pre + t && Peek(t) == ':'
    requires Rest(t) == post + u && u == v + r
    ensures s == (k + (pre + (":" + (post + v)))) + r
  {
    Enclosed(':', t, post, u, v, r);
    var y := ":" + (post + v);
    Glue(pre, y, r);
    Glue(k, pre + y, r);
  }

  lemma EscapeSound(s: string) returns (i: Item)
    requires ScanEscape(s).Chars?
    ensures ValidItem(i)
    ensures "\\" + s == ShowItem(i) + ScanEscape(s).rest
    ensures ScanEscape(s).text == ItemText(i)
  {
    if SimpleEscape(Peek(s)).Some? {
      i := Escape(s[0]);
    } else {
      var t := s[1..];
      var h := t[..4];
      if !Utf8.IsHigh(HexValue(h)) {
        i := Unicode(h);
        assert s == "u" + h + t[4..];
      } else {
        var w := t[4..][2..];
        var l := w[..4];
        i := Surrogates(h, l);
        assert s == "u" + h + ("\\u" + l + w[4..]);
      }
    }
  }

  lemma {:induction false} CharsSound(s: string) returns (items: seq<Item>)
    requires ScanChars(s).Chars?
    ensures ValidItems(items)
    ensures s == ShowItems(items) + ("\"" + ScanChars(s).rest)
    ensures ScanChars(s).text == ItemsText(items)
    decreases |s|
  {
    var q := "\"" + ScanChars(s).rest;
    if s[0] == '"' {
      items := [];
      assert s == q;
    } else {
      var i: Item;
      var r: string;
      if s[0] == '\\' {
        i := EscapeSound(s[1..]);
        r := ScanEscape(s[1..]).rest;
        assert s == "\\" + s[1..];
      } else {
        i := Raw(s[0]);
        r := s[1..];
      }
      assert s == ShowItem(i) + r;
      var tail := CharsSound(r);
      items := [i] + tail;
      assert items[1..] == tail;
      Glue(ShowItem(i), ShowItems(tail), q);
    }
  }

  lemma StringSound(s: string, isKey: bool) returns (items: seq<Item>)
    requires Peek(s) == '"' && ParseString(s, isKey).Scanned?
    ensures ValidItems(items)
    ensures s == ShowString(items) + ParseString(s, isKey).rest
    ensures ParseString(s, isKey).events ==
            [if isKey then Key(ItemsText(items)) else Event.String(ItemsText(items))]
  {
    items := CharsSound(Rest(s));
    var r := ScanChars(Rest(s)).rest;
    assert s == "\"" + Rest(s);
    Glue(ShowItems(items), "\"", r);
    Glue("\"", ShowItems(items) + "\"", r);
  }

  lemma LiteralSound(s: string, literal: string, e: Event)
    requires literal != [] && ParseLiteral(s, literal, e).Scanned?
    ensures s == literal + ParseLiteral(s, literal, e).rest
    ensures ParseLiteral(s, literal, e).events == [e]
  {
  }

  lemma NumberSound(fits: DoubleRange, s: string) returns (v: Syntax)
    requires ParseNumber(fits, s).Scanned?
    ensures Valid(fits, v)
    ensures s == Show(v) + ParseNumber(fits, s).rest
    ensures ParseNumber(fits, s).events == Meaning(fits, v)
  {
    if Peek(s) == 'N' {
      v := NaN;
      LiteralSound(s, "NaN", Event.Double("NaN"));
    } else if Peek(s) == 'I' {
      v := Infinity;
      LiteralSound(s, "Infinity", Event.Double("Infinity"));
    } else {
      v := Number(ScanNumber(s).value.0);
      ScanNumberSound(s);
    }
  }

  lemma {:induction false} ValueSound(fits: DoubleRange, s: string) returns (v: Syntax)
    requires ParseValue(fits, s).Scanned?
    ensures Valid(fits, v)
    ensures s == Show(v) + ParseValue(fits, s).rest
    ensures ParseValue(fits, s).events == Meaning(fits, v)
    decreases |s|, 1
  {
    match s[0]
    case 'n' => v := Syntax.Null; LiteralSound(s, "null", Event.Null);
    case 't' => v := True; LiteralSound(s, "true", Event.Bool(true));
    case 'f' => v := False; LiteralSound(s, "false", Event.Bool(false));
    case '"' =>
      var items := StringSound(s, false);
      v := Syntax.String(items);
    case '[' => v := ArraySound(fits, s);
    case '{' => v := ObjectSound(fits, s);
    case _ => v := NumberSound(fits, s);
  }

  lemma {:induction false} ArraySound(fits: DoubleRange, s: string) returns (v: Syntax)
    requires Peek(s) == '[' && ParseArray(fits, s).Scanned?
    ensures Valid(fits, v)
    ensures s == Show(v) + ParseArray(fits, s).rest
    ensures ParseArray(fits, s).events == Meaning(fits, v)
    decreases |s|, 0
  {
    var gap := SkipWsSplits(Rest(s));
    var t := SkipWs(Rest(s));
    var r := ParseArray(fits, s).rest;
    var body: string;
    if Peek(t) == ']' {
      v := EmptyArray(gap);
      body := "]";
      assert t == body + r;
    } else {
      assert ParseArray(fits, s) == ParseElements(fits, t).After([StartArray]);
      var es := ElementsSound(fits, t);
      v := Syntax.Array(gap, es);
      body := ShowElements(es);
    }
    Enclosed('[', s, gap, t, body, r);
  }

  lemma {:induction false} ElementsSound(fits: DoubleRange, s: string) returns (es: Elements)
    requires ParseElements(fits, s).Scanned?
    ensures ValidElements(fits, es)
    ensures s == ShowElements(es) + ParseElements(fits, s).rest
    ensures ParseElements(fits, s).events == ElementsMeaning(fits, es)
    decreases |s|, 2
  {
    var v := ValueSound(fits, s);
    var r1 := ParseValue(fits, s).rest;
    var after := SkipWsSplits(r1);
    var t := SkipWs(r1);
    var r := ParseElements(fits, s).rest;
    if Peek(t) == ',' {
      var before := SkipWsSplits(Rest(t));
      var u := SkipWs(Rest(t));
      var tail := ElementsSound(fits, u);
      es := MoreElements(v, after, before, tail);
      Listed(s, Show(v), r1, after, t, before, u, ShowElements(tail), r);
    } else {
      es := LastElement(v, after);
      Closed(s, Show(v), r1, after, t, r);
    }
  }

  lemma {:induction false} ObjectSound(fits: DoubleRange, s: string) returns (v: Syntax)
    requires Peek(s) == '{' && ParseObject(fits, s).Scanned?
    ensures Valid(fits, v)
    ensures s == Show(v) + ParseObject(fits, s).rest
    ensures ParseObject(fits, s).events == Meaning(fits, v)
    decreases |s|, 0
  {
    var gap := SkipWsSplits(Rest(s));
    var t := SkipWs(Rest(s));
    var r := ParseObject(fits, s).rest;
    var body: string;
    if Peek(t) == '}' {
      v := EmptyObject(gap);
      body := "}";
      assert t == body + r;
    } else {
      assert ParseObject(fits, s) == ParseMembers(fits, t).After([StartObject]);
      var ms := MembersSound(fits, t);
      v := Syntax.Object(gap, ms);
      body := ShowMembers(ms);
    }
    Enclosed('{', s, gap, t, body, r);
  }

  lemma {:induction false} PairSound(fits: DoubleRange, s: string) returns (p: Pair)
    requires Peek(s) == '"' && ParseMember(fits, s).Scanned?
    ensures ValidPair(fits, p)
    ensures s == ShowPair(p) + ParseMember(fits, s).rest
    ensures ParseMember(fits, s).events == PairMeaning(fits, p)
    decreases |s|, 2
  {
    var key := StringSound(s, true);
    var r1 := ParseString(s, true).rest;
    var pre := SkipWsSplits(r1);
    var t := SkipWs(r1);
    var post := SkipWsSplits(Rest(t));
    var u := SkipWs(Rest(t));
    var v := ValueSound(fits, u);
    p := Pair(key, pre, post, v);
    var r := ParseMember(fits, s).rest;
    Colon(s, ShowString(key), r1, pre, t, post, u, Show(v), r);
  }

  lemma {:induction false} MembersSound(fits: DoubleRange, s: string) returns (ms: Members)
    requires ParseMembers(fits, s).Scanned?
    ensures ValidMembers(fits, ms)
    ensures s == ShowMembers(ms) + ParseMembers(fits, s).rest
    ensures ParseMembers(fits, s).events == MembersMeaning(fits, ms)
    decreases |s|, 3
  {
    var p := PairSound(fits, s);
    var r1 := ParseMember(fits, s).rest;
    var after := SkipWsSplits(r1);
    var t := SkipWs(r1);
    var r := ParseMembers(fits, s).rest;
    if Peek(t) == ',' {
      var before := SkipWsSplits(Rest(t));
      var u := SkipWs(Rest(t));
      var tail := MembersSound(fits, u);
      ms := MoreMembers(p, after, before, tail);
      Listed(s, ShowPair(p), r1, after, t, before, u, ShowMembers(tail), r);
    } else {
      ms := LastMember(p, after);
      Closed(s, ShowPair(p), r1, after, t, r);
    }
  }

  /** The reader accepts only texts of the grammar, and means by them what the
      grammar does. */
  lemma ParseSound(fits: DoubleRange, s: string) returns (d: Grammar.Document)
    requires Parse(fits, s).Accepted?
    ensures ValidDocument(fits, d) && s == ShowDocument(d)
    ensures Parse(fits, s).events == Meaning(fits, d.value)
  {
    var lead := SkipWsSplits(s);
    var v := ValueSound(fits, SkipWs(s));
    var r := ParseValue(fits, SkipWs(s)).rest;
    var trail := SkipWsSplits(r);
    assert trail + [] == trail;
    d := Grammar.Document(lead, v, trail);
  }
}
