/** Every text of the grammar is accepted, with exactly its meaning, and the
    reader stops right behind it. */
module ReaderComplete {
  import opened Text
  import opened Json
  import opened ReaderSpec
  import opened Grammar
  import ReaderSound
  import Utf8

  /** A number may stand in front of r: r is empty or begins with white space or
      one of `,` `]` `}`. */
  predicate Ends(r: string) {
    r == [] || IsWs(r[0]) || r[0] == ',' || r[0] == ']' || r[0] == '}'
  }

  lemma Unfront(c: char, r: string)
    ensures Peek([c] + r) == c && Rest([c] + r) == r
  {
  }

  // ---------------------------------------------------------------- numbers

  lemma WholeComplete(d: string, r: string)
    requires d != [] && AllDigits(d) && (d[0] == '0' ==> d == "0")
    requires !IsDigit(Peek(r))
    ensures ScanWhole(d + r) == Some((d, r))
  {
    LeadDigitsOver(d, r);
    assert (d + r)[|d|..] == r;
    if d[0] == '0' {
      Unfront('0', r);
    }
  }

  lemma FractionComplete(f: Option<string>, r: string)
    requires f.Some? ==> f.value != [] && AllDigits(f.value) && !IsDigit(Peek(r))
    requires f.None? ==> Peek(r) != '.'
    ensures ScanFraction(FractionText(f) + r) == Some((f, r))
  {
    match f
    case None => assert "" + r == r;
    case Some(d) =>
      Glue(".", d, r);
      Unfront('.', d + r);
      LeadDigitsOver(d, r);
      assert (d + r)[|d|..] == r;
  }

  lemma ExponentComplete(e: Option<Exponent>, r: string)
    requires e.Some? ==> ValidExponent(e.value) && !IsDigit(Peek(r))
    requires e.None? ==> Peek(r) != 'e' && Peek(r) != 'E'
    ensures ScanExponent(ExponentText(e) + r) == Some((e, r))
  {
    match e
    case None => assert "" + r == r;
    case Some(x) =>
      var t := x.sign + (x.digits + r);
      Glue([x.mark] + x.sign, x.digits, r);
      Glue([x.mark], x.sign, x.digits + r);
      Unfront(x.mark, t);
      LeadDigitsOver(x.digits, r);
      assert (x.digits + r)[|x.digits|..] == r;
      if x.sign == "" {
        assert t == x.digits + r;
      } else {
        Unfront(x.sign[0], x.digits + r);
      }
  }

  lemma SuffixComplete(x: Suffix, isDouble: bool, r: string)
    requires isDouble ==> x.Plain?
    requires Peek(r) != 'i'
    ensures ScanSuffix(SuffixText(x) + r, isDouble) == Some((x, r))
  {
    var s := SuffixText(x) + r;
    if x.Plain? {
      assert s == r;
    } else {
      assert s[3..] == r && s[..3] == SuffixText(x);
      assert SuffixText(x) <= s && s[1] == SuffixText(x)[1];
    }
  }

  /** ScanNumber in one step, from its four scans. */
  lemma FromParts(s: string, n: NumberText, s1: string, s2: string, s3: string, r: string)
    requires n.negative == (Peek(s) == '-')
    requires ScanWhole(if n.negative then Rest(s) else s) == Some((n.whole, s1))
    requires ScanFraction(s1) == Some((n.fraction, s2))
    requires ScanExponent(s2) == Some((n.exponent, s3))
    requires ScanSuffix(s3, n.IsDouble()) == Some((n.suffix, r))
    ensures ScanNumber(s) == Some((n, r))
  {
  }

  lemma ScanNumberComplete(n: NumberText, r: string)
    requires n.Valid() && Ends(r)
    ensures ScanNumber(n.Show() + r) == Some((n, r))
  {
    var a, b := WholeText(n.negative, n.whole), FractionText(n.fraction);
    var c, d := ExponentText(n.exponent), SuffixText(n.suffix);
    var s3 := d + r;
    var s2 := c + s3;
    var s1 := b + s2;
    Heads(n, r);
    SuffixComplete(n.suffix, n.IsDouble(), r);
    ExponentComplete(n.exponent, s3);
    FractionComplete(n.fraction, s2);
    WholeComplete(n.whole, s1);
    SignComplete(n.negative, n.whole, s1);
    FromParts(a + s1, n, s1, s2, s3, r);
    Chain(a + s1, a, s1, b, s2, c, s3, d, r);
  }

  /** No part of a number runs on into the next. */
  lemma Heads(n: NumberText, r: string)
    requires n.Valid() && Ends(r)
    ensures var s3 := SuffixText(n.suffix) + r;
            var s2 := ExponentText(n.exponent) + s3;
            var s1 := FractionText(n.fraction) + s2;
            && !IsDigit(Peek(s1))
            && (if n.fraction.Some? then !IsDigit(Peek(s2)) else Peek(s2) != '.')
            && (if n.exponent.Some? then !IsDigit(Peek(s3)) else Peek(s3) != 'e' && Peek(s3) != 'E')
            && Peek(r) != 'i'
  {
    var s3 := SuffixText(n.suffix) + r;
    var s2 := ExponentText(n.exponent) + s3;
    assert Peek(s3) == if n.suffix.Plain? then Peek(r) else 'i';
    assert Peek(s2) == if n.exponent.Some? then n.exponent.value.mark else Peek(s3);
    assert Peek(FractionText(n.fraction) + s2) == if n.fraction.Some? then '.' else Peek(s2);
  }

  lemma SignComplete(negative: bool, d: string, r: string)
    requires d != [] && IsDigit(d[0])
    ensures var s := WholeText(negative, d) + r;
            (Peek(s) == '-') == negative && (if negative then Rest(s) else s) == d + r
  {
    if negative {
      Glue("-", d, r);
      Unfront('-', d + r);
    } else {
      assert "" + d == d;
    }
  }

  /** A number's text begins with a minus sign or a digit. */
  lemma NumberHead(n: NumberText)
    requires n.Valid()
    ensures n.Show() != [] && (n.Show()[0] == '-' || IsDigit(n.Show()[0]))
  {
    var w := WholeText(n.negative, n.whole);
    assert w != [] && (w[0] == '-' || IsDigit(w[0]));
    assert n.Show()[0] == w[0];
  }

  lemma NumberComplete(fits: DoubleRange, n: NumberText, r: string)
    requires n.Valid() && n.Meaning(fits).Some? && Ends(r)
    ensures ParseNumber(fits, n.Show() + r) == Scanned(r, [n.Meaning(fits).value])
  {
    NumberHead(n);
    assert (n.Show() + r)[0] == n.Show()[0];
    ScanNumberComplete(n, r);
  }

  // ---------------------------------------------------------------- strings

  lemma EscapeComplete(i: Item, r: string)
    requires ValidItem(i) && !i.Raw?
    ensures Peek(ShowItem(i) + r) == '\\'
    ensures ScanEscape(Rest(ShowItem(i) + r)) == Chars(ItemText(i), r)
  {
    var body := ShowItem(i)[1..];
    assert ShowItem(i) == ['\\'] + body;
    Glue(['\\'], body, r);
    Unfront('\\', body + r);
    match i
    case Escape(c) =>
      assert body == [c];
      Unfront(c, r);
    case Unicode(h) =>
      assert body == ['u'] + h;
      UnicodeComplete(h, r);
    case Surrogates(h, l) =>
      assert body == (['u'] + h) + ("\\u" + l);
      Glue(['u'] + h, "\\u" + l, r);
      SurrogatesComplete(h, l, r);
  }

  lemma UnicodeComplete(h: string, r: string)
    requires |h| == 4 && AllHex(h) && !Utf8.IsHigh(HexValue(h))
    ensures ScanEscape((['u'] + h) + r) == Chars(Utf8.Encode(HexValue(h)), r)
  {
    HexComplete(h, r);
    Glue(['u'], h, r);
    Unfront('u', h + r);
  }

  lemma SurrogatesComplete(h: string, l: string, r: string)
    requires |h| == 4 && AllHex(h) && Utf8.IsHigh(HexValue(h))
    requires |l| == 4 && AllHex(l) && Utf8.IsLow(HexValue(l))
    ensures ScanEscape((['u'] + h) + (("\\u" + l) + r))
            == Chars(Utf8.Encode(Utf8.Combine(HexValue(h), HexValue(l))), r)
  {
    var t := ("\\u" + l) + r;
    HexComplete(h, t);
    HexComplete(l, r);
    Glue(['u'], h, t);
    Unfront('u', h + t);
    Glue("\\u", l, r);
    assert t[2..] == l + r && "\\u" <= t;
  }

  lemma HexComplete(h: string, r: string)
    requires |h| == 4 && AllHex(h)
    ensures ScanHex(h + r) == Some((HexValue(h), r))
  {
    assert (h + r)[..4] == h && (h + r)[4..] == r;
  }

  lemma {:induction false} CharsComplete(items: seq<Item>, r: string)
    requires ValidItems(items)
    ensures ScanChars(ShowItems(items) + ("\"" + r)) == Chars(ItemsText(items), r)
  {
    var q := "\"" + r;
    if items == [] {
      assert [] + q == q;
      Unfront('"', r);
    } else {
      var t := ShowItems(items[1..]) + q;
      CharsComplete(items[1..], r);
      Glue(ShowItem(items[0]), ShowItems(items[1..]), q);
      if items[0].Raw? {
        Unfront(items[0].c, t);
      } else {
        EscapeComplete(items[0], t);
      }
    }
  }

  lemma StringComplete(items: seq<Item>, isKey: bool, r: string)
    requires ValidItems(items)
    ensures var s := ShowString(items) + r;
            Peek(s) == '"' && ParseString(s, isKey) ==
            Scanned(r, [if isKey then Key(ItemsText(items)) else Event.String(ItemsText(items))])
  {
    CharsComplete(items, r);
    Glue("\"", ShowItems(items) + "\"", r);
    Glue(ShowItems(items), "\"", r);
    Unfront('"', ShowItems(items) + ("\"" + r));
  }

  // ----------------------------------------------------------------- values

  lemma LiteralComplete(literal: string, e: Event, r: string)
    requires literal != []
    ensures ParseLiteral(literal + r, literal, e) == Scanned(r, [e])
    ensures Peek(literal + r) == literal[0]
  {
    assert (literal + r)[|literal|..] == r;
  }

  /** A value begins with neither white space nor a closing bracket. */
  lemma ValueHead(fits: DoubleRange, v: Syntax)
    requires Valid(fits, v)
    ensures Show(v) != [] && !IsWs(Show(v)[0]) && Show(v)[0] != ']'
  {
    if v.Number? {
      NumberHead(v.number);
    }
  }

  lemma SkipToValue(fits: DoubleRange, w: string, v: Syntax, r: string)
    requires AllWs(w) && Valid(fits, v)
    ensures SkipWs(w + (Show(v) + r)) == Show(v) + r
  {
    ValueHead(fits, v);
    assert (Show(v) + r)[0] == Show(v)[0];
    SkipWsOver(w, Show(v) + r);
  }

  /** White space in front of punctuation. */
  lemma SkipToChar(w: string, c: char, r: string)
    requires AllWs(w) && !IsWs(c)
    ensures SkipWs(w + ([c] + r)) == [c] + r
  {
    Unfront(c, r);
    SkipWsOver(w, [c] + r);
  }

  lemma EndsInFrontOf(w: string, c: char, r: string)
    requires AllWs(w) && Ends([c])
    ensures Ends(w + ([c] + r))
  {
    if w != [] {
      assert (w + ([c] + r))[0] == w[0];
    } else {
      assert w + ([c] + r) == [c] + r;
    }
  }

  lemma ScalarComplete(fits: DoubleRange, v: Syntax, r: string)
    requires v.Null? || v.True? || v.False? || v.String?
    requires Valid(fits, v)
    ensures ParseValue(fits, Show(v) + r) == Scanned(r, Meaning(fits, v))
  {
    match v
    case Null => LiteralComplete("null", Event.Null, r);
    case True => LiteralComplete("true", Event.Bool(true), r);
    case False => LiteralComplete("false", Event.Bool(false), r);
    case String(items) => StringComplete(items, false, r);
  }

  /** One step of the reader at a number, by definition. */
  lemma AtNumber(fits: DoubleRange, s: string)
    requires s != [] && (s[0] == 'N' || s[0] == 'I' || s[0] == '-' || IsDigit(s[0]))
    ensures ParseValue(fits, s) == ParseNumber(fits, s)
  {
    var c := s[0];
    assert c != 'n' && c != 't' && c != 'f' && c != '"' && c != '[' && c != '{';
  }

  lemma NumericComplete(fits: DoubleRange, v: Syntax, r: string)
    requires v.NaN? || v.Infinity? || v.Number?
    requires Valid(fits, v) && Ends(r)
    ensures ParseValue(fits, Show(v) + r) == Scanned(r, Meaning(fits, v))
  {
    match v {
    case NaN => LiteralComplete("NaN", Event.Double("NaN"), r);
    case Infinity => LiteralComplete("Infinity", Event.Double("Infinity"), r);
    case Number(n) =>
      NumberComplete(fits, n, r);
      NumberHead(n);
      assert (n.Show() + r)[0] == n.Show()[0];
    }
    AtNumber(fits, Show(v) + r);
  }

  lemma {:induction false} ValueComplete(fits: DoubleRange, v: Syntax, r: string)
    requires Valid(fits, v) && Ends(r)
    ensures ParseValue(fits, Show(v) + r) == Scanned(r, Meaning(fits, v))
    decreases v, 1
  {
    if v.EmptyArray? || v.Array? {
      ArrayComplete(fits, v, r);
    } else if v.EmptyObject? || v.Object? {
      ObjectComplete(fits, v, r);
    } else if v.NaN? || v.Infinity? || v.Number? {
      NumericComplete(fits, v, r);
    } else {
      ScalarComplete(fits, v, r);
    }
  }

  // One step of the reader at a bracket, by definition.

  lemma AtArray(fits: DoubleRange, s: string, t: string)
    requires Peek(s) == '[' && SkipWs(Rest(s)) == t
    ensures ParseValue(fits, s) ==
            if Peek(t) == ']' then Scanned(Rest(t), [StartArray, EndArray])
            else ParseElements(fits, t).After([StartArray])
  {
    assert ParseValue(fits, s) == ParseArray(fits, s);
  }

  lemma AtObject(fits: DoubleRange, s: string, t: string)
    requires Peek(s) == '{' && SkipWs(Rest(s)) == t
    ensures ParseValue(fits, s) ==
            if Peek(t) == '}' then Scanned(Rest(t), [StartObject, EndObject])
            else ParseMembers(fits, t).After([StartObject])
  {
    assert ParseValue(fits, s) == ParseObject(fits, s);
  }

  lemma {:induction false} ArrayComplete(fits: DoubleRange, v: Syntax, r: string)
    requires (v.EmptyArray? || v.Array?) && Valid(fits, v)
    ensures ParseValue(fits, Show(v) + r) == Scanned(r, Meaning(fits, v))
    decreases v, 0
  {
    var body := if v.EmptyArray? then "]" else ShowElements(v.elems);
    Opened('[', v.gap, body, r);
    if v.EmptyArray? {
      SkipToChar(v.gap, ']', r);
      Unfront(']', r);
    } else {
      ElementsHead(fits, v.gap, v.elems, r);
      ElementsComplete(fits, v.elems, r);
    }
    AtArray(fits, Show(v) + r, body + r);
  }

  lemma {:induction false} ObjectComplete(fits: DoubleRange, v: Syntax, r: string)
    requires (v.EmptyObject? || v.Object?) && Valid(fits, v)
    ensures ParseValue(fits, Show(v) + r) == Scanned(r, Meaning(fits, v))
    decreases v, 0
  {
    var body := if v.EmptyObject? then "}" else ShowMembers(v.members);
    Opened('{', v.gap, body, r);
    if v.EmptyObject? {
      SkipToChar(v.gap, '}', r);
      Unfront('}', r);
    } else {
      MembersHead(fits, v.gap, v.members, r);
      MembersComplete(fits, v.members, r);
    }
    AtObject(fits, Show(v) + r, body + r);
  }

  lemma Opened(c: char, gap: string, body: string, r: string)
    ensures var s := ([c] + (gap + body)) + r;
            Peek(s) == c && Rest(s) == gap + (body + r)
  {
    Glue([c], gap + body, r);
    Glue(gap, body, r);
    Unfront(c, (gap + body) + r);
  }

  lemma ElementsHead(fits: DoubleRange, w: string, es: Elements, r: string)
    requires AllWs(w) && ValidElements(fits, es)
    ensures SkipWs(w + (ShowElements(es) + r)) == ShowElements(es) + r
    ensures Peek(ShowElements(es) + r) != ']'
  {
    ValueHead(fits, es.value);
    var s := ShowElements(es) + r;
    assert s[0] == Show(es.value)[0];
    SkipWsOver(w, s);
  }

  lemma {:induction false} ElementsComplete(fits: DoubleRange, es: Elements, r: string)
    requires ValidElements(fits, es)
    ensures ParseElements(fits, ShowElements(es) + r) == Scanned(r, ElementsMeaning(fits, es))
    decreases es
  {
    match es
    case LastElement(v, after) =>
      Closing(Show(v), after, ']', r);
      EndsInFrontOf(after, ']', r);
      ValueComplete(fits, v, after + ([']'] + r));
      SkipToChar(after, ']', r);
      Unfront(']', r);
    case MoreElements(v, after, before, tail) =>
      var t := before + (ShowElements(tail) + r);
      Comma(Show(v), after, before, ShowElements(tail), r);
      EndsInFrontOf(after, ',', t);
      ValueComplete(fits, v, after + ([','] + t));
      SkipToChar(after, ',', t);
      Unfront(',', t);
      ElementsHead(fits, before, tail, r);
      ElementsComplete(fits, tail, r);
  }

  lemma Closing(x: string, after: string, c: char, r: string)
    ensures (x + (after + [c])) + r == x + (after + ([c] + r))
  {
    Glue(x, after + [c], r);
    Glue(after, [c], r);
  }

  lemma Comma(x: string, after: string, before: string, tail: string, r: string)
    ensures (x + (after + ("," + (before + tail)))) + r
            == x + (after + ([','] + (before + (tail + r))))
  {
    var y := before + tail;
    Glue(x, after + ("," + y), r);
    Glue(after, "," + y, r);
    Glue(",", y, r);
    Glue(before, tail, r);
  }

  lemma MembersHead(fits: DoubleRange, w: string, ms: Members, r: string)
    requires AllWs(w) && ValidMembers(fits, ms)
    ensures SkipWs(w + (ShowMembers(ms) + r)) == ShowMembers(ms) + r
    ensures Peek(ShowMembers(ms) + r) == '"'
  {
    var s := ShowMembers(ms) + r;
    var k := ShowString(ms.pair.key);
    assert k[0] == '"';
    assert ShowPair(ms.pair)[0] == k[0];
    assert s[0] == ShowPair(ms.pair)[0];
    SkipWsOver(w, s);
  }

  lemma {:induction false} PairComplete(fits: DoubleRange, p: Pair, r: string)
    requires ValidPair(fits, p) && Ends(r)
    ensures Peek(ShowPair(p) + r) == '"'
    ensures ParseMember(fits, ShowPair(p) + r) == Scanned(r, PairMeaning(fits, p))
    decreases p
  {
    var t := p.postColon + (Show(p.value) + r);
    Comma2(ShowString(p.key), p.preColon, p.postColon, Show(p.value), r);
    StringComplete(p.key, true, p.preColon + ([':'] + t));
    SkipToChar(p.preColon, ':', t);
    Unfront(':', t);
    SkipToValue(fits, p.postColon, p.value, r);
    ValueComplete(fits, p.value, r);
  }

  lemma Comma2(x: string, pre: string, post: string, v: string, r: string)
    ensures (x + (pre + (":" + (post + v)))) + r == x + (pre + ([':'] + (post + (v + r))))
  {
    var y := post + v;
    Glue(x, pre + (":" + y), r);
    Glue(pre, ":" + y, r);
    Glue(":", y, r);
    Glue(post, v, r);
  }

  lemma {:induction false} MembersComplete(fits: DoubleRange, ms: Members, r: string)
    requires ValidMembers(fits, ms)
    ensures ParseMembers(fits, ShowMembers(ms) + r) == Scanned(r, MembersMeaning(fits, ms))
    decreases ms
  {
    var k, after := ShowPair(ms.pair), ms.after;
    if ms.LastMember? {
      var q := after + (['}'] + r);
      Closing(k, after, '}', r);
      EndsInFrontOf(after, '}', r);
      PairComplete(fits, ms.pair, q);
      SkipToChar(after, '}', r);
      Unfront('}', r);
      assert ParseMember(fits, k + q) == Scanned(q, PairMeaning(fits, ms.pair));
    } else {
      MoreMembersComplete(fits, ms, r);
    }
  }

  lemma {:induction false} MoreMembersComplete(fits: DoubleRange, ms: Members, r: string)
    requires ms.MoreMembers? && ValidMembers(fits, ms)
    ensures ParseMembers(fits, ShowMembers(ms) + r) == Scanned(r, MembersMeaning(fits, ms))
    decreases ms, 0
  {
    var k, after := ShowPair(ms.pair), ms.after;
    var t := ms.before + (ShowMembers(ms.tail) + r);
    var q := after + ([','] + t);
    Comma(k, after, ms.before, ShowMembers(ms.tail), r);
    EndsInFrontOf(after, ',', t);
    PairComplete(fits, ms.pair, q);
    SkipToChar(after, ',', t);
    Unfront(',', t);
    MembersHead(fits, ms.before, ms.tail, r);
    MembersComplete(fits, ms.tail, r);
    assert ParseMember(fits, k + q) == Scanned(q, PairMeaning(fits, ms.pair));
  }

  /** Every text of the grammar is accepted, with its meaning. */
  lemma ParseComplete(fits: DoubleRange, d: Grammar.Document)
    requires ValidDocument(fits, d)
    ensures Parse(fits, ShowDocument(d)) == Accepted(Meaning(fits, d.value))
  {
    SkipToValue(fits, d.lead, d.value, d.trail);
    ValueComplete(fits, d.value, d.trail);
    SkipWsOver(d.trail, []);
    assert d.trail + [] == d.trail;
  }

  /** The reader's language is exactly the grammar: a text is accepted with the
      events es precisely when it is the text of some tree that means es. */
  lemma AcceptsExactly(fits: DoubleRange, s: string, es: seq<Event>)
    ensures Parse(fits, s) == Accepted(es) <==>
            exists d: Grammar.Document ::
              ValidDocument(fits, d) && ShowDocument(d) == s && Meaning(fits, d.value) == es
  {
    if Parse(fits, s).Accepted? {
      var d := ReaderSound.ParseSound(fits, s);
      assert ValidDocument(fits, d) && ShowDocument(d) == s;
    }
    forall d: Grammar.Document | ValidDocument(fits, d) && ShowDocument(d) == s
      ensures Parse(fits, s) == Accepted(Meaning(fits, d.value))
    {
      ParseComplete(fits, d);
    }
  }
}
