/** Writing a tree and reading the text back. */
module RoundTrip {
  import opened Text
  import opened Json
  import R = ReaderSpec
  import G = Grammar
  import C = ReaderComplete
  import W = WriterSpec
  import Itoa

  /** A key that can be written without escapes. */
  predicate PlainKey(k: string) {
    forall i :: 0 <= i < |k| ==> k[i] != '"' && k[i] != '\\' && !R.IsControl(k[i])
  }

  /** Trees without doubles whose keys are plain. */
  predicate Writable(v: Value) {
    match v
    case Double(_) => false
    case Array(es) => forall i :: 0 <= i < |es| ==> Writable(es[i])
    case Object(ms) => forall i :: 0 <= i < |ms| ==> PlainKey(ms[i].key) && Writable(ms[i].value)
    case _ => true
  }

  /** What a tree becomes on the way: an Int64 that fits comes back as an Int32. */
  function Normal(v: Value): Value
    decreases v, 1
  {
    match v
    case Int64(n) => if InInt32(n) then Value.Int32(n) else v
    case Array(es) => Value.Array(NormalAll(es))
    case Object(ms) => Value.Object(NormalMembers(ms))
    case _ => v
  }

  function NormalAll(es: seq<Value>): (r: seq<Value>)
    ensures |r| == |es|
    decreases es, 0
  {
    if es == [] then [] else [Normal(es[0])] + NormalAll(es[1..])
  }

  function NormalMembers(ms: seq<Member>): (r: seq<Member>)
    ensures |r| == |ms|
    decreases ms, 0
  {
    if ms == [] then [] else [Member(ms[0].key, Normal(ms[0].value))] + NormalMembers(ms[1..])
  }

  // ------------------------------------------------- the text as a syntax tree

  function ItemOf(c: char): G.Item {
    if c == '"' then G.Escape('"')
    else if c == 0x08 as char then G.Escape('b')
    else if c == 0x0C as char then G.Escape('f')
    else if c == '\n' then G.Escape('n')
    else if c == '\r' then G.Escape('r')
    else if c == '\t' then G.Escape('t')
    else if c == '\\' then G.Escape('\\')
    else if c as int < 0x20 then
      G.Unicode("00" + [W.HexDigit(c as int / 16)] + [W.HexDigit(c as int % 16)])
    else G.Raw(c)
  }

  lemma HexDigitOf(d: nat)
    requires d < 16
    ensures R.IsHex(W.HexDigit(d)) && R.HexOf(W.HexDigit(d)) == d
  {
  }

  /** The writer's escapes denote the character they stand for. */
  lemma ItemDenotes(c: char)
    ensures G.ValidItem(ItemOf(c)) && G.ShowItem(ItemOf(c)) == W.CharText(c)
    ensures G.ItemText(ItemOf(c)) == [c]
  {
    if ItemOf(c).Unicode? {
      UnicodeDenotes(c);
    } else {
      hide W.HexDigit, R.HexValue;
    }
  }

  lemma UnicodeDenotes(c: char)
    requires ItemOf(c).Unicode?
    ensures G.ValidItem(ItemOf(c)) && G.ShowItem(ItemOf(c)) == W.CharText(c)
    ensures G.ItemText(ItemOf(c)) == [c]
  {
    var i := ItemOf(c);
    var a, b := W.HexDigit(c as int / 16), W.HexDigit(c as int % 16);
    HexDigitOf(c as int / 16);
    HexDigitOf(c as int % 16);
    assert i.hex == ['0', '0', a, b];
    assert R.HexValue(i.hex) == c as int;
    assert "\\u" + i.hex == W.CharText(c);
  }

  function ItemsOf(s: string): seq<G.Item> {
    if s == [] then [] else [ItemOf(s[0])] + ItemsOf(s[1..])
  }

  lemma {:induction false} ItemsDenote(s: string)
    ensures G.ValidItems(ItemsOf(s)) && G.ShowItems(ItemsOf(s)) == W.CharsText(s)
    ensures G.ItemsText(ItemsOf(s)) == s
  {
    if s != [] {
      ItemDenotes(s[0]);
      ItemsDenote(s[1..]);
      assert ItemsOf(s)[1..] == ItemsOf(s[1..]);
      assert s == [s[0]] + s[1..];
    }
  }

  function RawItems(s: string): seq<G.Item> {
    if s == [] then [] else [G.Raw(s[0])] + RawItems(s[1..])
  }

  lemma {:induction false} RawItemsDenote(s: string)
    requires PlainKey(s)
    ensures G.ValidItems(RawItems(s)) && G.ShowItems(RawItems(s)) == s
    ensures G.ItemsText(RawItems(s)) == s
  {
    if s != [] {
      RawItemsDenote(s[1..]);
      assert RawItems(s)[1..] == RawItems(s[1..]);
      assert s == [s[0]] + s[1..];
    }
  }

  function NumberOf(n: int): R.NumberText {
    R.NumberText(n < 0, Decimal(Itoa.Magnitude(n)), None, None, R.Plain)
  }

  lemma PlainMeaning(fits: R.DoubleRange, t: R.NumberText, n: int)
    requires t.Valid() && !t.IsDouble() && t.suffix.Plain? && t.Integer() == n && InInt64(n)
    ensures t.Meaning(fits) == Some(if InInt32(n) then Event.Int32(n) else Event.Int64(n))
  {
  }

  lemma PlainText(t: R.NumberText)
    requires t.fraction.None? && t.exponent.None? && t.suffix.Plain?
    ensures t.Show() == R.WholeText(t.negative, t.whole)
  {
  }

  /** The decimal text of an integer is the text of a number that means it, as
      an Int32 exactly when it fits. */
  lemma NumberDenotes(fits: R.DoubleRange, n: int64)
    ensures NumberOf(n).Valid() && NumberOf(n).Show() == DecimalInt(n)
    ensures NumberOf(n).Meaning(fits) ==
            Some(if InInt32(n) then Event.Int32(n) else Event.Int64(n))
  {
    var t := NumberOf(n);
    DecimalLeading(Itoa.Magnitude(n));
    DecimalValue(Itoa.Magnitude(n));
    PlainText(t);
    assert "" + t.whole == t.whole;
    PlainMeaning(fits, t, n);
  }

  function SyntaxOf(v: Value): G.Syntax
    requires Writable(v)
    decreases v, 1
  {
    match v
    case Null => G.Syntax.Null
    case Bool(b) => if b then G.True else G.False
    case Int32(n) => G.Number(NumberOf(n))
    case Int64(n) => G.Number(NumberOf(n))
    case String(s) => G.Syntax.String(ItemsOf(s))
    case Array(es) => if es == [] then G.EmptyArray("") else G.Syntax.Array("", ElementsOf(es))
    case Object(ms) => if ms == [] then G.EmptyObject("") else G.Syntax.Object("", MembersOf(ms))
  }

  function ElementsOf(es: seq<Value>): G.Elements
    requires es != [] && forall i :: 0 <= i < |es| ==> Writable(es[i])
    decreases es, 0
  {
    if |es| == 1 then G.LastElement(SyntaxOf(es[0]), "")
    else G.MoreElements(SyntaxOf(es[0]), "", "", ElementsOf(es[1..]))
  }

  function PairOf(m: Member): G.Pair
    requires Writable(m.value)
    decreases m, 2
  {
    G.Pair(RawItems(m.key), "", "", SyntaxOf(m.value))
  }

  function MembersOf(ms: seq<Member>): G.Members
    requires ms != [] && forall i :: 0 <= i < |ms| ==> PlainKey(ms[i].key) && Writable(ms[i].value)
    decreases ms, 0
  {
    if |ms| == 1 then G.LastMember(PairOf(ms[0]), "")
    else G.MoreMembers(PairOf(ms[0]), "", "", MembersOf(ms[1..]))
  }

  /** The writer's text is the text of the tree's syntax, which means the
      normalised tree. */
  lemma {:induction false} SyntaxDenotes(fits: R.DoubleRange, v: Value)
    requires Writable(v)
    ensures G.Valid(fits, SyntaxOf(v)) && G.Show(SyntaxOf(v)) == W.TreeText(v)
    ensures G.Meaning(fits, SyntaxOf(v)) == EventsOf(Normal(v))
    decreases v, 1
  {
    match v
    case Array(es) => ArrayDenotes(fits, es);
    case Object(ms) => ObjectDenotes(fits, ms);
    case Int32(n) => IntegerDenotes(fits, v, n);
    case Int64(n) => IntegerDenotes(fits, v, n);
    case _ => WordDenotes(fits, v);
  }

  lemma IntegerDenotes(fits: R.DoubleRange, v: Value, n: int64)
    requires v == Value.Int64(n) || (InInt32(n) && v == Value.Int32(n))
    ensures G.Valid(fits, SyntaxOf(v)) && G.Show(SyntaxOf(v)) == W.TreeText(v)
    ensures G.Meaning(fits, SyntaxOf(v)) == EventsOf(Normal(v))
  {
    NumberDenotes(fits, n);
    assert SyntaxOf(v) == G.Number(NumberOf(n));
  }

  lemma WordDenotes(fits: R.DoubleRange, v: Value)
    requires v.Null? || v.Bool? || v.String?
    ensures G.Valid(fits, SyntaxOf(v)) && G.Show(SyntaxOf(v)) == W.TreeText(v)
    ensures G.Meaning(fits, SyntaxOf(v)) == EventsOf(Normal(v))
  {
    if v.String? {
      ItemsDenote(v.s);
    }
  }

  lemma {:induction false} ArrayDenotes(fits: R.DoubleRange, es: seq<Value>)
    requires Writable(Value.Array(es))
    ensures var v := Value.Array(es);
            && G.Valid(fits, SyntaxOf(v)) && G.Show(SyntaxOf(v)) == W.TreeText(v)
            && G.Meaning(fits, SyntaxOf(v)) == EventsOf(Normal(v))
    decreases es, 1
  {
    if es == [] {
      Glue("]", "", "");
      Glue([StartArray], [], [EndArray]);
    } else {
      ElementsDenote(fits, es);
      Glue(G.ShowElements(ElementsOf(es)), "", "");
      Glue([StartArray], EventsOfAll(NormalAll(es)), [EndArray]);
    }
  }

  lemma {:induction false} ElementsDenote(fits: R.DoubleRange, es: seq<Value>)
    requires es != [] && forall i :: 0 <= i < |es| ==> Writable(es[i])
    ensures G.ValidElements(fits, ElementsOf(es))
    ensures G.ShowElements(ElementsOf(es)) == W.ElementsText(es) + "]"
    ensures G.ElementsMeaning(fits, ElementsOf(es)) == EventsOfAll(NormalAll(es)) + [EndArray]
    decreases es, 0
  {
    SyntaxDenotes(fits, es[0]);
    var t, ev := W.TreeText(es[0]), EventsOf(Normal(es[0]));
    assert NormalAll(es)[0] == Normal(es[0]) && NormalAll(es)[1..] == NormalAll(es[1..]);
    if |es| == 1 {
      Glue("]", "", "");
      Glue(t, "", "");
      Glue(ev, [], []);
    } else {
      ElementsDenote(fits, es[1..]);
      var tail := W.ElementsText(es[1..]);
      Glue(t, "," + tail, "]");
      Glue(",", tail, "]");
      Glue(tail + "]", "", "");
      Glue("," + (tail + "]"), "", "");
      Glue(ev, EventsOfAll(NormalAll(es[1..])), [EndArray]);
    }
  }

  lemma {:induction false} ObjectDenotes(fits: R.DoubleRange, ms: seq<Member>)
    requires Writable(Value.Object(ms))
    ensures var v := Value.Object(ms);
            && G.Valid(fits, SyntaxOf(v)) && G.Show(SyntaxOf(v)) == W.TreeText(v)
            && G.Meaning(fits, SyntaxOf(v)) == EventsOf(Normal(v))
    decreases ms, 1
  {
    if ms == [] {
      Glue("}", "", "");
      Glue([StartObject], [], [EndObject]);
    } else {
      MembersDenote(fits, ms);
      Glue(G.ShowMembers(MembersOf(ms)), "", "");
      Glue([StartObject], EventsOfMembers(NormalMembers(ms)), [EndObject]);
    }
  }

  lemma {:induction false} PairDenotes(fits: R.DoubleRange, m: Member)
    requires PlainKey(m.key) && Writable(m.value)
    ensures G.ValidPair(fits, PairOf(m)) && G.ShowPair(PairOf(m)) == W.PairText(m)
    ensures G.PairMeaning(fits, PairOf(m)) == [Key(m.key)] + EventsOf(Normal(m.value))
    decreases m, 2
  {
    RawItemsDenote(m.key);
    SyntaxDenotes(fits, m.value);
    Glue(W.TreeText(m.value), "", "");
    Glue(":" + W.TreeText(m.value), "", "");
  }

  lemma {:induction false} MembersDenote(fits: R.DoubleRange, ms: seq<Member>)
    requires ms != [] && forall i :: 0 <= i < |ms| ==> PlainKey(ms[i].key) && Writable(ms[i].value)
    ensures G.ValidMembers(fits, MembersOf(ms))
    ensures G.ShowMembers(MembersOf(ms)) == W.MembersText(ms) + "}"
    ensures G.MembersMeaning(fits, MembersOf(ms)) == EventsOfMembers(NormalMembers(ms)) + [EndObject]
    decreases ms, 0
  {
    PairDenotes(fits, ms[0]);
    var t, ev := W.PairText(ms[0]), [Key(ms[0].key)] + EventsOf(Normal(ms[0].value));
    var ns := NormalMembers(ms);
    assert ns[0] == Member(ms[0].key, Normal(ms[0].value)) && ns[1..] == NormalMembers(ms[1..]);
    if |ms| == 1 {
      Glue("}", "", "");
      Glue(t, "", "");
      Glue(ev, [], []);
    } else {
      MembersDenote(fits, ms[1..]);
      var tail := W.MembersText(ms[1..]);
      Glue(t, "," + tail, "}");
      Glue(",", tail, "}");
      Glue(tail + "}", "", "");
      Glue("," + (tail + "}"), "", "");
      Glue(ev, EventsOfMembers(NormalMembers(ms[1..])), [EndObject]);
    }
  }

  /** Reading what was written, with any white space around it, sends the events
      of the normalised tree. */
  lemma TextRoundTrip(fits: R.DoubleRange, lead: string, v: Value, trail: string)
    requires Writable(v) && AllWs(lead) && AllWs(trail)
    ensures R.Parse(fits, lead + (W.TreeText(v) + trail)) == R.Accepted(EventsOf(Normal(v)))
  {
    SyntaxDenotes(fits, v);
    C.ParseComplete(fits, G.Document(lead, SyntaxOf(v), trail));
  }
}
