/** The other half of the round trip: a tree with a key that its text does not carry
    unescaped never comes back. */
module RoundTripExact {
  import opened Text
  import opened Json
  import opened RoundTrip
  import R = ReaderSpec
  import S = ReaderSound
  import C = ReaderComplete
  import W = WriterSpec
  import B = Builder
  import P = DocumentProofs
  import E = ReaderEvents
  import Codec
  import Utf8

  // ------------------------------------------------------------------- keys

  function Quotes(s: string): nat {
    if s == "" then 0 else (if s[0] == '"' then 1 else 0) + Quotes(s[1..])
  }

  lemma {:induction false} QuotesConcat(a: string, b: string)
    ensures Quotes(a + b) == Quotes(a) + Quotes(b)
    decreases |a|
  {
    if a == "" {
      assert a + b == b;
    } else {
      assert (a + b)[0] == a[0] && (a + b)[1..] == a[1..] + b;
      QuotesConcat(a[1..], b);
    }
  }

  lemma {:induction false} NoQuotes(a: string)
    requires forall i :: 0 <= i < |a| ==> a[i] != '"'
    ensures Quotes(a) == 0
  {
    if a != "" {
      NoQuotes(a[1..]);
    }
  }

  /** What a text reads back as is not the text itself: it is shorter or has more
      quotation marks. */
  predicate Differs(back: string, a: string) { |back| < |a| || Quotes(back) > Quotes(a) }

  lemma DiffersOn(t: string, back: string, a: string, n: nat)
    requires n <= |a| && |t| <= n && Quotes(a[..n]) <= Quotes(t)
    requires Differs(back, a[n..]) || (|t| < n && back == a[n..])
    ensures Differs(t + back, a)
  {
    QuotesConcat(t, back);
    QuotesConcat(a[..n], a[n..]);
    assert a[..n] + a[n..] == a;
  }

  lemma After(a: string, n: nat, q: string)
    requires n <= |a|
    ensures (a + q)[n..] == a[n..] + q && (a + q)[..n] == a[..n]
  {
  }

  /** An escape inside the key, or one that takes the closing quotation mark. */
  lemma EscapeBack(a: string, z: string)
    requires a != "" && a[0] == '\\'
    requires R.ScanEscape((a + ("\"" + z))[1..]).Chars?
    ensures var e := R.ScanEscape((a + ("\"" + z))[1..]);
            (a == "\\" && e.text == "\"") || exists n: nat :: n <= |a| && Escapes(a, z, n)
  {
    var q := "\"" + z;
    var s := a + q;
    var u := s[1..];
    var c := R.Peek(u);
    if |a| == 1 {
      assert a == "\\" && u == q && c == '"';
    } else if R.SimpleEscape(c).Some? {
      assert c == a[1];
      After(a, 2, q);
      assert u[1..] == s[2..];
      QuotesOfTwo(a[0], c);
      assert a[..2] == [a[0], c];
      assert Escapes(a, z, 2);
    } else {
      UnicodeBack(a, z);
    }
  }

  lemma QuotesOfTwo(a: char, c: char)
    requires a != '"' && R.SimpleEscape(c).Some?
    ensures Quotes([a, c]) <= Quotes([R.SimpleEscape(c).value])
  {
    assert [a, c][1..] == [c];
    var d := R.SimpleEscape(c).value;
    assert c == '"' <==> d == '"';
    assert [d][1..] == "" && [c][1..] == "";
  }

  /** The escape takes the first n characters of the key, more than it yields. */
  ghost predicate Escapes(a: string, z: string, n: nat)
    requires a != "" && n <= |a|
  {
    var e := R.ScanEscape((a + ("\"" + z))[1..]);
    && e.Chars? && e.rest == a[n..] + ("\"" + z)
    && |e.text| < n && Quotes(a[..n]) <= Quotes(e.text)
  }

  /** Four hexadecimal digits in front of a quotation mark or inside the key. */
  lemma HexInside(a: string, q: string, k: nat)
    requires k <= |a| && q != "" && q[0] == '"' && R.ScanHex((a + q)[k..]).Some?
    ensures k + 4 <= |a| && R.ScanHex((a + q)[k..]).value.1 == a[k + 4..] + q
    ensures forall i :: k <= i < k + 4 ==> a[i] != '"'
  {
    var t := (a + q)[k..];
    assert forall i :: 0 <= i < 4 ==> R.IsHex(t[..4][i]);
    assert (a + q)[|a|] == '"' && !R.IsHex('"');
    assert forall i :: 0 <= i < 4 ==> t[..4][i] == (a + q)[k + i];
    assert forall i :: 0 <= i < 4 ==> t[..4][i] == a[k + i];
    After(a, k + 4, q);
    assert t[4..] == (a + q)[k + 4..];
  }

  lemma UnicodeBack(a: string, z: string)
    requires |a| > 1 && a[0] == '\\' && R.SimpleEscape(a[1]).None?
    requires R.ScanEscape((a + ("\"" + z))[1..]).Chars?
    ensures exists n: nat :: n <= |a| && Escapes(a, z, n)
  {
    var q := "\"" + z;
    var s := a + q;
    var u := s[1..];
    assert R.Peek(u) == a[1] && R.Rest(u) == s[2..];
    HexInside(a, q, 2);
    var (h, t) := R.ScanHex(s[2..]).value;
    if !Utf8.IsHigh(h) {
      NoQuotes(a[..6]);
      assert Escapes(a, z, 6);
    } else {
      assert t == a[6..] + q;
      assert t[0] == '\\' && t[1] == 'u';
      assert |a| >= 8 && a[6] == '\\' && a[7] == 'u';
      assert t[2..] == s[8..];
      HexInside(a, q, 8);
      NoQuotes(a[..12]);
      assert Escapes(a, z, 12);
    }
  }

  /** A key in front of its closing quotation mark reads back as itself only if it is
      plain. */
  lemma {:induction false} KeyBack(a: string, z: string)
    requires R.ScanChars(a + ("\"" + z)).Chars?
    ensures PlainKey(a) || Differs(R.ScanChars(a + ("\"" + z)).text, a)
    decreases |a|
  {
    var q := "\"" + z;
    var s := a + q;
    if a != "" {
      assert s[0] == a[0];
      if a[0] == '\\' {
        EscapeBack(a, z);
        var e := R.ScanEscape(s[1..]);
        var back := R.ScanChars(e.rest);
        assert R.ScanChars(s) == back.After(e.text);
        if a == "\\" && e.text == "\"" {
          QuotesConcat("\"", back.text);
          assert Quotes("\"") == 1 && Quotes("\\") == 0;
        } else {
          var n: nat :| n <= |a| && Escapes(a, z, n);
          KeyBack(a[n..], z);
          if PlainKey(a[n..]) {
            RawItemsDenote(a[n..]);
            C.CharsComplete(RawItems(a[n..]), z);
          }
          DiffersOn(e.text, back.text, a, n);
        }
      } else if a[0] != '"' {
        After(a, 1, q);
        KeyBack(a[1..], z);
        var back := R.ScanChars(a[1..] + q);
        assert R.ScanChars(s) == back.After([a[0]]);
        if !PlainKey(a[1..]) {
          assert [a[0]] == a[..1];
          DiffersOn([a[0]], back.text, a, 1);
        }
      }
    }
  }

  // ----------------------------------------------------------------- events

  lemma Cancel(e: Event, a: seq<Event>, b: seq<Event>)
    requires [e] + a == [e] + b
    ensures a == b
  {
    assert ([e] + a)[1..] == a && ([e] + b)[1..] == b;
  }

  lemma FirstEvent(v: Value, x: seq<Event>)
    ensures EventsOf(v) != [] && (EventsOf(v) + x)[0] == EventsOf(v)[0]
    ensures !EventsOf(v)[0].EndArray? && !EventsOf(v)[0].EndObject?
    ensures EventsOf(v)[0].StartArray? <==> v.Array?
    ensures EventsOf(v)[0].StartObject? <==> v.Object?
    ensures !v.Array? && !v.Object? ==> EventsOf(v) == [EventsOf(v)[0]]
  {
  }

  lemma ScalarUnique(a: Value, b: Value)
    requires !a.Array? && !a.Object? && EventsOf(a)[0] == EventsOf(b)[0]
    ensures a == b
  {
  }

  /** No tree's events begin with another tree's. */
  lemma {:induction false} EventsUnique(a: Value, b: Value, x: seq<Event>, y: seq<Event>)
    requires EventsOf(a) + x == EventsOf(b) + y
    ensures a == b && x == y
    decreases a, 1
  {
    FirstEvent(a, x);
    FirstEvent(b, y);
    if a.Array? {
      Bracketed(StartArray, EventsOfAll(a.elems), EndArray, x);
      Bracketed(StartArray, EventsOfAll(b.elems), EndArray, y);
      Cancel(StartArray, EventsOfAll(a.elems) + ([EndArray] + x), EventsOfAll(b.elems) + ([EndArray] + y));
      AllUnique(a.elems, b.elems, x, y);
    } else if a.Object? {
      Bracketed(StartObject, EventsOfMembers(a.members), EndObject, x);
      Bracketed(StartObject, EventsOfMembers(b.members), EndObject, y);
      Cancel(StartObject, EventsOfMembers(a.members) + ([EndObject] + x),
             EventsOfMembers(b.members) + ([EndObject] + y));
      MembersUnique(a.members, b.members, x, y);
    } else {
      ScalarUnique(a, b);
      Cancel(EventsOf(a)[0], x, y);
    }
  }

  lemma Bracketed(first: Event, body: seq<Event>, last: Event, x: seq<Event>)
    ensures (([first] + body) + [last]) + x == [first] + (body + ([last] + x))
  {
    Glue([first] + body, [last], x);
    Glue([first], body, [last] + x);
  }

  lemma AllFirst(es: seq<Value>, x: seq<Event>)
    requires es != []
    ensures EventsOfAll(es) + x == EventsOf(es[0]) + (EventsOfAll(es[1..]) + x)
  {
    Glue(EventsOf(es[0]), EventsOfAll(es[1..]), x);
  }

  lemma {:induction false} AllUnique(a: seq<Value>, b: seq<Value>, x: seq<Event>, y: seq<Event>)
    requires EventsOfAll(a) + ([EndArray] + x) == EventsOfAll(b) + ([EndArray] + y)
    ensures a == b && x == y
    decreases a, 0
  {
    var p, q := [EndArray] + x, [EndArray] + y;
    if a != [] {
      AllFirst(a, p);
      FirstEvent(a[0], EventsOfAll(a[1..]) + p);
    }
    if b != [] {
      AllFirst(b, q);
      FirstEvent(b[0], EventsOfAll(b[1..]) + q);
    }
    if a == [] {
      assert [] + p == p && [] + q == q;
      Cancel(EndArray, x, y);
    } else {
      assert [] + q == q;
      EventsUnique(a[0], b[0], EventsOfAll(a[1..]) + p, EventsOfAll(b[1..]) + q);
      AllUnique(a[1..], b[1..], x, y);
      assert a == [a[0]] + a[1..] && b == [b[0]] + b[1..];
    }
  }

  lemma MembersFirst(ms: seq<Member>, x: seq<Event>)
    requires ms != []
    ensures EventsOfMembers(ms) + x ==
            [Key(ms[0].key)] + (EventsOf(ms[0].value) + (EventsOfMembers(ms[1..]) + x))
    ensures (EventsOfMembers(ms) + x)[0] == Key(ms[0].key)
  {
    var k, v, r := [Key(ms[0].key)], EventsOf(ms[0].value), EventsOfMembers(ms[1..]);
    Glue(k + v, r, x);
    Glue(k, v, r + x);
  }

  lemma {:induction false} MembersUnique(a: seq<Member>, b: seq<Member>, x: seq<Event>, y: seq<Event>)
    requires EventsOfMembers(a) + ([EndObject] + x) == EventsOfMembers(b) + ([EndObject] + y)
    ensures a == b && x == y
    decreases a, 0
  {
    var p, q := [EndObject] + x, [EndObject] + y;
    if a != [] {
      MembersFirst(a, p);
    }
    if b != [] {
      MembersFirst(b, q);
    }
    assert [] + p == p && [] + q == q && p[0] == EndObject && q[0] == EndObject;
    if a == [] {
      Cancel(EndObject, x, y);
    } else {
      var u, v := EventsOfMembers(a[1..]) + p, EventsOfMembers(b[1..]) + q;
      Cancel(Key(a[0].key), EventsOf(a[0].value) + u, EventsOf(b[0].value) + v);
      EventsUnique(a[0].value, b[0].value, u, v);
      MembersUnique(a[1..], b[1..], x, y);
      assert a == [a[0]] + a[1..] && b == [b[0]] + b[1..];
    }
  }

  // ------------------------------------------------------------------ trees

  predicate NoDoubles(v: Value) {
    match v
    case Double(_) => false
    case Array(es) => forall i :: 0 <= i < |es| ==> NoDoubles(es[i])
    case Object(ms) => forall i :: 0 <= i < |ms| ==> NoDoubles(ms[i].value)
    case _ => true
  }

  lemma {:induction false} WritableNoDoubles(v: Value)
    requires Writable(v)
    ensures NoDoubles(v)
  {
    match v
    case Array(es) =>
      forall i | 0 <= i < |es| ensures NoDoubles(es[i]) {
        WritableNoDoubles(es[i]);
      }
    case Object(ms) =>
      forall i | 0 <= i < |ms| ensures NoDoubles(ms[i].value) {
        WritableNoDoubles(ms[i].value);
      }
    case _ =>
  }

  /** The text of a tree begins a value, whatever its keys. */
  lemma TextHead(fits: R.DoubleRange, v: Value, r: string)
    requires NoDoubles(v)
    ensures var s := W.TreeText(v) + r; s != "" && SkipWs(s) == s && s[0] != ']' && s[0] == W.TreeText(v)[0]
  {
    if !v.Array? && !v.Object? {
      SyntaxDenotes(fits, v);
      C.ValueHead(fits, SyntaxOf(v));
    }
  }

  /** What a value's scan sends, in front of other events, is the tree's events only if
      it sends no more and no less. */
  lemma ScanUnique(fits: R.DoubleRange, s: string, v: Value, x: seq<Event>, y: seq<Event>)
    requires R.ParseValue(fits, s).Scanned? && R.ParseValue(fits, s).events + x == EventsOf(v) + y
    ensures R.ParseValue(fits, s).events == EventsOf(v) && x == y
  {
    var g := S.ValueSound(fits, s);
    Codec.TreeMeaning(fits, g);
    EventsUnique(Codec.TreeOf(fits, g), v, x, y);
  }

  /** The scan of the text of a writable tree stops right behind it. */
  lemma ScanStops(fits: R.DoubleRange, v: Value, r: string)
    requires Writable(v) && C.Ends(r)
    ensures R.ParseValue(fits, W.TreeText(v) + r) == R.Scanned(r, EventsOf(Normal(v)))
  {
    SyntaxDenotes(fits, v);
    C.ValueComplete(fits, SyntaxOf(v), r);
  }

  /** If the text of a tree reads back as its normalised tree, its keys are plain. */
  lemma {:induction false} ValueBack(fits: R.DoubleRange, v: Value, r: string)
    requires NoDoubles(v) && C.Ends(r)
    requires R.ParseValue(fits, W.TreeText(v) + r).Scanned?
    requires R.ParseValue(fits, W.TreeText(v) + r).events == EventsOf(Normal(v))
    ensures Writable(v)
    decreases v, 1
  {
    if v.Array? && v.elems != [] {
      ArrayBack(fits, v.elems, r);
    } else if v.Object? && v.members != [] {
      ObjectBack(fits, v.members, r);
    }
  }

  lemma {:induction false} ArrayBack(fits: R.DoubleRange, es: seq<Value>, r: string)
    requires es != [] && NoDoubles(Value.Array(es))
    requires var s := W.TreeText(Value.Array(es)) + r;
             R.ParseValue(fits, s).Scanned? && R.ParseValue(fits, s).events == EventsOf(Normal(Value.Array(es)))
    ensures Writable(Value.Array(es))
    decreases es, 1
  {
    var body := W.ElementsText(es) + "]";
    var t := W.ElementsText(es) + ("]" + r);
    C.Opened('[', "", body, r);
    Glue(W.ElementsText(es), "]", r);
    Glue(body, "", "");
    Glue(body + r, "", "");
    ElementsHead(fits, es, "]" + r);
    C.AtArray(fits, W.TreeText(Value.Array(es)) + r, t);
    var es1 := R.ParseElements(fits, t).events;
    Glue([StartArray], EventsOfAll(NormalAll(es)), [EndArray]);
    Cancel(StartArray, es1, EventsOfAll(NormalAll(es)) + [EndArray]);
    ElementsBack(fits, es, r);
  }

  /** The text of the elements in front of a tail, cut behind the first. */
  function Tail(es: seq<Value>, q: string): string
    requires es != []
  {
    if |es| == 1 then q else "," + (W.ElementsText(es[1..]) + q)
  }

  lemma CutElements(es: seq<Value>, q: string)
    requires es != []
    ensures W.ElementsText(es) + q == W.TreeText(es[0]) + Tail(es, q)
  {
    var t := W.TreeText(es[0]);
    if |es| == 1 {
      Glue(t, "", q);
      Glue(t, "", "");
      Glue(q, "", "");
    } else {
      Glue(t, "," + W.ElementsText(es[1..]), q);
      Glue(",", W.ElementsText(es[1..]), q);
    }
  }

  lemma ElementsHead(fits: R.DoubleRange, es: seq<Value>, q: string)
    requires es != [] && NoDoubles(Value.Array(es))
    ensures var s := W.ElementsText(es) + q; s != "" && SkipWs(s) == s && R.Peek(s) != ']'
  {
    CutElements(es, q);
    assert NoDoubles(es[0]);
    TextHead(fits, es[0], Tail(es, q));
  }

  lemma {:induction false} ElementsBack(fits: R.DoubleRange, es: seq<Value>, r: string)
    requires es != [] && NoDoubles(Value.Array(es))
    requires var s := W.ElementsText(es) + ("]" + r);
             && R.ParseElements(fits, s).Scanned?
             && R.ParseElements(fits, s).events == EventsOfAll(NormalAll(es)) + [EndArray]
    ensures Writable(Value.Array(es))
    decreases es, 0
  {
    hide EventsOf, Normal, R.ParseValue;
    var q := "]" + r;
    var s, tail := W.ElementsText(es) + q, Tail(es, q);
    CutElements(es, q);
    R.BehindElement(fits, s);
    assert NoDoubles(es[0]) && NormalAll(es)[0] == Normal(es[0]) && NormalAll(es)[1..] == NormalAll(es[1..]);
    AllFirst(NormalAll(es), [EndArray]);
    var v := R.ParseValue(fits, s);
    var t := SkipWs(v.rest);
    var next := if R.Peek(t) == ',' then R.ParseElements(fits, SkipWs(R.Rest(t))) else R.Scanned(R.Rest(t), [EndArray]);
    ScanUnique(fits, s, Normal(es[0]), next.events, EventsOfAll(NormalAll(es[1..])) + [EndArray]);
    ValueBack(fits, es[0], tail);
    ScanStops(fits, es[0], tail);
    if |es| > 1 {
      C.Unfront(',', W.ElementsText(es[1..]) + q);
      assert NoDoubles(Value.Array(es[1..]));
      ElementsHead(fits, es[1..], q);
      ElementsBack(fits, es[1..], r);
    }
    assert forall i :: 0 < i < |es| ==> es[i] == es[1..][i - 1];
  }

  lemma {:induction false} ObjectBack(fits: R.DoubleRange, ms: seq<Member>, r: string)
    requires ms != [] && NoDoubles(Value.Object(ms))
    requires var s := W.TreeText(Value.Object(ms)) + r;
             R.ParseValue(fits, s).Scanned? && R.ParseValue(fits, s).events == EventsOf(Normal(Value.Object(ms)))
    ensures Writable(Value.Object(ms))
    decreases ms, 1
  {
    var body := W.MembersText(ms) + "}";
    var t := W.MembersText(ms) + ("}" + r);
    C.Opened('{', "", body, r);
    Glue(W.MembersText(ms), "}", r);
    Glue(body, "", "");
    Glue(body + r, "", "");
    MembersHead(ms, "}" + r);
    C.AtObject(fits, W.TreeText(Value.Object(ms)) + r, t);
    var es := R.ParseMembers(fits, t).events;
    Glue([StartObject], EventsOfMembers(NormalMembers(ms)), [EndObject]);
    Cancel(StartObject, es, EventsOfMembers(NormalMembers(ms)) + [EndObject]);
    MembersBack(fits, ms, r);
  }

  /** The text of the members in front of a tail, cut behind the first. */
  function MembersTail(ms: seq<Member>, q: string): string
    requires ms != []
  {
    if |ms| == 1 then q else "," + (W.MembersText(ms[1..]) + q)
  }

  /** And the first cut behind its quotation mark, its key and its colon. */
  lemma CutMembers(ms: seq<Member>, q: string)
    requires ms != []
    ensures W.MembersText(ms) + q ==
            "\"" + (ms[0].key + ("\"" + (":" + (W.TreeText(ms[0].value) + MembersTail(ms, q)))))
  {
    var k, v, tail := ms[0].key, W.TreeText(ms[0].value), MembersTail(ms, q);
    var t := W.PairText(ms[0]);
    if |ms| == 1 {
      Glue(t, "", "");
    } else {
      Glue(t, "," + W.MembersText(ms[1..]), q);
      Glue(",", W.MembersText(ms[1..]), q);
    }
    assert W.MembersText(ms) + q == t + tail;
    Glue(W.Quoted(k), ":" + v, tail);
    Glue(":", v, tail);
    Glue("\"", k + "\"", ":" + (v + tail));
    Glue(k, "\"", ":" + (v + tail));
  }

  lemma MembersHead(ms: seq<Member>, q: string)
    requires ms != []
    ensures var s := W.MembersText(ms) + q; s != "" && SkipWs(s) == s && R.Peek(s) == '"'
  {
    CutMembers(ms, q);
  }

  /** One step of the reader at a key, by definition. */
  lemma AtMember(fits: R.DoubleRange, s: string, u: string)
    requires s == "\"" + u && R.ParseMember(fits, s).Scanned?
    ensures R.ScanChars(u).Chars?
    ensures var k, t := R.ScanChars(u), SkipWs(R.ScanChars(u).rest);
            && R.Peek(t) == ':'
            && R.ParseMember(fits, s) == R.ParseValue(fits, SkipWs(R.Rest(t))).After([Key(k.text)])
  {
    C.Unfront('"', u);
  }

  /** A key that comes back is plain, and the scan stops behind it. */
  lemma KeyStops(k: string, z: string)
    requires R.ScanChars(k + ("\"" + z)).Chars? && R.ScanChars(k + ("\"" + z)).text == k
    ensures PlainKey(k) && R.ScanChars(k + ("\"" + z)).rest == z
  {
    KeyBack(k, z);
    RawItemsDenote(k);
    C.CharsComplete(RawItems(k), z);
  }

  /** The text of the members behind the colon of the first. */
  function ValueText(ms: seq<Member>, q: string): string
    requires ms != []
  {
    W.TreeText(ms[0].value) + MembersTail(ms, q)
  }

  /** What the loop of the reader does behind the first member. */
  function NextMembers(fits: R.DoubleRange, rest: string): R.Scan {
    var t := SkipWs(rest);
    if R.Peek(t) == ',' then R.ParseMembers(fits, SkipWs(R.Rest(t))) else R.Scanned(R.Rest(t), [EndObject])
  }

  /** The reader at the first member, if it accepts the members: its key is scanned, then
      its value somewhere behind, and then the others. */
  lemma FirstMember(fits: R.DoubleRange, ms: seq<Member>, q: string) returns (c: R.Chars, v: R.Scan, at: string)
    requires ms != [] && R.ParseMembers(fits, W.MembersText(ms) + q).Scanned?
    ensures c == R.ScanChars(ms[0].key + ("\"" + (":" + ValueText(ms, q)))) && c.Chars?
    ensures at == SkipWs(R.Rest(SkipWs(c.rest))) && v == R.ParseValue(fits, at) && v.Scanned?
    ensures NextMembers(fits, v.rest).Scanned?
    ensures R.ParseMembers(fits, W.MembersText(ms) + q).events ==
            [Key(c.text)] + (v.events + NextMembers(fits, v.rest).events)
  {
    var s, u := W.MembersText(ms) + q, ms[0].key + ("\"" + (":" + ValueText(ms, q)));
    CutMembers(ms, q);
    MembersHead(ms, q);
    R.BehindMember(fits, s);
    AtMember(fits, s, u);
    hide R.ScanChars, R.ParseValue, R.ParseMember, R.ParseMembers;
    c := R.ScanChars(u);
    at := SkipWs(R.Rest(SkipWs(c.rest)));
    v := R.ParseValue(fits, at);
    Glue([Key(c.text)], v.events, NextMembers(fits, v.rest).events);
  }

  /** The first member of members that come back: its key is plain, its value comes back,
      and so do the others. */
  lemma FirstBack(fits: R.DoubleRange, ms: seq<Member>, q: string)
    requires ms != [] && NoDoubles(ms[0].value) && R.ParseMembers(fits, W.MembersText(ms) + q).Scanned?
    requires R.ParseMembers(fits, W.MembersText(ms) + q).events ==
             EventsOfMembers(NormalMembers(ms)) + [EndObject]
    ensures PlainKey(ms[0].key)
    ensures var v := R.ParseValue(fits, ValueText(ms, q));
            && v.Scanned? && v.events == EventsOf(Normal(ms[0].value))
            && NextMembers(fits, v.rest).Scanned?
            && NextMembers(fits, v.rest).events == EventsOfMembers(NormalMembers(ms[1..])) + [EndObject]
  {
    var c, v, at := FirstMember(fits, ms, q);
    var k, w, ns := ms[0].key, ValueText(ms, q), NormalMembers(ms);
    var more := EventsOfMembers(NormalMembers(ms[1..])) + [EndObject];
    assert ns[0] == Member(k, Normal(ms[0].value)) && ns[1..] == NormalMembers(ms[1..]);
    MembersFirst(ns, [EndObject]);
    hide EventsOf, EventsOfMembers, Normal, NormalMembers, R.ScanChars, R.ParseValue, R.ParseMembers, NextMembers;
    assert ([Key(c.text)] + (v.events + NextMembers(fits, v.rest).events))[0] == Key(c.text);
    KeyStops(k, ":" + w);
    C.Unfront(':', w);
    TextHead(fits, ms[0].value, MembersTail(ms, q));
    assert at == w;
    Cancel(Key(k), v.events + NextMembers(fits, v.rest).events, EventsOf(Normal(ms[0].value)) + more);
    ScanUnique(fits, w, Normal(ms[0].value), NextMembers(fits, v.rest).events, more);
  }

  lemma {:induction false} MembersBack(fits: R.DoubleRange, ms: seq<Member>, r: string)
    requires ms != [] && NoDoubles(Value.Object(ms))
    requires var s := W.MembersText(ms) + ("}" + r);
             && R.ParseMembers(fits, s).Scanned?
             && R.ParseMembers(fits, s).events == EventsOfMembers(NormalMembers(ms)) + [EndObject]
    ensures Writable(Value.Object(ms))
    decreases ms, 0
  {
    hide EventsOf, EventsOfMembers, Normal, NormalMembers, R.ParseValue, R.ParseMembers;
    var q := "}" + r;
    var v, tail := ms[0].value, MembersTail(ms, q);
    assert NoDoubles(v);
    FirstBack(fits, ms, q);
    ValueBack(fits, v, tail);
    ScanStops(fits, v, tail);
    if |ms| > 1 {
      C.Unfront(',', W.MembersText(ms[1..]) + q);
      assert NoDoubles(Value.Object(ms[1..]));
      MembersHead(ms[1..], q);
      MembersBack(fits, ms[1..], r);
    }
    assert forall i :: 0 < i < |ms| ==> ms[i] == ms[1..][i - 1];
  }

  // ------------------------------------------------------------ main result

  /** For every tree without doubles, with any white space around its text: writing and
      reading gives the tree back, but for Int64 values that fit an Int32, if and only if
      its keys are plain and no object repeats one. */
  lemma RoundTripExactly(fits: R.DoubleRange, lead: string, v: Value, trail: string)
    requires NoDoubles(v) && AllWs(lead) && AllWs(trail)
    ensures Codec.ParseText(fits, lead + (W.TreeText(v) + trail)) == Codec.Tree(Normal(v))
            <==> Writable(v) && B.DistinctKeys(v)
  {
    var s := lead + (W.TreeText(v) + trail);
    if Writable(v) && B.DistinctKeys(v) {
      Codec.TreeRoundTrip(fits, lead, v, trail);
    } else if Codec.ParseText(fits, s) == Codec.Tree(Normal(v)) {
      var g := Codec.ParsesOnlyGrammar(fits, s);
      Codec.NormalDistinct(v);
      TextHead(fits, v, trail);
      SkipWsOver(lead, W.TreeText(v) + trail);
      E.ParseWellFormed(fits, s);
      P.DocumentReplays(R.Parse(fits, s).events);
      assert C.Ends(trail);
      ValueBack(fits, v, trail);
    }
  }
}
