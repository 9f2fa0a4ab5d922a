/** The printing handler as a state machine: a stack of open containers with
    the number of keys and values put into each, and the text so far. */
module WriterSpec {
  import opened Text
  import opened Json

  datatype Level = Level(inArray: bool, valueCount: nat)

  datatype Printer = Printer(stack: seq<Level>, seen: bool, out: string) {
    function Top(): Level
      requires stack != []
    {
      stack[|stack| - 1]
    }

    function Pop(): seq<Level>
      requires stack != []
    {
      stack[..|stack| - 1]
    }
  }

  const BLANK := Printer([], false, "")

  // ------------------------------------------------------------------- text

  function HexDigit(d: nat): char
    requires d < 16
  {
    "0123456789ABCDEF"[d]
  }

  /** One character of a string value. */
  function CharText(c: char): string {
    if c == '"' then "\\\""
    else if c == 0x08 as char then "\\b"
    else if c == 0x0C as char then "\\f"
    else if c == '\n' then "\\n"
    else if c == '\r' then "\\r"
    else if c == '\t' then "\\t"
    else if c == '\\' then "\\\\"
    else if c as int < 0x20 then
      "\\u00" + [HexDigit(c as int / 16)] + [HexDigit(c as int % 16)]
    else [c]
  }

  function CharsText(s: string): string {
    if s == [] then [] else CharText(s[0]) + CharsText(s[1..])
  }

  function Quoted(s: string): string { "\"" + (s + "\"") }

  /** What an event puts behind its comma or colon; keys are not escaped. */
  function EventText(e: Event): string {
    match e
    case Null => "null"
    case Bool(b) => if b then "true" else "false"
    case Int32(i) => DecimalInt(i)
    case Int64(i) => DecimalInt(i)
    case Double(t) => t
    case String(s) => Quoted(CharsText(s))
    case Key(k) => Quoted(k)
    case StartArray => "["
    case EndArray => "]"
    case StartObject => "{"
    case EndObject => "}"
  }

  // ---------------------------------------------------------------- machine

  /** The comma or colon that prefix puts. */
  function Separator(w: Printer): string {
    if w.stack == [] || w.Top() == Level(w.Top().inArray, 0) then ""
    else if !w.Top().inArray && w.Top().valueCount % 2 == 1 then ":"
    else ","
  }

  /** The assertions of prefix: one root only, and strings for keys. */
  predicate MayPut(w: Printer, isString: bool) {
    && (w.seen ==> w.stack != [])
    && (w.stack != [] && !w.Top().inArray && w.Top().valueCount % 2 == 0 ==> isString)
  }

  function Prefix(w: Printer): Printer {
    if w.stack == [] then Printer([], true, w.out)
    else Printer(w.Pop() + [w.Top().(valueCount := w.Top().valueCount + 1)], true,
                 w.out + Separator(w))
  }

  /** One event; None where an assertion of the source fails. */
  function Put(w: Printer, e: Event): Option<Printer> {
    if e.EndArray? || e.EndObject? then
      if w.stack == [] || w.Top().inArray != e.EndArray? then None
      else Some(Printer(w.Pop(), w.seen, w.out + EventText(e)))
    else if !MayPut(w, e.Key? || e.String?) then None
    else
      var p := Prefix(w);
      Some(Printer(
             if e.StartArray? then p.stack + [Level(true, 0)]
             else if e.StartObject? then p.stack + [Level(false, 0)]
             else p.stack,
             true, p.out + EventText(e)))
  }

  function PutAll(w: Printer, es: seq<Event>): Option<Printer>
    decreases |es|
  {
    if es == [] then Some(w)
    else match Put(w, es[0])
         case None => None
         case Some(x) => PutAll(x, es[1..])
  }

  lemma {:induction false} PutConcat(w: Printer, a: seq<Event>, b: seq<Event>)
    ensures PutAll(w, a + b) ==
            match PutAll(w, a) { case None => None case Some(x) => PutAll(x, b) }
    decreases |a|
  {
    if a == [] {
      assert a + b == b;
    } else {
      assert (a + b)[0] == a[0] && (a + b)[1..] == a[1..] + b;
      match Put(w, a[0])
      case None =>
      case Some(x) => PutConcat(x, a[1..], b);
    }
  }

  lemma PutOne(w: Printer, e: Event)
    ensures PutAll(w, [e]) == Put(w, e)
  {
    match Put(w, e)
    case None =>
    case Some(x) => assert PutAll(x, [e][1..]) == Some(x);
  }

  // ------------------------------------------- no assertion on good streams

  /** The printer stands where the grammar of events does. */
  ghost predicate Agrees(w: Printer, p: Position) {
    && |w.stack| == |p.open|
    && w.seen == p.begun
    && (p.open != [] ==> p.begun)
    && forall i :: 0 <= i < |p.open| ==>
         p.open[i] == if w.stack[i].inArray then InArray
                      else InObject(w.stack[i].valueCount % 2 == 1)
  }

  lemma Flip(n: nat)
    ensures (n + 1) % 2 == 1 - n % 2
  {
  }

  lemma AgreePrefix(w: Printer, p: Position)
    requires Agrees(w, p) && TakesValue(p)
    ensures MayPut(w, false) && Agrees(Prefix(w), Filled(p))
  {
    if w.stack != [] {
      Flip(w.Top().valueCount);
    }
  }

  lemma AgreePush(w: Printer, p: Position, e: Event)
    requires e.StartArray? || e.StartObject?
    requires Agrees(w, p) && Advance(p, e).Some?
    ensures Put(w, e).Some? && Agrees(Put(w, e).value, Advance(p, e).value)
  {
    AgreePrefix(w, p);
    var x, q := Prefix(w), Filled(p);
    assert Put(w, e).value.stack == x.stack + [Level(e.StartArray?, 0)];
    assert Advance(p, e).value.open == q.open + [if e.StartArray? then InArray else InObject(false)];
  }

  lemma AgreeKey(w: Printer, p: Position, e: Event)
    requires e.Key? && Agrees(w, p) && Advance(p, e).Some?
    ensures Put(w, e).Some? && Agrees(Put(w, e).value, Advance(p, e).value)
  {
    Flip(w.Top().valueCount);
    assert p.open[|p.open| - 1] == InObject(false);
    assert Put(w, e).value.stack == Prefix(w).stack;
  }

  lemma AgreePop(w: Printer, p: Position, e: Event)
    requires e.EndArray? || e.EndObject?
    requires Agrees(w, p) && Advance(p, e).Some?
    ensures Put(w, e).Some? && Agrees(Put(w, e).value, Advance(p, e).value)
  {
  }

  lemma AgreeStep(w: Printer, p: Position, e: Event)
    requires Agrees(w, p) && Advance(p, e).Some?
    ensures Put(w, e).Some? && Agrees(Put(w, e).value, Advance(p, e).value)
  {
    if e.StartArray? || e.StartObject? {
      AgreePush(w, p, e);
    } else if e.EndArray? || e.EndObject? {
      AgreePop(w, p, e);
    } else if e.Key? {
      AgreeKey(w, p, e);
    } else {
      AgreePrefix(w, p);
    }
  }

  lemma {:induction false} AgreeRun(w: Printer, p: Position, es: seq<Event>)
    requires Agrees(w, p) && AdvanceAll(p, es).Some?
    ensures PutAll(w, es).Some? && Agrees(PutAll(w, es).value, AdvanceAll(p, es).value)
    decreases |es|
  {
    if es != [] {
      AgreeStep(w, p, es[0]);
      AgreeRun(Put(w, es[0]).value, Advance(p, es[0]).value, es[1..]);
    }
  }

  /** No assertion of the writer fails on any beginning of a well-formed stream,
      in particular on anything the reader sends, whatever the text. */
  lemma NoAssertionFails(es: seq<Event>)
    requires WellFormed(es)
    ensures PutAll(BLANK, es).Some?
    ensures Complete(es) ==> PutAll(BLANK, es).value.stack == []
  {
    AgreeRun(BLANK, START, es);
  }

  // ------------------------------------------------------- the text of a tree

  function TreeText(v: Value): string
    decreases v, 1
  {
    match v
    case Array(es) => "[" + (ElementsText(es) + "]")
    case Object(ms) => "{" + (MembersText(ms) + "}")
    case _ => EventText(EventsOf(v)[0])
  }

  function ElementsText(es: seq<Value>): string
    decreases es, 0
  {
    if es == [] then ""
    else TreeText(es[0]) + (if |es| == 1 then "" else "," + ElementsText(es[1..]))
  }

  function PairText(m: Member): string
    decreases m, 2
  {
    Quoted(m.key) + (":" + TreeText(m.value))
  }

  function MembersText(ms: seq<Member>): string
    decreases ms, 0
  {
    if ms == [] then ""
    else PairText(ms[0]) + (if |ms| == 1 then "" else "," + MembersText(ms[1..]))
  }

  /** A value may come here. */
  predicate Awaits(w: Printer) {
    MayPut(w, false)
  }

  /** The printer after a text t in the place of one value or key. */
  function Printed(w: Printer, t: string): Printer {
    var p := Prefix(w);
    p.(out := p.out + t)
  }

  /** The printer inside a container that has just been opened. */
  lemma Opened(w: Printer, e: Event)
    requires Awaits(w) && (e.StartArray? || e.StartObject?)
    ensures Put(w, e).Some?
    ensures var x := Put(w, e).value;
            x.stack != [] && x.Top() == Level(e.StartArray?, 0) && x.seen
  {
  }

  lemma {:induction false} TreePrints(w: Printer, v: Value)
    requires Awaits(w)
    ensures PutAll(w, EventsOf(v)) == Some(Printed(w, TreeText(v)))
    decreases v, 1
  {
    if v.Array? {
      ArrayPrints(w, v.elems);
    } else if v.Object? {
      ObjectPrints(w, v.members);
    } else {
      PutOne(w, EventsOf(v)[0]);
    }
  }

  lemma {:induction false} ArrayPrints(w: Printer, es: seq<Value>)
    requires Awaits(w)
    ensures PutAll(w, [StartArray] + EventsOfAll(es) + [EndArray])
            == Some(Printed(w, "[" + (ElementsText(es) + "]")))
    decreases es, 1
  {
    Opened(w, StartArray);
    ElementsPrint(Put(w, StartArray).value, es);
    Glue(ElementsText(es), "", "");
    Bracketed(w, StartArray, EventsOfAll(es), ElementsText(es), EndArray);
  }

  lemma {:induction false} ObjectPrints(w: Printer, ms: seq<Member>)
    requires Awaits(w)
    ensures PutAll(w, [StartObject] + EventsOfMembers(ms) + [EndObject])
            == Some(Printed(w, "{" + (MembersText(ms) + "}")))
    decreases ms, 1
  {
    hide PutAll, MembersText, EventsOfMembers, Prefix, SameBut, Printed;
    Opened(w, StartObject);
    MembersPrint(Put(w, StartObject).value, ms);
    Glue(MembersText(ms), "", "");
    Bracketed(w, StartObject, EventsOfMembers(ms), MembersText(ms), EndObject);
  }

  /** Same printer, apart from how many values the top container holds. */
  ghost predicate SameBut(x: Printer, y: Printer, t: string) {
    && x.stack != [] && y.stack != []
    && y.Pop() == x.Pop() && y.Top().inArray == x.Top().inArray
    && y.seen && y.out == x.out + t
  }

  lemma SameButTwice(x: Printer, y: Printer, z: Printer, a: string, b: string, c: string)
    requires SameBut(x, y, a + b) && SameBut(y, z, c)
    ensures SameBut(x, z, a + (b + c))
  {
    Glue(x.out, a + b, c);
    Glue(a, b, c);
  }

  lemma Bracketed(w: Printer, opening: Event, body: seq<Event>, t: string, closing: Event)
    requires Awaits(w)
    requires (opening, closing) in {(StartArray, EndArray), (StartObject, EndObject)}
    requires var x := Put(w, opening).value;
             PutAll(x, body).Some? && SameBut(x, PutAll(x, body).value, t)
    ensures PutAll(w, [opening] + body + [closing])
            == Some(Printed(w, EventText(opening) + (t + EventText(closing))))
  {
    var x := Put(w, opening).value;
    var y := PutAll(x, body).value;
    PutOne(w, opening);
    PutConcat(w, [opening], body);
    PutOne(y, closing);
    PutConcat(w, [opening] + body, [closing]);
    assert y.Pop() == Prefix(w).stack;
    Glue(Prefix(w).out, EventText(opening), t);
    Glue(Prefix(w).out, EventText(opening) + t, EventText(closing));
    Glue(EventText(opening), t, EventText(closing));
  }

  lemma {:induction false} ElementsPrint(x: Printer, es: seq<Value>)
    requires x.stack != [] && x.Top().inArray && x.seen
    ensures PutAll(x, EventsOfAll(es)).Some?
    ensures var y := PutAll(x, EventsOfAll(es)).value;
            SameBut(x, y, (if es != [] && x.Top().valueCount > 0 then "," else "") + ElementsText(es))
    decreases es, 0
  {
    if es == [] {
      assert x.out + ("" + "") == x.out;
    } else {
      TreePrints(x, es[0]);
      var z := Printed(x, TreeText(es[0]));
      ElementsPrint(z, es[1..]);
      PutConcat(x, EventsOf(es[0]), EventsOfAll(es[1..]));
      var c := if x.Top().valueCount > 0 then "," else "";
      var d := (if |es| == 1 then "" else ",") + ElementsText(es[1..]);
      assert Prefix(x).out == x.out + c by { assert x.out + "" == x.out; }
      Glue(x.out, c, TreeText(es[0]));
      Glue(x.out, c + TreeText(es[0]), d);
      Glue(c, TreeText(es[0]), d);
      assert |es| == 1 ==> d == "";
    }
  }

  /** The printer behind a key: its value comes next, behind a colon. */
  lemma KeyPrints(x: Printer, key: string)
    requires x.stack != [] && !x.Top().inArray && x.seen && x.Top().valueCount % 2 == 0
    ensures PutAll(x, [Key(key)]) == Put(x, Key(key)) && Put(x, Key(key)).Some?
    ensures var k := Put(x, Key(key)).value;
            && k.out == x.out + ((if x.Top().valueCount > 0 then "," else "") + Quoted(key))
            && k.stack == x.Pop() + [Level(false, x.Top().valueCount + 1)] && k.seen
            && Awaits(k)
            && Prefix(k) == Printer(x.Pop() + [Level(false, x.Top().valueCount + 2)], true, k.out + ":")
  {
    var n := x.Top().valueCount;
    Even(n);
    PutOne(x, Key(key));
    Glue(x.out, "", "");
    Glue(x.out, if n > 0 then "," else "", Quoted(key));
    Colon(x.Pop(), n + 1, Put(x, Key(key)).value.out);
    hide PutAll, Quoted;
  }

  lemma Colon(below: seq<Level>, n: nat, out: string)
    requires n % 2 == 1
    ensures var k := Printer(below + [Level(false, n)], true, out);
            Awaits(k) && Prefix(k) == Printer(below + [Level(false, n + 1)], true, out + ":")
  {
    var k := Printer(below + [Level(false, n)], true, out);
    assert k.Pop() == below;
  }

  lemma {:induction false} PairPrints(x: Printer, m: Member)
    requires x.stack != [] && !x.Top().inArray && x.seen && x.Top().valueCount % 2 == 0
    ensures PutAll(x, [Key(m.key)] + EventsOf(m.value)).Some?
    ensures var y := PutAll(x, [Key(m.key)] + EventsOf(m.value)).value;
            y.stack != [] && y.Top().valueCount == x.Top().valueCount + 2
            && SameBut(x, y, (if x.Top().valueCount > 0 then "," else "") + PairText(m))
    decreases m, 2
  {
    KeyPrints(x, m.key);
    hide EventsOf, TreeText, Put, PutAll, Prefix, Quoted;
    var k := Put(x, Key(m.key)).value;
    TreePrints(k, m.value);
    PutConcat(x, [Key(m.key)], EventsOf(m.value));
    var c := if x.Top().valueCount > 0 then "," else "";
    Glue(x.out, c + Quoted(m.key), ":");
    Glue(x.out, (c + Quoted(m.key)) + ":", TreeText(m.value));
    Glue(c + Quoted(m.key), ":", TreeText(m.value));
    Glue(c, Quoted(m.key), ":" + TreeText(m.value));
  }

  lemma {:induction false} MembersPrint(x: Printer, ms: seq<Member>)
    requires x.stack != [] && !x.Top().inArray && x.seen && x.Top().valueCount % 2 == 0
    ensures PutAll(x, EventsOfMembers(ms)).Some?
    ensures var y := PutAll(x, EventsOfMembers(ms)).value;
            SameBut(x, y, (if ms != [] && x.Top().valueCount > 0 then "," else "") + MembersText(ms))
    decreases ms, 0
  {
    if ms == [] {
      Glue("", "", "");
      Glue(x.out, "", "");
    } else {
      hide PutAll, Put, EventsOf, EventsOfMembers, MembersText, PairText;
      var pair, rest := [Key(ms[0].key)] + EventsOf(ms[0].value), EventsOfMembers(ms[1..]);
      PairPrints(x, ms[0]);
      var y := PutAll(x, pair).value;
      Even(x.Top().valueCount);
      MembersPrint(y, ms[1..]);
      JoinMembers(x, y, PutAll(y, rest).value, ms);
      MembersFollow(x, ms, pair, rest);
    }
  }

  lemma Even(n: nat)
    ensures (n + 2) % 2 == n % 2 && ((n + 1) % 2 == 0 <==> n % 2 == 1)
  {
  }

  lemma MembersFollow(x: Printer, ms: seq<Member>, pair: seq<Event>, rest: seq<Event>)
    requires ms != [] && pair == [Key(ms[0].key)] + EventsOf(ms[0].value) && rest == EventsOfMembers(ms[1..])
    ensures PutAll(x, EventsOfMembers(ms)) ==
            match PutAll(x, pair) { case None => None case Some(y) => PutAll(y, rest) }
  {
    PutConcat(x, pair, rest);
  }

  lemma JoinMembers(x: Printer, y: Printer, z: Printer, ms: seq<Member>)
    requires ms != [] && x.stack != [] && y.stack != [] && y.Top().valueCount > 0
    requires SameBut(x, y, (if x.Top().valueCount > 0 then "," else "") + PairText(ms[0]))
    requires SameBut(y, z, (if ms[1..] != [] && y.Top().valueCount > 0 then "," else "") + MembersText(ms[1..]))
    ensures SameBut(x, z, (if x.Top().valueCount > 0 then "," else "") + MembersText(ms))
  {
    var c := if x.Top().valueCount > 0 then "," else "";
    var d := if |ms| == 1 then "" else "," + MembersText(ms[1..]);
    Glue("", "", "");
    SameButTwice(x, y, z, c, PairText(ms[0]), d);
  }

  /** Writing a tree never fails an assertion and yields its text. */
  lemma WriteTree(v: Value)
    ensures PutAll(BLANK, EventsOf(v)) == Some(Printer([], true, TreeText(v)))
  {
    TreePrints(BLANK, v);
    assert "" + TreeText(v) == TreeText(v);
  }
}
