/** JSON trees, the events a reader or a tree sends to a handler, and the
    grammar of event streams. */
module Json {
  import opened Text

  /** A double is represented by the text it was read from. */
  datatype Value =
    | Null
    | Bool(b: bool)
    | Int32(i32: int32)
    | Int64(i64: int64)
    | Double(text: string)
    | String(s: string)
    | Array(elems: seq<Value>)
    | Object(members: seq<Member>)

  datatype Member = Member(key: string, value: Value)

  datatype Event =
    | Null
    | Bool(b: bool)
    | Int32(i32: int32)
    | Int64(i64: int64)
    | Double(text: string)
    | String(s: string)
    | Key(key: string)
    | StartArray
    | EndArray
    | StartObject
    | EndObject

  /** What writeTo sends to its handler. */
  function EventsOf(v: Value): seq<Event>
    decreases v, 1
  {
    match v
    case Null => [Event.Null]
    case Bool(b) => [Event.Bool(b)]
    case Int32(i) => [Event.Int32(i)]
    case Int64(i) => [Event.Int64(i)]
    case Double(t) => [Event.Double(t)]
    case String(s) => [Event.String(s)]
    case Array(es) => [StartArray] + EventsOfAll(es) + [EndArray]
    case Object(ms) => [StartObject] + EventsOfMembers(ms) + [EndObject]
  }

  function EventsOfAll(vs: seq<Value>): seq<Event>
    decreases vs, 0
  {
    if vs == [] then [] else EventsOf(vs[0]) + EventsOfAll(vs[1..])
  }

  function EventsOfMembers(ms: seq<Member>): seq<Event>
    decreases ms, 0
  {
    if ms == [] then []
    else [Key(ms[0].key)] + EventsOf(ms[0].value) + EventsOfMembers(ms[1..])
  }

  predicate IsScalar(e: Event) {
    e.Null? || e.Bool? || e.Int32? || e.Int64? || e.Double? || e.String?
  }

  // ---------------------------------------------------------------- grammar

  /** A container that is still open.  In an object, `keyed` says that a key has
      been given and its value has not begun. */
  datatype Frame = InArray | InObject(keyed: bool)

  /** Where a stream of events stands: the open containers, outermost first,
      and whether the root value has begun. */
  datatype Position = Position(open: seq<Frame>, begun: bool) {
    function Top(): Frame
      requires open != []
    {
      open[|open| - 1]
    }

    function WithTop(f: Frame): Position
      requires open != []
    {
      Position(open[..|open| - 1] + [f], begun)
    }

    function Pop(): Position
      requires open != []
    {
      Position(open[..|open| - 1], begun)
    }
  }

  const START := Position([], false)
  const FINISH := Position([], true)

  /** A value may begin here. */
  predicate TakesValue(p: Position) {
    if p.open == [] then !p.begun else p.Top().InArray? || p.Top().keyed
  }

  /** The position once a value that begins here has ended. */
  function Filled(p: Position): Position
    requires TakesValue(p)
  {
    if p.open == [] then Position([], true)
    else if p.Top().InArray? then Position(p.open, true)
    else Position(p.WithTop(InObject(false)).open, true)
  }

  /** One event of a well-formed stream; None when the event may not come here. */
  function Advance(p: Position, e: Event): Option<Position> {
    match e
    case StartArray =>
      if TakesValue(p) then Some(Position(Filled(p).open + [InArray], true)) else None
    case StartObject =>
      if TakesValue(p) then Some(Position(Filled(p).open + [InObject(false)], true)) else None
    case EndArray =>
      if p.open != [] && p.Top().InArray? then Some(p.Pop()) else None
    case EndObject =>
      if p.open != [] && p.Top() == InObject(false) then Some(p.Pop()) else None
    case Key(_) =>
      if p.open != [] && p.Top() == InObject(false) then Some(p.WithTop(InObject(true))) else None
    case _ =>
      if TakesValue(p) then Some(Filled(p)) else None
  }

  function AdvanceAll(p: Position, es: seq<Event>): Option<Position>
    decreases |es|
  {
    if es == [] then Some(p)
    else match Advance(p, es[0])
         case None => None
         case Some(q) => AdvanceAll(q, es[1..])
  }

  /** The stream is the beginning of a well-formed stream. */
  predicate WellFormed(es: seq<Event>) { AdvanceAll(START, es).Some? }

  /** The stream is one whole value. */
  predicate Complete(es: seq<Event>) { AdvanceAll(START, es) == Some(FINISH) }

  lemma {:induction false} AdvanceConcat(p: Position, a: seq<Event>, b: seq<Event>)
    ensures AdvanceAll(p, a + b) ==
            match AdvanceAll(p, a) { case None => None case Some(q) => AdvanceAll(q, b) }
    decreases |a|
  {
    if a == [] {
      assert a + b == b;
    } else {
      assert (a + b)[0] == a[0] && (a + b)[1..] == a[1..] + b;
      match Advance(p, a[0])
      case None =>
      case Some(q) => AdvanceConcat(q, a[1..], b);
    }
  }

  lemma AdvanceOne(p: Position, e: Event)
    ensures AdvanceAll(p, [e]) == Advance(p, e)
  {
    match Advance(p, e)
    case None =>
    case Some(q) => assert AdvanceAll(q, [e][1..]) == Some(q);
  }

  /** AdvanceAll over one event and then the rest. */
  lemma AdvanceCons(p: Position, e: Event, es: seq<Event>)
    ensures AdvanceAll(p, [e] + es) ==
            match Advance(p, e) { case None => None case Some(q) => AdvanceAll(q, es) }
  {
    AdvanceConcat(p, [e], es);
    AdvanceOne(p, e);
  }

  /** An opening event, a body that leaves the opened container as it was, and
      the closing event make one value. */
  lemma BracketAdvances(p: Position, opening: Event, f: Frame, body: seq<Event>, closing: Event)
    requires TakesValue(p)
    requires (opening, f, closing) in {(StartArray, InArray, EndArray), (StartObject, InObject(false), EndObject)}
    requires var q := Position(Filled(p).open + [f], true); AdvanceAll(q, body) == Some(q)
    ensures AdvanceAll(p, [opening] + body + [closing]) == Some(Filled(p))
  {
    var q := Position(Filled(p).open + [f], true);
    AdvanceCons(p, opening, body + [closing]);
    AdvanceConcat(q, body, [closing]);
    AdvanceOne(q, closing);
    assert q.Pop() == Filled(p);
    assert [opening] + body + [closing] == [opening] + (body + [closing]);
  }

  /** A tree's events are well formed wherever a value may begin. */
  lemma {:induction false} TreeAdvances(p: Position, v: Value)
    requires TakesValue(p)
    ensures AdvanceAll(p, EventsOf(v)) == Some(Filled(p))
    decreases v, 1
  {
    if v.Array? {
      TreesAdvance(Position(Filled(p).open + [InArray], true), v.elems);
      BracketAdvances(p, StartArray, InArray, EventsOfAll(v.elems), EndArray);
    } else if v.Object? {
      MembersAdvance(Position(Filled(p).open + [InObject(false)], true), v.members);
      BracketAdvances(p, StartObject, InObject(false), EventsOfMembers(v.members), EndObject);
    } else {
      AdvanceOne(p, EventsOf(v)[0]);
    }
  }

  lemma {:induction false} TreesAdvance(p: Position, vs: seq<Value>)
    requires p.open != [] && p.Top().InArray? && p.begun
    ensures AdvanceAll(p, EventsOfAll(vs)) == Some(p)
    decreases vs, 0
  {
    if vs != [] {
      TreeAdvances(p, vs[0]);
      TreesAdvance(p, vs[1..]);
      AdvanceConcat(p, EventsOf(vs[0]), EventsOfAll(vs[1..]));
    }
  }

  lemma {:induction false} MembersAdvance(p: Position, ms: seq<Member>)
    requires p.open != [] && p.Top() == InObject(false) && p.begun
    ensures AdvanceAll(p, EventsOfMembers(ms)) == Some(p)
    decreases ms, 0
  {
    if ms != [] {
      var q := p.WithTop(InObject(true));
      assert Filled(q) == p;
      TreeAdvances(q, ms[0].value);
      MembersAdvance(p, ms[1..]);
      AdvanceConcat(q, EventsOf(ms[0].value), EventsOfMembers(ms[1..]));
      AdvanceCons(p, Key(ms[0].key), EventsOf(ms[0].value) + EventsOfMembers(ms[1..]));
      assert EventsOfMembers(ms) ==
             [Key(ms[0].key)] + (EventsOf(ms[0].value) + EventsOfMembers(ms[1..]));
    }
  }

  lemma TreeComplete(v: Value)
    ensures Complete(EventsOf(v))
  {
    TreeAdvances(START, v);
  }
}
