/** Rebuilding a tree from its events, in the simplest form: a stack of
    containers under construction, each without the child that is still open. */
module Builder {
  import opened Text
  import opened Json

  datatype Part =
    | PartArray(elems: seq<Value>)
    | PartObject(members: seq<Member>, key: Option<string>)

  /** `done` is the root value once it has ended. */
  datatype Build = Build(parts: seq<Part>, done: Option<Value>) {
    function Top(): Part
      requires parts != []
    {
      parts[|parts| - 1]
    }

    function Below(): seq<Part>
      requires parts != []
    {
      parts[..|parts| - 1]
    }
  }

  const EMPTY := Build([], None)

  predicate HasKey(ms: seq<Member>, k: string) { exists i :: 0 <= i < |ms| && ms[i].key == k }

  /** An array, or an object that has a key waiting which no member has. */
  predicate Takes(p: Part) {
    p.PartArray? || (p.key.Some? && !HasKey(p.members, p.key.value))
  }

  /** A value may be put here. */
  predicate Fits(b: Build) {
    if b.parts == [] then b.done.None? else Takes(b.Top())
  }

  function Place(p: Part, v: Value): Part
    requires p.PartObject? ==> p.key.Some?
  {
    match p
    case PartArray(es) => PartArray(es + [v])
    case PartObject(ms, k) => PartObject(ms + [Member(k.value, v)], None)
  }

  function Attach(b: Build, v: Value): Build
    requires Fits(b)
  {
    if b.parts == [] then Build([], Some(v))
    else b.(parts := b.Below() + [Place(b.Top(), v)])
  }

  function Close(p: Part): Value {
    match p
    case PartArray(es) => Value.Array(es)
    case PartObject(ms, _) => Value.Object(ms)
  }

  function ScalarValue(e: Event): Value
    requires IsScalar(e)
  {
    match e
    case Null => Value.Null
    case Bool(b) => Value.Bool(b)
    case Int32(i) => Value.Int32(i)
    case Int64(i) => Value.Int64(i)
    case Double(t) => Value.Double(t)
    case String(s) => Value.String(s)
  }

  /** One event; None where the event may not come or its key is taken. */
  function Add(b: Build, e: Event): Option<Build> {
    match e
    case StartArray => if Fits(b) then Some(b.(parts := b.parts + [PartArray([])])) else None
    case StartObject => if Fits(b) then Some(b.(parts := b.parts + [PartObject([], None)])) else None
    case EndArray =>
      if b.parts == [] || !b.Top().PartArray? then None else Finish(b)
    case EndObject =>
      if b.parts == [] || !b.Top().PartObject? || b.Top().key.Some? then None else Finish(b)
    case Key(k) =>
      if b.parts == [] || !b.Top().PartObject? || b.Top().key.Some? then None
      else Some(b.(parts := b.Below() + [b.Top().(key := Some(k))]))
    case _ => if Fits(b) then Some(Attach(b, ScalarValue(e))) else None
  }

  /** Closes the top container and puts it into the one below. */
  function Finish(b: Build): Option<Build>
    requires b.parts != []
  {
    var under := Build(b.Below(), b.done);
    if Fits(under) then Some(Attach(under, Close(b.Top()))) else None
  }

  function AddAll(b: Build, es: seq<Event>): Option<Build>
    decreases |es|
  {
    if es == [] then Some(b)
    else match Add(b, es[0])
         case None => None
         case Some(c) => AddAll(c, es[1..])
  }

  lemma {:induction false} AddConcat(b: Build, x: seq<Event>, y: seq<Event>)
    ensures AddAll(b, x + y) ==
            match AddAll(b, x) { case None => None case Some(c) => AddAll(c, y) }
    decreases |x|
  {
    if x == [] {
      assert x + y == y;
    } else {
      assert (x + y)[0] == x[0] && (x + y)[1..] == x[1..] + y;
      match Add(b, x[0])
      case None =>
      case Some(c) => AddConcat(c, x[1..], y);
    }
  }

  lemma AddOne(b: Build, e: Event)
    ensures AddAll(b, [e]) == Add(b, e)
  {
    match Add(b, e)
    case None =>
    case Some(c) => assert AddAll(c, [e][1..]) == Some(c);
  }

  // ------------------------------------------------------- building a tree

  /** Every object has distinct keys. */
  predicate DistinctKeys(v: Value) {
    match v
    case Array(es) => forall i :: 0 <= i < |es| ==> DistinctKeys(es[i])
    case Object(ms) =>
      && (forall i, j :: 0 <= i < j < |ms| ==> ms[i].key != ms[j].key)
      && (forall i :: 0 <= i < |ms| ==> DistinctKeys(ms[i].value))
    case _ => true
  }

  /** The members ms can be added to those of `have`. */
  ghost predicate Addable(have: seq<Member>, ms: seq<Member>) {
    && (forall i :: 0 <= i < |ms| ==> !HasKey(have, ms[i].key))
    && (forall i, j :: 0 <= i < j < |ms| ==> ms[i].key != ms[j].key)
    && (forall i :: 0 <= i < |ms| ==> DistinctKeys(ms[i].value))
  }

  lemma OpenArray(b: Build, p: Part)
    requires Fits(b)
    ensures var c := b.(parts := b.parts + [p]);
            c.Top() == p && c.Below() == b.parts && Build(c.Below(), c.done) == b
  {
  }

  /** The events of a tree build exactly that tree where it is due, if its keys
      are distinct; otherwise the duplicate key is found. */
  lemma {:induction false} TreeBuilds(b: Build, v: Value)
    requires Fits(b)
    ensures AddAll(b, EventsOf(v)) == if DistinctKeys(v) then Some(Attach(b, v)) else None
    decreases v, 1
  {
    if v.Array? {
      ArrayBuilds(b, v.elems);
    } else if v.Object? {
      ObjectBuilds(b, v.members);
    } else {
      AddOne(b, EventsOf(v)[0]);
    }
  }

  /** A container: opened, filled to `p` if all goes well, closed. */
  lemma Wrapped(b: Build, opening: Event, p0: Part, body: seq<Event>, p: Part, closing: Event, ok: bool)
    requires Fits(b)
    requires Add(b, opening) == Some(b.(parts := b.parts + [p0]))
    requires (closing == EndArray && p.PartArray?) || (closing == EndObject && p.PartObject? && p.key.None?)
    requires AddAll(b.(parts := b.parts + [p0]), body) ==
             if ok then Some(b.(parts := b.parts + [p])) else None
    ensures AddAll(b, [opening] + body + [closing]) == if ok then Some(Attach(b, Close(p))) else None
  {
    var c := b.(parts := b.parts + [p]);
    OpenArray(b, p);
    AddOne(b, opening);
    AddConcat(b, [opening], body);
    AddConcat(b, [opening] + body, [closing]);
    AddOne(c, closing);
  }

  lemma {:induction false} ArrayBuilds(b: Build, es: seq<Value>)
    requires Fits(b)
    ensures var v := Value.Array(es);
            AddAll(b, EventsOf(v)) == if DistinctKeys(v) then Some(Attach(b, v)) else None
    decreases es, 1
  {
    ElementsBuild(b, [], es);
    assert [] + es == es;
    Wrapped(b, StartArray, PartArray([]), EventsOfAll(es), PartArray(es), EndArray,
            AllDistinct(es));
  }

  ghost predicate AllDistinct(es: seq<Value>) {
    forall i :: 0 <= i < |es| ==> DistinctKeys(es[i])
  }

  lemma AllDistinctCons(es: seq<Value>)
    requires es != []
    ensures AllDistinct(es) <==> DistinctKeys(es[0]) && AllDistinct(es[1..])
  {
    assert forall i :: 1 <= i < |es| ==> es[i] == es[1..][i - 1];
  }

  lemma PlaceOnTop(b: Build, p: Part, v: Value)
    requires Fits(b.(parts := b.parts + [p]))
    ensures Attach(b.(parts := b.parts + [p]), v) == b.(parts := b.parts + [Place(p, v)])
  {
  }

  lemma {:induction false} ElementsBuild(b: Build, have: seq<Value>, es: seq<Value>)
    ensures AddAll(b.(parts := b.parts + [PartArray(have)]), EventsOfAll(es)) ==
            if AllDistinct(es) then Some(b.(parts := b.parts + [PartArray(have + es)])) else None
    decreases es, 0
  {
    var c := b.(parts := b.parts + [PartArray(have)]);
    if es == [] {
      assert have + es == have;
    } else {
      hide DistinctKeys, EventsOf, Add, AddAll, AllDistinct;
      AllDistinctCons(es);
      assert c.Top() == PartArray(have);
      TreeBuilds(c, es[0]);
      AddConcat(c, EventsOf(es[0]), EventsOfAll(es[1..]));
      if DistinctKeys(es[0]) {
        PlaceOnTop(b, PartArray(have), es[0]);
        ElementsBuild(b, have + [es[0]], es[1..]);
        assert (have + [es[0]]) + es[1..] == have + es;
      }
    }
  }

  lemma {:induction false} ObjectBuilds(b: Build, ms: seq<Member>)
    requires Fits(b)
    ensures var v := Value.Object(ms);
            AddAll(b, EventsOf(v)) == if DistinctKeys(v) then Some(Attach(b, v)) else None
    decreases ms, 1
  {
    var ok := DistinctKeys(Value.Object(ms));
    MembersBuild(b, [], ms);
    AddableToNone(ms);
    assert [] + ms == ms;
    ObjectWrapped(b, ms, ok);
  }

  lemma ObjectWrapped(b: Build, ms: seq<Member>, ok: bool)
    requires Fits(b)
    requires AddAll(b.(parts := b.parts + [PartObject([], None)]), EventsOfMembers(ms)) ==
             if ok then Some(b.(parts := b.parts + [PartObject(ms, None)])) else None
    ensures AddAll(b, [StartObject] + EventsOfMembers(ms) + [EndObject])
            == if ok then Some(Attach(b, Value.Object(ms))) else None
  {
    var p := PartObject(ms, None);
    assert Close(p) == Value.Object(ms);
    Wrapped(b, StartObject, PartObject([], None), EventsOfMembers(ms), p, EndObject, ok);
  }

  lemma AddableToNone(ms: seq<Member>)
    ensures Addable([], ms) <==> DistinctKeys(Value.Object(ms))
  {
  }

  /** A key and its value. */
  lemma {:induction false} PairBuilds(b: Build, have: seq<Member>, m: Member)
    ensures AddAll(b.(parts := b.parts + [PartObject(have, None)]), [Key(m.key)] + EventsOf(m.value)) ==
            if !HasKey(have, m.key) && DistinctKeys(m.value)
            then Some(b.(parts := b.parts + [PartObject(have + [m], None)])) else None
    decreases m, 2
  {
    var c := b.(parts := b.parts + [PartObject(have, None)]);
    var k := PartObject(have, Some(m.key));
    var d := b.(parts := b.parts + [k]);
    AddOne(c, Key(m.key));
    assert Add(c, Key(m.key)) == Some(d);
    AddConcat(c, [Key(m.key)], EventsOf(m.value));
    assert d.Top() == k;
    if !HasKey(have, m.key) {
      TreeBuilds(d, m.value);
      PlaceOnTop(b, k, m.value);
    } else {
      Blocked(d, m.value);
    }
  }

  /** Where no value fits, none is begun. */
  lemma Blocked(b: Build, v: Value)
    requires !Fits(b)
    ensures AddAll(b, EventsOf(v)).None?
  {
    var e := EventsOf(v)[0];
    assert Add(b, e).None?;
  }

  lemma {:induction false} MembersBuild(b: Build, have: seq<Member>, ms: seq<Member>)
    ensures AddAll(b.(parts := b.parts + [PartObject(have, None)]), EventsOfMembers(ms)) ==
            if Addable(have, ms) then Some(b.(parts := b.parts + [PartObject(have + ms, None)])) else None
    decreases ms, 0
  {
    var c := b.(parts := b.parts + [PartObject(have, None)]);
    if ms == [] {
      assert have + ms == have;
    } else {
      var pair := [Key(ms[0].key)] + EventsOf(ms[0].value);
      PairBuilds(b, have, ms[0]);
      AddConcat(c, pair, EventsOfMembers(ms[1..]));
      AddableCons(have, ms);
      if !HasKey(have, ms[0].key) && DistinctKeys(ms[0].value) {
        MembersBuild(b, have + [ms[0]], ms[1..]);
        assert (have + [ms[0]]) + ms[1..] == have + ms;
      }
    }
  }

  lemma AddableCons(have: seq<Member>, ms: seq<Member>)
    requires ms != []
    ensures Addable(have, ms) <==>
            !HasKey(have, ms[0].key) && DistinctKeys(ms[0].value) && Addable(have + [ms[0]], ms[1..])
  {
    var m, more := ms[0], have + [ms[0]];
    assert forall i :: 1 <= i < |ms| ==> ms[i] == ms[1..][i - 1];
    assert more[|have|] == m;
    assert forall k :: HasKey(more, k) <==> HasKey(have, k) || m.key == k by {
      forall k ensures HasKey(more, k) <==> HasKey(have, k) || m.key == k {
        if HasKey(have, k) {
          var i :| 0 <= i < |have| && have[i].key == k;
          assert more[i].key == k;
        }
      }
    }
    if !HasKey(have, m.key) && DistinctKeys(m.value) && Addable(more, ms[1..]) {
      forall i | 0 <= i < |ms| ensures !HasKey(have, ms[i].key) && DistinctKeys(ms[i].value) {
        if i > 0 {
          assert ms[i] == ms[1..][i - 1];
        }
      }
      forall i, j | 0 <= i < j < |ms| ensures ms[i].key != ms[j].key {
        assert ms[j] == ms[1..][j - 1];
        if i > 0 {
          assert ms[i] == ms[1..][i - 1];
        }
      }
    }
  }

  // ------------------------------------------------------------ every stream

  /** A value may still be put into each part below the top, and there is no
      finished root while parts are open. */
  ghost predicate Sound(b: Build) {
    && (b.parts != [] ==> b.done.None?)
    && forall i :: 0 <= i < |b.parts| - 1 ==> Takes(b.parts[i])
  }

  function FrameOf(p: Part): Frame {
    match p
    case PartArray(_) => InArray
    case PartObject(_, k) => InObject(k.Some?)
  }

  /** Where the events that led here stand in the grammar; the value that is
      under construction already counts as put into the container around it. */
  ghost predicate StandsAt(b: Build, p: Position) {
    && |p.open| == |b.parts|
    && p.begun == (b.parts != [] || b.done.Some?)
    && forall i :: 0 <= i < |b.parts| ==>
         p.open[i] == if i == |b.parts| - 1 || b.parts[i].PartArray? then FrameOf(b.parts[i])
                      else InObject(false)
  }

  /** The builder takes an event exactly when the grammar allows it and it is not
      the beginning of a value whose key is taken. */
  lemma AddsUnlessTaken(b: Build, p: Position, e: Event)
    requires Sound(b) && StandsAt(b, p)
    ensures Add(b, e).Some? <==> Advance(p, e).Some? && (TakesValue(p) ==> Fits(b))
    ensures Add(b, e).Some? ==> Sound(Add(b, e).value) && StandsAt(Add(b, e).value, Advance(p, e).value)
  {
    if e.EndArray? || e.EndObject? {
      ClosesUnlessTaken(b, p, e);
    } else if e.StartArray? || e.StartObject? {
      OpensUnlessTaken(b, p, e);
    } else if e.Key? {
      KeysUnlessTaken(b, p, e);
    } else {
      FillsUnlessTaken(b, p, e);
    }
  }

  lemma FitsWhereTaken(b: Build, p: Position)
    requires Sound(b) && StandsAt(b, p)
    ensures Fits(b) ==> TakesValue(p)
  {
  }

  lemma FillsUnlessTaken(b: Build, p: Position, e: Event)
    requires IsScalar(e) && Sound(b) && StandsAt(b, p)
    ensures Add(b, e).Some? <==> Advance(p, e).Some? && (TakesValue(p) ==> Fits(b))
    ensures Add(b, e).Some? ==> Sound(Add(b, e).value) && StandsAt(Add(b, e).value, Advance(p, e).value)
  {
    FitsWhereTaken(b, p);
    if Fits(b) {
      AttachSound(b, p, ScalarValue(e));
    }
  }

  lemma AttachSound(b: Build, p: Position, v: Value)
    requires Sound(b) && StandsAt(b, p) && Fits(b)
    ensures Sound(Attach(b, v)) && StandsAt(Attach(b, v), Filled(p))
  {
  }

  lemma OpensUnlessTaken(b: Build, p: Position, e: Event)
    requires (e.StartArray? || e.StartObject?) && Sound(b) && StandsAt(b, p)
    ensures Add(b, e).Some? <==> Advance(p, e).Some? && (TakesValue(p) ==> Fits(b))
    ensures Add(b, e).Some? ==> Sound(Add(b, e).value) && StandsAt(Add(b, e).value, Advance(p, e).value)
  {
    FitsWhereTaken(b, p);
  }

  lemma KeysUnlessTaken(b: Build, p: Position, e: Event)
    requires e.Key? && Sound(b) && StandsAt(b, p)
    ensures Add(b, e).Some? <==> Advance(p, e).Some? && (TakesValue(p) ==> Fits(b))
    ensures Add(b, e).Some? ==> Sound(Add(b, e).value) && StandsAt(Add(b, e).value, Advance(p, e).value)
  {
  }

  /** Where a container may end. */
  predicate Ends(b: Build, e: Event) {
    && b.parts != []
    && (e.EndArray? ==> b.Top().PartArray?)
    && (e.EndObject? ==> b.Top().PartObject? && b.Top().key.None?)
  }

  lemma EndsWhereOpen(b: Build, p: Position, e: Event)
    requires (e.EndArray? || e.EndObject?) && StandsAt(b, p)
    ensures Advance(p, e) == if Ends(b, e) then Some(p.Pop()) else None
    ensures Add(b, e) == if Ends(b, e) then Finish(b) else None
    ensures Ends(b, e) && TakesValue(p) ==> Fits(b)
  {
    hide Finish;
  }

  lemma FinishSound(b: Build, p: Position)
    requires Sound(b) && StandsAt(b, p) && b.parts != []
    ensures Finish(b).Some? && Sound(Finish(b).value) && StandsAt(Finish(b).value, p.Pop())
  {
    var under := Build(b.Below(), b.done);
    var n := |b.parts| - 1;
    assert n > 0 ==> under.Top() == b.parts[n - 1];
    var q := p.Pop();
    UnderSound(b);
    var u := Undone(under, q);
    AttachSound(under, u, Close(b.Top()));
    assert Filled(u) == q;
  }

  lemma ClosesUnlessTaken(b: Build, p: Position, e: Event)
    requires (e.EndArray? || e.EndObject?) && Sound(b) && StandsAt(b, p)
    ensures Add(b, e).Some? <==> Advance(p, e).Some? && (TakesValue(p) ==> Fits(b))
    ensures Add(b, e).Some? ==> Sound(Add(b, e).value) && StandsAt(Add(b, e).value, Advance(p, e).value)
  {
    EndsWhereOpen(b, p, e);
    if Ends(b, e) {
      FinishSound(b, p);
    }
    hide *;
  }

  lemma UnderSound(b: Build)
    requires Sound(b) && b.parts != []
    ensures Sound(Build(b.Below(), b.done))
  {
  }

  /** The position before the value under construction was begun. */
  ghost function Undone(b: Build, q: Position): Position
    requires |q.open| == |b.parts|
  {
    if b.parts == [] then Position([], false) else q.WithTop(FrameOf(b.Top()))
  }

  lemma {:induction false} ReachSound(b: Build, p: Position, es: seq<Event>)
    requires Sound(b) && StandsAt(b, p) && AddAll(b, es).Some?
    ensures AdvanceAll(p, es).Some?
    ensures Sound(AddAll(b, es).value) && StandsAt(AddAll(b, es).value, AdvanceAll(p, es).value)
    decreases |es|
  {
    if es != [] {
      AddsUnlessTaken(b, p, es[0]);
      ReachSound(Add(b, es[0]).value, Advance(p, es[0]).value, es[1..]);
    }
  }

  // ----------------------------------------------------------------- replay

  function ReplayPart(p: Part): seq<Event> {
    match p
    case PartArray(es) => [StartArray] + EventsOfAll(es)
    case PartObject(ms, k) =>
      [StartObject] + (EventsOfMembers(ms) + match k case None => [] case Some(s) => [Key(s)])
  }

  function ReplayParts(ps: seq<Part>): seq<Event> {
    if ps == [] then [] else ReplayParts(ps[..|ps| - 1]) + ReplayPart(ps[|ps| - 1])
  }

  /** What writeTo would send for what has been built so far, containers that are
      open left open. */
  function Replay(b: Build): seq<Event> {
    ReplayParts(b.parts) + match b.done case None => [] case Some(v) => EventsOf(v)
  }

  lemma {:induction false} EventsOfAllSnoc(es: seq<Value>, v: Value)
    ensures EventsOfAll(es + [v]) == EventsOfAll(es) + EventsOf(v)
  {
    if es == [] {
      assert [v][1..] == [];
      assert EventsOfAll([v]) == EventsOf(v) + [];
      Glue(EventsOf(v), [], []);
      assert es + [v] == [v];
    } else {
      EventsOfAllSnoc(es[1..], v);
      assert (es + [v])[1..] == es[1..] + [v];
      Glue(EventsOf(es[0]), EventsOfAll(es[1..]), EventsOf(v));
    }
  }

  lemma {:induction false} EventsOfMembersSnoc(ms: seq<Member>, m: Member)
    ensures EventsOfMembers(ms + [m]) == EventsOfMembers(ms) + ([Key(m.key)] + EventsOf(m.value))
  {
    if ms == [] {
      assert [m][1..] == [];
      Glue([Key(m.key)] + EventsOf(m.value), [], []);
      assert ms + [m] == [m];
    } else {
      EventsOfMembersSnoc(ms[1..], m);
      assert (ms + [m])[1..] == ms[1..] + [m];
      Glue([Key(ms[0].key)] + EventsOf(ms[0].value), EventsOfMembers(ms[1..]),
                 [Key(m.key)] + EventsOf(m.value));
    }
  }

  lemma PlaceReplays(p: Part, v: Value)
    requires p.PartObject? ==> p.key.Some?
    ensures ReplayPart(Place(p, v)) == ReplayPart(p) + EventsOf(v)
  {
    match p
    case PartArray(es) =>
      EventsOfAllSnoc(es, v);
      Glue([StartArray], EventsOfAll(es), EventsOf(v));
    case PartObject(ms, k) =>
      var key := [Key(k.value)];
      EventsOfMembersSnoc(ms, Member(k.value, v));
      Glue(EventsOfMembers(ms), key, EventsOf(v));
      Glue([StartObject], EventsOfMembers(ms) + key, EventsOf(v));
      Glue(EventsOfMembers(ms) + (key + EventsOf(v)), [], []);
  }

  lemma ReplaySnoc(ps: seq<Part>, p: Part)
    ensures ReplayParts(ps + [p]) == ReplayParts(ps) + ReplayPart(p)
  {
    assert (ps + [p])[..|ps|] == ps;
  }

  lemma AttachReplays(b: Build, v: Value)
    requires Fits(b) && Sound(b)
    ensures Replay(Attach(b, v)) == Replay(b) + EventsOf(v)
  {
    hide EventsOf, ReplayPart, Place;
    Glue(ReplayParts(b.parts), [], EventsOf(v));
    if b.parts != [] {
      PlaceReplays(b.Top(), v);
      hide ReplayParts;
      assert b.parts == b.Below() + [b.Top()];
      ReplaySnoc(b.Below(), b.Top());
      ReplaySnoc(b.Below(), Place(b.Top(), v));
      Glue(ReplayParts(b.Below()), ReplayPart(b.Top()), EventsOf(v));
      Glue(ReplayParts(Attach(b, v).parts), [], []);
    }
  }

  lemma CloseReplays(p: Part)
    requires p.PartObject? ==> p.key.None?
    ensures ReplayPart(p) + [if p.PartArray? then EndArray else EndObject] == EventsOf(Close(p))
  {
    if p.PartObject? {
      Glue(EventsOfMembers(p.members), [], []);
      Glue([StartObject], EventsOfMembers(p.members), [EndObject]);
    }
  }

  /** Replaying the build gives back the event just added. */
  lemma AddReplays(b: Build, e: Event)
    requires Sound(b) && Add(b, e).Some?
    ensures Replay(Add(b, e).value) == Replay(b) + [e]
  {
    if e.StartArray? || e.StartObject? {
      OpenReplays(b, e);
    } else if e.EndArray? || e.EndObject? {
      FinishReplays(b, e);
    } else if e.Key? {
      KeyReplays(b, e);
    } else {
      AttachReplays(b, ScalarValue(e));
    }
  }

  lemma OpenReplays(b: Build, e: Event)
    requires (e.StartArray? || e.StartObject?) && Sound(b) && Add(b, e).Some?
    ensures Replay(Add(b, e).value) == Replay(b) + [e]
  {
    var c := Add(b, e).value;
    ReplaySnoc(b.parts, c.parts[|b.parts|]);
    Glue([e], [], []);
    Glue(ReplayParts(b.parts), [], []);
    Glue(ReplayParts(c.parts), [], []);
  }

  lemma FinishReplays(b: Build, e: Event)
    requires (e.EndArray? || e.EndObject?) && Sound(b) && Add(b, e).Some?
    ensures Replay(Add(b, e).value) == Replay(b) + [e]
  {
    var under := Build(b.Below(), b.done);
    assert b.parts == b.Below() + [b.Top()];
    ReplaySnoc(b.Below(), b.Top());
    UnderSound(b);
    AttachReplays(under, Close(b.Top()));
    CloseReplays(b.Top());
    hide ReplayParts, ReplayPart, EventsOf, Sound;
    Glue(ReplayParts(b.Below()), [], []);
    Glue(ReplayParts(b.parts), [], []);
    Glue(ReplayParts(b.Below()), ReplayPart(b.Top()), [e]);
  }

  lemma KeyReplays(b: Build, e: Event)
    requires e.Key? && Sound(b) && Add(b, e).Some?
    ensures Replay(Add(b, e).value) == Replay(b) + [e]
  {
    var c, ms := Add(b, e).value, b.Top().members;
    assert b.parts == b.Below() + [b.Top()];
    ReplaySnoc(b.Below(), b.Top());
    ReplaySnoc(b.Below(), c.Top());
    Glue(EventsOfMembers(ms), [], []);
    Glue([StartObject], EventsOfMembers(ms), [e]);
    Glue(ReplayParts(b.Below()), ReplayPart(b.Top()), [e]);
    Glue(ReplayParts(b.parts), [], []);
    Glue(ReplayParts(c.parts), [], []);
  }

  lemma AddAllCons(b: Build, e: Event, rest: seq<Event>)
    ensures AddAll(b, [e] + rest) == match Add(b, e) { case None => None case Some(c) => AddAll(c, rest) }
  {
    assert ([e] + rest)[1..] == rest;
  }

  lemma {:induction false} AllReplays(b: Build, p: Position, es: seq<Event>)
    requires Sound(b) && StandsAt(b, p) && AddAll(b, es).Some?
    ensures Replay(AddAll(b, es).value) == Replay(b) + es
    decreases |es|
  {
    if es == [] {
      Glue(Replay(b), [], []);
    } else {
      hide Replay, Sound, StandsAt, Add, AddAll;
      assert es == [es[0]] + es[1..];
      AddAllCons(b, es[0], es[1..]);
      AddReplays(b, es[0]);
      AddsUnlessTaken(b, p, es[0]);
      AllReplays(Add(b, es[0]).value, Advance(p, es[0]).value, es[1..]);
      Glue(Replay(b), [es[0]], es[1..]);
    }
  }

  /** For every stream that can be built, whole or not, the build replays it; a
      finished root sends exactly the events it was built from. */
  lemma BuildReplays(es: seq<Event>)
    requires AddAll(EMPTY, es).Some?
    ensures WellFormed(es) && Replay(AddAll(EMPTY, es).value) == es
    ensures Complete(es) ==> var b := AddAll(EMPTY, es).value;
            b.parts == [] && b.done.Some? && EventsOf(b.done.value) == es
  {
    ReachSound(EMPTY, START, es);
    AllReplays(EMPTY, START, es);
    Glue(es, [], []);
    if Complete(es) {
      Glue(EventsOf(AddAll(EMPTY, es).value.done.value), [], []);
    }
  }
}
