/** The document handler builds what the simple builder does. */
module DocumentProofs {
  import opened Text
  import opened Json
  import opened Builder
  import opened DocumentSpec

  lemma ValidOpen(d: Doc)
    requires Valid(d)
    ensures d.stack != [] ==>
              && OpenTo(d.root, |d.stack|)
              && d.Top().value == LastPath(d.root, |d.stack|)
              && Points(d.root, d.Top().value)
              && At(d.root, d.Top().value) == Tip(d.root, |d.stack|)
              && d.Top().valueCount == Count(Tip(d.root, |d.stack|)) + (if d.key.String? then 1 else 0)
              && (d.key.String? ==> Tip(d.root, |d.stack|).Object?)
  {
    if d.stack != [] {
      SpineOpen(d.root, d.stack, [], d.key.String?);
      assert [] + LastPath(d.root, |d.stack|) == LastPath(d.root, |d.stack|);
      TipPath(d.root, |d.stack|);
    }
  }

  lemma {:induction false} SpinePaths(v: Value, st: seq<Level>, prefix: seq<nat>, keyed: bool, i: nat)
    requires Spine(v, st, prefix, keyed) && i < |st|
    ensures prefix <= st[i].value && |st[i].value| == |prefix| + i && st[i].value <= st[|st| - 1].value
    decreases |st|
  {
    if |st| > 1 {
      var deeper := prefix + [Size(v) - 1];
      SpinePaths(Last(v), st[1..], deeper, keyed, if i == 0 then 0 else i - 1);
    }
  }

  /** A push may move the children of the value that the top level points to, for they are
      in a vector that grows.  No level points to one of them, or below one, so the
      pointers of all levels stay good. */
  lemma NoLevelDangles(d: Doc, i: nat, child: nat, rest: seq<nat>)
    requires Valid(d) && i < |d.stack|
    ensures d.stack[i].value <= d.Top().value
    ensures d.stack[i].value != d.Top().value + ([child] + rest)
  {
    SpinePaths(d.root, d.stack, [], d.key.String?, i);
  }

  /** The document and the builder stand for the same state, and both where the
      grammar does. */
  ghost predicate Stands(d: Doc, b: Build, p: Position) {
    && Valid(d) && (d.stack != [] ==> OpenTo(d.root, |d.stack|))
    && b == Abs(d) && Sound(b) && StandsAt(b, p)
  }

  lemma TopPart(d: Doc)
    requires Valid(d) && d.stack != [] && OpenTo(d.root, |d.stack|)
    ensures Abs(d).Top() == Whole(Tip(d.root, |d.stack|), PendingKey(d))
  {
    PartsTip(d.root, |d.stack|, PendingKey(d));
  }

  /** A document's assertions hold exactly where the builder takes a value. */
  lemma MayAddFits(d: Doc, b: Build, p: Position, x: Value)
    requires Stands(d, b, p) && TakesValue(p)
    ensures MayAdd(d, x) <==> Fits(b)
  {
    ValidOpen(d);
    if d.stack != [] {
      TopPart(d);
    }
  }

  /** The levels and parts after a value went in at the top. */
  lemma AddAtTop(d: Doc, x: Value)
    requires Valid(d) && d.seen && d.stack != [] && OpenTo(d.root, |d.stack|) && Fits(Abs(d))
    requires MayAdd(d, x)
    ensures var (c, pointer) := AddValue(d, x);
            && c.seen && c.key.Null? && |c.stack| == |d.stack|
            && Spine(c.root, c.stack, [], false) && OpenTo(c.root, |c.stack|)
            && Parts(c.root, |c.stack|, None) == Attach(Abs(d), x).parts
            && Tip(c.root, |c.stack|) == Push(Tip(d.root, |d.stack|), if d.key.String? then d.key.s else "", x)
            && pointer == c.stack[|c.stack| - 1].value + [Size(Tip(d.root, |d.stack|))]
  {
    var n := |d.stack|;
    var k := if d.key.String? then d.key.s else "";
    ValidOpen(d);
    TopPart(d);
    var t := Tip(d.root, n);
    assert t.Object? ==> d.Top().valueCount % 2 == 1;
    PushParts(d.root, n, k, x, PendingKey(d));
    PushSpine(d.root, d.stack, [], d.key.String?, k, x);
    assert Whole(Push(t, k, x), None) == Place(Whole(t, PendingKey(d)), x);
  }

  lemma AddScalar(d: Doc, b: Build, p: Position, e: Event)
    requires Stands(d, b, p) && IsScalar(e) && Fits(b)
    ensures Step(d, e).Some? && Add(b, e).Some?
    ensures Valid(Step(d, e).value)
    ensures var c := Step(d, e).value;
            (c.stack != [] ==> OpenTo(c.root, |c.stack|)) && Abs(c) == Add(b, e).value
  {
    var x := ScalarValue(e);
    FitsWhereTaken(b, p);
    MayAddFits(d, b, p, x);
    if d.stack != [] {
      AddAtTop(d, x);
    }
  }

  lemma AddContainer(d: Doc, b: Build, p: Position, e: Event)
    requires Stands(d, b, p) && (e.StartArray? || e.StartObject?) && Fits(b)
    ensures Step(d, e).Some? && Add(b, e).Some?
    ensures Valid(Step(d, e).value)
    ensures var c := Step(d, e).value;
            (c.stack != [] ==> OpenTo(c.root, |c.stack|)) && Abs(c) == Add(b, e).value
  {
    var x := EventValue(e);
    FitsWhereTaken(b, p);
    MayAddFits(d, b, p, x);
    var part := if e.StartArray? then PartArray([]) else PartObject([], None);
    assert Whole(x, None) == part;
    if d.stack != [] {
      EnterAtTop(d, x);
    }
  }

  /** An empty container goes in at the top and becomes the top. */
  lemma EnterAtTop(d: Doc, x: Value)
    requires Valid(d) && d.seen && d.stack != [] && OpenTo(d.root, |d.stack|) && Fits(Abs(d))
    requires MayAdd(d, x) && IsContainer(x) && Size(x) == 0
    ensures var (c, pointer) := AddValue(d, x);
            var st := c.stack + [Level(pointer, 0)];
            && c.seen && c.key.Null? && OpenTo(c.root, |st|) && Spine(c.root, st, [], false)
            && Parts(c.root, |st|, None) == Abs(d).parts + [Whole(x, None)]
  {
    var n := |d.stack|;
    var k := if d.key.String? then d.key.s else "";
    ValidOpen(d);
    TopPart(d);
    AddAtTop(d, x);
    hide Spine, Points, At, PushAt, LastPath;
    PushOpens(d.root, n, k, x, PendingKey(d));
    var c := AddValue(d, x).0;
    TipIsEmpty(c.root, n, k, Tip(d.root, n), x);
    EnterSpine(c.root, c.stack, []);
  }

  lemma {:induction false} TipIsEmpty(w: Value, n: nat, k: string, t: Value, x: Value)
    requires OpenTo(w, n) && OpenTo(w, n + 1) && IsContainer(t) && Tip(w, n) == Push(t, k, x)
    requires IsContainer(x) && Size(x) == 0
    ensures Count(Tip(w, n + 1)) == 0 && Size(Tip(w, n)) == Size(t) + 1
  {
    if n == 1 {
      assert Tip(w, 2) == Tip(Last(w), 1);
      assert Last(w) == x;
    } else {
      TipIsEmpty(Last(w), n - 1, k, t, x);
    }
  }

  lemma AddKey(d: Doc, b: Build, p: Position, e: Event)
    requires Stands(d, b, p) && e.Key? && Advance(p, e).Some?
    ensures Step(d, e).Some? && Add(b, e).Some?
    ensures Valid(Step(d, e).value)
    ensures var c := Step(d, e).value;
            (c.stack != [] ==> OpenTo(c.root, |c.stack|)) && Abs(c) == Add(b, e).value
  {
    var n := |d.stack|;
    ValidOpen(d);
    TopPart(d);
    PartsKey(d.root, n, PendingKey(d), Some(e.key));
    assert d.Top().valueCount % 2 == 0;
    KeySpine(d.root, d.stack, []);
  }

  lemma {:induction false} KeySpine(v: Value, st: seq<Level>, prefix: seq<nat>)
    requires Spine(v, st, prefix, false) && OpenTo(v, |st|) && Tip(v, |st|).Object?
    ensures var top := st[|st| - 1];
            Spine(v, st[..|st| - 1] + [top.(valueCount := top.valueCount + 1)], prefix, true)
    decreases |st|
  {
    var top := st[|st| - 1];
    if |st| > 1 {
      KeySpine(Last(v), st[1..], prefix + [Size(v) - 1]);
      assert (st[..|st| - 1] + [top.(valueCount := top.valueCount + 1)])[1..]
             == st[1..][..|st| - 2] + [top.(valueCount := top.valueCount + 1)];
    }
  }

  /** At the end of a container its level is dropped. */
  lemma EndSteps(d: Doc, b: Build, p: Position, e: Event)
    requires Stands(d, b, p) && (e.EndArray? || e.EndObject?) && Advance(p, e).Some?
    ensures d.stack != [] && d.key.Null? && Step(d, e) == Some(d.(stack := d.Pop()))
    ensures Add(b, e) == Finish(b)
  {
    ValidOpen(d);
    EndsWhereOpen(b, p, e);
    TopPart(d);
    hide Spine, Parts, Finish, Tip, OpenTo, LastPath;
  }

  lemma EndAbs(d: Doc)
    requires Valid(d) && d.stack != [] && d.key.Null? && OpenTo(d.root, |d.stack|)
    ensures var c := d.(stack := d.Pop());
            && Valid(c) && (c.stack != [] ==> OpenTo(c.root, |c.stack|))
            && (Finish(Abs(d)).Some? ==> Finish(Abs(d)) == Some(Abs(c)))
  {
    if |d.stack| == 1 {
      assert Close(Whole(d.root, None)) == d.root;
    } else {
      PopSpine(d.root, d.stack, []);
      PopParts(d.root, |d.stack|);
      var n, ps := |d.stack|, Abs(d).parts;
      assert ps[..n - 1][..n - 2] == ps[..n - 2] && ps[..n - 1][n - 2] == ps[n - 2];
      hide Spine, Parts, Tip, OpenTo, Close, Place;
    }
  }

  lemma AddEnd(d: Doc, b: Build, p: Position, e: Event)
    requires Stands(d, b, p) && (e.EndArray? || e.EndObject?) && Advance(p, e).Some?
    ensures Step(d, e).Some? && Add(b, e).Some?
    ensures Valid(Step(d, e).value)
    ensures var c := Step(d, e).value;
            (c.stack != [] ==> OpenTo(c.root, |c.stack|)) && Abs(c) == Add(b, e).value
  {
    ValidOpen(d);
    AddsUnlessTaken(b, p, e);
    EndSteps(d, b, p, e);
    EndAbs(d);
    EndsWhereOpen(b, p, e);
    hide Spine, Finish, Parts, Step, Add, Advance, OpenTo;
  }

  /** One event: the document takes it exactly when the builder does, and both
      come to the same state. */
  lemma StepRefines(d: Doc, b: Build, p: Position, e: Event)
    requires Stands(d, b, p) && Advance(p, e).Some?
    ensures Step(d, e).Some? <==> Add(b, e).Some?
    ensures Step(d, e).Some? ==> Stands(Step(d, e).value, Add(b, e).value, Advance(p, e).value)
  {
    AddsUnlessTaken(b, p, e);
    if e.EndArray? || e.EndObject? {
      AddEnd(d, b, p, e);
    } else if e.Key? {
      AddKey(d, b, p, e);
    } else {
      MayAddFits(d, b, p, EventValue(e));
      if Fits(b) {
        if IsScalar(e) {
          AddScalar(d, b, p, e);
        } else {
          AddContainer(d, b, p, e);
        }
      }
    }
  }

  lemma {:induction false} RunRefines(d: Doc, b: Build, p: Position, es: seq<Event>)
    requires Stands(d, b, p) && AdvanceAll(p, es).Some?
    ensures Run(d, es).Some? <==> AddAll(b, es).Some?
    ensures Run(d, es).Some? ==>
            Stands(Run(d, es).value, AddAll(b, es).value, AdvanceAll(p, es).value)
    decreases |es|
  {
    if es != [] {
      StepRefines(d, b, p, es[0]);
      if Step(d, es[0]).Some? {
        RunRefines(Step(d, es[0]).value, Add(b, es[0]).value, Advance(p, es[0]).value, es[1..]);
      }
    }
  }

  /** On any beginning of a well-formed stream the levels of the document keep
      pointing at last children; and the tree built so far, its open containers
      left open, sends back exactly the events received. */
  lemma DocumentReplays(es: seq<Event>)
    requires WellFormed(es) && Run(FRESH, es).Some?
    ensures var d := Run(FRESH, es).value;
            && Valid(d) && (d.stack != [] ==> OpenTo(d.root, |d.stack|)) && Replay(Abs(d)) == es
            && (Complete(es) ==> d.stack == [] && EventsOf(d.root) == es)
  {
    RunRefines(FRESH, EMPTY, START, es);
    BuildReplays(es);
  }

  /** The events of a tree build that tree, if every object has distinct keys;
      if not, and only then, the assertion of addMember fails. */
  lemma DocumentBuilds(v: Value)
    ensures Run(FRESH, EventsOf(v)) ==
            if DistinctKeys(v) then Some(Doc(v, true, [], Value.Null)) else None
  {
    TreeComplete(v);
    TreeBuilds(EMPTY, v);
    RunRefines(FRESH, EMPTY, START, EventsOf(v));
  }

  /** Up to the first duplicate key no assertion fails: an event of a well-formed
      stream is refused only where it begins the value of a key that is taken. */
  lemma OnlyDuplicatesFail(es: seq<Event>, e: Event)
    requires WellFormed(es + [e]) && Run(FRESH, es).Some? && Run(FRESH, es + [e]).None?
    ensures var d := Run(FRESH, es).value;
            && !e.Key? && !e.EndArray? && !e.EndObject?
            && d.stack != [] && Points(d.root, d.Top().value) && d.key.String?
            && var t := At(d.root, d.Top().value); t.Object? && HasKey(t.members, d.key.s)
  {
    hide Spine, PushAt, LastPath, AddAll, Run, AdvanceAll, Parts, Tip;
    AdvanceConcat(START, es, [e]);
    RunRefines(FRESH, EMPTY, START, es);
    var d, b, p := Run(FRESH, es).value, AddAll(EMPTY, es).value, AdvanceAll(START, es).value;
    AdvanceOne(p, e);
    RunConcat(FRESH, es, e);
    StepRefines(d, b, p, e);
    AddsUnlessTaken(b, p, e);
    ValidOpen(d);
    assert TakesValue(p) && !Fits(b);
    if d.stack != [] {
      TopPart(d);
    }
  }

  lemma {:induction false} RunConcat(d: Doc, es: seq<Event>, e: Event)
    ensures Run(d, es + [e]) == match Run(d, es) { case None => None case Some(c) => Step(c, e) }
    decreases |es|
  {
    if es == [] {
      assert [] + [e] == [e] && [e][1..] == [];
    } else {
      assert (es + [e])[0] == es[0] && (es + [e])[1..] == es[1..] + [e];
      if Step(d, es[0]).Some? {
        RunConcat(Step(d, es[0]).value, es[1..], e);
      }
    }
  }
}
