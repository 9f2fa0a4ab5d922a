/** The document handler: a tree that grows in place, and a stack of levels that
    point into it.  A pointer into the tree is the path of child indices from the
    root. */
module DocumentSpec {
  import opened Text
  import opened Json
  import opened Builder

  datatype Level = Level(value: seq<nat>, valueCount: nat)

  datatype Doc = Doc(root: Value, seen: bool, stack: seq<Level>, key: Value) {
    function Top(): Level
      requires stack != []
    {
      stack[|stack| - 1]
    }

    function Pop(): seq<Level>
      requires stack != []
    {
      stack[..|stack| - 1]
    }
  }

  const FRESH := Doc(Value.Null, false, [], Value.Null)

  // --------------------------------------------------------------- pointers

  predicate IsContainer(v: Value) { v.Array? || v.Object? }

  function Size(v: Value): nat
    requires IsContainer(v)
  {
    if v.Array? then |v.elems| else |v.members|
  }

  function Child(v: Value, i: nat): Value
    requires IsContainer(v) && i < Size(v)
  {
    if v.Array? then v.elems[i] else v.members[i].value
  }

  predicate Points(v: Value, path: seq<nat>)
    decreases |path|
  {
    path == [] || (IsContainer(v) && path[0] < Size(v) && Points(Child(v, path[0]), path[1..]))
  }

  function At(v: Value, path: seq<nat>): Value
    requires Points(v, path)
    decreases |path|
  {
    if path == [] then v else At(Child(v, path[0]), path[1..])
  }

  /** Pushes x to the back of a container; in an object under the key k. */
  function Push(v: Value, k: string, x: Value): Value
    requires IsContainer(v)
  {
    if v.Array? then Value.Array(v.elems + [x]) else Value.Object(v.members + [Member(k, x)])
  }

  function WithChild(v: Value, i: nat, x: Value): Value
    requires IsContainer(v) && i < Size(v)
  {
    if v.Array? then Value.Array(v.elems[i := x])
    else Value.Object(v.members[i := Member(v.members[i].key, x)])
  }

  /** The tree after a push through a pointer. */
  function PushAt(v: Value, path: seq<nat>, k: string, x: Value): Value
    requires Points(v, path) && IsContainer(At(v, path))
    decreases |path|
  {
    if path == [] then Push(v, k, x)
    else WithChild(v, path[0], PushAt(Child(v, path[0]), path[1..], k, x))
  }

  // ---------------------------------------------------------------- handler

  /** The assertions of addValue and addMember. */
  predicate MayAdd(d: Doc, x: Value) {
    if !d.seen then d.root.Null?
    else
      && d.stack != [] && Points(d.root, d.Top().value)
      && var t := At(d.root, d.Top().value);
         (t.Array? ||
          (t.Object? &&
           if d.Top().valueCount % 2 == 0 then x.String?
           else d.key.String? && !HasKey(t.members, d.key.s)))
  }

  /** The levels after the top one has counted a new value. */
  function Counted(st: seq<Level>): seq<Level>
    requires st != []
  {
    var top := st[|st| - 1];
    st[..|st| - 1] + [top.(valueCount := top.valueCount + 1)]
  }

  /** addValue, with the pointer it returns (a key has none that is used). */
  function AddValue(d: Doc, x: Value): (Doc, seq<nat>)
    requires MayAdd(d, x)
  {
    if !d.seen then (d.(root := x, seen := true), [])
    else
      var top := d.Top();
      var t := At(d.root, top.value);
      var stack := Counted(d.stack);
      if t.Array? then
        (d.(root := PushAt(d.root, top.value, "", x), stack := stack), top.value + [Size(t)])
      else if top.valueCount % 2 == 0 then
        (d.(key := x, stack := stack), [])
      else
        (d.(root := PushAt(d.root, top.value, d.key.s, x), stack := stack, key := Value.Null),
         top.value + [Size(t)])
  }

  function EventValue(e: Event): Value
    requires !e.EndArray? && !e.EndObject?
  {
    if e.StartArray? then Value.Array([])
    else if e.StartObject? then Value.Object([])
    else if e.Key? then Value.String(e.key)
    else ScalarValue(e)
  }

  /** One event; None where an assertion of the source fails. */
  function Step(d: Doc, e: Event): Option<Doc> {
    if e.EndArray? || e.EndObject? then
      if d.stack != [] && Points(d.root, d.Top().value)
         && (if e.EndArray? then At(d.root, d.Top().value).Array? else At(d.root, d.Top().value).Object?)
      then Some(d.(stack := d.Pop())) else None
    else
      var x := EventValue(e);
      if !MayAdd(d, x) then None
      else
        var (c, pointer) := AddValue(d, x);
        if e.StartArray? || e.StartObject? then Some(c.(stack := c.stack + [Level(pointer, 0)]))
        else Some(c)
  }

  function Run(d: Doc, es: seq<Event>): Option<Doc>
    decreases |es|
  {
    if es == [] then Some(d)
    else match Step(d, es[0])
         case None => None
         case Some(c) => Run(c, es[1..])
  }

  // -------------------------------------------------------------- invariant

  /** v and its last child, that one's last child and so on, n of them, are
      containers. */
  predicate OpenTo(v: Value, n: nat) {
    n > 0 && IsContainer(v) && (n == 1 || (Size(v) > 0 && OpenTo(Child(v, Size(v) - 1), n - 1)))
  }

  function Last(v: Value): Value
    requires IsContainer(v) && Size(v) > 0
  {
    Child(v, Size(v) - 1)
  }

  /** The innermost of these containers, and the path to it. */
  function Tip(v: Value, n: nat): (t: Value)
    requires OpenTo(v, n)
    ensures IsContainer(t)
  {
    if n == 1 then v else Tip(Last(v), n - 1)
  }

  function LastPath(v: Value, n: nat): (p: seq<nat>)
    requires OpenTo(v, n)
    ensures |p| == n - 1
  {
    if n == 1 then [] else [Size(v) - 1] + LastPath(Last(v), n - 1)
  }

  /** Keys and values put into a container. */
  function Count(v: Value): nat
    requires IsContainer(v)
  {
    if v.Array? then |v.elems| else 2 * |v.members|
  }

  /** Each level points to the last child of the one below it, and counts what
      was put there; `keyed` says that the top one has a key waiting. */
  ghost predicate Spine(v: Value, st: seq<Level>, prefix: seq<nat>, keyed: bool)
    decreases |st|
  {
    && st != [] && IsContainer(v) && st[0].value == prefix
    && if |st| == 1 then
         st[0].valueCount == Count(v) + (if keyed then 1 else 0) && (keyed ==> v.Object?)
       else
         && Size(v) > 0 && st[0].valueCount == Count(v)
         && Spine(Last(v), st[1..], prefix + [Size(v) - 1], keyed)
  }

  /** What holds between any two events: a key is pending exactly when the top
      level is an object with an odd count. */
  ghost predicate Valid(d: Doc) {
    if d.stack == [] then (!d.seen ==> d.root.Null?) && d.key.Null?
    else
      && d.seen && (d.key.String? || d.key.Null?)
      && Spine(d.root, d.stack, [], d.key.String?)
  }

  // ------------------------------------------------------------ abstraction

  function Whole(v: Value, key: Option<string>): Part
    requires IsContainer(v)
  {
    if v.Array? then PartArray(v.elems) else PartObject(v.members, key)
  }

  /** The container without its last child, which is still open. */
  function Front(v: Value): Part
    requires IsContainer(v) && Size(v) > 0
  {
    var n := Size(v) - 1;
    if v.Array? then PartArray(v.elems[..n]) else PartObject(v.members[..n], Some(v.members[n].key))
  }

  function Parts(v: Value, n: nat, key: Option<string>): (ps: seq<Part>)
    requires OpenTo(v, n)
    ensures |ps| == n
  {
    if n == 1 then [Whole(v, key)] else [Front(v)] + Parts(Last(v), n - 1, key)
  }

  function PendingKey(d: Doc): Option<string> {
    if d.key.String? then Some(d.key.s) else None
  }

  lemma {:induction false} SpineOpen(v: Value, st: seq<Level>, prefix: seq<nat>, keyed: bool)
    requires Spine(v, st, prefix, keyed)
    ensures OpenTo(v, |st|)
    ensures st[|st| - 1].value == prefix + LastPath(v, |st|)
    ensures st[|st| - 1].valueCount == Count(Tip(v, |st|)) + (if keyed then 1 else 0)
    ensures keyed ==> Tip(v, |st|).Object?
    decreases |st|
  {
    if |st| == 1 {
      assert prefix + [] == prefix;
    } else {
      SpineOpen(Last(v), st[1..], prefix + [Size(v) - 1], keyed);
      assert prefix + ([Size(v) - 1] + LastPath(Last(v), |st| - 1))
             == (prefix + [Size(v) - 1]) + LastPath(Last(v), |st| - 1);
    }
  }

  /** The builder a document stands for. */
  function Abs(d: Doc): Build
    requires d.stack == [] || OpenTo(d.root, |d.stack|)
  {
    if d.stack == [] then Build([], if d.seen then Some(d.root) else None)
    else Build(Parts(d.root, |d.stack|, PendingKey(d)), None)
  }

  lemma {:induction false} TipPath(v: Value, n: nat)
    requires OpenTo(v, n)
    ensures Points(v, LastPath(v, n)) && At(v, LastPath(v, n)) == Tip(v, n)
  {
    if n > 1 {
      TipPath(Last(v), n - 1);
      assert LastPath(v, n)[1..] == LastPath(Last(v), n - 1);
    }
  }

  lemma {:induction false} PartsTip(v: Value, n: nat, key: Option<string>)
    requires OpenTo(v, n)
    ensures Parts(v, n, key)[n - 1] == Whole(Tip(v, n), key)
  {
    if n > 1 {
      PartsTip(Last(v), n - 1, key);
    }
  }

  /** Only the top part depends on the pending key. */
  lemma {:induction false} PartsKey(v: Value, n: nat, k1: Option<string>, k2: Option<string>)
    requires OpenTo(v, n)
    ensures Parts(v, n, k2) == Parts(v, n, k1)[..n - 1] + [Whole(Tip(v, n), k2)]
  {
    if n > 1 {
      var m := n - 1;
      PartsKey(Last(v), m, k1, k2);
      var ps := Parts(Last(v), m, k1);
      assert ([Front(v)] + ps)[..n - 1] == [Front(v)] + ps[..m - 1];
    }
  }

  // ----------------------------------------------------- a push at the tip

  lemma WithLast(v: Value, x: Value)
    requires IsContainer(v) && Size(v) > 0
    ensures var w := WithChild(v, Size(v) - 1, x);
            IsContainer(w) && Size(w) == Size(v) && Last(w) == x && Front(w) == Front(v)
            && Count(w) == Count(v)
  {
  }

  /** A push below the last child is a push into it, by definition. */
  lemma PushBelow(v: Value, n: nat, k: string, x: Value)
    requires OpenTo(v, n) && n > 1
    ensures var p := LastPath(Last(v), n - 1);
            && Points(v, LastPath(v, n)) && IsContainer(At(v, LastPath(v, n)))
            && Points(Last(v), p) && IsContainer(At(Last(v), p))
            && PushAt(v, LastPath(v, n), k, x) == WithChild(v, Size(v) - 1, PushAt(Last(v), p, k, x))
  {
    TipPath(v, n);
    TipPath(Last(v), n - 1);
    assert LastPath(v, n)[1..] == LastPath(Last(v), n - 1);
  }

  /** The containers from v on are v and those from its last child on, by definition. */
  lemma Unfold(v: Value, n: nat, key: Option<string>)
    requires OpenTo(v, n) && n > 1
    ensures OpenTo(Last(v), n - 1) && Tip(v, n) == Tip(Last(v), n - 1)
    ensures Parts(v, n, key) == [Front(v)] + Parts(Last(v), n - 1, key)
  {
  }

  /** And the same with another last child. */
  lemma Refold(v: Value, y: Value, n: nat, key: Option<string>)
    requires IsContainer(v) && Size(v) > 0 && n > 1 && OpenTo(y, n - 1)
    ensures var w := WithChild(v, Size(v) - 1, y);
            && OpenTo(w, n) && Tip(w, n) == Tip(y, n - 1)
            && Parts(w, n, key) == [Front(v)] + Parts(y, n - 1, key)
  {
    WithLast(v, y);
    Unfold(WithChild(v, Size(v) - 1, y), n, key);
  }

  lemma FrontKept(f: Part, ps: seq<Part>, top: Part)
    requires ps != []
    ensures [f] + (ps[..|ps| - 1] + [top]) == ([f] + ps)[..|ps|] + [top]
  {
    assert ([f] + ps)[..|ps|] == [f] + ps[..|ps| - 1];
  }

  lemma PushHere(v: Value, k: string, x: Value, key: Option<string>)
    requires OpenTo(v, 1)
    ensures Points(v, LastPath(v, 1)) && IsContainer(At(v, LastPath(v, 1)))
    ensures var w := PushAt(v, LastPath(v, 1), k, x);
            && OpenTo(w, 1) && Tip(w, 1) == Push(Tip(v, 1), k, x)
            && Parts(w, 1, None) == Parts(v, 1, key)[..0] + [Whole(Push(Tip(v, 1), k, x), None)]
  {
    TipPath(v, 1);
    assert Parts(v, 1, key)[..0] == [];
  }

  /** A push at the tip changes only the top part. */
  lemma {:induction false} PushParts(v: Value, n: nat, k: string, x: Value, key: Option<string>)
    requires OpenTo(v, n)
    ensures Points(v, LastPath(v, n)) && IsContainer(At(v, LastPath(v, n)))
    ensures var w := PushAt(v, LastPath(v, n), k, x);
            && OpenTo(w, n) && Tip(w, n) == Push(Tip(v, n), k, x)
            && Parts(w, n, None) == Parts(v, n, key)[..n - 1] + [Whole(Push(Tip(v, n), k, x), None)]
    decreases n
  {
    if n == 1 {
      PushHere(v, k, x, key);
    } else {
      PushBelow(v, n, k, x);
      PushParts(Last(v), n - 1, k, x, key);
      Unfold(v, n, key);
      var y := PushAt(Last(v), LastPath(Last(v), n - 1), k, x);
      Refold(v, y, n, None);
      FrontKept(Front(v), Parts(Last(v), n - 1, key), Whole(Push(Tip(v, n), k, x), None));
      hide *;
    }
  }

  /** Pushing a container at the tip and going into it. */
  lemma {:induction false} PushOpens(v: Value, n: nat, k: string, x: Value, key: Option<string>)
    requires OpenTo(v, n) && IsContainer(x)
    requires Tip(v, n).Object? ==> key == Some(k)
    requires Points(v, LastPath(v, n)) && IsContainer(At(v, LastPath(v, n)))
    ensures var w := PushAt(v, LastPath(v, n), k, x);
            OpenTo(w, n + 1) && Parts(w, n + 1, None) == Parts(v, n, key) + [Whole(x, None)]
    decreases n
  {
    if n == 1 {
      OpensHere(v, k, x, key);
    } else {
      PushBelow(v, n, k, x);
      Unfold(v, n, key);
      PushOpens(Last(v), n - 1, k, x, key);
      var y := PushAt(Last(v), LastPath(Last(v), n - 1), k, x);
      Refold(v, y, n + 1, None);
      Glue([Front(v)], Parts(Last(v), n - 1, key), [Whole(x, None)]);
      hide *;
    }
  }

  lemma OpensHere(v: Value, k: string, x: Value, key: Option<string>)
    requires IsContainer(v) && IsContainer(x) && (v.Object? ==> key == Some(k))
    ensures var w := Push(v, k, x);
            OpenTo(w, 2) && Parts(w, 2, None) == [Whole(v, key), Whole(x, None)]
  {
    var w := Push(v, k, x);
    assert OpenTo(x, 1) && Last(w) == x;
    assert Front(w) == Whole(v, key);
    assert Parts(w, 2, None) == [Front(w)] + Parts(x, 1, None);
  }

  lemma CountedBelow(st: seq<Level>)
    requires |st| > 1
    ensures Counted(st)[0] == st[0] && Counted(st)[1..] == Counted(st[1..]) && |Counted(st)| == |st|
  {
    assert st[1..][..|st| - 2] == st[1..|st| - 1];
  }

  /** A spine with another last child. */
  lemma SpineBelow(v: Value, y: Value, st: seq<Level>, prefix: seq<nat>, keyed: bool)
    requires IsContainer(v) && Size(v) > 0 && |st| > 1 && st[0] == Level(prefix, Count(v))
    requires Spine(y, st[1..], prefix + [Size(v) - 1], keyed)
    ensures Spine(WithChild(v, Size(v) - 1, y), st, prefix, keyed)
  {
    WithLast(v, y);
  }

  /** The levels after a push: the top one has counted the new value. */
  lemma {:induction false} PushSpine(v: Value, st: seq<Level>, prefix: seq<nat>, keyed: bool, k: string, x: Value)
    requires Spine(v, st, prefix, keyed) && OpenTo(v, |st|)
    requires Tip(v, |st|).Object? ==> keyed
    requires Points(v, LastPath(v, |st|)) && IsContainer(At(v, LastPath(v, |st|)))
    ensures Spine(PushAt(v, LastPath(v, |st|), k, x), Counted(st), prefix, false)
    decreases |st|
  {
    var n := |st|;
    if n > 1 {
      PushBelow(v, n, k, x);
      Unfold(v, n, None);
      CountedBelow(st);
      PushSpine(Last(v), st[1..], prefix + [Size(v) - 1], keyed, k, x);
      var y := PushAt(Last(v), LastPath(Last(v), n - 1), k, x);
      SpineBelow(v, y, Counted(st), prefix, false);
      hide *;
    }
  }

  /** A level for an empty container that is the last child of the tip. */
  lemma {:induction false} EnterSpine(v: Value, st: seq<Level>, prefix: seq<nat>)
    requires Spine(v, st, prefix, false) && OpenTo(v, |st| + 1) && OpenTo(v, |st|)
    requires Count(Tip(v, |st| + 1)) == 0
    requires Size(Tip(v, |st|)) > 0
    ensures Spine(v, st + [Level(st[|st| - 1].value + [Size(Tip(v, |st|)) - 1], 0)], prefix, false)
    decreases |st|
  {
    var l := Level(st[|st| - 1].value + [Size(Tip(v, |st|)) - 1], 0);
    if |st| == 1 {
      assert (st + [l])[1..] == [l];
    } else {
      EnterSpine(Last(v), st[1..], prefix + [Size(v) - 1]);
      assert (st + [l])[1..] == st[1..] + [l];
    }
  }

  // ----------------------------------------------------------------- a pop

  lemma {:induction false} PopSpine(v: Value, st: seq<Level>, prefix: seq<nat>)
    requires Spine(v, st, prefix, false) && |st| > 1
    ensures Spine(v, st[..|st| - 1], prefix, false)
    decreases |st|
  {
    if |st| > 2 {
      PopSpine(Last(v), st[1..], prefix + [Size(v) - 1]);
      assert st[..|st| - 1][1..] == st[1..][..|st| - 2];
    }
  }

  lemma FrontWhole(v: Value)
    requires IsContainer(v) && Size(v) > 0 && IsContainer(Last(v))
    ensures Place(Front(v), Close(Whole(Last(v), None))) == Whole(v, None)
  {
    var n := Size(v) - 1;
    if v.Array? {
      assert v.elems[..n] + [v.elems[n]] == v.elems;
    } else {
      assert v.members[..n] + [v.members[n]] == v.members;
    }
  }

  lemma {:induction false} PopParts(v: Value, n: nat)
    requires OpenTo(v, n) && n > 1
    ensures OpenTo(v, n - 1)
    ensures var ps := Parts(v, n, None);
            && (ps[n - 2].PartObject? ==> ps[n - 2].key.Some?)
            && Parts(v, n - 1, None) == ps[..n - 2] + [Place(ps[n - 2], Close(ps[n - 1]))]
    decreases n
  {
    if n == 2 {
      FrontWhole(v);
    } else {
      PopParts(Last(v), n - 1);
      var ps := Parts(Last(v), n - 1, None);
      assert ([Front(v)] + ps)[..n - 2] == [Front(v)] + ps[..n - 3];
    }
  }
}
