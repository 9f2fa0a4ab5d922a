/** What every place holds after an operation on values. */
module StoreReads {
  import opened Text
  import opened RefCount
  import opened ValueStore

  /** The variables and blocks of s are there in r, but for blocks that were freed, with
      as many values, and every place but the exceptions holds what it held. */
  ghost predicate Kept(s: Store, r: Store, except: set<Place>) {
    && |s.vars| <= |r.vars| && |s.heap| <= |r.heap|
    && (forall b :: 0 <= b < |s.heap| && r.heap[b].Live? ==>
          s.heap[b].Live? && |r.heap[b].kids| == |s.heap[b].kids|)
    && (forall p :: ValidPlace(s, p) && ValidPlace(r, p) && p !in except ==> Read(r, p) == Read(s, p))
  }

  /** No block was freed. */
  predicate NoneFreed(s: Store, r: Store) {
    |s.heap| <= |r.heap| && forall b :: 0 <= b < |s.heap| && s.heap[b].Live? ==> r.heap[b].Live?
  }

  /** The blocks that are left are those a variable leads to without the value at p. */
  ghost predicate LeftWithout(s: Store, p: Place, r: Store)
    requires ValidPlace(s, p)
  {
    && |s.heap| <= |r.heap|
    && forall b :: 0 <= b < |s.heap| && s.heap[b].Live? ==>
         (r.heap[b].Live? <==> Reachable(Nulled(s, p).heap, Nulled(s, p).vars, b))
  }

  lemma WriteReads(s: Store, p: Place, v: Val)
    requires ValidPlace(s, p)
    ensures var r := Written(s, p, v);
            && ValidPlace(r, p) && Read(r, p) == v && Kept(s, r, {p}) && NoneFreed(s, r)
            && |r.vars| == |s.vars| && |r.heap| == |s.heap|
  {
  }

  lemma KeptThrough(s: Store, t: Store, r: Store, x: set<Place>, y: set<Place>)
    requires Kept(s, t, x) && Kept(t, r, y)
    ensures Kept(s, r, x + y)
  {
    forall p | ValidPlace(s, p) && ValidPlace(r, p) && p !in x + y ensures Read(r, p) == Read(s, p) {
      assert ValidPlace(t, p) && Read(t, p) == Read(s, p);
    }
  }

  /** Destroying a value leaves null there and frees what only that value led to. */
  lemma DestroyReads(s: Store, p: Place)
    requires Inv(s) && ValidPlace(s, p)
    ensures Destroyed(s, p).Some?
    ensures var r := Destroyed(s, p).value;
            && ValidPlace(r, p) && Read(r, p) == NULL && Kept(s, r, {p}) && LeftWithout(s, p, r)
            && |r.vars| == |s.vars| && |r.heap| == |s.heap|
  {
    DestroyedInv(s, p);
    TargetSurvives(s, p);
    WriteReads(s, p, NULL);
    var r := Destroyed(s, p).value;
    forall b | 0 <= b < |s.heap| && s.heap[b].Live?
      ensures r.heap[b].Live? <==> Reachable(Nulled(s, p).heap, Nulled(s, p).vars, b)
    {
      SurvivesIffReached(s, p, b);
    }
    assert Kept(Nulled(s, p), r, {});
    KeptThrough(s, Nulled(s, p), r, {p}, {});
    assert {p} + {} == {p};
  }

  /** Taking a value out yields it; by move null is left there, by copy nothing changes. */
  lemma TakeReads(s: Store, p: Place, move: bool)
    requires Take(s, p, move).Some?
    ensures var (v, r) := Take(s, p, move).value;
            && v == Read(s, p) && ValidPlace(r, p) && Read(r, p) == (if move then NULL else v)
            && Kept(s, r, {p}) && NoneFreed(s, r) && |r.vars| == |s.vars| && |r.heap| == |s.heap|
  {
    if move {
      WriteReads(s, p, NULL);
    }
  }

  /** After an assignment that goes through, the target holds what the source held; the
      source holds null if it was moved from and is as before if not; every other place
      that is left is as before, and what only the old value led to is gone. */
  lemma AssignReads(s: Store, to: Place, from: Place, move: bool)
    requires Inv(s) && ValidPlace(s, to) && ValidPlace(s, from) && Assign(s, to, from, move).Some?
    ensures var r := Assign(s, to, from, move).value;
            && ValidPlace(r, to) && Read(r, to) == Read(s, from)
            && ValidPlace(r, from) && Read(r, from) == (if move then NULL else Read(s, from))
            && Kept(s, r, {to, from}) && LeftWithout(s, to, r)
            && |r.vars| == |s.vars| && |r.heap| == |s.heap|
  {
    DestroyReads(s, to);
    var t := Destroyed(s, to).value;
    TakeReads(t, from, move);
    var (v, u) := Take(t, from, move).value;
    WriteReads(u, to, v);
    var r := Written(u, to, v);
    KeptThrough(s, t, u, {to}, {from});
    KeptThrough(s, u, r, {to} + {from}, {to});
    assert ({to} + {from}) + {to} == {to, from};
    assert Read(t, from) == Read(s, from);
    forall b | 0 <= b < |s.heap| && s.heap[b].Live? ensures r.heap[b].Live? <==> t.heap[b].Live? {
      assert t.heap[b].Live? ==> u.heap[b].Live?;
    }
  }

  /** The new variable holds what the source held. */
  lemma NewReads(s: Store, from: Place, move: bool)
    requires New(s, from, move).Some?
    ensures var r := New(s, from, move).value;
            && |r.vars| == |s.vars| + 1 && |r.heap| == |s.heap| && r.vars[|s.vars|] == Read(s, from)
            && ValidPlace(r, from) && Read(r, from) == (if move then NULL else Read(s, from))
            && Kept(s, r, {from}) && NoneFreed(s, r)
  {
    TakeReads(s, from, move);
    var (v, t) := Take(s, from, move).value;
    var r := t.(vars := t.vars + [v]);
    assert Kept(t, r, {});
    KeptThrough(s, t, r, {from}, {});
    assert {from} + {} == {from};
  }

  /** Appending puts what the source held behind the values of the target's block, and
      changes nothing else. */
  lemma AppendReads(s: Store, to: Place, from: Place, move: bool)
    requires ValidPlace(s, to) && Read(s, to).Ref? && Append(s, to, from, move).Some?
    ensures var b, r := Read(s, to).id, Append(s, to, from, move).value;
            && b < |s.heap| && s.heap[b].Live? && r.vars == Take(s, from, move).value.1.vars
            && |r.heap| == |s.heap| && NoneFreed(s, r)
            && (forall c :: 0 <= c < |s.heap| && s.heap[c].Live? ==>
                  |r.heap[c].kids| == |s.heap[c].kids| + if c == b then 1 else 0)
            && Read(r, Slot(b, |s.heap[b].kids|)) == Read(s, from)
            && Read(r, from) == (if move then NULL else Read(s, from))
            && forall p :: ValidPlace(s, p) && p != from ==> ValidPlace(r, p) && Read(r, p) == Read(s, p)
  {
    TakeReads(s, from, move);
    var t := Take(s, from, move).value.1;
    forall p | ValidPlace(s, p) && p != from ensures ValidPlace(t, p) && Read(t, p) == Read(s, p) {
    }
  }

  /** A scalar written over a value. */
  lemma SetScalarReads(s: Store, to: Place, bits: int)
    requires Inv(s) && ValidPlace(s, to)
    ensures SetToScalar(s, to, bits).Some?
    ensures var r := SetToScalar(s, to, bits).value;
            && ValidPlace(r, to) && Read(r, to) == Scalar(bits) && Kept(s, r, {to}) && LeftWithout(s, to, r)
            && |r.vars| == |s.vars| && |r.heap| == |s.heap|
  {
    DestroyReads(s, to);
    var t := Destroyed(s, to).value;
    WriteReads(t, to, Scalar(bits));
    KeptThrough(s, t, Written(t, to, Scalar(bits)), {to}, {to});
    assert {to} + {to} == {to};
  }

  /** A new, empty block, with one value that refers to it: the one at the target. */
  lemma SetBlockReads(s: Store, to: Place)
    requires Inv(s) && ValidPlace(s, to)
    ensures SetToBlock(s, to).Some?
    ensures var r := SetToBlock(s, to).value;
            && |r.vars| == |s.vars| && |r.heap| == |s.heap| + 1 && r.heap[|s.heap|] == Live(1, [])
            && ValidPlace(r, to) && Read(r, to) == Ref(|s.heap|) && Kept(s, r, {to}) && LeftWithout(s, to, r)
  {
    DestroyReads(s, to);
    var t := Destroyed(s, to).value;
    var u := WithBlock(t);
    var r := Written(u, to, Ref(|t.heap|));
    assert Kept(t, u, {});
    WriteReads(u, to, Ref(|t.heap|));
    KeptThrough(s, t, u, {to}, {});
    KeptThrough(s, u, r, {to} + {}, {to});
    assert ({to} + {}) + {to} == {to};
  }

  /** A new variable that is made, not copied. */
  lemma MadeReads(s: Store, bits: int)
    ensures Step(s, NewScalar(bits)) == Some(Store(s.heap, s.vars + [Scalar(bits)]))
    ensures Step(s, NewBlock) == Some(Store(s.heap + [Live(1, [])], s.vars + [Ref(|s.heap|)]))
    ensures Kept(s, Step(s, NewScalar(bits)).value, {}) && Kept(s, Step(s, NewBlock).value, {})
    ensures NoneFreed(s, Step(s, NewScalar(bits)).value) && NoneFreed(s, Step(s, NewBlock).value)
  {
  }
}
