/** Copying, moving, assigning, growing and destroying values, over whole runs. */
module ValueStore {
  import opened Text
  import opened RefCount

  /** The heap and the variables; a destroyed or moved-from variable is null. */
  datatype Store = Store(heap: Heap, vars: seq<Val>)

  /** Where a value lives: in a variable or in a block. */
  datatype Place = Var(i: nat) | Slot(block: nat, k: nat)

  predicate ValidPlace(s: Store, p: Place) {
    match p
    case Var(i) => i < |s.vars|
    case Slot(b, k) => b < |s.heap| && s.heap[b].Live? && k < |s.heap[b].kids|
  }

  function Read(s: Store, p: Place): Val
    requires ValidPlace(s, p)
  {
    match p
    case Var(i) => s.vars[i]
    case Slot(b, k) => s.heap[b].kids[k]
  }

  /** Writes a value over one that is gone. */
  function Written(s: Store, p: Place, v: Val): Store
    requires ValidPlace(s, p)
  {
    match p
    case Var(i) => s.(vars := s.vars[i := v])
    case Slot(b, k) => s.(heap := s.heap[b := s.heap[b].(kids := s.heap[b].kids[k := v])])
  }

  /** What moving a value out leaves, and what destroying it leaves first. */
  function Nulled(s: Store, p: Place): Store
    requires ValidPlace(s, p)
  {
    Written(s, p, NULL)
  }

  /** One more value refers to what v refers to. */
  predicate Shareable(h: Heap, v: Val) { v.Ref? ==> v.id < |h| && h[v.id].Live? && h[v.id].count > 0 }

  function Shared(h: Heap, v: Val): Heap
    requires Shareable(h, v)
  {
    if v.Scalar? then h else h[v.id := h[v.id].(count := h[v.id].count + 1)]
  }

  /** Values are taken from and put into any place, in a variable or in a block. */
  datatype Action =
    | NewScalar(bits: int)
    | NewBlock
    | CopyNew(from: Place)
    | MoveNew(from: Place)
    | CopyAssign(to: Place, from: Place)
    | MoveAssign(to: Place, from: Place)
    | CopyAppend(to: Place, from: Place)
    | MoveAppend(to: Place, from: Place)
    | SetScalar(to: Place, bits: int)  // setNull to setDouble; and, with null, the end of a variable
    | SetBlock(to: Place)              // setString, setArray and setObject

  /** Takes the value out of a place, by copy or by move; None where the place is
      in a freed block or an assertion on a count fails. */
  function Take(s: Store, p: Place, move: bool): Option<(Val, Store)> {
    if !ValidPlace(s, p) then None
    else
      var v := Read(s, p);
      if move then Some((v, Nulled(s, p)))
      else if !Shareable(s.heap, v) then None
      else Some((v, s.(heap := Shared(s.heap, v))))
  }

  /** Destroys the value at a place, which may be inside a block; the value that is
      being destroyed does not count any more. */
  function Destroyed(s: Store, p: Place): Option<Store>
    requires ValidPlace(s, p)
  {
    var t := Nulled(s, p);
    match Release(t.heap, [Read(s, p)])
    case None => None
    case Some(h) => Some(t.(heap := h))
  }

  function PushBack(h: Heap, b: nat, v: Val): Heap
    requires b < |h| && h[b].Live?
  {
    h[b := h[b].(kids := h[b].kids + [v])]
  }

  function Put(s: Store, p: Place, v: Val): Option<Store> {
    if ValidPlace(s, p) then Some(Written(s, p, v)) else None
  }

  /** Assignment destroys the old value first, and only then reads the new one. */
  function Assign(s: Store, to: Place, from: Place, move: bool): Option<Store> {
    if !ValidPlace(s, to) || to == from then None
    else match Destroyed(s, to)
         case None => None
         case Some(t) =>
           match Take(t, from, move)
           case None => None
           case Some((v, u)) => Put(u, to, v)
  }

  function New(s: Store, p: Place, move: bool): Option<Store> {
    match Take(s, p, move)
    case None => None
    case Some((v, t)) => Some(t.(vars := t.vars + [v]))
  }

  function Append(s: Store, to: Place, from: Place, move: bool): Option<Store> {
    if !ValidPlace(s, to) || Read(s, to).Scalar? then None
    else
      var b := Read(s, to).id;
      match Take(s, from, move)
      case None => None
      case Some((v, t)) =>
        if b < |t.heap| && t.heap[b].Live? then Some(t.(heap := PushBack(t.heap, b, v))) else None
  }

  /** A new, empty block, to which one value is to refer. */
  function WithBlock(s: Store): Store { s.(heap := s.heap + [Live(1, [])]) }

  function SetToBlock(s: Store, to: Place): Option<Store>
    requires ValidPlace(s, to)
  {
    match Destroyed(s, to)
    case None => None
    case Some(t) => Put(WithBlock(t), to, Ref(|t.heap|))
  }

  function SetToScalar(s: Store, to: Place, bits: int): Option<Store>
    requires ValidPlace(s, to)
  {
    match Destroyed(s, to)
    case None => None
    case Some(t) => Put(t, to, Scalar(bits))
  }

  function Step(s: Store, a: Action): Option<Store> {
    match a
    case NewScalar(bits) => Some(s.(vars := s.vars + [Scalar(bits)]))
    case NewBlock => Some(WithBlock(s).(vars := s.vars + [Ref(|s.heap|)]))
    case CopyNew(p) => New(s, p, false)
    case MoveNew(p) => New(s, p, true)
    case CopyAssign(to, p) => Assign(s, to, p, false)
    case MoveAssign(to, p) => Assign(s, to, p, true)
    case CopyAppend(to, p) => Append(s, to, p, false)
    case MoveAppend(to, p) => Append(s, to, p, true)
    case SetScalar(to, bits) => if ValidPlace(s, to) then SetToScalar(s, to, bits) else None
    case SetBlock(to) => if ValidPlace(s, to) then SetToBlock(s, to) else None
  }

  // -------------------------------------------------------------- invariant

  ghost predicate Inv(s: Store) { Counted(s.heap, s.vars) && Acyclic(s.heap) }

  /** What the callers see to: places that exist, no value that leads to the block it
      is put into, and no assignment from a block that goes away with the value it is
      assigned over. */
  ghost predicate Allowed(s: Store, a: Action) {
    match a
    case NewScalar(bits) => true
    case NewBlock => true
    case CopyNew(p) => ValidPlace(s, p)
    case MoveNew(p) => ValidPlace(s, p)
    case CopyAssign(to, p) => MayAssign(s, to, p)
    case MoveAssign(to, p) => MayAssign(s, to, p)
    case CopyAppend(to, p) => MayAppend(s, to, p, false)
    case MoveAppend(to, p) => MayAppend(s, to, p, true)
    case SetScalar(to, _) => ValidPlace(s, to)
    case SetBlock(to) => ValidPlace(s, to)
  }

  /** The source is still there when the old value is gone. */
  ghost predicate Outlives(s: Store, to: Place, from: Place)
    requires ValidPlace(s, to)
  {
    from.Slot? ==> Reachable(Nulled(s, to).heap, Nulled(s, to).vars, from.block)
  }

  ghost predicate MayAssign(s: Store, to: Place, from: Place) {
    && ValidPlace(s, to) && ValidPlace(s, from) && to != from && Outlives(s, to, from)
    && (to.Slot? ==> !Leads(s.heap, Read(s, from), to.block))
  }

  ghost predicate MayAppend(s: Store, to: Place, from: Place, move: bool) {
    && ValidPlace(s, to) && Read(s, to).Ref? && ValidPlace(s, from) && (move ==> to != from)
    && !Leads(s.heap, Read(s, from), Read(s, to).id)
  }

  ghost predicate Reachable(h: Heap, out: seq<Val>, b: nat) { exists n: nat :: Reached(h, out, b, n) }

  // ------------------------------------------------------------------ lemmas

  /** The order of the values outside does not matter, only how many refer where. */
  lemma Recount(h: Heap, x: seq<Val>, y: seq<Val>)
    requires Counted(h, x) && forall b: nat :: Refs(x, b) == Refs(y, b)
    ensures Counted(h, y)
  {
    forall b: nat ensures CountedAt(h, y, b) {
      assert CountedAt(h, x, b);
    }
  }

  lemma RefsOne(v: Val, b: nat)
    ensures Refs([v], b) == if v == Ref(b) then 1 else 0
  {
    assert [v][1..] == [];
  }

  /** A variable's value may be taken to be outside on its own. */
  lemma VarOut(h: Heap, vars: seq<Val>, i: nat)
    requires i < |vars|
    ensures Counted(h, vars) <==> Counted(h, [vars[i]] + vars[i := NULL])
  {
    forall b: nat ensures Refs(vars, b) == Refs([vars[i]] + vars[i := NULL], b) {
      RefsConcat([vars[i]], vars[i := NULL], b);
      RefsOne(vars[i], b);
      RefsUpdate(vars, i, NULL, b);
    }
    if Counted(h, vars) {
      Recount(h, vars, [vars[i]] + vars[i := NULL]);
    }
    if Counted(h, [vars[i]] + vars[i := NULL]) {
      Recount(h, [vars[i]] + vars[i := NULL], vars);
    }
  }

  lemma OneMore(h: Heap, vars: seq<Val>, v: Val)
    ensures Counted(h, [v] + vars) <==> Counted(h, vars + [v])
  {
    forall b: nat ensures Refs([v] + vars, b) == Refs(vars + [v], b) {
      RefsConcat([v], vars, b);
      RefsConcat(vars, [v], b);
    }
    if Counted(h, [v] + vars) {
      Recount(h, [v] + vars, vars + [v]);
    }
    if Counted(h, vars + [v]) {
      Recount(h, vars + [v], [v] + vars);
    }
  }

  lemma {:induction false} HolderInside(h: Heap, p: nat, b: nat)
    requires Holds(h, p, b)
    ensures Inside(h, b) > 0
  {
    if p == 0 {
      RefsHolder(h[0].kids, b);
    } else {
      HolderInside(h[1..], p - 1, b);
    }
  }

  /** A value that is somewhere refers to a live block. */
  lemma PlaceShareable(s: Store, p: Place)
    requires Counted(s.heap, s.vars) && ValidPlace(s, p)
    ensures Shareable(s.heap, Read(s, p))
  {
    var v := Read(s, p);
    if v.Ref? {
      assert CountedAt(s.heap, s.vars, v.id);
      RefsHolder(s.vars, v.id);
      if p.Slot? {
        HolderInside(s.heap, p.block, v.id);
      }
    }
  }

  lemma SharedCounted(h: Heap, out: seq<Val>, v: Val)
    requires Counted(h, out) && Shareable(h, v)
    ensures Counted(Shared(h, v), [v] + out)
  {
    var g := Shared(h, v);
    forall b: nat ensures CountedAt(g, [v] + out, b) {
      assert CountedAt(h, out, b);
      RefsConcat([v], out, b);
      RefsOne(v, b);
      if v.Ref? {
        InsideUpdate(h, v.id, g[v.id], b);
      }
    }
  }

  lemma NulledCounted(s: Store, p: Place)
    requires Counted(s.heap, s.vars) && ValidPlace(s, p)
    ensures var t := Nulled(s, p); Counted(t.heap, [Read(s, p)] + t.vars)
  {
    match p
    case Var(i) => VarOut(s.heap, s.vars, i);
    case Slot(c, k) =>
      var t := Nulled(s, p);
      var v := Read(s, p);
      forall b: nat ensures CountedAt(t.heap, [v] + t.vars, b) {
        assert CountedAt(s.heap, s.vars, b);
        RefsConcat([v], s.vars, b);
        RefsOne(v, b);
        InsideUpdate(s.heap, c, t.heap[c], b);
        RefsUpdate(s.heap[c].kids, k, NULL, b);
      }
  }

  /** Taking a value out, either way, puts it outside; variables keep their number
      and blocks their place. */
  lemma TakeCounted(s: Store, p: Place, move: bool)
    requires Counted(s.heap, s.vars) && ValidPlace(s, p)
    ensures Take(s, p, move).Some?
    ensures var (v, t) := Take(s, p, move).value;
            && v == Read(s, p) && |t.vars| == |s.vars| && |t.heap| == |s.heap|
            && Counted(t.heap, [v] + t.vars) && Thinner(s.heap, t.heap)
            && (forall i :: 0 <= i < |s.vars| && p != Var(i) ==> t.vars[i] == s.vars[i])
            && (forall b :: 0 <= b < |s.heap| && s.heap[b].Live? ==> t.heap[b].Live?)
  {
    if move {
      NulledCounted(s, p);
    } else {
      PlaceShareable(s, p);
      SharedCounted(s.heap, s.vars, Read(s, p));
    }
  }

  /** g has no reference that h does not have in the same place. */
  ghost predicate Thinner(h: Heap, g: Heap) {
    && |g| == |h|
    && forall b, k :: 0 <= b < |h| && g[b].Live? && 0 <= k < |g[b].kids| && g[b].kids[k].Ref? ==>
         h[b].Live? && k < |h[b].kids| && h[b].kids[k] == g[b].kids[k]
  }

  lemma ThinnerAcyclic(h: Heap, g: Heap)
    requires Acyclic(h) && Thinner(h, g)
    ensures Acyclic(g)
  {
    var rank :| Ranked(h, rank);
    assert Ranked(g, rank);
  }

  lemma DestroyedInv(s: Store, p: Place)
    requires Inv(s) && ValidPlace(s, p)
    ensures Destroyed(s, p).Some? && Inv(Destroyed(s, p).value)
    ensures Shrunk(Nulled(s, p).heap, Destroyed(s, p).value.heap)
  {
    var t := Nulled(s, p);
    NulledCounted(s, p);
    ReleaseCounted(t.heap, [Read(s, p)], t.vars);
    ReleaseShrinks(t.heap, [Read(s, p)]);
    ThinnerAcyclic(s.heap, t.heap);
    ThinnerAcyclic(t.heap, Release(t.heap, [Read(s, p)]).value);
  }

  /** g is h with some blocks freed, and other counts. */
  ghost predicate Shrunk(h: Heap, g: Heap) {
    |g| == |h| && forall b :: 0 <= b < |h| ==> g[b].Freed? || (h[b].Live? && g[b].kids == h[b].kids)
  }

  /** After the value at a place is destroyed, a block is still there exactly if a
      variable leads to it without that value. */
  lemma SurvivesIffReached(s: Store, p: Place, b: nat)
    requires Inv(s) && ValidPlace(s, p) && b < |s.heap| && s.heap[b].Live?
    ensures Destroyed(s, p).Some?
    ensures Destroyed(s, p).value.heap[b].Live? <==> Reachable(Nulled(s, p).heap, Nulled(s, p).vars, b)
  {
    DestroyedInv(s, p);
    var g, t := Nulled(s, p).heap, Destroyed(s, p).value;
    if t.heap[b].Live? {
      var n := LiveIsReached(t.heap, t.vars, b);
      ReachedBefore(g, t.heap, t.vars, b, n);
    }
    if Reachable(g, t.vars, b) {
      var n: nat :| Reached(g, t.vars, b, n);
      ReachedSurvives(g, t.heap, t.vars, b, n);
    }
  }

  lemma {:induction false} ReachedBefore(h: Heap, g: Heap, out: seq<Val>, b: nat, n: nat)
    requires Shrunk(h, g) && Reached(g, out, b, n)
    ensures Reached(h, out, b, n)
    decreases n
  {
    if Ref(b) !in out {
      var p: nat :| Holds(g, p, b) && Reached(g, out, p, n - 1);
      ReachedBefore(h, g, out, p, n - 1);
      assert Holds(h, p, b);
    }
  }

  lemma {:induction false} ReachedSurvives(h: Heap, g: Heap, out: seq<Val>, b: nat, n: nat)
    requires Shrunk(h, g) && Reached(h, out, b, n) && Counted(g, out)
    ensures b < |g| && g[b].Live?
    decreases n
  {
    assert CountedAt(g, out, b);
    RefsHolder(out, b);
    if Ref(b) !in out {
      var p: nat :| Holds(h, p, b) && Reached(h, out, p, n - 1);
      ReachedSurvives(h, g, out, p, n - 1);
      HolderInside(g, p, b);
    }
  }

  // ------------------------------------------------- a place inside a block

  /** Whatever ranks as high as a block is reached without that block's values. */
  lemma {:induction false} ReachedAbove(h: Heap, g: Heap, out: seq<Val>, rank: seq<nat>, low: nat, top: nat, c: nat)
    requires Counted(h, out) && Ranked(h, rank) && c < |h| && h[c].Live? && low < |h| && rank[low] <= rank[c]
    requires forall i :: 0 <= i < |rank| ==> rank[i] <= top
    requires forall p: nat, q: nat :: p != low && Holds(h, p, q) ==> Holds(g, p, q)
    ensures Reached(g, out, c, top - rank[c])
    decreases top - rank[c]
  {
    assert CountedAt(h, out, c);
    RefsHolder(out, c);
    if Ref(c) !in out {
      var p := InsideHolder(h, c);
      RankFalls(h, rank, p, c);
      ReachedAbove(h, g, out, rank, low, top, p);
      ReachedMore(g, out, p, top - rank[p], top - rank[c] - 1);
      assert Holds(g, p, c);
    }
  }

  /** Destroying an element frees other blocks perhaps, but never its own. */
  lemma TargetSurvives(s: Store, p: Place)
    requires Inv(s) && ValidPlace(s, p)
    ensures Destroyed(s, p).Some? && ValidPlace(Destroyed(s, p).value, p)
    ensures Read(Destroyed(s, p).value, p) == NULL
  {
    DestroyedInv(s, p);
    if p.Slot? {
      var rank :| Ranked(s.heap, rank);
      var top := MaxRank(rank);
      var g := Nulled(s, p).heap;
      ReachedAbove(s.heap, g, s.vars, rank, p.block, top, p.block);
      ReachedSurvives(g, Destroyed(s, p).value.heap, s.vars, p.block, top - rank[p.block]);
    }
  }

  /** Chains from a block that is not freed stay. */
  lemma {:induction false} ChainSurvives(h: Heap, g: Heap, out: seq<Val>, c: nat, b: nat, n: nat)
    requires Shrunk(h, g) && Counted(g, out) && c < |g| && g[c].Live? && Chain(h, c, b, n)
    ensures Chain(g, c, b, n)
    decreases n
  {
    if c != b {
      var q: nat :| Holds(h, c, q) && Chain(h, q, b, n - 1);
      assert Holds(g, c, q);
      HolderInside(g, c, q);
      assert CountedAt(g, out, q);
      ChainSurvives(h, g, out, q, b, n - 1);
    }
  }

  /** The chains from a value to a block are the same after the value is taken out. */
  lemma TakeLeads(s: Store, p: Place, move: bool, b: nat)
    requires Inv(s) && ValidPlace(s, p) && Take(s, p, move).Some?
    ensures Leads(Take(s, p, move).value.1.heap, Read(s, p), b) <==> Leads(s.heap, Read(s, p), b)
  {
    var v, g := Read(s, p), Take(s, p, move).value.1.heap;
    if Leads(g, v, b) {
      LeadsMore(s.heap, g, v, b);
    }
    if Leads(s.heap, v, b) {
      if move && p.Slot? {
        TakenBelow(s, p, b);
      } else {
        LeadsMore(g, s.heap, v, b);
      }
    }
  }

  lemma TakenBelow(s: Store, p: Place, b: nat)
    requires Inv(s) && ValidPlace(s, p) && p.Slot? && Leads(s.heap, Read(s, p), b)
    ensures Leads(Nulled(s, p).heap, Read(s, p), b)
  {
    var v := Read(s, p);
    var rank :| Ranked(s.heap, rank);
    var n: nat :| Chain(s.heap, v.id, b, n);
    assert Holds(s.heap, p.block, v.id);
    RankFalls(s.heap, rank, p.block, v.id);
    ChainBelow(s.heap, Nulled(s, p).heap, rank, p.block, v.id, b, n);
  }

  /** And the same after the value at the target, inside that block, is destroyed. */
  lemma DestroyLeads(s: Store, to: Place, v: Val)
    requires Inv(s) && ValidPlace(s, to) && to.Slot? && Destroyed(s, to).Some?
    requires v.Ref? ==> v.id < |s.heap| && Destroyed(s, to).value.heap[v.id].Live?
    ensures Leads(Destroyed(s, to).value.heap, v, to.block) <==> Leads(s.heap, v, to.block)
  {
    DestroyedInv(s, to);
    var g, t := Nulled(s, to).heap, Destroyed(s, to).value;
    if Leads(t.heap, v, to.block) {
      LeadsMore(s.heap, t.heap, v, to.block);
    }
    if Leads(s.heap, v, to.block) {
      var n: nat :| Chain(s.heap, v.id, to.block, n);
      ChainTo(s.heap, g, v.id, to.block, n);
      ChainSurvives(g, t.heap, t.vars, v.id, to.block, n);
    }
  }

  lemma PutCounted(s: Store, p: Place, v: Val)
    requires ValidPlace(s, p) && Read(s, p) == NULL && Counted(s.heap, [v] + s.vars)
    ensures Counted(Written(s, p, v).heap, Written(s, p, v).vars)
  {
    var t := Written(s, p, v);
    match p
    case Var(i) =>
      assert t.vars[i := NULL] == s.vars;
      VarOut(s.heap, t.vars, i);
    case Slot(c, k) =>
      forall b: nat ensures CountedAt(t.heap, s.vars, b) {
        assert CountedAt(s.heap, [v] + s.vars, b);
        RefsConcat([v], s.vars, b);
        RefsOne(v, b);
        InsideUpdate(s.heap, c, t.heap[c], b);
        RefsUpdate(s.heap[c].kids, k, v, b);
      }
  }

  /** A reference written inside a block is the one more reference from it. */
  lemma PutRefs(s: Store, p: Place, v: Val)
    requires ValidPlace(s, p) && p.Slot? && Read(s, p) == NULL && (v.Ref? ==> v.id < |s.heap|)
    ensures OneMoreRef(s.heap, Written(s, p, v).heap, p.block, v)
  {
    var ks := s.heap[p.block].kids;
    assert ks[p.k := v][p.k] == v;
    forall q: nat ensures Ref(q) in ks[p.k := v] <==> Ref(q) in ks || v == Ref(q) {
      if Ref(q) in ks {
        var j :| 0 <= j < |ks| && ks[j] == Ref(q);
        assert ks[p.k := v][j] == Ref(q);
      }
    }
  }

  // ------------------------------------------------------------- assignment

  /** What is left of an assignment once the old value is gone. */
  lemma AssignPuts(s: Store, t: Store, to: Place, from: Place, move: bool)
    requires Inv(t) && ValidPlace(t, to) && Read(t, to) == NULL && to != from && ValidPlace(t, from)
    ensures Take(t, from, move).Some?
    ensures var (v, u) := Take(t, from, move).value;
            && Put(u, to, v).Some?
            && var r := Put(u, to, v).value;
               && Counted(r.heap, r.vars)
               && (Acyclic(r.heap) <==> (to.Slot? ==> !Leads(t.heap, v, to.block)))
  {
    PlaceShareable(t, from);
    TakeCounted(t, from, move);
    var (v, u) := Take(t, from, move).value;
    assert ValidPlace(u, to) && Read(u, to) == NULL;
    ThinnerAcyclic(t.heap, u.heap);
    PutCounted(u, to, v);
    if to.Slot? {
      TakeLeads(t, from, move, to.block);
      PutRefs(u, to, v);
      EdgeAcyclicIff(u.heap, Put(u, to, v).value.heap, to.block, v);
    }
  }

  /** Assigning over any value, in a variable or inside a block: no freed block is read
      exactly if the source is not in a block that only the old value leads to; counts
      are right then, and a cycle closes exactly if the new value leads to the block it
      is written into. */
  lemma AssignSafeIff(s: Store, to: Place, from: Place, move: bool)
    requires Inv(s) && ValidPlace(s, to) && ValidPlace(s, from) && to != from
    ensures Assign(s, to, from, move).Some? <==> Outlives(s, to, from)
    ensures Assign(s, to, from, move).Some? ==>
              var r := Assign(s, to, from, move).value;
              && Counted(r.heap, r.vars)
              && (Acyclic(r.heap) <==> (to.Slot? ==> !Leads(s.heap, Read(s, from), to.block)))
  {
    TargetSurvives(s, to);
    DestroyedInv(s, to);
    var t := Destroyed(s, to).value;
    if from.Slot? {
      SurvivesIffReached(s, to, from.block);
    }
    if Outlives(s, to, from) {
      assert ValidPlace(t, from) && Read(t, from) == Read(s, from);
      AssignPuts(s, t, to, from, move);
      PlaceShareable(t, from);
      if to.Slot? {
        DestroyLeads(s, to, Read(s, from));
      }
    }
  }

  lemma NewInv(s: Store, p: Place, move: bool)
    requires Inv(s) && ValidPlace(s, p)
    ensures New(s, p, move).Some? && Inv(New(s, p, move).value)
  {
    TakeCounted(s, p, move);
    var (v, t) := Take(s, p, move).value;
    ThinnerAcyclic(s.heap, t.heap);
    OneMore(t.heap, t.vars, v);
  }

  /** Appending never touches a freed block, and closes a cycle exactly if the value
      appended leads to the block it is appended to. */
  lemma AppendSafeIff(s: Store, to: Place, from: Place, move: bool)
    requires Inv(s) && ValidPlace(s, to) && Read(s, to).Ref? && ValidPlace(s, from) && (move ==> to != from)
    ensures Append(s, to, from, move).Some?
    ensures var r := Append(s, to, from, move).value;
            && Counted(r.heap, r.vars)
            && (Acyclic(r.heap) <==> !Leads(s.heap, Read(s, from), Read(s, to).id))
  {
    var b := Read(s, to).id;
    PlaceShareable(s, to);
    PlaceShareable(s, from);
    TakeCounted(s, from, move);
    var (v, t) := Take(s, from, move).value;
    ThinnerAcyclic(s.heap, t.heap);
    PushBackCounted(t.heap, t.vars, b, v);
    TakeLeads(s, from, move, b);
    EdgeAcyclicIff(t.heap, PushBack(t.heap, b, v), b, v);
  }

  lemma PushBackCounted(h: Heap, out: seq<Val>, b: nat, v: Val)
    requires b < |h| && h[b].Live? && Counted(h, [v] + out)
    ensures Counted(PushBack(h, b, v), out)
  {
    var g := PushBack(h, b, v);
    forall c: nat ensures CountedAt(g, out, c) {
      assert CountedAt(h, [v] + out, c);
      RefsConcat([v], out, c);
      RefsConcat(h[b].kids, [v], c);
      InsideUpdate(h, b, g[b], c);
    }
  }

  /** A new block has one reference outstanding, and nothing leads from it. */
  lemma WithBlockInv(s: Store)
    requires Inv(s)
    ensures var t := WithBlock(s); Counted(t.heap, [Ref(|s.heap|)] + t.vars) && Acyclic(t.heap)
    ensures forall b :: 0 <= b < |s.heap| ==> !Leads(WithBlock(s).heap, Ref(|s.heap|), b)
  {
    var n, t := |s.heap|, WithBlock(s);
    forall b: nat ensures CountedAt(t.heap, [Ref(n)] + s.vars, b) {
      assert CountedAt(s.heap, s.vars, b);
      RefsConcat([Ref(n)], s.vars, b);
      RefsOne(Ref(n), b);
      InsideSnoc(s.heap, Live(1, []), b);
    }
    var rank :| Ranked(s.heap, rank);
    assert Ranked(t.heap, rank + [0]);
  }

  lemma SetBlockInv(s: Store, to: Place)
    requires Inv(s) && ValidPlace(s, to)
    ensures SetToBlock(s, to).Some? && Inv(SetToBlock(s, to).value)
  {
    TargetSurvives(s, to);
    DestroyedInv(s, to);
    var t := Destroyed(s, to).value;
    var n, u := |t.heap|, WithBlock(t);
    WithBlockInv(t);
    PutCounted(u, to, Ref(n));
    if to.Slot? {
      PutRefs(u, to, Ref(n));
      EdgeAcyclicIff(u.heap, Written(u, to, Ref(n)).heap, to.block, Ref(n));
    }
  }

  lemma SetScalarInv(s: Store, to: Place, bits: int)
    requires Inv(s) && ValidPlace(s, to)
    ensures SetToScalar(s, to, bits).Some? && Inv(SetToScalar(s, to, bits).value)
  {
    TargetSurvives(s, to);
    DestroyedInv(s, to);
    var t := Destroyed(s, to).value;
    forall b: nat ensures CountedAt(t.heap, [Scalar(bits)] + t.vars, b) {
      assert CountedAt(t.heap, t.vars, b);
      RefsConcat([Scalar(bits)], t.vars, b);
      RefsOne(Scalar(bits), b);
    }
    PutCounted(t, to, Scalar(bits));
    ThinnerAcyclic(t.heap, Written(t, to, Scalar(bits)).heap);
  }

  /** Every allowed action goes through, touching no freed block, and keeps the
      counts right and the heap acyclic. */
  lemma StepKeeps(s: Store, a: Action)
    requires Inv(s) && Allowed(s, a)
    ensures Step(s, a).Some? && Inv(Step(s, a).value)
  {
    match a
    case NewScalar(bits) =>
      assert [] + s.vars == s.vars;
      forall b: nat ensures CountedAt(s.heap, s.vars + [Scalar(bits)], b) {
        assert CountedAt(s.heap, s.vars, b);
        RefsConcat(s.vars, [Scalar(bits)], b);
        RefsOne(Scalar(bits), b);
      }
    case NewBlock =>
      WithBlockInv(s);
      OneMore(WithBlock(s).heap, s.vars, Ref(|s.heap|));
    case CopyNew(p) => NewInv(s, p, false);
    case MoveNew(p) => NewInv(s, p, true);
    case CopyAssign(to, p) => AssignSafeIff(s, to, p, false);
    case MoveAssign(to, p) => AssignSafeIff(s, to, p, true);
    case CopyAppend(to, p) => AppendSafeIff(s, to, p, false);
    case MoveAppend(to, p) => AppendSafeIff(s, to, p, true);
    case SetScalar(to, bits) => SetScalarInv(s, to, bits);
    case SetBlock(to) => SetBlockInv(s, to);
  }

  /** For example v = v[0], where v is the only value that refers to its array. */
  lemma AssignFromInside()
    ensures var s := Store([Live(1, [NULL])], [Ref(0)]);
            Inv(s) && Step(s, CopyAssign(Var(0), Slot(0, 0))).None?
  {
    var s := Store([Live(1, [NULL])], [Ref(0)]);
    forall b: nat ensures CountedAt(s.heap, s.vars, b) {
      RefsOne(Ref(0), b);
      RefsOne(NULL, b);
      assert s.heap[1..] == [];
    }
    assert Ranked(s.heap, [0]);
    assert [Ref(0)][0] == Ref(0) && [Ref(0)][1..] == [];
    assert s.heap[0 := Freed] == [Freed];
    assert [NULL] + [] == [NULL] && [NULL][1..] == [];
    assert Release([Freed], [NULL]) == Some([Freed]);
  }

  // -------------------------------------------------------------------- runs

  function Run(s: Store, actions: seq<Action>): Option<Store>
    decreases |actions|
  {
    if actions == [] then Some(s)
    else match Step(s, actions[0])
         case None => None
         case Some(t) => Run(t, actions[1..])
  }

  ghost predicate AllAllowed(s: Store, actions: seq<Action>)
    decreases |actions|
  {
    actions == [] ||
    (Allowed(s, actions[0]) &&
     (Step(s, actions[0]).Some? ==> AllAllowed(Step(s, actions[0]).value, actions[1..])))
  }

  lemma {:induction false} RunKeeps(s: Store, actions: seq<Action>)
    requires Inv(s) && AllAllowed(s, actions)
    ensures Run(s, actions).Some? && Inv(Run(s, actions).value)
    ensures FreedStay(s.heap, Run(s, actions).value.heap)
    decreases |actions|
  {
    if actions != [] {
      StepKeeps(s, actions[0]);
      StepFreedStay(s, actions[0]);
      RunKeeps(Step(s, actions[0]).value, actions[1..]);
    }
  }

  /** A freed block is never in use again, so no block is freed twice. */
  ghost predicate FreedStay(h: Heap, g: Heap) {
    |h| <= |g| && forall b :: 0 <= b < |h| && h[b].Freed? ==> g[b].Freed?
  }

  lemma StepFreedStay(s: Store, a: Action)
    requires Step(s, a).Some?
    ensures FreedStay(s.heap, Step(s, a).value.heap)
  {
    if a.CopyAssign? || a.MoveAssign? || a.SetScalar? || a.SetBlock? {
      hide Release;
      ReleaseShrinks(Nulled(s, a.to).heap, [Read(s, a.to)]);
    }
  }

  /** Over every allowed run, from nothing: no freed block is touched, every count
      is the number of values that refer to the block, and once all variables are
      scalars every block has been freed. */
  lemma RunsAreClean(actions: seq<Action>)
    requires AllAllowed(Store([], []), actions)
    ensures Run(Store([], []), actions).Some?
    ensures var s := Run(Store([], []), actions).value;
            && Counted(s.heap, s.vars) && Acyclic(s.heap)
            && ((forall i :: 0 <= i < |s.vars| ==> s.vars[i].Scalar?) ==>
                forall b :: 0 <= b < |s.heap| ==> s.heap[b].Freed?)
  {
    var s0 := Store([], []);
    assert Counted(s0.heap, s0.vars);
    assert Ranked(s0.heap, []);
    RunKeeps(s0, actions);
    var s := Run(s0, actions).value;
    if forall i :: 0 <= i < |s.vars| ==> s.vars[i].Scalar? {
      NoLeak(s.heap, s.vars);
    }
  }

  // -------------------------------------------------------------- as written

  lemma {:induction false} ReleaseConcat(h: Heap, x: seq<Val>, y: seq<Val>)
    ensures Release(h, x + y) ==
            match Release(h, x) { case None => None case Some(g) => Release(g, y) }
    decreases LiveBlocks(h), |x|
  {
    if x == [] {
      assert x + y == y;
    } else {
      assert (x + y)[0] == x[0] && (x + y)[1..] == x[1..] + y;
      match x[0]
      case Scalar(_) => ReleaseConcat(h, x[1..], y);
      case Ref(b) =>
        if b < |h| && h[b].Live? && h[b].count > 0 {
          LiveUpdate(h, b, Live(h[b].count - 1, h[b].kids));
          LiveUpdate(h, b, Freed);
          if h[b].count > 1 {
            ReleaseConcat(h[b := Live(h[b].count - 1, h[b].kids)], x[1..], y);
          } else {
            Glue(h[b].kids, x[1..], y);
            ReleaseConcat(h[b := Freed], h[b].kids + x[1..], y);
          }
        }
    }
  }

  class Values {
    var heap: Heap
    var vars: seq<Val>

    ghost function State(): Store
      reads this
    {
      Store(heap, vars)
    }

    /** ~Value: counts down, and at zero deletes the block, whose values are then
        destroyed in turn. */
    method Destroy(v: Val)
      requires Release(heap, [v]).Some?
      modifies this
      ensures Some(heap) == Release(old(heap), [v]) && vars == old(vars)
      decreases LiveBlocks(heap), 0
    {
      assert [v][0] == v && [v][1..] == [];
      match v {
        case Scalar(_) =>
        case Ref(b) =>
          ghost var h := heap;
          var count := heap[b].count - 1;
          if count > 0 {
            heap := heap[b := Live(count, heap[b].kids)];
          } else {
            var kids := heap[b].kids;
            heap := heap[b := Freed];
            LiveUpdate(h, b, Freed);
            assert kids + [] == kids;
            DestroyEach(kids);
          }
      }
    }

    /** The destructor of a vector. */
    method DestroyEach(vs: seq<Val>)
      requires Release(heap, vs).Some?
      modifies this
      ensures Some(heap) == Release(old(heap), vs) && vars == old(vars)
      decreases LiveBlocks(heap), 1
    {
      ghost var h := heap;
      for i := 0 to |vs|
        invariant vars == old(vars) && LiveBlocks(heap) <= LiveBlocks(h)
        invariant Release(heap, vs[i..]) == Release(h, vs)
      {
        assert vs[i..] == [vs[i]] + vs[i + 1..];
        ReleaseConcat(heap, [vs[i]], vs[i + 1..]);
        ReleaseNoMore(heap, [vs[i]]);
        Destroy(vs[i]);
      }
    }

    /** Value(const Value&) */
    method CopyConstruct(p: Place) returns (v: Val)
      requires Take(State(), p, false).Some?
      modifies this
      ensures Take(old(State()), p, false) == Some((v, State()))
    {
      v := Read(Store(heap, vars), p);
      if v.Ref? {
        heap := heap[v.id := heap[v.id].(count := heap[v.id].count + 1)];
      }
    }

    /** Value(Value&&) */
    method MoveConstruct(p: Place) returns (v: Val)
      requires Take(State(), p, true).Some?
      modifies this
      ensures Take(old(State()), p, true) == Some((v, State()))
    {
      v := Read(Store(heap, vars), p);
      Write(p, NULL);
    }

    method Write(p: Place, v: Val)
      requires ValidPlace(State(), p)
      modifies this
      ensures State() == Written(old(State()), p, v)
    {
      match p {
        case Var(i) => vars := vars[i := v];
        case Slot(b, k) => heap := heap[b := heap[b].(kids := heap[b].kids[k := v])];
      }
    }

    /** The destructor of a value where it lives. */
    method DestroyAt(p: Place)
      requires ValidPlace(State(), p) && Destroyed(State(), p).Some?
      modifies this
      ensures Destroyed(old(State()), p) == Some(State())
    {
      var v := Read(Store(heap, vars), p);
      Write(p, NULL);
      Destroy(v);
    }

    /** operator=, by copy or by move */
    method AssignTo(to: Place, from: Place, move: bool)
      requires Assign(State(), to, from, move).Some?
      modifies this
      ensures Assign(old(State()), to, from, move) == Some(State())
    {
      DestroyAt(to);
      var v;
      if move {
        v := MoveConstruct(from);
      } else {
        v := CopyConstruct(from);
      }
      Write(to, v);
    }

    /** addValue; addMember is this twice, with the key and the value. */
    method AddValue(to: Place, from: Place, move: bool)
      requires Append(State(), to, from, move).Some?
      modifies this
      ensures Append(old(State()), to, from, move) == Some(State())
    {
      var b := Read(Store(heap, vars), to).id;
      var v;
      if move {
        v := MoveConstruct(from);
      } else {
        v := CopyConstruct(from);
      }
      heap := heap[b := heap[b].(kids := heap[b].kids + [v])];
    }

    /** setNull, setBool, setInt32, setInt64 and setDouble */
    method SetNewScalar(to: Place, bits: int)
      requires ValidPlace(State(), to) && SetToScalar(State(), to, bits).Some?
      modifies this
      ensures SetToScalar(old(State()), to, bits) == Some(State())
    {
      DestroyAt(to);
      Write(to, Scalar(bits));
    }

    /** setArray, setObject and setString */
    method SetNewBlock(to: Place)
      requires ValidPlace(State(), to) && SetToBlock(State(), to).Some?
      modifies this
      ensures SetToBlock(old(State()), to) == Some(State())
    {
      DestroyAt(to);
      heap := heap + [Live(1, [])];
      Write(to, Ref(|heap| - 1));
    }
  }

  /** Releasing leaves no more live blocks. */
  lemma {:induction false} ReleaseNoMore(h: Heap, todo: seq<Val>)
    requires Release(h, todo).Some?
    ensures LiveBlocks(Release(h, todo).value) <= LiveBlocks(h)
    decreases LiveBlocks(h), |todo|
  {
    if todo != [] {
      match todo[0]
      case Scalar(_) => ReleaseNoMore(h, todo[1..]);
      case Ref(b) =>
        LiveUpdate(h, b, Live(h[b].count - 1, h[b].kids));
        LiveUpdate(h, b, Freed);
        if h[b].count > 1 {
          ReleaseNoMore(h[b := Live(h[b].count - 1, h[b].kids)], todo[1..]);
        } else {
          ReleaseNoMore(h[b := Freed], h[b].kids + todo[1..]);
        }
    }
  }
}
