/** Reference counting of the blocks that hold strings, arrays and objects.

    A value is a scalar or a reference to a block.  A block holds values; an object
    holds its keys and values in turn.  Values live in variables and in blocks. */
module RefCount {
  import opened Text

  /** `bits` stands for the type and the contents of a scalar. */
  datatype Val = Scalar(bits: int) | Ref(id: nat)

  const NULL := Scalar(0)

  /** A block that has been deleted stays Freed: its place is not used again. */
  datatype Cell = Freed | Live(count: nat, kids: seq<Val>)

  type Heap = seq<Cell>

  // ---------------------------------------------------------------- counting

  /** How many of the values refer to block b. */
  function Refs(vs: seq<Val>, b: nat): nat {
    if vs == [] then 0 else Refs(vs[1..], b) + (if vs[0] == Ref(b) then 1 else 0)
  }

  function Own(c: Cell, b: nat): nat { if c.Live? then Refs(c.kids, b) else 0 }

  /** How many values inside live blocks refer to b. */
  function Inside(h: Heap, b: nat): nat {
    if h == [] then 0 else Inside(h[1..], b) + Own(h[0], b)
  }

  /** The count of a live block is the number of values that refer to it, `out`
      being those outside of blocks; nothing refers to a freed block. */
  ghost predicate CountedAt(h: Heap, out: seq<Val>, b: nat) {
    if b < |h| && h[b].Live? then h[b].count == Inside(h, b) + Refs(out, b) && h[b].count > 0
    else Inside(h, b) + Refs(out, b) == 0
  }

  ghost predicate Counted(h: Heap, out: seq<Val>) { forall b: nat :: CountedAt(h, out, b) }

  lemma {:induction false} RefsConcat(x: seq<Val>, y: seq<Val>, b: nat)
    ensures Refs(x + y, b) == Refs(x, b) + Refs(y, b)
  {
    if x == [] {
      assert x + y == y;
    } else {
      RefsConcat(x[1..], y, b);
      assert (x + y)[1..] == x[1..] + y;
    }
  }

  lemma {:induction false} RefsUpdate(vs: seq<Val>, k: nat, v: Val, b: nat)
    requires k < |vs|
    ensures Refs(vs[k := v], b) + (if vs[k] == Ref(b) then 1 else 0)
            == Refs(vs, b) + (if v == Ref(b) then 1 else 0)
  {
    if k == 0 {
      assert vs[0 := v][1..] == vs[1..];
    } else {
      RefsUpdate(vs[1..], k - 1, v, b);
      assert vs[k := v][1..] == vs[1..][k - 1 := v];
    }
  }

  lemma {:induction false} RefsHolder(vs: seq<Val>, b: nat)
    ensures Refs(vs, b) > 0 <==> Ref(b) in vs
  {
    if vs != [] {
      RefsHolder(vs[1..], b);
    }
  }

  lemma {:induction false} InsideUpdate(h: Heap, i: nat, c: Cell, b: nat)
    requires i < |h|
    ensures Inside(h[i := c], b) + Own(h[i], b) == Inside(h, b) + Own(c, b)
  {
    if i == 0 {
      assert h[0 := c][1..] == h[1..];
    } else {
      InsideUpdate(h[1..], i - 1, c, b);
      assert h[i := c][1..] == h[1..][i - 1 := c];
    }
  }

  lemma {:induction false} InsideSnoc(h: Heap, c: Cell, b: nat)
    ensures Inside(h + [c], b) == Inside(h, b) + Own(c, b)
  {
    if h == [] {
      assert [] + [c] == [c] && [c][1..] == [];
    } else {
      InsideSnoc(h[1..], c, b);
      assert (h + [c])[1..] == h[1..] + [c];
    }
  }

  lemma {:induction false} InsideHolder(h: Heap, b: nat) returns (p: nat)
    requires Inside(h, b) > 0
    ensures p < |h| && h[p].Live? && Ref(b) in h[p].kids
  {
    if Own(h[0], b) > 0 {
      p := 0;
      RefsHolder(h[0].kids, b);
    } else {
      var q := InsideHolder(h[1..], b);
      p := q + 1;
    }
  }

  // ----------------------------------------------------------------- release

  function LiveBlocks(h: Heap): nat {
    if h == [] then 0 else LiveBlocks(h[1..]) + (if h[0].Live? then 1 else 0)
  }

  lemma {:induction false} LiveUpdate(h: Heap, b: nat, c: Cell)
    requires b < |h|
    ensures LiveBlocks(h[b := c]) + (if h[b].Live? then 1 else 0) == LiveBlocks(h) + (if c.Live? then 1 else 0)
  {
    if b == 0 {
      assert h[0 := c][1..] == h[1..];
    } else {
      LiveUpdate(h[1..], b - 1, c);
      assert h[b := c][1..] == h[1..][b - 1 := c];
    }
  }

  /** Destroys values one after another; a block whose count reaches zero is
      deleted, and its own values are destroyed before the rest.  None where a
      freed block would be touched or an assertion on the count fails. */
  function Release(h: Heap, todo: seq<Val>): (r: Option<Heap>)
    ensures r.Some? ==> |r.value| == |h|
    decreases LiveBlocks(h), |todo|
  {
    if todo == [] then Some(h)
    else match todo[0]
         case Scalar(_) => Release(h, todo[1..])
         case Ref(b) =>
           if b >= |h| || h[b].Freed? || h[b].count == 0 then None
           else if h[b].count > 1 then
             LiveUpdate(h, b, Live(h[b].count - 1, h[b].kids));
             Release(h[b := Live(h[b].count - 1, h[b].kids)], todo[1..])
           else
             LiveUpdate(h, b, Freed);
             Release(h[b := Freed], h[b].kids + todo[1..])
  }

  /** One reference fewer outside, and one count fewer. */
  lemma DropShared(h: Heap, out: seq<Val>, b: nat)
    requires b < |h| && h[b].Live? && h[b].count > 1 && Counted(h, [Ref(b)] + out)
    ensures Counted(h[b := Live(h[b].count - 1, h[b].kids)], out)
  {
    var g := h[b := Live(h[b].count - 1, h[b].kids)];
    forall i: nat ensures CountedAt(g, out, i) {
      assert CountedAt(h, [Ref(b)] + out, i);
      RefsConcat([Ref(b)], out, i);
      assert [Ref(b)][1..] == [];
      InsideUpdate(h, b, g[b], i);
    }
  }

  /** The last reference gone: the block is freed and its values are outside. */
  lemma DropLast(h: Heap, out: seq<Val>, b: nat)
    requires b < |h| && h[b].Live? && h[b].count == 1 && Counted(h, [Ref(b)] + out)
    ensures Counted(h[b := Freed], h[b].kids + out)
  {
    var g := h[b := Freed];
    forall i: nat ensures CountedAt(g, h[b].kids + out, i) {
      assert CountedAt(h, [Ref(b)] + out, i);
      RefsConcat([Ref(b)], out, i);
      assert [Ref(b)][1..] == [];
      InsideUpdate(h, b, Freed, i);
      RefsConcat(h[b].kids, out, i);
    }
  }

  lemma RefIsLive(h: Heap, out: seq<Val>, b: nat)
    requires Counted(h, [Ref(b)] + out)
    ensures b < |h| && h[b].Live? && h[b].count > 0
  {
    assert CountedAt(h, [Ref(b)] + out, b);
    RefsConcat([Ref(b)], out, b);
    assert [Ref(b)][1..] == [];
  }

  lemma ScalarDoesNotCount(h: Heap, out: seq<Val>, bits: int)
    requires Counted(h, [Scalar(bits)] + out)
    ensures Counted(h, out)
  {
    forall i: nat ensures CountedAt(h, out, i) {
      assert CountedAt(h, [Scalar(bits)] + out, i);
      RefsConcat([Scalar(bits)], out, i);
      assert [Scalar(bits)][1..] == [];
    }
  }

  /** Releasing never touches a freed block, and leaves the counts right for what
      is still outside. */
  lemma {:induction false} ReleaseCounted(h: Heap, todo: seq<Val>, out: seq<Val>)
    requires Counted(h, todo + out)
    ensures Release(h, todo).Some? && Counted(Release(h, todo).value, out)
    decreases LiveBlocks(h), |todo|
  {
    if todo == [] {
      assert [] + out == out;
    } else {
      var rest := todo[1..];
      assert [todo[0]] + rest == todo;
      Glue([todo[0]], rest, out);
      match todo[0]
      case Scalar(bits) =>
        ScalarDoesNotCount(h, rest + out, bits);
        ReleaseCounted(h, rest, out);
      case Ref(b) =>
        RefIsLive(h, rest + out, b);
        if h[b].count > 1 {
          LiveUpdate(h, b, Live(h[b].count - 1, h[b].kids));
          DropShared(h, rest + out, b);
          ReleaseCounted(h[b := Live(h[b].count - 1, h[b].kids)], rest, out);
        } else {
          LiveUpdate(h, b, Freed);
          DropLast(h, rest + out, b);
          Glue(h[b].kids, rest, out);
          ReleaseCounted(h[b := Freed], h[b].kids + rest, out);
        }
    }
  }

  /** Releasing changes no block but its count, or frees it; no freed block comes
      back. */
  lemma {:induction false} ReleaseShrinks(h: Heap, todo: seq<Val>)
    requires Release(h, todo).Some?
    ensures var g := Release(h, todo).value;
            forall b :: 0 <= b < |h| ==> g[b].Freed? || (h[b].Live? && g[b].kids == h[b].kids)
    decreases LiveBlocks(h), |todo|
  {
    if todo != [] {
      match todo[0]
      case Scalar(_) => ReleaseShrinks(h, todo[1..]);
      case Ref(b) =>
        LiveUpdate(h, b, Live(h[b].count - 1, h[b].kids));
        LiveUpdate(h, b, Freed);
        if h[b].count > 1 {
          ReleaseShrinks(h[b := Live(h[b].count - 1, h[b].kids)], todo[1..]);
        } else {
          ReleaseShrinks(h[b := Freed], h[b].kids + todo[1..]);
        }
    }
  }

  // ------------------------------------------------------------ reachability

  /** Every block ranks above the blocks it refers to. */
  ghost predicate Ranked(h: Heap, rank: seq<nat>) {
    && |rank| == |h|
    && forall b, k :: 0 <= b < |h| && h[b].Live? && 0 <= k < |h[b].kids| && h[b].kids[k].Ref? ==>
         h[b].kids[k].id < |h| && rank[h[b].kids[k].id] < rank[b]
  }

  ghost predicate Acyclic(h: Heap) { exists rank :: Ranked(h, rank) }

  /** A chain of at most n references leads from outside to b. */
  ghost predicate Reached(h: Heap, out: seq<Val>, b: nat, n: nat)
    decreases n
  {
    || Ref(b) in out
    || (n > 0 && exists p: nat :: Holds(h, p, b) && Reached(h, out, p, n - 1))
  }

  predicate Holds(h: Heap, p: nat, b: nat) { p < |h| && h[p].Live? && Ref(b) in h[p].kids }

  lemma {:induction false} LiveReached(h: Heap, out: seq<Val>, rank: seq<nat>, top: nat, b: nat)
    requires Counted(h, out) && Ranked(h, rank) && b < |h| && h[b].Live?
    requires forall i :: 0 <= i < |rank| ==> rank[i] <= top
    ensures Reached(h, out, b, top - rank[b])
    decreases top - rank[b]
  {
    assert CountedAt(h, out, b);
    RefsHolder(out, b);
    if Ref(b) !in out {
      var p := InsideHolder(h, b);
      var k :| 0 <= k < |h[p].kids| && h[p].kids[k] == Ref(b);
      assert rank[h[p].kids[k].id] < rank[p];
      LiveReached(h, out, rank, top, p);
      ReachedMore(h, out, p, top - rank[p], top - rank[b] - 1);
      assert Holds(h, p, b);
    }
  }

  lemma {:induction false} ReachedMore(h: Heap, out: seq<Val>, b: nat, n: nat, m: nat)
    requires Reached(h, out, b, n) && n <= m
    ensures Reached(h, out, b, m)
    decreases n
  {
    if Ref(b) !in out {
      var p: nat :| Holds(h, p, b) && Reached(h, out, p, n - 1);
      ReachedMore(h, out, p, n - 1, m - 1);
    }
  }

  lemma {:induction false} MaxRank(rank: seq<nat>) returns (top: nat)
    ensures forall i :: 0 <= i < |rank| ==> rank[i] <= top
  {
    if rank == [] {
      top := 0;
    } else {
      top := MaxRank(rank[..|rank| - 1]);
      if rank[|rank| - 1] > top {
        top := rank[|rank| - 1];
      }
    }
  }

  /** In an acyclic heap with right counts every live block can be reached from
      outside. */
  lemma LiveIsReached(h: Heap, out: seq<Val>, b: nat) returns (n: nat)
    requires Counted(h, out) && Acyclic(h) && b < |h| && h[b].Live?
    ensures Reached(h, out, b, n)
  {
    var rank :| Ranked(h, rank);
    var top := MaxRank(rank);
    LiveReached(h, out, rank, top, b);
    n := top - rank[b];
  }

  /** Nothing leaks: once nothing outside refers to a block, all are freed. */
  lemma NoLeak(h: Heap, out: seq<Val>)
    requires Counted(h, out) && Acyclic(h) && forall i :: 0 <= i < |out| ==> out[i].Scalar?
    ensures forall b :: 0 <= b < |h| ==> h[b].Freed?
  {
    forall b: nat | b < |h| ensures h[b].Freed? {
      if h[b].Live? {
        var n := LiveIsReached(h, out, b);
        NotReached(h, out, b, n);
        assert false;
      }
    }
  }

  lemma {:induction false} NotReached(h: Heap, out: seq<Val>, b: nat, n: nat)
    requires forall i :: 0 <= i < |out| ==> out[i].Scalar?
    ensures !Reached(h, out, b, n)
    decreases n
  {
    if n > 0 {
      forall p: nat ensures !(Holds(h, p, b) && Reached(h, out, p, n - 1)) {
        NotReached(h, out, p, n - 1);
      }
    }
  }

  // ------------------------------------------------------------------ cycles

  /** A chain of at most n references leads from block c to block b. */
  ghost predicate Chain(h: Heap, c: nat, b: nat, n: nat)
    decreases n
  {
    c == b || (n > 0 && exists q: nat :: Holds(h, c, q) && Chain(h, q, b, n - 1))
  }

  /** The value refers to b, or to a block that leads to b. */
  ghost predicate Leads(h: Heap, v: Val, b: nat) { v.Ref? && exists n: nat :: Chain(h, v.id, b, n) }

  /** Every reference between blocks of g is one of h. */
  ghost predicate FewerRefs(h: Heap, g: Heap) { forall c: nat, q: nat :: Holds(g, c, q) ==> Holds(h, c, q) }

  lemma {:induction false} ChainMore(h: Heap, g: Heap, c: nat, b: nat, n: nat)
    requires FewerRefs(h, g) && Chain(g, c, b, n)
    ensures Chain(h, c, b, n)
    decreases n
  {
    if c != b {
      var q: nat :| Holds(g, c, q) && Chain(g, q, b, n - 1);
      ChainMore(h, g, q, b, n - 1);
      assert Holds(h, c, q);
    }
  }

  lemma LeadsMore(h: Heap, g: Heap, v: Val, b: nat)
    requires FewerRefs(h, g) && Leads(g, v, b)
    ensures Leads(h, v, b)
  {
    var n: nat :| Chain(g, v.id, b, n);
    ChainMore(h, g, v.id, b, n);
  }

  lemma RankFalls(h: Heap, rank: seq<nat>, c: nat, q: nat)
    requires Ranked(h, rank) && Holds(h, c, q)
    ensures q < |h| && rank[q] < rank[c]
  {
    var k :| 0 <= k < |h[c].kids| && h[c].kids[k] == Ref(q);
    assert h[c].kids[k].id < |h|;
  }

  lemma {:induction false} ChainFalls(h: Heap, rank: seq<nat>, c: nat, b: nat, n: nat)
    requires Ranked(h, rank) && c < |h| && Chain(h, c, b, n)
    ensures b < |h| && rank[b] <= rank[c]
    decreases n
  {
    if c != b {
      var q: nat :| Holds(h, c, q) && Chain(h, q, b, n - 1);
      RankFalls(h, rank, c, q);
      ChainFalls(h, rank, q, b, n - 1);
    }
  }

  /** g is h with one more reference, from block b. */
  ghost predicate OneMoreRef(h: Heap, g: Heap, b: nat, v: Val) {
    && |g| == |h| && b < |h| && (v.Ref? ==> v.id < |h|)
    && forall c: nat, q: nat :: Holds(g, c, q) <==> Holds(h, c, q) || (c == b && v == Ref(q))
  }

  /** A reference from b closes a cycle exactly if what it refers to leads to b. */
  lemma EdgeAcyclicIff(h: Heap, g: Heap, b: nat, v: Val)
    requires Acyclic(h) && OneMoreRef(h, g, b, v)
    ensures Acyclic(g) <==> !Leads(h, v, b)
  {
    if Leads(h, v, b) {
      EdgeCloses(h, g, b, v);
    } else {
      EdgeOpens(h, g, b, v);
    }
  }

  lemma EdgeCloses(h: Heap, g: Heap, b: nat, v: Val)
    requires OneMoreRef(h, g, b, v) && Leads(h, v, b)
    ensures !Acyclic(g)
  {
    var n: nat :| Chain(h, v.id, b, n);
    ChainMore(g, h, v.id, b, n);
    forall rank | Ranked(g, rank) ensures false {
      assert Holds(g, b, v.id);
      RankFalls(g, rank, b, v.id);
      ChainFalls(g, rank, v.id, b, n);
    }
  }

  /** What leads to b is lifted above v. */
  lemma EdgeOpens(h: Heap, g: Heap, b: nat, v: Val)
    requires Acyclic(h) && OneMoreRef(h, g, b, v) && !Leads(h, v, b)
    ensures Acyclic(g)
  {
    var rank :| Ranked(h, rank);
    var lift := if v.Ref? then rank[v.id] + 1 else 0;
    var higher := seq(|h|, i requires 0 <= i < |h| => rank[i] + if Leads(h, Ref(i), b) then lift else 0);
    forall c: nat, q: nat | Holds(g, c, q) ensures q < |h| && higher[q] < higher[c] {
      if Holds(h, c, q) {
        RankFalls(h, rank, c, q);
        LeadsBack(h, c, q, b);
      } else {
        assert Chain(h, b, b, 0);
        assert Leads(h, Ref(b), b);
      }
    }
    RankedBy(g, higher);
  }

  lemma LeadsBack(h: Heap, c: nat, q: nat, b: nat)
    requires Holds(h, c, q)
    ensures Leads(h, Ref(q), b) ==> Leads(h, Ref(c), b)
  {
    if Leads(h, Ref(q), b) {
      var n: nat :| Chain(h, q, b, n);
      assert Chain(h, c, b, n + 1);
    }
  }

  lemma RankedBy(h: Heap, rank: seq<nat>)
    requires |rank| == |h| && forall c: nat, q: nat :: Holds(h, c, q) ==> q < |h| && rank[q] < rank[c]
    ensures Ranked(h, rank)
  {
    forall b, k | 0 <= b < |h| && h[b].Live? && 0 <= k < |h[b].kids| && h[b].kids[k].Ref?
      ensures h[b].kids[k].id < |h| && rank[h[b].kids[k].id] < rank[b]
    {
      assert Holds(h, b, h[b].kids[k].id);
    }
  }

  /** Below a block whose references change, chains stay. */
  lemma {:induction false} ChainBelow(h: Heap, g: Heap, rank: seq<nat>, top: nat, c: nat, b: nat, n: nat)
    requires Ranked(h, rank) && c < |h| && top < |h| && rank[c] < rank[top] && Chain(h, c, b, n)
    requires forall p: nat, q: nat :: p != top && Holds(h, p, q) ==> Holds(g, p, q)
    ensures Chain(g, c, b, n)
    decreases n
  {
    if c != b {
      var q: nat :| Holds(h, c, q) && Chain(h, q, b, n - 1);
      RankFalls(h, rank, c, q);
      ChainBelow(h, g, rank, top, q, b, n - 1);
      assert Holds(g, c, q);
    }
  }

  /** Chains to a block whose references change stay. */
  lemma {:induction false} ChainTo(h: Heap, g: Heap, c: nat, b: nat, n: nat)
    requires Chain(h, c, b, n) && forall p: nat, q: nat :: p != b && Holds(h, p, q) ==> Holds(g, p, q)
    ensures Chain(g, c, b, n)
    decreases n
  {
    if c != b {
      var q: nat :| Holds(h, c, q) && Chain(h, q, b, n - 1);
      ChainTo(h, g, q, b, n - 1);
      assert Holds(g, c, q);
    }
  }
}
