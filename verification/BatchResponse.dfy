/** The shared collector of a batch's responses.  Every callback handed to a
    procedure holds a reference to it; when the last one is gone, `done` gets the
    responses. */
module BatchResponse {
  import Json

  type Holder = nat

  datatype Loop = Dispatching(next: nat) | Left

  datatype Batch = Batch(
    size: nat,                      // requests in the batch
    loop: Loop,                     // handleBatchRequests, and its local handle
    holders: set<Holder>,           // callbacks alive
    used: nat,                      // callbacks so far have smaller numbers
    count: nat,                     // the reference count of the shared data
    responses: seq<Json.Value>,
    added: seq<Json.Value>,         // everything addResponse was given, in order
    done: seq<seq<Json.Value>>)     // the calls of done

  datatype Action =
    /** the loop hands a callback for the next request to its procedure */
    | Dispatch
    /** a procedure copies its callback, to answer later */
    | CopyCallback(h: Holder)
    /** it answers, through the callback, under the lock */
    | AddResponse(h: Holder, response: Json.Value)
    /** a callback is destroyed */
    | Release(h: Holder)
    /** the loop is through, or a later request is bad and it throws */
    | Leave

  /** Fault: the shared data is used after its count has come down to zero. */
  datatype Outcome = Next(batch: Batch) | Disabled | Fault

  /** Copies a handle of the shared data. */
  function Copied(s: Batch): Outcome {
    if s.count == 0 then Fault
    else Next(s.(holders := s.holders + {s.used}, used := s.used + 1, count := s.count + 1))
  }

  /** Drops one handle; the last one calls done. */
  function Dropped(s: Batch): Outcome {
    if s.count == 0 then Fault
    else
      var c := s.count - 1;
      Next(s.(count := c, done := if c == 0 then s.done + [s.responses] else s.done))
  }

  function Answered(s: Batch, r: Json.Value): Outcome {
    if s.count == 0 then Fault
    else Next(s.(responses := s.responses + [r], added := s.added + [r]))
  }

  /** One step; Disabled where the loop or a callback is not there to take it. */
  function Step(s: Batch, a: Action): Outcome {
    match a
    case Dispatch =>
      if s.loop.Dispatching? && s.loop.next < s.size then Copied(s.(loop := Dispatching(s.loop.next + 1)))
      else Disabled
    case CopyCallback(h) => if h in s.holders then Copied(s) else Disabled
    case AddResponse(h, r) => if h in s.holders then Answered(s, r) else Disabled
    case Release(h) => if h in s.holders then Dropped(s.(holders := s.holders - {h})) else Disabled
    case Leave => if s.loop.Dispatching? then Dropped(s.(loop := Left)) else Disabled
  }

  function Run(s: Batch, actions: seq<Action>): Outcome
    decreases |actions|
  {
    if actions == [] then Next(s)
    else match Step(s, actions[0])
         case Next(t) => Run(t, actions[1..])
         case o => o
  }

  /** ThreadSafeBatchResponse has just been made; its one handle is the loop's. */
  function Fresh(size: nat): Batch { Batch(size, Dispatching(0), {}, 0, 1, [], [], []) }

  /** The count is that of the handles alive; done has been called exactly if there
      are none, and with everything that was added. */
  ghost predicate Inv(s: Batch) {
    && (forall h :: h in s.holders ==> h < s.used)
    && s.count == |s.holders| + (if s.loop.Left? then 0 else 1)
    && s.responses == s.added
    && s.done == if s.count == 0 then [s.added] else []
  }

  lemma HolderCounts(s: Batch, h: Holder)
    requires Inv(s) && h in s.holders
    ensures s.count > 0
  {
    assert |s.holders - {h}| == |s.holders| - 1;
  }

  lemma StepKeeps(s: Batch, a: Action)
    requires Inv(s)
    ensures !Step(s, a).Fault?
    ensures Step(s, a).Next? ==> Inv(Step(s, a).batch)
  {
    assert s.used !in s.holders;
    match a
    case Dispatch =>
    case CopyCallback(h) => if h in s.holders { HolderCounts(s, h); }
    case AddResponse(h, _) => if h in s.holders { HolderCounts(s, h); }
    case Release(h) =>
      if h in s.holders {
        HolderCounts(s, h);
        assert |s.holders - {h}| == |s.holders| - 1;
      }
    case Leave =>
  }

  lemma {:induction false} RunKeeps(s: Batch, actions: seq<Action>)
    requires Inv(s)
    ensures !Run(s, actions).Fault?
    ensures Run(s, actions).Next? ==> Inv(Run(s, actions).batch)
    decreases |actions|
  {
    if actions != [] {
      StepKeeps(s, actions[0]);
      if Step(s, actions[0]).Next? {
        RunKeeps(Step(s, actions[0]).batch, actions[1..]);
      }
    }
  }

  /** Over every interleaving of the loop and the procedures, and whether or not the
      loop throws: the shared data is never used after it is gone; done is called at
      most once, exactly when the loop has left and the last callback is gone, with the
      responses in the order they were added; as long as a callback is alive it can
      still answer. */
  lemma DoneOnce(size: nat, actions: seq<Action>)
    ensures !Run(Fresh(size), actions).Fault?
    ensures Run(Fresh(size), actions).Next? ==>
              var s := Run(Fresh(size), actions).batch;
              && (if s.loop.Left? && s.holders == {} then s.done == [s.added] else s.done == [])
              && (forall h, r :: h in s.holders ==> Step(s, AddResponse(h, r)).Next?)
  {
    RunKeeps(Fresh(size), actions);
    if Run(Fresh(size), actions).Next? {
      var s := Run(Fresh(size), actions).batch;
      forall h, r | h in s.holders ensures Step(s, AddResponse(h, r)).Next? {
        HolderCounts(s, h);
      }
      if s.holders != {} {
        var h :| h in s.holders;
        HolderCounts(s, h);
      }
    }
  }

  /** The responses that were given, in order. */
  function Given(actions: seq<Action>): seq<Json.Value> {
    if actions == [] then []
    else (if actions[0].AddResponse? then [actions[0].response] else []) + Given(actions[1..])
  }

  /** How many requests the loop handed to procedures. */
  function Handed(actions: seq<Action>): nat {
    if actions == [] then 0 else (if actions[0].Dispatch? then 1 else 0) + Handed(actions[1..])
  }

  lemma StepCounts(s: Batch, a: Action)
    requires Step(s, a).Next?
    ensures var t := Step(s, a).batch;
            && t.size == s.size && t.added == s.added + (if a.AddResponse? then [a.response] else [])
            && (a.Dispatch? ==> s.loop.Dispatching? && s.loop.next < s.size && t.loop == Dispatching(s.loop.next + 1))
            && (a.Leave? ==> s.loop.Dispatching? && t.loop.Left?)
            && (!a.Dispatch? && !a.Leave? ==> t.loop == s.loop)
  {
    assert s.added + [] == s.added;
  }

  lemma {:induction false} RunCounts(s: Batch, actions: seq<Action>)
    requires Run(s, actions).Next?
    requires s.loop.Dispatching? ==> s.loop.next <= s.size
    ensures var t := Run(s, actions).batch;
            && t.size == s.size && t.added == s.added + Given(actions)
            && (s.loop.Dispatching? ==> s.loop.next + Handed(actions) <= s.size)
            && (s.loop.Left? ==> t.loop.Left? && Handed(actions) == 0)
            && (t.loop.Dispatching? ==> s.loop.Dispatching? && t.loop.next == s.loop.next + Handed(actions))
    decreases |actions|
  {
    if actions == [] {
      assert s.added + [] == s.added;
    } else {
      var t := Step(s, actions[0]).batch;
      StepCounts(s, actions[0]);
      hide Step;
      RunCounts(t, actions[1..]);
      var first := if actions[0].AddResponse? then [actions[0].response] else [];
      assert (s.added + first) + Given(actions[1..]) == s.added + (first + Given(actions[1..]));
    }
  }

  /** Over every run done gets the responses that were given, in the order in which they
      were given; the loop hands out no more requests than there are, and while it is at
      it, can hand out the next one exactly if there is one. */
  lemma DoneGetsAll(size: nat, actions: seq<Action>)
    requires Run(Fresh(size), actions).Next?
    ensures var s := Run(Fresh(size), actions).batch;
            && s.done == (if s.loop.Left? && s.holders == {} then [Given(actions)] else [])
            && Handed(actions) <= size
            && (s.loop.Dispatching? ==> (Step(s, Dispatch).Next? <==> Handed(actions) < size))
  {
    DoneOnce(size, actions);
    RunCounts(Fresh(size), actions);
    RunKeeps(Fresh(size), actions);
    assert [] + Given(actions) == Given(actions);
  }

  /** In every state a run reaches, whoever holds a callback can answer with it, copy it
      and destroy it, and the loop can leave; nobody else can do anything with it. */
  lemma HoldersMay(size: nat, actions: seq<Action>, h: Holder, r: Json.Value)
    requires Run(Fresh(size), actions).Next?
    ensures var s := Run(Fresh(size), actions).batch;
            && (Step(s, AddResponse(h, r)).Next? <==> h in s.holders)
            && (Step(s, CopyCallback(h)).Next? <==> h in s.holders)
            && (Step(s, Release(h)).Next? <==> h in s.holders)
            && (Step(s, Leave).Next? <==> s.loop.Dispatching?)
            && (h in s.holders ==>
                  && Step(s, CopyCallback(h)).batch.holders == s.holders + {s.used} && s.used !in s.holders
                  && Step(s, Release(h)).batch.holders == s.holders - {h})
            && (s.loop.Dispatching? ==> Step(s, Leave).batch.loop.Left?)
  {
    RunKeeps(Fresh(size), actions);
    var s := Run(Fresh(size), actions).batch;
    if h in s.holders {
      HolderCounts(s, h);
    }
  }

  /** After done nobody is left who could use the collector. */
  lemma NothingAfterDone(size: nat, actions: seq<Action>, a: Action)
    requires Run(Fresh(size), actions).Next? && Run(Fresh(size), actions).batch.done != []
    ensures var s := Run(Fresh(size), actions).batch;
            s.loop.Left? && s.holders == {} && Step(s, a).Disabled?
  {
    DoneOnce(size, actions);
  }
}
