/** The loop's queue of functors and its wakeup through an eventfd, step by step,
    with any number of other threads queueing. */
module EventLoop {
  import opened Text

  type Functor = nat
  type Thread = nat

  /** Where the loop thread stands. */
  datatype Phase =
    /** loop() has not been called yet */
    | NotLooping
    /** blocked in poll, or about to be */
    | AtPoll
    /** handling the events poll returned; the eventfd is still to be handled or not */
    | Handling(wakeup: bool)
    /** in doPendingFunctor, before the swap */
    | Calling
    /** in doPendingFunctor, with the functors it has still to run; `owes` says that
        one of them has queued a functor and not yet written to the eventfd */
    | Running(batch: seq<Functor>, owes: bool)

  datatype Loop = Loop(
    phase: Phase,
    calling: bool,              // callPendingFunctor_
    pending: seq<Functor>,      // pendingFunctors_
    eventfd: nat,               // the counter of the eventfd
    midway: set<Thread>,        // other threads between their push and their wakeup
    executed: seq<Functor>,     // functors that ran, in order
    history: seq<Functor>)      // functors that were queued, in order

  datatype Action =
    | Push(t: Thread, f: Functor)   // queueInLoop of another thread: the push under the lock
    | Wakeup(t: Thread)             // and its write to the eventfd
    | OwnQueues(f: Functor)         // queueInLoop of the loop's own thread: a channel's
                                    // callback, or before loop() whoever sets it up
    | StartLoop                     // loop() is called
    | PollReturns
    | HandleRead                    // the loop reads the eventfd
    | SetCalling
    | Swap
    | RunNext
    | FunctorQueues(f: Functor)     // a pending functor calls queueInLoop: the push
    | FunctorWakes                  // and its write to the eventfd
    | ClearCalling

  function Queued(s: Loop, f: Functor): Loop {
    s.(pending := s.pending + [f], history := s.history + [f])
  }

  /** One step; None where it cannot be taken. */
  function Step(s: Loop, a: Action): Option<Loop> {
    match a
    case Push(t, f) => if t in s.midway then None else Some(Queued(s, f).(midway := s.midway + {t}))
    case Wakeup(t) =>
      if t !in s.midway then None
      else Some(s.(eventfd := s.eventfd + 1, midway := s.midway - {t}))
    case PollReturns =>
      if !s.phase.AtPoll? then None else Some(s.(phase := Handling(s.eventfd > 0)))
    case HandleRead =>
      if s.phase != Handling(true) then None else Some(s.(eventfd := 0, phase := Handling(false)))
    case OwnQueues(f) =>
      if !s.phase.Handling? && !s.phase.NotLooping? then None
      else
        // the loop's own thread: it wakes itself up only while calling
        Some(Queued(s, f).(eventfd := if s.calling then s.eventfd + 1 else s.eventfd))
    case StartLoop => if s.phase.NotLooping? then Some(s.(phase := AtPoll)) else None
    case SetCalling =>
      if s.phase != Handling(false) then None else Some(s.(phase := Calling, calling := true))
    case Swap =>
      if !s.phase.Calling? then None
      else Some(s.(phase := Running(s.pending, false), pending := []))
    case RunNext =>
      if !s.phase.Running? || s.phase.batch == [] || s.phase.owes then None
      else Some(s.(phase := Running(s.phase.batch[1..], false),
                   executed := s.executed + [s.phase.batch[0]]))
    case FunctorQueues(f) =>
      if !s.phase.Running? || s.phase.owes then None
      else Some(Queued(s, f).(phase := Running(s.phase.batch, s.calling)))
    case FunctorWakes =>
      if !s.phase.Running? || !s.phase.owes then None
      else Some(s.(phase := Running(s.phase.batch, false), eventfd := s.eventfd + 1))
    case ClearCalling =>
      if s.phase != Running([], false) then None else Some(s.(phase := AtPoll, calling := false))
  }

  function Run(s: Loop, actions: seq<Action>): Option<Loop>
    decreases |actions|
  {
    if actions == [] then Some(s)
    else match Step(s, actions[0])
         case None => None
         case Some(t) => Run(t, actions[1..])
  }

  /** The loop when it is made. */
  const FRESH := Loop(NotLooping, false, [], 0, {}, [], [])

  function Batch(s: Loop): seq<Functor> { if s.phase.Running? then s.phase.batch else [] }

  /** A functor is pending and nobody is about to wake the loop. */
  predicate Lost(s: Loop) { s.pending != [] && s.eventfd == 0 && s.midway == {} }

  ghost predicate Orderly(s: Loop) {
    && s.calling == (s.phase.Calling? || s.phase.Running?)
    && s.history == (s.executed + Batch(s)) + s.pending
  }

  ghost predicate Awake(s: Loop) {
    && !s.phase.NotLooping?
    && (s.phase.AtPoll? ==> !Lost(s))
    && (s.phase.Running? && !s.phase.owes ==> !Lost(s))
  }

  lemma StepKeepsOrder(s: Loop, a: Action)
    requires Orderly(s) && Step(s, a).Some?
    ensures Orderly(Step(s, a).value)
  {
    var t := Step(s, a).value;
    if a.Push? || a.OwnQueues? || a.FunctorQueues? {
      Glue(s.executed + Batch(s), s.pending, [a.f]);
    } else if a.Swap? {
      Glue(s.executed, [], s.pending);
      Glue(s.executed + s.pending, [], []);
    } else if a.RunNext? {
      assert Batch(s) == [Batch(s)[0]] + Batch(t);
      Glue(s.executed, [Batch(s)[0]], Batch(t));
    }
  }

  lemma {:induction false} RunKeeps(s: Loop, actions: seq<Action>)
    requires Orderly(s) && Run(s, actions).Some?
    ensures Orderly(Run(s, actions).value)
    ensures Awake(s) ==> Awake(Run(s, actions).value)
    decreases |actions|
  {
    if actions != [] {
      StepKeepsOrder(s, actions[0]);
      RunKeeps(Step(s, actions[0]).value, actions[1..]);
    }
  }

  /** Over every run functors run once each in the order they were queued: those that
      ran, the rest of the batch and those pending are the whole history. */
  lemma RunInOrder(actions: seq<Action>)
    requires Run(FRESH, actions).Some?
    ensures var t := Run(FRESH, actions).value;
            t.history == (t.executed + Batch(t)) + t.pending
  {
    RunKeeps(FRESH, actions);
  }

  // --------------------------------------------------------- before loop()

  predicate BeforeLoop(actions: seq<Action>) { forall a <- actions :: a.Push? || a.Wakeup? || a.OwnQueues? }

  predicate OwnQueued(actions: seq<Action>) { exists a <- actions :: a.OwnQueues? }

  predicate OthersQueued(actions: seq<Action>) { exists a <- actions :: a.Push? }

  /** What has been queued before loop(), and whether another thread will wake it. */
  predicate Prepared(s: Loop, own: bool, others: bool) {
    && s.phase.NotLooping? && !s.calling
    && (s.pending != [] <==> own || others)
    && (s.eventfd > 0 || s.midway != {} <==> others)
  }

  lemma StepPrepares(s: Loop, own: bool, others: bool, a: Action)
    requires Prepared(s, own, others) && (a.Push? || a.Wakeup? || a.OwnQueues?) && Step(s, a).Some?
    ensures Prepared(Step(s, a).value, own || a.OwnQueues?, others || a.Push?)
  {
    if a.Push? {
      assert a.t in Step(s, a).value.midway;
    }
  }

  lemma {:induction false} RunPrepares(s: Loop, own: bool, others: bool, actions: seq<Action>)
    requires Prepared(s, own, others) && BeforeLoop(actions) && Run(s, actions).Some?
    ensures Prepared(Run(s, actions).value, own || OwnQueued(actions), others || OthersQueued(actions))
    decreases |actions|
  {
    if actions != [] {
      var a, rest := actions[0], actions[1..];
      StepPrepares(s, own, others, a);
      RunPrepares(Step(s, a).value, own || a.OwnQueues?, others || a.Push?, rest);
      assert actions == [a] + rest;
    }
  }

  /** The loop as loop() starts it, behind what was queued before. */
  function Started(before: seq<Action>): Loop
    requires Run(FRESH, before).Some?
  {
    Run(FRESH, before).value.(phase := AtPoll)
  }

  /** loop() starts with a lost functor if and only if its own thread queued one before
      and no other thread did. */
  lemma StartsLostIff(before: seq<Action>)
    requires BeforeLoop(before) && Run(FRESH, before).Some?
    ensures Step(Run(FRESH, before).value, StartLoop) == Some(Started(before))
    ensures Lost(Started(before)) <==> OwnQueued(before) && !OthersQueued(before)
  {
    RunPrepares(FRESH, false, false, before);
  }

  /** Over every later run: whenever the loop is at poll with functors pending, the
      eventfd is readable or some thread is between its push and its wakeup. */
  ghost predicate NeverLost(s: Loop) {
    forall later :: Run(s, later).Some? ==> AtPollAwake(Run(s, later).value)
  }

  predicate AtPollAwake(t: Loop) {
    t.phase.AtPoll? && t.pending != [] ==> t.eventfd > 0 || t.midway != {}
  }

  /** No wakeup is ever lost, over every interleaving of producers with the loop, if and
      only if it was not its own thread alone that queued functors before loop(). */
  lemma NoLostWakeup(before: seq<Action>)
    requires BeforeLoop(before) && Run(FRESH, before).Some?
    ensures NeverLost(Started(before)) <==> !OwnQueued(before) || OthersQueued(before)
  {
    StartsLostIff(before);
    RunPrepares(FRESH, false, false, before);
    RunKeeps(FRESH, before);
    var s := Started(before);
    if Lost(s) {
      assert Run(s, []) == Some(s);
    } else {
      forall later | Run(s, later).Some? ensures AtPollAwake(Run(s, later).value) {
        RunKeeps(s, later);
      }
    }
  }

  // ---------------------------------------------------- a turn of the loop

  function Repeat(n: nat): seq<Action> { if n == 0 then [] else [RunNext] + Repeat(n - 1) }

  /** The actions of one turn of loop() on its own, with n functors pending. */
  function Turn(awake: bool, n: nat): seq<Action> {
    [PollReturns] + (if awake then [HandleRead] else []) + [SetCalling, Swap] + Repeat(n) + [ClearCalling]
  }

  lemma {:induction false} RunConcat(s: Loop, a: seq<Action>, b: seq<Action>)
    ensures Run(s, a + b) == match Run(s, a) { case None => None case Some(t) => Run(t, b) }
    decreases |a|
  {
    if a == [] {
      assert a + b == b;
    } else {
      assert (a + b)[0] == a[0] && (a + b)[1..] == a[1..] + b;
      match Step(s, a[0])
      case None =>
      case Some(t) => RunConcat(t, a[1..], b);
    }
  }

  lemma {:induction false} BatchRuns(s: Loop, batch: seq<Functor>)
    requires s.phase == Running(batch, false)
    ensures Run(s, Repeat(|batch|)) ==
            Some(s.(phase := Running([], false), executed := s.executed + batch))
    decreases |batch|
  {
    if batch == [] {
      Glue(s.executed, [], []);
    } else {
      var t := Step(s, RunNext).value;
      BatchRuns(t, batch[1..]);
      assert batch == [batch[0]] + batch[1..];
      Glue(s.executed, [batch[0]], batch[1..]);
      var r := Repeat(|batch|);
      assert r[0] == RunNext && r[1..] == Repeat(|batch| - 1);
    }
  }

  lemma RunOne(s: Loop, a: Action)
    ensures Run(s, [a]) == Step(s, a)
  {
    match Step(s, a)
    case None =>
    case Some(t) => assert Run(t, [a][1..]) == Some(t);
  }

  /** A turn up to the swap. */
  lemma TurnSwaps(s: Loop)
    requires s.phase.AtPoll? && !s.calling && s.eventfd > 0
    ensures Run(s, [PollReturns, HandleRead, SetCalling, Swap]) ==
            Some(s.(phase := Running(s.pending, false), calling := true, pending := [], eventfd := 0))
  {
    var s1 := s.(phase := Handling(true));
    var s2 := s.(phase := Handling(false), eventfd := 0);
    var s3 := s2.(phase := Calling, calling := true);
    RunCons(s, PollReturns, [HandleRead, SetCalling, Swap]);
    RunCons(s1, HandleRead, [SetCalling, Swap]);
    RunCons(s2, SetCalling, [Swap]);
    RunOne(s3, Swap);
  }

  lemma RunCons(s: Loop, a: Action, rest: seq<Action>)
    requires Step(s, a).Some?
    ensures Run(s, [a] + rest) == Run(Step(s, a).value, rest)
  {
    assert ([a] + rest)[1..] == rest;
  }

  /** A loop that is woken runs everything that was pending, in one turn, and goes
      back to poll with the eventfd read. */
  lemma TurnDrains(s: Loop)
    requires s.phase.AtPoll? && !s.calling && s.eventfd > 0
    ensures Run(s, Turn(true, |s.pending|)) ==
            Some(s.(pending := [], eventfd := 0, executed := s.executed + s.pending))
  {
    hide Run, Repeat;
    var front := [PollReturns, HandleRead, SetCalling, Swap];
    var t := s.(phase := Running(s.pending, false), calling := true, pending := [], eventfd := 0);
    TurnSwaps(s);
    BatchRuns(t, s.pending);
    var u := t.(phase := Running([], false), executed := s.executed + s.pending);
    RunConcat(s, front, Repeat(|s.pending|));
    RunConcat(s, front + Repeat(|s.pending|), [ClearCalling]);
    RunOne(u, ClearCalling);
    assert Turn(true, |s.pending|) == (front + Repeat(|s.pending|)) + [ClearCalling];
  }

  // ------------------------------------------------------------- the object

  /** A functor with those it queues when it is called. */
  datatype Task = Task(id: Functor, queues: seq<Task>)

  function Ids(tasks: seq<Task>): seq<Functor> {
    if tasks == [] then [] else Ids(tasks[..|tasks| - 1]) + [tasks[|tasks| - 1].id]
  }

  /** All that some functors queue, in the order in which they run. */
  function Queues(tasks: seq<Task>): seq<Task> {
    if tasks == [] then [] else Queues(tasks[..|tasks| - 1]) + tasks[|tasks| - 1].queues
  }

  lemma TasksSnoc(tasks: seq<Task>, t: Task)
    ensures Ids(tasks + [t]) == Ids(tasks) + [t.id] && Queues(tasks + [t]) == Queues(tasks) + t.queues
  {
    assert (tasks + [t])[..|tasks|] == tasks;
  }

  lemma {:induction false} IdsConcat(a: seq<Task>, b: seq<Task>)
    ensures Ids(a + b) == Ids(a) + Ids(b)
    decreases |b|
  {
    hide Queues;
    Glue(a, [], []);
    Glue(Ids(a), [], []);
    if b == [] {
      assert a + b == a;
    } else {
      var front, t := b[..|b| - 1], b[|b| - 1];
      IdsConcat(a, front);
      TasksSnoc(a + front, t);
      Glue(a, front, [t]);
      assert front + [t] == b;
      Glue(Ids(a), Ids(front), [t.id]);
    }
  }

  class EventLoop {
    var callPendingFunctor: bool
    var pendingFunctors: seq<Task>
    var eventfd: nat
    ghost var executed: seq<Functor>
    ghost var history: seq<Functor>

    constructor ()
      ensures !callPendingFunctor && pendingFunctors == [] && eventfd == 0 && executed == [] && history == []
    {
      callPendingFunctor, pendingFunctors, eventfd := false, [], 0;
      executed, history := [], [];
    }

    method Weakup()
      modifies this`eventfd
      ensures eventfd == old(eventfd) + 1
    {
      eventfd := eventfd + 1;
    }

    method QueueInLoop(cb: Task, inLoopThread: bool)
      modifies this`pendingFunctors, this`eventfd, this`history
      ensures pendingFunctors == old(pendingFunctors) + [cb] && history == old(history) + [cb.id]
      ensures eventfd == old(eventfd) + if !inLoopThread || callPendingFunctor then 1 else 0
    {
      pendingFunctors, history := pendingFunctors + [cb], history + [cb.id];
      if !inLoopThread || callPendingFunctor {
        Weakup();
      }
    }

    /** A call of a functor while pending functors run. */
    method CallFunctor(functor: Task)
      requires callPendingFunctor
      modifies this`pendingFunctors, this`eventfd, this`history, this`executed
      ensures executed == old(executed) + [functor.id]
      ensures pendingFunctors == old(pendingFunctors) + functor.queues
      ensures history == old(history) + Ids(functor.queues)
      ensures eventfd == old(eventfd) + |functor.queues|
    {
      executed := executed + [functor.id];
      var qs := functor.queues;
      Glue(pendingFunctors, [], []);
      Glue(history, [], []);
      for i := 0 to |qs|
        modifies this`pendingFunctors, this`eventfd, this`history
        invariant pendingFunctors == old(pendingFunctors) + qs[..i]
        invariant history == old(history) + Ids(qs[..i]) && eventfd == old(eventfd) + i
      {
        TasksSnoc(qs[..i], qs[i]);
        assert qs[..i + 1] == qs[..i] + [qs[i]];
        Glue(old(pendingFunctors), qs[..i], [qs[i]]);
        Glue(old(history), Ids(qs[..i]), [qs[i].id]);
        QueueInLoop(qs[i], true);
      }
      assert qs[..|qs|] == qs;
    }

    /** Every functor that was pending runs once, in order; those they queue are pending
        after, with a write to the eventfd for each, so that the next poll returns. */
    method DoPendingFunctor()
      requires !callPendingFunctor && history == executed + Ids(pendingFunctors)
      modifies this
      ensures !callPendingFunctor && history == executed + Ids(pendingFunctors)
      ensures executed == old(executed) + Ids(old(pendingFunctors))
      ensures pendingFunctors == Queues(old(pendingFunctors))
      ensures eventfd == old(eventfd) + |pendingFunctors|
    {
      var functors: seq<Task> := [];
      callPendingFunctor := true;
      functors, pendingFunctors := pendingFunctors, functors;
      Glue(executed, [], []);
      Glue(history, [], []);
      for i := 0 to |functors|
        invariant callPendingFunctor
        invariant executed == old(executed) + Ids(functors[..i])
        invariant pendingFunctors == Queues(functors[..i]) && eventfd == old(eventfd) + |pendingFunctors|
        invariant history == old(history) + Ids(pendingFunctors)
      {
        var f := functors[i];
        TasksSnoc(functors[..i], f);
        assert functors[..i + 1] == functors[..i] + [f];
        Glue(old(executed), Ids(functors[..i]), [f.id]);
        IdsConcat(pendingFunctors, f.queues);
        Glue(old(history), Ids(pendingFunctors), Ids(f.queues));
        CallFunctor(f);
      }
      assert functors[..|functors|] == functors;
      callPendingFunctor := false;
    }
  }
}
