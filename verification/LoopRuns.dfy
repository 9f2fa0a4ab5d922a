/** What a run of the loop amounts to: the functors queued, the writes to the eventfd,
    and that the loop and its producers can always go on. */
module LoopRuns {
  import opened Text
  import opened EventLoop

  /** The functors that queueInLoop was given, in order. */
  function GivenTo(actions: seq<Action>): seq<Functor> {
    if actions == [] then []
    else
      (if actions[0].Push? || actions[0].OwnQueues? || actions[0].FunctorQueues? then [actions[0].f] else [])
      + GivenTo(actions[1..])
  }

  /** The writes to the eventfd since it was last read, given those before. */
  function Writes(before: nat, actions: seq<Action>): nat
    decreases |actions|
  {
    if actions == [] then before
    else if actions[0].Wakeup? || actions[0].FunctorWakes? then Writes(before + 1, actions[1..])
    else if actions[0].HandleRead? then Writes(0, actions[1..])
    else Writes(before, actions[1..])
  }

  /** The threads that have queued and not yet written, given those before. */
  function Between(before: set<Thread>, actions: seq<Action>): set<Thread>
    decreases |actions|
  {
    if actions == [] then before
    else match actions[0]
         case Push(t, _) => Between(before + {t}, actions[1..])
         case Wakeup(t) => Between(before - {t}, actions[1..])
         case _ => Between(before, actions[1..])
  }

  /** The read of the eventfd is not due while it is zero. */
  predicate Readable(s: Loop) { s.phase == Handling(true) ==> s.eventfd > 0 }

  lemma StepCounts(s: Loop, a: Action)
    requires Orderly(s) && Readable(s) && Step(s, a).Some?
    ensures var t := Step(s, a).value;
            && Readable(t)
            && t.history == s.history + (if a.Push? || a.OwnQueues? || a.FunctorQueues? then [a.f] else [])
            && t.eventfd == (if a.Wakeup? || a.FunctorWakes? then s.eventfd + 1
                             else if a.HandleRead? then 0 else s.eventfd)
            && t.midway == (if a.Push? then s.midway + {a.t} else if a.Wakeup? then s.midway - {a.t}
                            else s.midway)
  {
    Glue(s.history, [], []);
  }

  lemma {:induction false} RunCounts(s: Loop, actions: seq<Action>)
    requires Orderly(s) && Readable(s) && Run(s, actions).Some?
    ensures var t := Run(s, actions).value;
            && t.history == s.history + GivenTo(actions) && t.eventfd == Writes(s.eventfd, actions)
            && t.midway == Between(s.midway, actions) && Readable(t) && Orderly(t)
    decreases |actions|
  {
    if actions == [] {
      Glue(s.history, [], []);
    } else {
      var a, t := actions[0], Step(s, actions[0]).value;
      StepCounts(s, a);
      StepKeepsOrder(s, a);
      hide Step;
      RunCounts(t, actions[1..]);
      var first := if a.Push? || a.OwnQueues? || a.FunctorQueues? then [a.f] else [];
      Glue(s.history, first, GivenTo(actions[1..]));
    }
  }

  /** Over every run from the start: the functors that ran, those of the batch and those
      pending are the ones queueInLoop was given, in order; the eventfd counts the writes
      since it was read; the threads in between are those that queued and have not written;
      and the loop never reads it while it is zero. */
  lemma RunsAddUp(actions: seq<Action>)
    requires Run(FRESH, actions).Some?
    ensures var t := Run(FRESH, actions).value;
            && (t.executed + Batch(t)) + t.pending == GivenTo(actions)
            && t.eventfd == Writes(0, actions) && t.midway == Between({}, actions)
            && (t.phase == Handling(true) ==> t.eventfd > 0)
  {
    RunCounts(FRESH, actions);
    Glue([], GivenTo(actions), []);
  }

  // ------------------------------------------------------------- going on

  /** The action of the loop's own thread that comes next. */
  function NextOf(s: Loop): Action {
    match s.phase
    case NotLooping => StartLoop
    case AtPoll => PollReturns
    case Handling(wakeup) => if wakeup then HandleRead else SetCalling
    case Calling => Swap
    case Running(batch, owes) =>
      if owes then FunctorWakes else if batch != [] then RunNext else ClearCalling
  }

  /** Nobody ever has to wait for another: the loop can take its next action, a thread
      can queue unless it is about to write, and can then write. */
  lemma AllGoOn(s: Loop, t: Thread, f: Functor)
    ensures Step(s, NextOf(s)).Some?
    ensures Step(s, Push(t, f)).Some? <==> t !in s.midway
    ensures Step(s, Wakeup(t)).Some? <==> t in s.midway
    ensures Step(s, OwnQueues(f)).Some? <==> s.phase.NotLooping? || s.phase.Handling?
    ensures Step(s, FunctorQueues(f)).Some? <==> s.phase.Running? && !s.phase.owes
  {
  }

  /** The loop's own actions up to poll, if nobody interferes. */
  function ToPoll(s: Loop, n: nat): Option<Loop>
    decreases n
  {
    if s.phase.AtPoll? then Some(s)
    else if n == 0 || Step(s, NextOf(s)).None? then None
    else ToPoll(Step(s, NextOf(s)).value, n - 1)
  }

  lemma {:induction false} BatchEnds(s: Loop, n: nat)
    requires s.phase.Running? && !s.phase.owes && n > |s.phase.batch|
    ensures ToPoll(s, n) == Some(s.(phase := AtPoll, calling := false, executed := s.executed + s.phase.batch))
    decreases n
  {
    var t := Step(s, NextOf(s)).value;
    var batch := s.phase.batch;
    if batch == [] {
      Glue(s.executed, [], []);
      assert t.phase.AtPoll? && ToPoll(t, n - 1) == Some(t);
    } else {
      BatchEnds(t, n - 1);
      assert batch == [batch[0]] + batch[1..];
      Glue(s.executed, [batch[0]], batch[1..]);
    }
  }

  /** From wherever a batch is being run, the loop on its own runs the rest of it, writes
      what it owes, and comes back to poll. */
  lemma BatchIsRun(s: Loop)
    requires s.phase.Running?
    ensures ToPoll(s, |s.phase.batch| + 2) ==
            Some(s.(phase := AtPoll, calling := false, executed := s.executed + s.phase.batch,
                    eventfd := if s.phase.owes then s.eventfd + 1 else s.eventfd))
  {
    if s.phase.owes {
      var t := s.(phase := Running(s.phase.batch, false), eventfd := s.eventfd + 1);
      assert Step(s, NextOf(s)) == Some(t);
      BatchEnds(t, |s.phase.batch| + 1);
      hide Step;
    } else {
      BatchEnds(s, |s.phase.batch| + 2);
    }
  }

  /** What the loop's thread queues before loop() while nobody else does is slept over. */
  lemma OwnAloneSleeps(f: Functor)
    ensures Run(FRESH, [OwnQueues(f)]).Some? && !NeverLost(Started([OwnQueues(f)]))
  {
    RunOne(FRESH, OwnQueues(f));
    assert OwnQueues(f) in [OwnQueues(f)];
    NoLostWakeup([OwnQueues(f)]);
  }
}
