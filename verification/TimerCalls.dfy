/** The timers that a run adds and when they are called, in seconds and microseconds as
    they were asked for. */
module TimerCalls {
  import opened Text
  import opened TimerQueue

  /** An interval in seconds adds its microseconds, cut to a whole number. */
  lemma DeltaExact(timer: Timer)
    ensures timer.Delta() as real <= timer.interval * 1000000.0 < timer.Delta() as real + 1.0
    ensures forall n: int :: timer.interval == n as real ==> timer.Delta() == n * 1000000
  {
    forall n: int | timer.interval == n as real ensures timer.Delta() == n * 1000000 {
      assert timer.interval * 1000000.0 == (n * 1000000) as real;
    }
  }

  /** The timerfd is set to the time left in nanoseconds, and to at least 100
      microseconds. */
  lemma WaitExact(when: int, now: int)
    ensures var ts := HowMuchTimeFromNow(when, now);
            ts.sec * 1000000000 + ts.nsec == (if when - now < 100 then 100000 else (when - now) * 1000)
  {
  }

  /** A timer that is added arms the timerfd exactly if it is due before all others. */
  lemma AddArmsIff(s: Queue, id: Id, timer: Timer)
    requires Sorted(s.list)
    ensures AddInLoop(s, id, timer).armed ==
            if forall e <- s.list :: timer.expiration < e.time then Some(Arm(timer.expiration, s.now)) else s.armed
  {
    if s.list != [] {
      assert s.list[0] in s.list;
      forall e <- s.list ensures s.list[0].time <= e.time {
        var i :| 0 <= i < |s.list| && s.list[i] == e;
        assert i > 0 ==> Less(s.list[0], s.list[i]);
      }
    }
    hide Insert;
  }

  /** handleRead reads the timerfd: until the clock moves on it is not readable again. */
  lemma {:induction false} ReadClears(s: Queue, actions: seq<Action>)
    requires !s.readable && (forall a <- actions :: !a.Tick?) && Run(s, actions).Some?
    ensures !Run(s, actions).value.readable
    decreases |actions|
  {
    if actions != [] {
      StillClear(s, actions[0]);
      hide Step;
      ReadClears(Step(s, actions[0]).value, actions[1..]);
    }
  }

  lemma StillClear(s: Queue, a: Action)
    requires (!s.readable || a.BeginRead?) && !a.Tick? && Step(s, a).Some?
    ensures !Step(s, a).value.readable
  {
    hide Insert, Expired;
  }

  lemma HandleReadClears(s: Queue, actions: seq<Action>)
    requires Step(s, BeginRead).Some? && (forall a <- actions :: !a.Tick?)
    requires Run(Step(s, BeginRead).value, actions).Some?
    ensures !Run(Step(s, BeginRead).value, actions).value.readable
  {
    StillClear(s, BeginRead);
    ReadClears(Step(s, BeginRead).value, actions);
  }

  /** The timers that are added, as they were asked for. */
  function Asked(actions: seq<Action>, from: nat): seq<Made>
    decreases |actions|
  {
    if actions == [] then []
    else match actions[0]
         case Add(id, when, interval) =>
           [Made(id, Timer(when, interval, from))] + Asked(actions[1..], from + 1)
         case _ => Asked(actions[1..], from)
  }

  lemma {:induction false} MadeAsAsked(s: Queue, actions: seq<Action>)
    requires Run(s, actions).Some?
    ensures Run(s, actions).value.made == s.made + Asked(actions, |s.made|)
    decreases |actions|
  {
    if actions == [] {
      Glue(s.made, [], []);
    } else {
      var t := Step(s, actions[0]).value;
      OneMade(s, actions[0]);
      hide Step;
      MadeAsAsked(t, actions[1..]);
      if actions[0].Add? {
        Glue(s.made, [Made(actions[0].id, Timer(actions[0].when, actions[0].interval, |s.made|))],
             Asked(actions[1..], |s.made| + 1));
      }
    }
  }

  lemma OneMade(s: Queue, a: Action)
    requires Step(s, a).Some?
    ensures Step(s, a).value.made ==
            if a.Add? then s.made + [Made(a.id, Timer(a.when, a.interval, |s.made|))] else s.made
  {
    hide Insert, Expired;
  }

  /** The call that LastCall finds. */
  lemma {:induction false} LastAt(calls: seq<Call>, k: nat) returns (i: nat)
    requires exists j :: 0 <= j < |calls| && calls[j].serial == k
    ensures i < |calls| && calls[i].serial == k && LastCall(calls, k) == Some(calls[i].at)
    ensures forall j :: i < j < |calls| ==> calls[j].serial != k
    decreases |calls|
  {
    var n := |calls| - 1;
    if calls[n].serial == k {
      i := n;
    } else {
      var j :| 0 <= j < |calls| && calls[j].serial == k;
      assert calls[..n][j].serial == k;
      i := LastAt(calls[..n], k);
    }
  }

  lemma {:induction false} TimelyAt(calls: seq<Call>, made: seq<Made>, j: nat)
    requires Timely(calls, made) && j < |calls|
    ensures Timely(calls[..j], made)
    ensures var c := calls[j];
            c.serial < |made| && c.due == DueAfter(made[c.serial].timer, LastCall(calls[..j], c.serial))
            && c.due <= c.at
    decreases |calls|
  {
    var n := |calls| - 1;
    if j < n {
      TimelyAt(calls[..n], made, j);
      assert calls[..n][..j] == calls[..j];
    }
  }

  lemma {:induction false} Apart(calls: seq<Call>, made: seq<Made>, i: nat, j: nat)
    requires Timely(calls, made) && i < j < |calls| && calls[i].serial == calls[j].serial < |made|
    requires made[calls[j].serial].timer.Repeat()
    ensures calls[j].at >= calls[i].at + made[calls[j].serial].timer.Delta()
    decreases j
  {
    var k := calls[j].serial;
    TimelyAt(calls, made, j);
    assert calls[..j][i].serial == k;
    var l := LastAt(calls[..j], k);
    if i < l {
      Apart(calls, made, i, l);
    }
  }

  lemma {:induction false} NoLast(calls: seq<Call>, k: nat)
    requires forall i :: 0 <= i < |calls| ==> calls[i].serial != k
    ensures LastCall(calls, k) == None
    decreases |calls|
  {
    if calls != [] {
      NoLast(calls[..|calls| - 1], k);
    }
  }

  lemma {:induction false} Counted(calls: seq<Call>, k: nat, j: nat)
    requires j < |calls| && calls[j].serial == k
    ensures CallsOf(calls, k) >= CallsOf(calls[..j], k) + 1
    decreases |calls|
  {
    var n := |calls| - 1;
    if j < n {
      Counted(calls[..n], k, j);
      assert calls[..n][..j] == calls[..j];
    }
  }

  lemma FirstDue(calls: seq<Call>, made: seq<Made>, j: nat)
    requires Timely(calls, made) && j < |calls| && calls[j].serial < |made|
    requires forall i :: 0 <= i < j ==> calls[i].serial != calls[j].serial
    ensures calls[j].at >= made[calls[j].serial].timer.expiration
  {
    TimelyAt(calls, made, j);
    NoLast(calls[..j], calls[j].serial);
  }

  lemma {:induction false} EachDue(calls: seq<Call>, made: seq<Made>, j: nat)
    requires Timely(calls, made) && j < |calls| && calls[j].serial < |made|
    requires made[calls[j].serial].timer.Repeat()
    ensures calls[j].at >= made[calls[j].serial].timer.expiration
    decreases j
  {
    if i: nat :| i < j && calls[i].serial == calls[j].serial {
      EachDue(calls, made, i);
      Apart(calls, made, i, j);
    } else {
      FirstDue(calls, made, j);
    }
  }

  /** Over every run: a callback is called only for a timer that was asked for, never
      before the time it was asked for, and for the second time only if its interval is
      positive and that many seconds, less a microsecond, after the call before. */
  lemma CallsKeepTime(s: Queue, actions: seq<Action>, j: nat)
    requires Start(s) && Run(s, actions).Some? && j < |Run(s, actions).value.calls|
    ensures var calls, asked := Run(s, actions).value.calls, Asked(actions, 0);
            && calls[j].serial < |asked|
            && var timer := asked[calls[j].serial].timer;
               && calls[j].at >= timer.expiration
               && forall i :: 0 <= i < j && calls[i].serial == calls[j].serial ==>
                    timer.interval > 0.0
                    && (calls[j].at - calls[i].at) as real > timer.interval * 1000000.0 - 1.0
  {
    var calls, made := Run(s, actions).value.calls, Run(s, actions).value.made;
    MadeAsAsked(s, actions);
    Glue([], Asked(actions, 0), []);
    KeptTimely(s, actions);
    TimelyAt(calls, made, j);
    var k := calls[j].serial;
    var timer := made[k].timer;
    CallsAreDue(s, actions, k);
    DeltaExact(timer);
    forall i | 0 <= i < j && calls[i].serial == k
      ensures timer.Repeat() && calls[j].at - calls[i].at >= timer.Delta()
    {
      Counted(calls, k, j);
      Counted(calls[..j], k, i);
      Apart(calls, made, i, j);
    }
    if timer.Repeat() {
      EachDue(calls, made, j);
    } else {
      FirstDue(calls, made, j);
    }
    hide Run, Timely, LastCall, CallsOf, Alive, Start, Timer.Delta;
  }

  lemma KeptTimely(s: Queue, actions: seq<Action>)
    requires Start(s) && Run(s, actions).Some?
    ensures Timely(Run(s, actions).value.calls, Run(s, actions).value.made)
  {
    RunKeeps(s, actions);
  }

  /** The timerfd becomes readable when the wait it was armed for is over, and no sooner. */
  lemma FiresExactly(s: Queue, d: nat)
    ensures TickStep(s, d).now == s.now + d
    ensures TickStep(s, d).readable <==>
            s.readable || (s.armed.Some? && var a := s.armed.value;
                           s.now + d >= a.at + (if a.due - a.at < 100 then 100 else a.due - a.at))
  {
  }
}
