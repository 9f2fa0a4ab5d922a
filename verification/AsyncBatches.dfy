/** When the log hands a buffer over, how much a batch of so many buffers stands for,
    and how much must be appended between two exchanges before a batch is cut. */
module AsyncBatches {
  import opened Text
  import opened AsyncLogging

  /** append hands the current buffer over exactly if the message does not leave a byte
      free in it; the message goes into the buffer that is current then. */
  lemma HandsOverIff(s: Log, msg: string)
    requires Owned(s)
    ensures AppendStep(s, msg).Next?
    ensures var t := AppendStep(s, msg).log;
            && t.current.Some?
            && (t.buffers == s.buffers + [s.current.value] <==> |s.current.value| + |msg| >= SIZE)
            && (t.buffers == s.buffers <==> |s.current.value| + |msg| < SIZE)
            && (t.buffers == s.buffers ==> t.current.value == s.current.value + msg)
            && (t.buffers != s.buffers ==> t.current.value == if |msg| < SIZE then msg else "")
            && t.accepted == s.accepted + if |msg| < SIZE then msg else ""
  {
    var t := AppendStep(s, msg).log;
    assert |s.buffers + [s.current.value]| == |s.buffers| + 1;
  }

  /** Any two buffers in a row hold at least SIZE bytes together. */
  ghost predicate Dense(buffers: seq<string>) {
    forall i, j :: 0 <= i && j == i + 1 && j < |buffers| ==> |buffers[i]| + |buffers[j]| >= SIZE
  }

  lemma DenseRest(buffers: seq<string>)
    requires Dense(buffers) && |buffers| >= 2
    ensures Dense(buffers[2..]) && |buffers[0]| + |buffers[1]| >= SIZE
  {
    var rest := buffers[2..];
    forall i, j | 0 <= i && j == i + 1 && j < |rest| ensures |rest[i]| + |rest[j]| >= SIZE {
      assert |buffers[i + 2]| + |buffers[j + 2]| >= SIZE;
    }
  }

  lemma TwoInFront(buffers: seq<string>)
    requires |buffers| >= 2
    ensures |Concat(buffers)| == |buffers[0]| + |buffers[1]| + |Concat(buffers[2..])|
  {
    assert buffers[1..][0] == buffers[1] && buffers[1..][1..] == buffers[2..];
  }

  lemma {:induction false} DenseHolds(buffers: seq<string>)
    requires Dense(buffers)
    ensures |Concat(buffers)| >= (|buffers| / 2) * SIZE
    decreases |buffers|
  {
    if |buffers| >= 2 {
      DenseRest(buffers);
      TwoInFront(buffers);
      hide Dense, Concat;
      DenseHolds(buffers[2..]);
    }
  }

  lemma One(b: string)
    ensures Concat([b]) == b
  {
    assert [b][1..] == [];
    Glue(b, "", "");
  }

  /** The messages appended, those of SIZE or more left out. */
  function Messages(actions: seq<Action>): string
    decreases |actions|
  {
    if actions == [] then ""
    else
      (match actions[0] { case Append(m) => if |m| < SIZE then m else "" case _ => "" }) + Messages(actions[1..])
  }

  /** No message is as long as a buffer. */
  predicate Short(actions: seq<Action>) { forall a <- actions :: a.Append? ==> |a.msg| < SIZE }

  /** The bytes appended since the last exchange, given those before these actions. */
  function Since(before: nat, actions: seq<Action>): nat
    decreases |actions|
  {
    if actions == [] then before
    else match actions[0]
         case Append(m) => Since(before + if |m| < SIZE then |m| else 0, actions[1..])
         case Exchange => Since(0, actions[1..])
         case _ => Since(before, actions[1..])
  }

  /** Fewer than n bytes are appended between any two exchanges. */
  predicate Below(n: nat, before: nat, actions: seq<Action>)
    decreases |actions|
  {
    actions == [] ||
    match actions[0]
    case Append(m) => Below(n, before + |m|, actions[1..])
    case Exchange => before < n && Below(n, 0, actions[1..])
    case _ => Below(n, before, actions[1..])
  }

  /** What waits for the next exchange. */
  function Pending(s: Log): seq<string>
    requires s.current.Some?
  {
    s.buffers + [s.current.value]
  }

  ghost predicate Filled(s: Log) {
    && Owned(s) && Dense(Pending(s)) && Dense(s.batch)
    && forall b <- s.batches :: Dense(b.buffers)
  }

  lemma AppendFills(s: Log, msg: string)
    requires Filled(s) && |msg| < SIZE
    ensures AppendStep(s, msg).Next? && Filled(AppendStep(s, msg).log)
    ensures |Concat(Pending(AppendStep(s, msg).log))| == |Concat(Pending(s))| + |msg|
    ensures AppendStep(s, msg).log.accepted == s.accepted + msg
  {
    HandsOverIff(s, msg);
    StepKeepsOwned(s, Append(msg));
    var t := AppendStep(s, msg).log;
    FlatSnoc(s.buffers, s.current.value);
    FlatSnoc(t.buffers, t.current.value);
    var p, q := Pending(s), Pending(t);
    var n := |s.buffers|;
    forall i, j | 0 <= i && j == i + 1 && j < |q| ensures |q[i]| + |q[j]| >= SIZE {
      if j <= n {
        assert |p[i]| + |p[j]| >= SIZE;
      }
    }
  }

  lemma StepFills(s: Log, a: Action)
    requires Filled(s) && Step(s, a).Next? && !a.Append?
    ensures Filled(Step(s, a).log) && Step(s, a).log.accepted == s.accepted
    ensures Concat(Pending(Step(s, a).log)) == if a.Exchange? then "" else Concat(Pending(s))
    ensures Step(s, a).log.batches == if a.Trim? then s.batches + [Batch(s.batch, a.note)] else s.batches
    ensures if a.Exchange? then Step(s, a).log.batch == Pending(s)
            else |Step(s, a).log.batch| <= |s.batch|
    ensures Step(s, a).log.phase.Swapped? <==> a.Exchange? || (s.phase.Swapped? && a.Append?)
  {
    StepKeepsOwned(s, a);
    if a.Exchange? {
      var t := Step(s, a).log;
      assert Pending(t) == [""];
      One("");
    }
  }

  lemma {:induction false} RunFills(s: Log, actions: seq<Action>)
    requires Filled(s) && Short(actions) && Run(s, actions).Next?
    ensures var t := Run(s, actions).log;
            && Filled(t) && |Concat(Pending(t))| == Since(|Concat(Pending(s))|, actions)
            && t.accepted == s.accepted + Messages(actions)
    decreases |actions|
  {
    if actions == [] {
      Glue(s.accepted, "", "");
    } else {
      var a, rest := actions[0], actions[1..];
      assert a in actions && forall x <- rest :: x in actions;
      OneFills(s, a);
      hide Step, Filled, Concat;
      RunFills(Step(s, a).log, rest);
      Glue(s.accepted, if a.Append? then a.msg else "", Messages(rest));
    }
  }

  lemma OneFills(s: Log, a: Action)
    requires Filled(s) && Step(s, a).Next? && (a.Append? ==> |a.msg| < SIZE)
    ensures var t := Step(s, a).log;
            && Filled(t) && t.accepted == s.accepted + (if a.Append? then a.msg else "")
            && |Concat(Pending(t))| == (if a.Append? then |Concat(Pending(s))| + |a.msg|
                                        else if a.Exchange? then 0 else |Concat(Pending(s))|)
  {
    if a.Append? {
      AppendFills(s, a.msg);
    } else {
      StepFills(s, a);
      Glue(s.accepted, "", "");
    }
    hide Filled, AppendStep, Concat;
  }

  /** Over every run of messages that are shorter than a buffer: any two buffers in a row,
      waiting or in a batch, hold at least SIZE bytes, and what waits is what was appended
      since the last exchange. */
  lemma RunsAreDense(actions: seq<Action>)
    requires Short(actions) && Run(START, actions).Next?
    ensures var s := Run(START, actions).log;
            && s.current.Some? && Dense(Pending(s)) && (forall b <- s.batches :: Dense(b.buffers))
            && |Concat(Pending(s))| == Since(0, actions) && s.accepted == Messages(actions)
  {
    StartFilled();
    RunFills(START, actions);
    Glue(Messages(actions), "", "");
  }

  lemma StartFilled()
    ensures Filled(START) && Concat(Pending(START)) == ""
  {
    assert Pending(START) == [""];
    One("");
  }

  /** A batch of n buffers stands for at least (n / 2) * SIZE bytes, so one of fewer than
      13 * SIZE is not cut. */
  lemma FewBuffers(buffers: seq<string>)
    requires Dense(buffers) && |Concat(buffers)| < 13 * SIZE
    ensures |buffers| <= LIMIT
  {
    DenseHolds(buffers);
  }

  predicate Small(s: Log) { Uncut(s.batches) && (s.phase.Swapped? ==> |s.batch| <= LIMIT) }

  lemma {:induction false} RunStaysSmall(s: Log, actions: seq<Action>)
    requires Filled(s) && Small(s) && Short(actions) && Run(s, actions).Next?
    requires Below(13 * SIZE, |Concat(Pending(s))|, actions)
    ensures Uncut(Run(s, actions).log.batches)
    decreases |actions|
  {
    if actions != [] {
      var a, rest := actions[0], actions[1..];
      assert a in actions && forall x <- rest :: x in actions;
      if a.Append? {
        AppendFills(s, a.msg);
        AppendSmall(s, a.msg);
      } else {
        StepFills(s, a);
        if a.Exchange? {
          FewBuffers(Pending(s));
        }
        StepSmall(s, a);
      }
      hide Step, Filled, Small;
      RunStaysSmall(Step(s, a).log, rest);
    }
  }

  lemma AppendSmall(s: Log, msg: string)
    requires Small(s) && AppendStep(s, msg).Next?
    ensures Small(AppendStep(s, msg).log)
  {
  }

  lemma StepSmall(s: Log, a: Action)
    requires Filled(s) && Small(s) && Step(s, a).Next? && !a.Append?
    requires a.Exchange? ==> |Pending(s)| <= LIMIT
    ensures Small(Step(s, a).log)
  {
    StepFills(s, a);
    hide Step;
  }

  /** If every message is shorter than a buffer, which is 4,000,000 bytes, and fewer than
      13 times as many come between two exchanges, nothing is ever lost: the file, what
      is left of the batch and what waits are exactly the messages, in order. */
  lemma SlowLogKeepsAll(actions: seq<Action>)
    requires (forall a <- actions :: a.Append? ==> |a.msg| < 4000000)
    requires Below(52000000, 0, actions) && Run(START, actions).Next?
    ensures var s := Run(START, actions).log;
            && s.current.Some?
            && Messages(actions) ==
               (((s.file + Unwritten(s)) + Untaken(s)) + Concat(s.buffers)) + s.current.value
  {
    StartFilled();
    RunStaysSmall(START, actions);
    RunsAreDense(actions);
    NothingLost(actions);
  }

  /** The background thread has what it needs for its two spare buffers exactly if the
      batch, cut to two, has a buffer for each spare that is missing. */
  lemma RefillFaultsIff(s: Log)
    ensures var missing := (if s.new1.None? then 1 else 0) + (if s.new2.None? then 1 else 0);
            RefillStep(s).Fault? <==> missing > |s.batch|
    ensures RefillStep(s).Next? ==>
              var t := RefillStep(s).log;
              t.new1.Some? && t.new2.Some? && t.batch == [] && t.phase.Waiting?
              && t.current == s.current && t.next == s.next && t.buffers == s.buffers && t.file == s.file
  {
  }

  // ------------------------------------------------------- the bound is sharp

  /** Messages of one byte and of SIZE - 1 bytes in turn. */
  function InTurn(long: string, n: nat): seq<Action> {
    if n == 0 then [] else InTurn(long, n - 1) + [Append(if n % 2 == 1 then "x" else long)]
  }

  lemma {:induction false} RunSnoc(s: Log, actions: seq<Action>, a: Action)
    ensures Run(s, actions + [a]) == match Run(s, actions) { case Next(t) => Step(t, a) case o => o }
    decreases |actions|
  {
    if actions == [] {
      assert actions + [a] == [a];
      if Step(s, a).Next? {
        assert Run(Step(s, a).log, [a][1..]) == Step(s, a);
      }
    } else {
      assert (actions + [a])[0] == actions[0] && (actions + [a])[1..] == actions[1..] + [a];
      if Step(s, actions[0]).Next? {
        RunSnoc(Step(s, actions[0]).log, actions[1..], a);
      }
    }
  }

  lemma {:induction false} SinceSnoc(before: nat, actions: seq<Action>, m: string)
    requires |m| < SIZE
    ensures Since(before, actions + [Append(m)]) == Since(before, actions) + |m|
    decreases |actions|
  {
    var all := actions + [Append(m)];
    if actions == [] {
      assert all == [Append(m)] && all[1..] == [];
    } else {
      assert all[0] == actions[0] && all[1..] == actions[1..] + [Append(m)];
      match actions[0]
      case Append(k) => SinceSnoc(before + if |k| < SIZE then |k| else 0, actions[1..], m);
      case Exchange => SinceSnoc(0, actions[1..], m);
      case _ => SinceSnoc(before, actions[1..], m);
    }
  }

  lemma {:induction false} InTurnSums(long: string, n: nat)
    requires |long| == SIZE - 1
    ensures Short(InTurn(long, n)) && Since(0, InTurn(long, n)) == (n / 2) * SIZE + n % 2
  {
    if n > 0 {
      InTurnSums(long, n - 1);
      SinceSnoc(0, InTurn(long, n - 1), if n % 2 == 1 then "x" else long);
      hide Since;
    }
  }

  lemma {:induction false} InTurnRuns(long: string, n: nat)
    requires |long| == SIZE - 1 && n > 0
    ensures Run(START, InTurn(long, n)).Next?
    ensures var s := Run(START, InTurn(long, n)).log;
            Owned(s) && s.phase.Waiting? && |s.buffers| == n - 1
            && s.current == Some(if n % 2 == 1 then "x" else long)
  {
    var m := if n % 2 == 1 then "x" else long;
    RunSnoc(START, InTurn(long, n - 1), Append(m));
    if n == 1 {
      assert Run(START, []) == Next(START);
      assert "" + "x" == "x";
    } else {
      InTurnRuns(long, n - 1);
      var s := Run(START, InTurn(long, n - 1)).log;
      HandsOverIff(s, m);
      StepKeepsOwned(s, Append(m));
      assert AppendStep(s, m).log.phase == s.phase;
    }
    hide Run, InTurn;
  }

  /** With exactly 13 * SIZE bytes between two exchanges a batch may be one of 26 buffers,
      which is cut. */
  lemma BoundIsSharp(long: string)
    requires |long| == SIZE - 1
    ensures var actions := InTurn(long, 26) + [Exchange];
            && Short(InTurn(long, 26)) && Since(0, InTurn(long, 26)) == 52000000
            && Run(START, actions).Next? && |Run(START, actions).log.batch| == 26
  {
    InTurnSums(long, 26);
    InTurnRuns(long, 26);
    RunSnoc(START, InTurn(long, 26), Exchange);
    StepKeepsOwned(Run(START, InTurn(long, 26)).log, Exchange);
    hide InTurn, Run, Since;
  }

  // ------------------------------------------------- the background thread

  function WriteAll(n: nat): seq<Action> { if n == 0 then [] else [WriteOne] + WriteAll(n - 1) }

  function Cut(batch: seq<string>): seq<string> { if |batch| > 25 then batch[..2] else batch }

  lemma RunCons(s: Log, a: Action, rest: seq<Action>)
    requires Step(s, a).Next?
    ensures Run(s, [a] + rest) == Run(Step(s, a).log, rest)
  {
    assert ([a] + rest)[1..] == rest;
  }

  lemma {:induction false} WritesAll(s: Log, done: nat, rest: seq<Action>)
    requires s.phase == Writing(done) && done <= |s.batch|
    ensures Run(s, WriteAll(|s.batch| - done) + rest) ==
            Run(s.(file := s.file + Concat(s.batch[done..]), phase := Writing(|s.batch|)), rest)
    decreases |s.batch| - done
  {
    if done == |s.batch| {
      assert s.batch[done..] == [] && [] + rest == rest;
      Glue(s.file, "", "");
    } else {
      var t := s.(file := s.file + s.batch[done], phase := Writing(done + 1));
      var n := |s.batch| - done;
      assert WriteAll(n) + rest == [WriteOne] + (WriteAll(n - 1) + rest);
      RunCons(s, WriteOne, WriteAll(n - 1) + rest);
      WritesAll(t, done + 1, rest);
      assert s.batch[done..][0] == s.batch[done] && s.batch[done..][1..] == s.batch[done + 1..];
      Glue(s.file, s.batch[done], Concat(s.batch[done + 1..]));
    }
    hide Run;
  }

  /** The actions of a turn of the background thread that nobody interrupts. */
  function TurnActions(s: Log, note: string): seq<Action>
    requires s.current.Some?
  {
    [Exchange] + ([Trim(note)] + (WriteAll(|Cut(Pending(s))|) + [Refill]))
  }

  /** The turn can always be taken.  It writes everything that waits, or the note and the
      first two buffers of more than 25, and leaves both buffers and both spares empty. */
  lemma TurnIsTaken(s: Log, note: string)
    requires Owned(s) && s.phase.Waiting?
    ensures var written := (if |Pending(s)| > 25 then note else "") + Concat(Cut(Pending(s)));
            Run(s, TurnActions(s, note)) ==
            Next(s.(current := Some(""), next := Some(""), buffers := [], new1 := Some(""), new2 := Some(""),
                    file := s.file + written, batches := s.batches + [Batch(Pending(s), note)]))
  {
    TurnBegins(s, note);
    var s1 := Step(s, Exchange).log;
    var s2 := Step(s1, Trim(note)).log;
    var cut := Cut(Pending(s));
    var s3 := s2.(file := s2.file + Concat(cut), phase := Writing(|cut|));
    RefillEnds(s3);
    TurnRuns(s, s1, s2, note);
    Glue(s.file, if |Pending(s)| > 25 then note else "", Concat(cut));
    hide *;
  }

  lemma TurnRuns(s: Log, s1: Log, s2: Log, note: string)
    requires Step(s, Exchange) == Next(s1) && Step(s1, Trim(note)) == Next(s2) && s2.phase == Writing(0)
    requires Step(s2.(file := s2.file + Concat(s2.batch), phase := Writing(|s2.batch|)), Refill).Next?
    ensures Run(s, [Exchange] + ([Trim(note)] + (WriteAll(|s2.batch|) + [Refill]))) ==
            Step(s2.(file := s2.file + Concat(s2.batch), phase := Writing(|s2.batch|)), Refill)
  {
    hide Step;
    var n := |s2.batch|;
    RunCons(s, Exchange, [Trim(note)] + (WriteAll(n) + [Refill]));
    RunCons(s1, Trim(note), WriteAll(n) + [Refill]);
    assert s2.batch[0..] == s2.batch;
    WritesAll(s2, 0, [Refill]);
    RunLast(s2.(file := s2.file + Concat(s2.batch), phase := Writing(n)), Refill);
    hide Run, WriteAll, Concat;
  }

  lemma TurnBegins(s: Log, note: string)
    requires Owned(s) && s.phase.Waiting?
    ensures Step(s, Exchange).Next? && Step(Step(s, Exchange).log, Trim(note)).Next?
    ensures var t := Step(Step(s, Exchange).log, Trim(note)).log;
            && Owned(t) && t.phase == Writing(0) && t.batch == Cut(Pending(s)) && t.buffers == []
            && t.current == Some("") && t.next == Some("") && t.accepted == s.accepted
            && t.file == s.file + (if |Pending(s)| > 25 then note else "")
            && t.batches == s.batches + [Batch(Pending(s), note)]
  {
    StepKeepsOwned(s, Exchange);
    StepKeepsOwned(Step(s, Exchange).log, Trim(note));
    Glue(s.file, "", "");
  }

  lemma RefillEnds(s: Log)
    requires Owned(s) && s.phase == Writing(|s.batch|)
    ensures Step(s, Refill) ==
            Next(s.(new1 := Some(""), new2 := Some(""), batch := [], phase := Waiting))
  {
    RefillFaultsIff(s);
  }

  lemma RunLast(s: Log, a: Action)
    requires Step(s, a).Next?
    ensures Run(s, [a]) == Step(s, a)
  {
    RunCons(s, a, []);
    assert [a] + [] == [a];
  }

  /** stop() ends the thread where it would wait, and nothing is taken any more. */
  lemma StopEnds(s: Log, a: Action)
    ensures s.phase.Waiting? ==> Step(s, Stop) == Next(s.(phase := Stopped))
    ensures s.phase.Stopped? && !a.Append? ==> Step(s, a).Disabled?
  {
  }

  /** The buffers that the pointers and vectors own. */
  function Held(s: Log): nat {
    |s.buffers| + |s.batch| + (if s.current.Some? then 1 else 0) + (if s.next.Some? then 1 else 0)
    + (if s.new1.Some? then 1 else 0) + (if s.new2.Some? then 1 else 0)
  }

  /** No buffer is owned twice: append makes one if it hands over without a next one, and
      the exchange only moves them. */
  lemma BuffersAreMoved(s: Log, msg: string)
    requires Owned(s)
    ensures Held(AppendStep(s, msg).log) ==
            Held(s) + if |s.current.value| + |msg| >= SIZE && s.next.None? then 1 else 0
    ensures s.phase.Waiting? ==> Held(ExchangeStep(s).log) == Held(s)
  {
  }
}
