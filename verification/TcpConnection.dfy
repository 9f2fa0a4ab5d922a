/** The output side of a connection: bytes to send, the interest in writing and the
    closing of the write side, for every run of its loop.  What a call to write(2)
    returns is a parameter. */
module TcpConnection {
  import opened Text

  datatype State = Connecting | Connected | Disconnecting | Disconnected

  /** What another thread leaves for the loop to do. */
  datatype Task = SendTask(msg: string) | ShutdownTask

  /** A message and how much of it the direct write took. */
  datatype Sent = Sent(msg: string, took: nat)

  datatype Conn = Conn(
    state: State,
    writing: bool,        // the channel's interest in writing
    out: string,          // outputBuffer_
    tasks: seq<Task>,     // the functors queued in the loop
    wire: string,         // what the socket took
    closes: nat,          // how often shutdownWrite was called
    sends: seq<Sent>,     // the calls of sendInLoop
    posted: nat)          // how many shutdowns were left to the loop by other threads

  datatype Action =
    | Establish
    | Send(msg: string, n: int)     // in the loop's thread
    | PostSend(msg: string)         // in another one
    | Shutdown
    | PostShutdown
    | RunTask(n: int)
    | HandleWrite(n: int)
    | Destroy

  /** What write may return for this data: no more than it was given, a negative number
      for an error, and once the write side is closed nothing but errors. */
  predicate MayWrite(s: Conn, data: string, n: int) {
    n <= |data| && (s.closes > 0 && data != "" ==> n < 0)
  }

  function Buffered(s: Conn, tail: string): Conn { s.(out := s.out + tail, writing := true) }

  function SendStep(s: Conn, msg: string, n: int): Option<Conn> {
    var direct := !s.writing && s.out == "";
    if direct && !MayWrite(s, msg, n) then None
    else
      var took := if direct && n >= 0 then n else 0;
      var t := s.(wire := s.wire + msg[..took], sends := s.sends + [Sent(msg, took)]);
      // the tail is buffered by each of two tests that hold together
      var u := if |msg| - took > 0 then Buffered(t, msg[took..]) else t;
      Some(if took < |msg| then Buffered(u, msg[took..]) else u)
  }

  function ShutdownStep(s: Conn): Conn { if s.writing then s else s.(closes := s.closes + 1) }

  function Written(s: Conn, n: int): Option<Conn> {
    if !s.writing then Some(s)
    else if !MayWrite(s, s.out, n) then None
    else if n <= 0 then Some(s)
    else
      var t := s.(wire := s.wire + s.out[..n], out := s.out[n..]);
      if t.out != "" then Some(t)
      else
        var u := t.(writing := false);
        Some(if u.state.Disconnecting? then ShutdownStep(u) else u)
  }

  /** One step; None where it cannot be taken. */
  function Step(s: Conn, a: Action): Option<Conn> {
    match a
    case Establish => if s.state.Connecting? then Some(s.(state := Connected)) else None
    case Send(msg, n) => if s.state.Connected? then SendStep(s, msg, n) else Some(s)
    case PostSend(msg) =>
      Some(if s.state.Connected? then s.(tasks := s.tasks + [SendTask(msg)]) else s)
    case Shutdown => Some(if s.state.Connected? then ShutdownStep(s.(state := Disconnecting)) else s)
    case PostShutdown =>
      Some(if s.state.Connected? then
             s.(state := Disconnecting, tasks := s.tasks + [ShutdownTask], posted := s.posted + 1)
           else s)
    case RunTask(n) =>
      if s.tasks == [] then None
      else
        var t := s.(tasks := s.tasks[1..]);
        match s.tasks[0] {
          case SendTask(msg) => SendStep(t, msg, n)
          case ShutdownTask => Some(ShutdownStep(t))
        }
    case HandleWrite(n) => Written(s, n)
    case Destroy => Some(s.(state := Disconnected))
  }

  function Run(s: Conn, actions: seq<Action>): Option<Conn>
    decreases |actions|
  {
    if actions == [] then Some(s)
    else match Step(s, actions[0])
         case None => None
         case Some(t) => Run(t, actions[1..])
  }

  const START := Conn(Connecting, false, "", [], "", 0, [], 0)

  // -------------------------------------------------------------- interest

  /** How many tasks are shutdowns. */
  function Shutdowns(tasks: seq<Task>): nat {
    if tasks == [] then 0 else (if tasks[0].ShutdownTask? then 1 else 0) + Shutdowns(tasks[1..])
  }

  lemma {:induction false} ShutdownsSnoc(tasks: seq<Task>, task: Task)
    ensures Shutdowns(tasks + [task]) == Shutdowns(tasks) + Shutdowns([task])
    decreases |tasks|
  {
    if tasks == [] {
      assert tasks + [task] == [task];
    } else {
      assert (tasks + [task])[0] == tasks[0] && (tasks + [task])[1..] == tasks[1..] + [task];
      ShutdownsSnoc(tasks[1..], task);
    }
  }

  /** Interest in writing is on exactly while there is something to write.  The write
      side is open before shutdown, closed once it is asked for and nothing is left,
      and not closed again, unless another thread asked for it. */
  predicate Inv(s: Conn) {
    && (s.writing <==> s.out != "")
    && s.posted <= 1
    && Shutdowns(s.tasks) <= s.posted
    && s.closes + Shutdowns(s.tasks) <= 1 + s.posted
    && (s.state.Connecting? || s.state.Connected? ==> s.closes == 0 && s.posted == 0)
    && (s.state.Disconnecting? && s.out == "" ==> s.closes + Shutdowns(s.tasks) >= 1)
  }

  lemma StepKeeps(s: Conn, a: Action)
    requires Inv(s) && Step(s, a).Some?
    ensures Inv(Step(s, a).value)
    ensures Step(s, a).value.closes > s.closes ==>
              Step(s, a).value.closes == s.closes + 1 && Step(s, a).value.out == ""
  {
    if a.PostSend? {
      ShutdownsSnoc(s.tasks, SendTask(a.msg));
    } else if a.PostShutdown? {
      ShutdownsSnoc(s.tasks, ShutdownTask);
    }
  }

  lemma {:induction false} RunKeeps(s: Conn, actions: seq<Action>)
    requires Inv(s) && Run(s, actions).Some?
    ensures Inv(Run(s, actions).value)
    decreases |actions|
  {
    if actions != [] {
      StepKeeps(s, actions[0]);
      RunKeeps(Step(s, actions[0]).value, actions[1..]);
    }
  }

  /** Over every run: the interest in writing is on exactly when outputBuffer_ is not
      empty. */
  lemma InterestIsExact(actions: seq<Action>)
    requires Run(START, actions).Some?
    ensures var s := Run(START, actions).value; s.writing <==> s.out != ""
  {
    RunKeeps(START, actions);
  }

  predicate InLoop(actions: seq<Action>) { forall a <- actions :: !a.PostShutdown? }

  lemma {:induction false} InLoopPosts(s: Conn, actions: seq<Action>)
    requires Inv(s) && s.posted == 0 && InLoop(actions) && Run(s, actions).Some?
    ensures Run(s, actions).value.posted == 0
    decreases |actions|
  {
    if actions != [] {
      StepKeeps(s, actions[0]);
      assert !actions[0].PostShutdown?;
      InLoopPosts(Step(s, actions[0]).value, actions[1..]);
    }
  }

  /** Over every run in which shutdown is called in the loop's thread, the write side
      is closed at most once, never before shutdown, and as soon as shutdown was called
      and nothing is left to write. */
  lemma ClosedOnce(actions: seq<Action>)
    requires InLoop(actions) && Run(START, actions).Some?
    ensures var s := Run(START, actions).value;
            && s.closes <= 1
            && (s.state.Connecting? || s.state.Connected? ==> s.closes == 0)
            && (s.state.Disconnecting? && s.out == "" ==> s.closes == 1)
  {
    RunKeeps(START, actions);
    InLoopPosts(START, actions);
  }

  /** And only by a step that leaves nothing to write. */
  lemma ClosedEmpty(actions: seq<Action>, a: Action)
    requires Run(START, actions).Some? && Step(Run(START, actions).value, a).Some?
    ensures var s, t := Run(START, actions).value, Step(Run(START, actions).value, a).value;
            t.closes != s.closes ==> t.closes == s.closes + 1 && t.out == "" && !t.writing
  {
    RunKeeps(START, actions);
    StepKeeps(Run(START, actions).value, a);
  }

  // ------------------------------------------ a shutdown from another thread

  /** Something is buffered, or is queued to be sent. */
  predicate Busy(s: Conn) { s.out != "" || Queued(s.tasks) }

  predicate Queued(tasks: seq<Task>) { exists i :: 0 <= i < |tasks| && tasks[i].SendTask? && tasks[i].msg != "" }

  /** Nothing to write comes any more, and at most one closing is left. */
  predicate Idle(s: Conn) {
    && !Busy(s) && !s.writing && (s.state.Disconnecting? || s.state.Disconnected?)
    && s.closes + Shutdowns(s.tasks) <= 1
  }

  lemma StepIdles(s: Conn, a: Action)
    requires Idle(s) && Step(s, a).Some?
    ensures Idle(Step(s, a).value)
  {
    if a.RunTask? {
      var rest := s.tasks[1..];
      assert forall i :: 0 <= i < |rest| ==> rest[i] == s.tasks[i + 1];
      assert s.tasks[0].SendTask? ==> s.tasks[0].msg == "";
    }
  }

  lemma {:induction false} RunIdles(s: Conn, actions: seq<Action>)
    requires Idle(s) && Run(s, actions).Some?
    ensures Run(s, actions).value.closes <= 1
    decreases |actions|
  {
    if actions != [] {
      StepIdles(s, actions[0]);
      RunIdles(Step(s, actions[0]).value, actions[1..]);
    }
  }

  function Repeat(n: nat, a: Action): seq<Action> { if n == 0 then [] else [a] + Repeat(n - 1, a) }

  lemma {:induction false} RunConcat(s: Conn, a: seq<Action>, b: seq<Action>)
    ensures Run(s, a + b) == match Run(s, a) { case None => None case Some(t) => Run(t, b) }
    decreases |a|
  {
    if a == [] {
      assert a + b == b;
    } else {
      assert (a + b)[0] == a[0] && (a + b)[1..] == a[1..] + b;
      if Step(s, a[0]).Some? {
        RunConcat(Step(s, a[0]).value, a[1..], b);
      }
    }
  }

  lemma RunOne(s: Conn, a: Action)
    ensures Run(s, [a]) == Step(s, a)
  {
    if Step(s, a).Some? {
      assert Run(Step(s, a).value, [a][1..]) == Step(s, a);
    }
  }

  /** The loop runs the sends queued before the shutdown, with writes that take nothing. */
  lemma {:induction false} SendsBuffer(s: Conn, sends: seq<Task>)
    requires s.state.Disconnecting? && s.closes == 0 && Inv(s)
    requires s.tasks == sends + [ShutdownTask] && Shutdowns(sends) == 0
    ensures var t := Run(s, Repeat(|sends|, RunTask(0)));
            && t.Some? && t.value.state.Disconnecting? && t.value.closes == 0 && Inv(t.value)
            && t.value.tasks == [ShutdownTask]
            && (s.out != "" || Queued(sends) ==> t.value.out != "")
    decreases |sends|
  {
    if sends == [] {
      assert sends + [ShutdownTask] == [ShutdownTask];
    } else {
      assert s.tasks[0] == sends[0] && s.tasks[1..] == sends[1..] + [ShutdownTask];
      StepKeeps(s, RunTask(0));
      var t := Step(s, RunTask(0)).value;
      SendsBuffer(t, sends[1..]);
      assert Repeat(|sends|, RunTask(0))[1..] == Repeat(|sends| - 1, RunTask(0));
      if Queued(sends) && sends[0].msg == "" {
        var i :| 0 <= i < |sends| && sends[i].SendTask? && sends[i].msg != "";
        assert sends[1..][i - 1] == sends[i];
      }
    }
  }

  /** How the write side comes to be closed twice: the loop runs the queued sends, then
      handleWrite drains the buffer and closes, and then the loop runs the shutdown. */
  function TwiceActions(s: Conn, length: nat): seq<Action> {
    (([PostShutdown] + Repeat(|s.tasks|, RunTask(0))) + [HandleWrite(length)]) + [RunTask(0)]
  }

  lemma BusyClosesTwice(s: Conn) returns (length: nat)
    requires Inv(s) && s.state.Connected? && Busy(s)
    ensures Run(s, TwiceActions(s, length)).Some? && Run(s, TwiceActions(s, length)).value.closes == 2
  {
    var s1 := Step(s, PostShutdown).value;
    StepKeeps(s, PostShutdown);
    SendsBuffer(s1, s.tasks);
    var sends := Repeat(|s.tasks|, RunTask(0));
    var s2 := Run(s1, sends).value;
    length := |s2.out|;
    var s3 := Step(s2, HandleWrite(length)).value;
    RunOne(s, PostShutdown);
    RunConcat(s, [PostShutdown], sends);
    RunConcat(s, [PostShutdown] + sends, [HandleWrite(length)]);
    RunConcat(s, ([PostShutdown] + sends) + [HandleWrite(length)], [RunTask(0)]);
    RunOne(s2, HandleWrite(length));
    RunOne(s3, RunTask(0));
  }

  /** Some later run closes the write side twice. */
  ghost predicate MayCloseTwice(s: Conn) {
    exists actions :: Run(s, actions).Some? && Run(s, actions).value.closes >= 2
  }

  lemma {:induction false} NoShutdowns(tasks: seq<Task>)
    requires Shutdowns(tasks) == 0
    ensures forall i :: 0 <= i < |tasks| ==> tasks[i].SendTask?
  {
    if tasks != [] {
      NoShutdowns(tasks[1..]);
    }
  }

  /** In any state a run reaches in which the connection stands, a shutdown from another
      thread can close the write side twice if and only if something is buffered or a
      message that is not empty is queued. */
  lemma PostedShutdownIff(actions: seq<Action>)
    requires Run(START, actions).Some? && Run(START, actions).value.state.Connected?
    ensures var s := Run(START, actions).value;
            MayCloseTwice(Step(s, PostShutdown).value) <==> Busy(s)
  {
    RunKeeps(START, actions);
    var s := Run(START, actions).value;
    var t := Step(s, PostShutdown).value;
    if Busy(s) {
      var length := BusyClosesTwice(s);
      var more := TwiceActions(s, length);
      assert more[0] == PostShutdown && Run(t, more[1..]) == Run(s, more);
    } else {
      NoShutdowns(s.tasks);
      ShutdownsSnoc(s.tasks, ShutdownTask);
      assert Idle(t);
      forall later | Run(t, later).Some? ensures Run(t, later).value.closes <= 1 {
        RunIdles(t, later);
      }
    }
  }

  /** The shortest such run: one byte that a short write left, or rather wrote twice. */
  lemma PostedShutdownClosesTwice()
    ensures var t := Run(START, [Establish, Send("a", 0), PostShutdown, HandleWrite(2), RunTask(0)]);
            t.Some? && t.value.closes == 2
  {
    var s1 := Step(START, Establish).value;
    var s2 := Step(s1, Send("a", 0)).value;
    assert s2.out == "aa" && s2.writing;
    var s3 := Step(s2, PostShutdown).value;
    var s4 := Step(s3, HandleWrite(2)).value;
    assert s4.out == "" && s4.closes == 1;
    var s5 := Step(s4, RunTask(0)).value;
    var all := [Establish, Send("a", 0), PostShutdown, HandleWrite(2), RunTask(0)];
    assert Run(s5, all[1..][1..][1..][1..][1..]) == Some(s5);
    assert Run(s4, all[1..][1..][1..][1..]) == Some(s5);
    assert Run(s3, all[1..][1..][1..]) == Some(s5);
    assert Run(s2, all[1..][1..]) == Some(s5);
    assert Run(s1, all[1..]) == Some(s5);
  }

  // ------------------------------------------------------------- the bytes

  /** All the bytes the connection has taken on: those written and those buffered. */
  function Stream(s: Conn): string { s.wire + s.out }

  function Tail(x: Sent): string { if x.took <= |x.msg| then x.msg[x.took..] else "" }

  /** The messages, each followed by the tail the direct write left. */
  function Streamed(sends: seq<Sent>): string {
    if sends == [] then ""
    else
      var x := sends[|sends| - 1];
      Streamed(sends[..|sends| - 1]) + (x.msg + Tail(x))
  }

  function Messages(sends: seq<Sent>): string {
    if sends == [] then "" else Messages(sends[..|sends| - 1]) + sends[|sends| - 1].msg
  }

  lemma Cut(msg: string, n: nat)
    requires n <= |msg|
    ensures msg[..n] + msg[n..] == msg && msg[|msg|..] == ""
  {
  }

  /** handleWrite moves bytes from the buffer to the wire and changes neither. */
  lemma WriteConserves(s: Conn, n: int)
    requires Written(s, n).Some?
    ensures Stream(Written(s, n).value) == Stream(s) && Written(s, n).value.sends == s.sends
  {
    if s.writing && n > 0 {
      Cut(s.out, n);
      Glue(s.wire, s.out[..n], s.out[n..]);
    }
  }

  lemma SendStreams(s: Conn, msg: string, n: int)
    requires s.writing <==> s.out != ""
    requires SendStep(s, msg, n).Some?
    ensures var t := SendStep(s, msg, n).value;
            var x := t.sends[|t.sends| - 1];
            && t.sends == s.sends + [x] && x.msg == msg && x.took <= |msg|
            && Stream(t) == Stream(s) + (msg + Tail(x))
  {
    var t := SendStep(s, msg, n).value;
    var took := t.sends[|t.sends| - 1].took;
    var head, tail := msg[..took], msg[took..];
    Cut(msg, took);
    if s.out == "" {
      // head and twice the tail, if there is one
      Glue(s.wire, "", "");
      Glue(s.wire, head, tail);
      Glue(s.wire, head + tail, tail);
      Glue(s.wire + head, tail, tail);
      Glue(msg, "", "");
      Glue(tail, "", "");
    } else {
      Glue(s.out, msg, msg);
      Glue(s.wire, s.out, msg + msg);
      Glue(s.wire, "", "");
    }
  }

  lemma StreamedSnoc(sends: seq<Sent>, x: Sent)
    ensures Streamed(sends + [x]) == Streamed(sends) + (x.msg + Tail(x))
  {
    assert (sends + [x])[..|sends|] == sends;
  }

  predicate Streams(s: Conn) {
    (s.writing <==> s.out != "") && Stream(s) == Streamed(s.sends)
  }

  lemma SendKeeps(s: Conn, msg: string, n: int)
    requires Streams(s) && SendStep(s, msg, n).Some?
    ensures Stream(SendStep(s, msg, n).value) == Streamed(SendStep(s, msg, n).value.sends)
  {
    SendStreams(s, msg, n);
    var t := SendStep(s, msg, n).value;
    StreamedSnoc(s.sends, t.sends[|t.sends| - 1]);
  }

  lemma StepStreams(s: Conn, a: Action)
    requires Inv(s) && Streams(s) && Step(s, a).Some?
    ensures Streams(Step(s, a).value)
  {
    StepKeeps(s, a);
    match a
    case Send(msg, n) =>
      if s.state.Connected? {
        SendKeeps(s, msg, n);
      }
    case RunTask(n) =>
      if s.tasks[0].SendTask? {
        SendKeeps(s.(tasks := s.tasks[1..]), s.tasks[0].msg, n);
      }
    case HandleWrite(n) => WriteConserves(s, n);
    case _ =>
  }

  lemma {:induction false} RunStreams(s: Conn, actions: seq<Action>)
    requires Inv(s) && Streams(s) && Run(s, actions).Some?
    ensures Streams(Run(s, actions).value)
    decreases |actions|
  {
    if actions != [] {
      StepKeeps(s, actions[0]);
      StepStreams(s, actions[0]);
      RunStreams(Step(s, actions[0]).value, actions[1..]);
    }
  }

  /** Over every run, what is written and what is buffered are together the messages in
      the order they were sent, each followed once more by the tail that the direct
      write did not take. */
  lemma EverySendStreams(actions: seq<Action>)
    requires Run(START, actions).Some?
    ensures var s := Run(START, actions).value; Stream(s) == Streamed(s.sends)
  {
    RunStreams(START, actions);
  }

  predicate Whole(sends: seq<Sent>) { forall x <- sends :: Tail(x) == "" }

  lemma {:induction false} StreamedIsExact(sends: seq<Sent>)
    ensures Whole(sends) ==> Streamed(sends) == Messages(sends)
    ensures !Whole(sends) ==> |Streamed(sends)| > |Messages(sends)|
    ensures |Streamed(sends)| >= |Messages(sends)|
  {
    if sends != [] {
      var front, x := sends[..|sends| - 1], sends[|sends| - 1];
      StreamedIsExact(front);
      assert sends == front + [x];
      Glue(x.msg, "", "");
    }
  }

  /** So a run delivers exactly its messages if and only if every direct write took its
      message whole, which it cannot while anything is buffered. */
  lemma ExactIffWhole(actions: seq<Action>)
    requires Run(START, actions).Some?
    ensures var s := Run(START, actions).value;
            Stream(s) == Messages(s.sends) <==> Whole(s.sends)
  {
    RunStreams(START, actions);
    StreamedIsExact(Run(START, actions).value.sends);
  }

  /** A short write, for which it fails: the peer reads the tail twice. */
  lemma ShortWriteRepeats()
    ensures var s := START.(state := Connected);
            var t := SendStep(s, "ab", 1);
            t.Some? && Stream(t.value) == "abb"
  {
    var t := SendStep(START.(state := Connected), "ab", 1).value;
    assert t.wire == "a" && t.out == "bb";
  }

  // ------------------------------------------------------------- the object

  /** The object; the socket and the loop's queue are fields. */
  class TcpConnection {
    var state: State
    var writing: bool
    var outputBuffer: string
    var tasks: seq<Task>
    var wire: string
    var closes: nat
    ghost var sends: seq<Sent>
    ghost var posted: nat

    ghost function Value(): Conn
      reads this
    {
      Conn(state, writing, outputBuffer, tasks, wire, closes, sends, posted)
    }

    constructor ()
      ensures Value() == START
    {
      state, writing, outputBuffer, tasks, wire, closes := Connecting, false, "", [], "", 0;
      sends, posted := [], 0;
    }

    /** n is what the direct write returns, if there is one. */
    method SendInLoop(message: string, n: int)
      requires !writing && outputBuffer == "" ==> MayWrite(Value(), message, n)
      modifies this`writing, this`outputBuffer, this`wire, this`sends
      ensures Some(Value()) == SendStep(old(Value()), message, n)
    {
      var remaining, took: nat := |message|, 0;
      if !writing && outputBuffer == "" {
        if n >= 0 {
          took := n;
          wire := wire + message[..n];
          remaining := remaining - n;
        }
      }
      Glue(old(wire), "", "");
      sends := sends + [Sent(message, took)];
      if remaining > 0 {
        outputBuffer := outputBuffer + message[took..];
        if !writing {
          writing := true;
        }
      }
      if took < |message| {
        // the second test, which finds the interest on already
        assert writing;
        outputBuffer := outputBuffer + message[took..];
      }
    }

    method HandleWrite(n: int)
      requires writing ==> MayWrite(Value(), outputBuffer, n)
      modifies this`writing, this`outputBuffer, this`wire, this`closes
      ensures Some(Value()) == Written(old(Value()), n)
    {
      if writing {
        if n > 0 {
          wire := wire + outputBuffer[..n];
          outputBuffer := outputBuffer[n..];
          if outputBuffer == "" {
            writing := false;
            if state.Disconnecting? {
              ShutdownInLoop();
            }
          }
        }
      }
    }

    method ShutdownInLoop()
      modifies this`closes
      ensures Value() == ShutdownStep(old(Value()))
    {
      if !writing {
        closes := closes + 1;
      }
    }

    /** In the loop's thread. */
    method Shutdown()
      modifies this`state, this`closes
      ensures Some(Value()) == Step(old(Value()), Action.Shutdown)
    {
      if state.Connected? {
        state := Disconnecting;
        ShutdownInLoop();
      }
    }
  }
}
