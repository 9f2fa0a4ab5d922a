/** The order in which messages of several threads are streamed. */
module TcpSends {
  import opened Text
  import opened TcpConnection

  /** A message that send was given while connected, in the loop's thread or in another
      one, and a message that the loop took from its queue. */
  datatype Given = Direct(msg: string) | Posted(msg: string) | Taken(msg: string)

  function GivenBy(s: Conn, a: Action): seq<Given> {
    match a
    case Send(msg, _) => if s.state.Connected? then [Direct(msg)] else []
    case PostSend(msg) => if s.state.Connected? then [Posted(msg)] else []
    case RunTask(_) => if s.tasks != [] && s.tasks[0].SendTask? then [Taken(s.tasks[0].msg)] else []
    case _ => []
  }

  function AllGiven(s: Conn, actions: seq<Action>): seq<Given>
    requires Run(s, actions).Some?
    decreases |actions|
  {
    if actions == [] then []
    else GivenBy(s, actions[0]) + AllGiven(Step(s, actions[0]).value, actions[1..])
  }

  function PostedOf(gs: seq<Given>): seq<string> {
    if gs == [] then [] else (if gs[0].Posted? then [gs[0].msg] else []) + PostedOf(gs[1..])
  }

  function TakenOf(gs: seq<Given>): seq<string> {
    if gs == [] then [] else (if gs[0].Taken? then [gs[0].msg] else []) + TakenOf(gs[1..])
  }

  /** The messages that go to the stream, in order. */
  function StreamedOf(gs: seq<Given>): seq<string> {
    if gs == [] then [] else (if gs[0].Posted? then [] else [gs[0].msg]) + StreamedOf(gs[1..])
  }

  function QueuedOf(tasks: seq<Task>): seq<string> {
    if tasks == [] then [] else (if tasks[0].SendTask? then [tasks[0].msg] else []) + QueuedOf(tasks[1..])
  }

  function MessagesOf(sends: seq<Sent>): seq<string> {
    if sends == [] then [] else [sends[0].msg] + MessagesOf(sends[1..])
  }

  lemma {:induction false} QueuedSnoc(tasks: seq<Task>, t: Task)
    ensures QueuedOf(tasks + [t]) == QueuedOf(tasks) + (if t.SendTask? then [t.msg] else [])
  {
    if tasks == [] {
      assert tasks + [t] == [t] && [t][1..] == [];
    } else {
      QueuedSnoc(tasks[1..], t);
      assert (tasks + [t])[1..] == tasks[1..] + [t];
    }
  }

  lemma {:induction false} MessagesSnoc(sends: seq<Sent>, x: Sent)
    ensures MessagesOf(sends + [x]) == MessagesOf(sends) + [x.msg]
  {
    if sends == [] {
      assert sends + [x] == [x] && [x][1..] == [];
    } else {
      MessagesSnoc(sends[1..], x);
      assert (sends + [x])[1..] == sends[1..] + [x];
    }
  }

  lemma GivenOne(g: Given, gs: seq<Given>)
    ensures PostedOf([g] + gs) == (if g.Posted? then [g.msg] else []) + PostedOf(gs)
    ensures TakenOf([g] + gs) == (if g.Taken? then [g.msg] else []) + TakenOf(gs)
    ensures StreamedOf([g] + gs) == (if g.Posted? then [] else [g.msg]) + StreamedOf(gs)
  {
    assert ([g] + gs)[1..] == gs;
  }

  /** What one step does to the queue and to the stream. */
  lemma StepGives(s: Conn, a: Action)
    requires Step(s, a).Some?
    ensures var t, gs := Step(s, a).value, GivenBy(s, a);
            && |gs| <= 1
            && (gs == [] ==> QueuedOf(t.tasks) == QueuedOf(s.tasks) && t.sends == s.sends)
            && (gs != [] ==> match gs[0]
                  case Direct(m) => t.tasks == s.tasks && MessagesOf(t.sends) == MessagesOf(s.sends) + [m]
                  case Posted(m) => QueuedOf(t.tasks) == QueuedOf(s.tasks) + [m] && t.sends == s.sends
                  case Taken(m) => QueuedOf(s.tasks) == [m] + QueuedOf(t.tasks)
                                   && MessagesOf(t.sends) == MessagesOf(s.sends) + [m])
  {
    var t := Step(s, a).value;
    if a.PostSend? {
      QueuedSnoc(s.tasks, SendTask(a.msg));
    } else if a.PostShutdown? {
      QueuedSnoc(s.tasks, ShutdownTask);
    } else if |t.sends| > |s.sends| {
      MessagesSnoc(s.sends, t.sends[|s.sends|]);
    }
  }

  /** Over every run: what other threads posted while connected is, in order, what the
      loop has taken and what is still queued; and the stream is what was sent directly
      and what was taken, in the order in which the loop did either. */
  lemma {:induction false} RunGives(s: Conn, actions: seq<Action>)
    requires Run(s, actions).Some?
    ensures var t, gs := Run(s, actions).value, AllGiven(s, actions);
            && QueuedOf(s.tasks) + PostedOf(gs) == TakenOf(gs) + QueuedOf(t.tasks)
            && MessagesOf(t.sends) == MessagesOf(s.sends) + StreamedOf(gs)
    decreases |actions|
  {
    if actions == [] {
      Glue(QueuedOf(s.tasks), [], []);
      Glue(MessagesOf(s.sends), [], []);
    } else {
      StepGives(s, actions[0]);
      var t := Step(s, actions[0]).value;
      hide Step;
      RunGives(t, actions[1..]);
      var gs := AllGiven(t, actions[1..]);
      if GivenBy(s, actions[0]) == [] {
        Glue(gs, [], []);
      } else {
        var g := GivenBy(s, actions[0])[0];
        assert GivenBy(s, actions[0]) == [g];
        GivenOne(g, gs);
        RestGives(s, t, Run(s, actions).value, g, gs);
      }
    }
  }

  lemma RestGives(s: Conn, t: Conn, u: Conn, g: Given, gs: seq<Given>)
    requires QueuedOf(t.tasks) + PostedOf(gs) == TakenOf(gs) + QueuedOf(u.tasks)
    requires MessagesOf(u.sends) == MessagesOf(t.sends) + StreamedOf(gs)
    requires match g
             case Direct(m) => t.tasks == s.tasks && MessagesOf(t.sends) == MessagesOf(s.sends) + [m]
             case Posted(m) => QueuedOf(t.tasks) == QueuedOf(s.tasks) + [m] && t.sends == s.sends
             case Taken(m) => QueuedOf(s.tasks) == [m] + QueuedOf(t.tasks)
                              && MessagesOf(t.sends) == MessagesOf(s.sends) + [m]
    ensures QueuedOf(s.tasks) + PostedOf([g] + gs) == TakenOf([g] + gs) + QueuedOf(u.tasks)
    ensures MessagesOf(u.sends) == MessagesOf(s.sends) + StreamedOf([g] + gs)
  {
    GivenOne(g, gs);
    Glue(QueuedOf(s.tasks), [g.msg], PostedOf(gs));
    Glue([g.msg], QueuedOf(t.tasks), PostedOf(gs));
    Glue([g.msg], TakenOf(gs), QueuedOf(u.tasks));
    Glue(MessagesOf(s.sends), [g.msg], StreamedOf(gs));
    Glue(StreamedOf(gs), [], []);
    Glue(PostedOf(gs), [], []);
    Glue(TakenOf(gs), [], []);
    hide QueuedOf, PostedOf, TakenOf, StreamedOf, MessagesOf;
  }

  /** Over every run from the start; with EverySendStreams this says what the peer is
      sent, and in what order. */
  lemma PostedInOrder(actions: seq<Action>)
    requires Run(START, actions).Some?
    ensures var s, gs := Run(START, actions).value, AllGiven(START, actions);
            && PostedOf(gs) == TakenOf(gs) + QueuedOf(s.tasks)
            && MessagesOf(s.sends) == StreamedOf(gs)
  {
    RunGives(START, actions);
    Glue(PostedOf(AllGiven(START, actions)), [], []);
    Glue(StreamedOf(AllGiven(START, actions)), [], []);
  }

  /** After a shutdown or the end of the connection nothing more is taken in, from any
      thread, and neither shuts it down again. */
  lemma NothingTakenIn(s: Conn, a: Action)
    requires s.state.Disconnecting? || s.state.Disconnected?
    requires a.Send? || a.PostSend? || a.Shutdown? || a.PostShutdown?
    ensures Step(s, a) == Some(s)
  {
  }

  lemma EndsTakingIn(s: Conn, a: Action)
    requires a.Shutdown? || a.PostShutdown? || a.Destroy?
    ensures Step(s, a).Some?
    ensures var t := Step(s, a).value;
            && t.state == (if a.Destroy? then Disconnected
                           else if s.state.Connected? then Disconnecting else s.state)
            && t.out == s.out && t.wire == s.wire && t.sends == s.sends && t.writing == s.writing
  {
  }
}
