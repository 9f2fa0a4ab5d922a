/** The timer queue: an ordered set of timers against one timerfd, for every order in
    which time passes, timers are added and callbacks run. Times are microseconds. */
module TimerQueue {
  import opened Text

  const MICROS: int := 1000000  // kMicroSecondsPerSecond
  const MIN_WAIT: int := 100

  type Id = nat  // the address of a timer, which may be used again once it is deleted

  /** `serial` says which of all timers ever added it is. */
  datatype Timer = Timer(expiration: int, interval: real, serial: nat) {
    predicate Repeat() { interval > 0.0 }

    /** The microseconds addTime adds for the interval. */
    function Delta(): (d: int)
      ensures Repeat() ==> 0 <= d
    {
      (interval * MICROS as real).Floor
    }
  }

  datatype Entry = Entry(time: int, id: Id)

  predicate Less(a: Entry, b: Entry) { a.time < b.time || (a.time == b.time && a.id < b.id) }

  // ----------------------------------------------------------- the timerfd

  /** Armed at a time for an expiration. */
  datatype Arm = Arm(due: int, at: int) {
    function Deadline(): int { at + Wait(due, at) }
  }

  /** The microseconds to wait for `when`, never less than the minimum. */
  function Wait(when: int, now: int): (m: int)
    ensures m >= MIN_WAIT && now + m >= when && (m == MIN_WAIT || now + m == when)
  {
    if when - now < MIN_WAIT then MIN_WAIT else when - now
  }

  datatype TimeSpec = TimeSpec(sec: int, nsec: int)

  function HowMuchTimeFromNow(when: int, now: int): (ts: TimeSpec)
    ensures ts.sec * 1000000000 + ts.nsec == Wait(when, now) * 1000
    ensures 0 <= ts.nsec < 1000000000 && (ts.sec > 0 || ts.nsec > 0)
  {
    var m := Wait(when, now);
    TimeSpec(m / MICROS, (m % MICROS) * 1000)
  }

  // ----------------------------------------------------------- the ordered set

  predicate Sorted(list: seq<Entry>) { forall i, j :: 0 <= i < j < |list| ==> Less(list[i], list[j]) }

  function Insert(list: seq<Entry>, e: Entry): seq<Entry> {
    if list == [] || Less(e, list[0]) then [e] + list else [list[0]] + Insert(list[1..], e)
  }

  /** How many entries come before a sentry at `now` that is last of its time. */
  function Expired(list: seq<Entry>, now: int): (n: nat)
    ensures n <= |list|
  {
    if list == [] || now < list[0].time then 0 else 1 + Expired(list[1..], now)
  }

  lemma {:induction false} InsertMembers(list: seq<Entry>, e: Entry)
    ensures forall x :: x in Insert(list, e) <==> x == e || x in list
    ensures Insert(list, e) != []
    ensures Insert(list, e)[0] == if list == [] || Less(e, list[0]) then e else list[0]
    decreases |list|
  {
    if list != [] && !Less(e, list[0]) {
      InsertMembers(list[1..], e);
      assert list == [list[0]] + list[1..];
    }
  }

  lemma {:induction false} InsertSorted(list: seq<Entry>, e: Entry)
    requires Sorted(list) && e !in list
    ensures Sorted(Insert(list, e))
    decreases |list|
  {
    if list != [] && !Less(e, list[0]) {
      var rest := Insert(list[1..], e);
      InsertSorted(list[1..], e);
      InsertMembers(list[1..], e);
      forall j | 0 <= j < |rest| ensures Less(list[0], rest[j]) {
        assert rest[j] in rest;
      }
    }
  }

  /** getExpired takes exactly the entries due by now, and leaves the others. */
  lemma {:induction false} ExpiredExactly(list: seq<Entry>, now: int)
    requires Sorted(list)
    ensures forall e :: e in list[..Expired(list, now)] <==> e in list && e.time <= now
    ensures forall e :: e in list[Expired(list, now)..] <==> e in list && e.time > now
    decreases |list|
  {
    var n := Expired(list, now);
    forall i | 0 <= i < n ensures list[i].time <= now {
      ExpiredAt(list, now, i);
    }
    if n < |list| {
      ExpiredAt(list, now, n);
    }
    forall i | n <= i < |list| ensures list[i].time > now {
      assert i > n ==> Less(list[n], list[i]);
    }
  }

  lemma {:induction false} ExpiredAt(list: seq<Entry>, now: int, i: nat)
    requires i <= Expired(list, now) && i < |list|
    ensures i < Expired(list, now) <==> list[i].time <= now
    decreases |list|
  {
    if i > 0 {
      ExpiredAt(list[1..], now, i - 1);
    }
  }

  // --------------------------------------------------------------- the queue

  datatype Phase =
    | Idle
    /** in handleRead, with the first `done` of the expired timers run */
    | Running(at: int, batch: seq<Entry>, done: nat)
    /** in reset, with these expired timers left */
    | Resetting(at: int, batch: seq<Entry>)

  /** A callback that ran: the timer, when it was due and when handleRead began. */
  datatype Call = Call(serial: nat, due: int, at: int)

  /** A timer as it was added, and where. */
  datatype Made = Made(id: Id, timer: Timer)

  datatype Queue = Queue(
    timers: map<Id, Timer>,     // the timers that are allocated
    list: seq<Entry>,           // timers_
    phase: Phase,
    readable: bool,             // the timerfd
    armed: Option<Arm>,
    now: int,                   // the clock
    made: seq<Made>,            // every timer ever added
    calls: seq<Call>)           // every callback that ran

  datatype Action =
    | Tick(d: nat)
    | Add(id: Id, when: int, interval: real)
    | BeginRead
    | RunNext
    | BeginReset
    | ResetNext
    | FinishReset

  /** resetTimerfd: setting the timer also clears what it was readable for. */
  function Armed(s: Queue, due: int): Queue {
    s.(readable := false, armed := Some(Arm(due, s.now)))
  }

  function NewTimer(s: Queue, when: int, interval: real): Timer { Timer(when, interval, |s.made|) }

  function AddInLoop(s: Queue, id: Id, timer: Timer): Queue {
    var e := Entry(timer.expiration, id);
    var t := s.(timers := s.timers[id := timer], made := s.made + [Made(id, timer)], list := Insert(s.list, e));
    if s.list == [] || timer.expiration < s.list[0].time then Armed(t, timer.expiration) else t
  }

  function Began(s: Queue): Queue {
    var n := Expired(s.list, s.now);
    s.(readable := false, phase := Running(s.now, s.list[..n], 0), list := s.list[n..])
  }

  /** The timers after one is reset: a repeating one starts again from the time
      handleRead began, the others are deleted. */
  function Restarted(timers: map<Id, Timer>, id: Id, at: int): map<Id, Timer>
    requires id in timers
  {
    var timer := timers[id];
    if timer.Repeat() then timers[id := timer.(expiration := at + timer.Delta())] else timers - {id}
  }

  function ResetOne(s: Queue, at: int, id: Id): Queue
    requires id in s.timers
  {
    var timer := s.timers[id];
    s.(timers := Restarted(s.timers, id, at),
       list := if timer.Repeat() then Insert(s.list, Entry(at + timer.Delta(), id)) else s.list)
  }

  function FinishStep(s: Queue): Queue {
    var t := s.(phase := Idle);
    if s.list != [] && s.list[0].time > 0 then Armed(t, s.list[0].time) else t
  }

  function TickStep(s: Queue, d: nat): Queue {
    var t := s.(now := s.now + d);
    if s.armed.Some? && s.armed.value.Deadline() <= t.now then t.(readable := true, armed := None) else t
  }

  /** One step; None where it cannot be taken or the code would go wrong. */
  function Step(s: Queue, a: Action): Option<Queue> {
    match a
    case Tick(d) => Some(TickStep(s, d))
    case Add(id, when, interval) =>
      if id in s.timers || s.phase.Resetting? then None
      else Some(AddInLoop(s, id, NewTimer(s, when, interval)))
    case BeginRead => if s.phase.Idle? then Some(Began(s)) else None
    case RunNext =>
      if !s.phase.Running? || s.phase.done >= |s.phase.batch| || s.phase.batch[s.phase.done].id !in s.timers then
        None
      else
        var e := s.phase.batch[s.phase.done];
        Some(s.(phase := s.phase.(done := s.phase.done + 1),
                calls := s.calls + [Call(s.timers[e.id].serial, e.time, s.phase.at)]))
    case BeginReset =>
      if !s.phase.Running? || s.phase.done != |s.phase.batch| then None
      else Some(s.(phase := Resetting(s.phase.at, s.phase.batch)))
    case ResetNext =>
      if !s.phase.Resetting? || s.phase.batch == [] || s.phase.batch[0].id !in s.timers then None
      else Some(ResetOne(s, s.phase.at, s.phase.batch[0].id)
                .(phase := Resetting(s.phase.at, s.phase.batch[1..])))
    case FinishReset => if s.phase.Resetting? && s.phase.batch == [] then Some(FinishStep(s)) else None
  }

  function Run(s: Queue, actions: seq<Action>): Option<Queue>
    decreases |actions|
  {
    if actions == [] then Some(s)
    else match Step(s, actions[0])
         case None => None
         case Some(t) => Run(t, actions[1..])
  }

  predicate Start(s: Queue) {
    && s.timers == map[] && s.list == [] && s.phase.Idle? && !s.readable && s.armed.None?
    && s.now > 0 && s.made == [] && s.calls == []
  }

  // ------------------------------------------------------------- invariants

  function Batch(s: Queue): seq<Entry> { if s.phase.Idle? then [] else s.phase.batch }

  /** The entries of the batch whose callback has run. */
  function Done(s: Queue): seq<Entry> {
    match s.phase
    case Idle => []
    case Running(_, batch, done) => if done <= |batch| then batch[..done] else []
    case Resetting(_, batch) => batch
  }

  function EntryOf(timers: map<Id, Timer>, id: Id): Entry
    requires id in timers
  {
    Entry(timers[id].expiration, id)
  }

  ghost predicate Keyed(timers: map<Id, Timer>, list: seq<Entry>) {
    forall e <- list :: e.id in timers && EntryOf(timers, e.id) == e
  }

  /** Every entry carries its timer's expiration, and every timer is in the set or in
      the expired batch, once. */
  ghost predicate Held(timers: map<Id, Timer>, list: seq<Entry>, batch: seq<Entry>) {
    && Sorted(list) && Sorted(batch)
    && Keyed(timers, list) && Keyed(timers, batch)
    && (forall e <- batch :: e !in list)
    && (forall id <- timers :: EntryOf(timers, id) in list || EntryOf(timers, id) in batch)
  }

  /** Every timer that is allocated is where it was added, under its number. */
  ghost predicate Numbered(timers: map<Id, Timer>, made: seq<Made>) {
    forall id <- timers :: timers[id].serial < |made| && made[timers[id].serial].id == id
  }

  ghost predicate Placed(s: Queue) {
    && Held(s.timers, s.list, Batch(s))
    && Numbered(s.timers, s.made)
    && (s.phase.Running? ==> s.phase.done <= |s.phase.batch|)
  }

  ghost predicate Clocked(s: Queue) {
    && s.now > 0
    && (s.armed.Some? ==> s.armed.value.at <= s.now < s.armed.value.Deadline())
    && (!s.phase.Idle? ==> 0 < s.phase.at <= s.now && forall e <- Batch(s) :: e.time <= s.phase.at)
  }

  predicate Covered(s: Queue, due: int) {
    s.readable || (s.armed.Some? && s.armed.value.due == due)
  }

  /** Outside handleRead the timerfd stands for the earliest timer; inside it, for one
      that was added with a time before handleRead began. */
  predicate Watched(s: Queue) {
    s.list != [] && (s.phase.Idle? || s.list[0].time < s.phase.at) ==> Covered(s, s.list[0].time)
  }

  /** When handleRead began for the last call of a timer. */
  function LastCall(calls: seq<Call>, serial: nat): Option<int> {
    if calls == [] then None
    else
      var c := calls[|calls| - 1];
      if c.serial == serial then Some(c.at) else LastCall(calls[..|calls| - 1], serial)
  }

  function CallsOf(calls: seq<Call>, serial: nat): nat {
    if calls == [] then 0
    else CallsOf(calls[..|calls| - 1], serial) + if calls[|calls| - 1].serial == serial then 1 else 0
  }

  /** When a timer added as `timer` is due next, given its last call. */
  function DueAfter(timer: Timer, last: Option<int>): int {
    if last.None? then timer.expiration else last.value + timer.Delta()
  }

  /** The timer with this number is allocated. */
  predicate Alive(timers: map<Id, Timer>, made: seq<Made>, k: nat)
    requires k < |made|
  {
    made[k].id in timers && timers[made[k].id].serial == k
  }

  /** A timer that is to run is due at its first expiration, or its interval after
      handleRead began for its last call; one that does not repeat has then never run.
      A timer that has run is in the batch now, or it does not repeat and is deleted. */
  ghost predicate Paced(timers: map<Id, Timer>, made: seq<Made>, done: seq<Entry>, at: int,
                        calls: seq<Call>, k: nat)
    requires k < |made|
  {
    var timer, last, id := made[k].timer, LastCall(calls, k), made[k].id;
    if !Alive(timers, made, k) then !timer.Repeat() && CallsOf(calls, k) == 1
    else
      && timers[id].interval == timer.interval
      && (!timer.Repeat() ==> timers[id] == timer)
      && if EntryOf(timers, id) in done then
           && last == Some(at)
           && (!timer.Repeat() ==> CallsOf(calls, k) == 1)
         else
           && timers[id].expiration == DueAfter(timer, last)
           && (!timer.Repeat() ==> CallsOf(calls, k) == 0)
  }

  function At(s: Queue): int { if s.phase.Idle? then 0 else s.phase.at }

  ghost predicate PacedAt(s: Queue, k: nat)
    requires k < |s.made|
  {
    Paced(s.timers, s.made, Done(s), At(s), s.calls, k)
  }

  ghost predicate AllPaced(s: Queue) { forall k: nat :: k < |s.made| ==> PacedAt(s, k) }

  /** No call came before its time, and the times were those asked for. */
  ghost predicate Timely(calls: seq<Call>, made: seq<Made>) {
    calls == [] ||
    var front, c := calls[..|calls| - 1], calls[|calls| - 1];
    && Timely(front, made)
    && c.serial < |made| && c.due == DueAfter(made[c.serial].timer, LastCall(front, c.serial)) && c.due <= c.at
  }

  ghost predicate Inv(s: Queue) {
    Placed(s) && Clocked(s) && Watched(s) && AllPaced(s) && Timely(s.calls, s.made)
  }

  // ------------------------------------------------------- placed, step by step

  lemma AddHolds(timers: map<Id, Timer>, list: seq<Entry>, batch: seq<Entry>, id: Id, timer: Timer)
    requires Held(timers, list, batch) && id !in timers
    ensures Held(timers[id := timer], Insert(list, Entry(timer.expiration, id)), batch)
  {
    var e := Entry(timer.expiration, id);
    assert e !in list && e !in batch;
    InsertMembers(list, e);
    InsertSorted(list, e);
  }

  lemma SplitHolds(timers: map<Id, Timer>, list: seq<Entry>, now: int)
    requires Held(timers, list, [])
    ensures Held(timers, list[Expired(list, now)..], list[..Expired(list, now)])
  {
    ExpiredExactly(list, now);
  }

  lemma Behead(batch: seq<Entry>)
    requires Sorted(batch) && batch != []
    ensures Sorted(batch[1..])
    ensures forall x :: x in batch <==> x == batch[0] || x in batch[1..]
    ensures forall x :: x in batch[1..] ==> Less(batch[0], x)
  {
    assert batch == [batch[0]] + batch[1..];
  }

  lemma RestartHolds(timers: map<Id, Timer>, list: seq<Entry>, batch: seq<Entry>, timer: Timer)
    requires Held(timers, list, batch) && batch != []
    ensures var e := batch[0];
            Held(timers[e.id := timer], Insert(list, Entry(timer.expiration, e.id)), batch[1..])
  {
    var e := batch[0];
    var next := Entry(timer.expiration, e.id);
    assert e in batch && EntryOf(timers, e.id) == e;
    Behead(batch);
    assert next !in list;
    InsertMembers(list, next);
    InsertSorted(list, next);
  }

  lemma DeleteHolds(timers: map<Id, Timer>, list: seq<Entry>, batch: seq<Entry>)
    requires Held(timers, list, batch) && batch != []
    ensures Held(timers - {batch[0].id}, list, batch[1..])
  {
    var e := batch[0];
    assert e in batch && EntryOf(timers, e.id) == e;
    Behead(batch);
  }

  lemma RestartPlaces(s: Queue)
    requires Placed(s) && Step(s, ResetNext).Some? && s.timers[s.phase.batch[0].id].Repeat()
    ensures Placed(Step(s, ResetNext).value)
  {
    hide Held, Insert;
    var timer := s.timers[s.phase.batch[0].id];
    RestartHolds(s.timers, s.list, s.phase.batch, timer.(expiration := s.phase.at + timer.Delta()));
  }

  lemma DeletePlaces(s: Queue)
    requires Placed(s) && Step(s, ResetNext).Some? && !s.timers[s.phase.batch[0].id].Repeat()
    ensures Placed(Step(s, ResetNext).value)
  {
    hide Held;
    DeleteHolds(s.timers, s.list, s.phase.batch);
  }

  lemma AddPlaces(s: Queue, id: Id, timer: Timer)
    requires Placed(s) && id !in s.timers && timer.serial == |s.made|
    ensures Placed(AddInLoop(s, id, timer))
  {
    hide Held, Insert;
    AddHolds(s.timers, s.list, Batch(s), id, timer);
  }

  lemma StepPlaces(s: Queue, a: Action)
    requires Placed(s) && Step(s, a).Some?
    ensures Placed(Step(s, a).value)
  {
    if a.Add? {
      AddPlaces(s, a.id, NewTimer(s, a.when, a.interval));
    } else if a.BeginRead? {
      SplitHolds(s.timers, s.list, s.now);
    } else if a.ResetNext? {
      if s.timers[s.phase.batch[0].id].Repeat() {
        RestartPlaces(s);
      } else {
        DeletePlaces(s);
      }
    }
  }

  // ------------------------------------------------------ the clock and timerfd

  lemma StepClocks(s: Queue, a: Action)
    requires Placed(s) && Clocked(s) && Step(s, a).Some?
    ensures Clocked(Step(s, a).value)
  {
    if a.BeginRead? {
      ExpiredExactly(s.list, s.now);
    } else if a.ResetNext? {
      Behead(s.phase.batch);
    }
  }

  lemma StepWatches(s: Queue, a: Action)
    requires Placed(s) && Clocked(s) && Watched(s) && Step(s, a).Some?
    ensures Watched(Step(s, a).value)
  {
    var t := Step(s, a).value;
    if a.Add? {
      InsertMembers(s.list, Entry(a.when, a.id));
    } else if a.BeginRead? {
      ExpiredExactly(s.list, s.now);
      assert t.list != [] ==> t.list[0] in t.list;
    } else if a.ResetNext? {
      var timer := s.timers[s.phase.batch[0].id];
      InsertMembers(s.list, Entry(s.phase.at + timer.Delta(), s.phase.batch[0].id));
    }
  }

  // ------------------------------------------------------------- the calls

  lemma {:induction false} TimelyGrows(calls: seq<Call>, made: seq<Made>, m: Made)
    requires Timely(calls, made)
    ensures Timely(calls, made + [m])
    ensures LastCall(calls, |made|) == None && CallsOf(calls, |made|) == 0
    decreases |calls|
  {
    if calls != [] {
      TimelyGrows(calls[..|calls| - 1], made, m);
    }
  }

  lemma CallsSnoc(calls: seq<Call>, c: Call, k: nat)
    ensures LastCall(calls + [c], k) == if c.serial == k then Some(c.at) else LastCall(calls, k)
    ensures CallsOf(calls + [c], k) == CallsOf(calls, k) + if c.serial == k then 1 else 0
  {
    assert (calls + [c])[..|calls|] == calls;
  }

  lemma TimelySnoc(calls: seq<Call>, made: seq<Made>, c: Call)
    requires Timely(calls, made) && c.serial < |made|
    requires c.due == DueAfter(made[c.serial].timer, LastCall(calls, c.serial)) && c.due <= c.at
    ensures Timely(calls + [c], made)
  {
    assert (calls + [c])[..|calls|] == calls;
  }

  lemma AddPaces(s: Queue, id: Id, timer: Timer)
    requires Placed(s) && AllPaced(s) && Timely(s.calls, s.made)
    requires id !in s.timers && timer.serial == |s.made|
    ensures AllPaced(AddInLoop(s, id, timer))
  {
    hide Insert, Sorted;
    TimelyGrows(s.calls, s.made, Made(id, timer));
    var t := AddInLoop(s, id, timer);
    assert Entry(timer.expiration, id) !in Batch(s);
    forall k: nat | k < |t.made| ensures PacedAt(t, k) {
      if k < |s.made| {
        assert PacedAt(s, k) && t.made[k] == s.made[k];
      }
    }
  }

  /** The entry whose callback runs next, and its timer's number. */
  lemma NextCall(s: Queue)
    requires Placed(s) && Step(s, RunNext).Some?
    ensures var e := s.phase.batch[s.phase.done];
            && EntryOf(s.timers, e.id) == e && e !in Done(s)
            && var k := s.timers[e.id].serial; k < |s.made| && s.made[k].id == e.id
    ensures Done(Step(s, RunNext).value) == Done(s) + [s.phase.batch[s.phase.done]]
  {
    var e := s.phase.batch[s.phase.done];
    assert e in s.phase.batch;
    assert e.id in s.timers;
  }

  lemma CallPaces(s: Queue)
    requires Placed(s) && AllPaced(s) && Step(s, RunNext).Some?
    ensures AllPaced(Step(s, RunNext).value)
  {
    var t := Step(s, RunNext).value;
    NextCall(s);
    hide Placed;
    var e := s.phase.batch[s.phase.done];
    forall k: nat | k < |t.made| ensures PacedAt(t, k) {
      assert PacedAt(s, k);
      CallsSnoc(s.calls, Call(s.timers[e.id].serial, e.time, s.phase.at), k);
    }
  }

  lemma CallTimes(s: Queue)
    requires Placed(s) && Clocked(s) && AllPaced(s) && Timely(s.calls, s.made) && Step(s, RunNext).Some?
    ensures Timely(Step(s, RunNext).value.calls, s.made)
  {
    NextCall(s);
    hide Placed;
    var e := s.phase.batch[s.phase.done];
    assert e in s.phase.batch;
    assert PacedAt(s, s.timers[e.id].serial);
    TimelySnoc(s.calls, s.made, Call(s.timers[e.id].serial, e.time, s.phase.at));
  }

  /** The entry that is reset next, the only one of the batch for its timer. */
  lemma NextReset(s: Queue)
    requires Placed(s) && Step(s, ResetNext).Some?
    ensures var e := s.phase.batch[0];
            && e.id in s.timers && EntryOf(s.timers, e.id) == e
            && (forall x :: x in s.phase.batch <==> x == e || x in s.phase.batch[1..])
            && (forall x <- s.phase.batch[1..] :: x.id != e.id)
            && var k := s.timers[e.id].serial; k < |s.made| && s.made[k].id == e.id
  {
    var e := s.phase.batch[0];
    assert e in s.phase.batch;
    Behead(s.phase.batch);
    forall x <- s.phase.batch[1..] ensures x.id != e.id {
      assert x in s.phase.batch;
      assert EntryOf(s.timers, x.id) == x && Less(e, x);
    }
  }

  lemma ResetTimers(s: Queue)
    requires Step(s, ResetNext).Some?
    ensures var t := Step(s, ResetNext).value;
            && t.timers == Restarted(s.timers, s.phase.batch[0].id, s.phase.at)
            && t.made == s.made && t.calls == s.calls && Done(t) == s.phase.batch[1..] && At(t) == s.phase.at
    ensures Done(s) == s.phase.batch && At(s) == s.phase.at
  {
  }

  /** What is reset changes nothing for another timer. */
  lemma OtherPaces(timers: map<Id, Timer>, later: map<Id, Timer>, made: seq<Made>, e: Entry, batch: seq<Entry>,
                   rest: seq<Entry>, at: int, calls: seq<Call>, k: nat)
    requires k < |made| && e.id in timers && timers[e.id].serial != k
    requires forall x :: x in batch <==> x == e || x in rest
    requires later == Restarted(timers, e.id, at) && Paced(timers, made, batch, at, calls, k)
    ensures Paced(later, made, rest, at, calls, k)
  {
  }

  lemma ResetPaces(s: Queue)
    requires Placed(s) && AllPaced(s) && Step(s, ResetNext).Some?
    ensures AllPaced(Step(s, ResetNext).value)
  {
    var t := Step(s, ResetNext).value;
    NextReset(s);
    ResetTimers(s);
    hide Placed, Step, Paced, Restarted;
    var e := s.phase.batch[0];
    var k0 := s.timers[e.id].serial;
    forall k: nat | k < |t.made| ensures PacedAt(t, k) {
      assert PacedAt(s, k);
      if k == k0 {
        OwnPaces(s.timers, t.timers, s.made, e, s.phase.batch, s.phase.batch[1..], s.phase.at, s.calls, k);
      } else {
        OtherPaces(s.timers, t.timers, s.made, e, s.phase.batch, s.phase.batch[1..], s.phase.at, s.calls, k);
      }
    }
  }

  lemma OwnPaces(timers: map<Id, Timer>, later: map<Id, Timer>, made: seq<Made>, e: Entry, batch: seq<Entry>,
                 rest: seq<Entry>, at: int, calls: seq<Call>, k: nat)
    requires k < |made| && e.id in timers && timers[e.id].serial == k && made[k].id == e.id
    requires EntryOf(timers, e.id) == e && e in batch && forall x <- rest :: x.id != e.id
    requires later == Restarted(timers, e.id, at) && Paced(timers, made, batch, at, calls, k)
    ensures Paced(later, made, rest, at, calls, k)
  {
    assert Alive(timers, made, k);
  }

  lemma StepPaces(s: Queue, a: Action)
    requires Placed(s) && AllPaced(s) && Timely(s.calls, s.made) && Step(s, a).Some?
    ensures AllPaced(Step(s, a).value)
  {
    if a.Add? {
      AddPaces(s, a.id, NewTimer(s, a.when, a.interval));
    } else if a.RunNext? {
      CallPaces(s);
    } else if a.ResetNext? {
      ResetPaces(s);
    } else {
      OthersPace(s, a);
    }
  }

  lemma OthersPace(s: Queue, a: Action)
    requires AllPaced(s) && Step(s, a).Some? && !a.Add? && !a.RunNext? && !a.ResetNext?
    ensures AllPaced(Step(s, a).value)
  {
    hide Insert, Expired, Paced;
    var t := Step(s, a).value;
    assert t.timers == s.timers && t.made == s.made && t.calls == s.calls && Done(t) == Done(s);
    assert Done(s) != [] ==> At(t) == At(s);
    forall k: nat | k < |t.made| ensures PacedAt(t, k) {
      assert PacedAt(s, k);
      if Done(s) == [] {
        AtIsFree(t.timers, t.made, At(s), At(t), t.calls, k);
      }
    }
  }

  /** While no timer of a batch has run it does not matter when handleRead began. */
  lemma AtIsFree(timers: map<Id, Timer>, made: seq<Made>, at1: int, at2: int, calls: seq<Call>, k: nat)
    requires k < |made|
    ensures Paced(timers, made, [], at1, calls, k) == Paced(timers, made, [], at2, calls, k)
  {
  }

  lemma StepTimes(s: Queue, a: Action)
    requires Placed(s) && Clocked(s) && AllPaced(s) && Timely(s.calls, s.made) && Step(s, a).Some?
    ensures Timely(Step(s, a).value.calls, Step(s, a).value.made)
  {
    if a.Add? {
      TimelyGrows(s.calls, s.made, Made(a.id, NewTimer(s, a.when, a.interval)));
    } else if a.RunNext? {
      CallTimes(s);
    }
  }

  lemma {:induction false} RunKeeps(s: Queue, actions: seq<Action>)
    requires Inv(s) && Run(s, actions).Some?
    ensures Inv(Run(s, actions).value)
    decreases |actions|
  {
    if actions != [] {
      StepPlaces(s, actions[0]);
      StepClocks(s, actions[0]);
      StepWatches(s, actions[0]);
      StepPaces(s, actions[0]);
      StepTimes(s, actions[0]);
      RunKeeps(Step(s, actions[0]).value, actions[1..]);
    }
  }

  // ------------------------------------------------------------ main results

  /** Over every run: the entries of the set carry their timers' expirations, and
      outside handleRead a set that is not empty has its timerfd readable or armed for
      the earliest of them. */
  lemma SetAndTimerfdAgree(s: Queue, actions: seq<Action>)
    requires Start(s) && Run(s, actions).Some?
    ensures var t := Run(s, actions).value;
            && Sorted(t.list)
            && (forall e <- t.list :: e.id in t.timers && t.timers[e.id].expiration == e.time)
            && (t.phase.Idle? && t.list != [] ==> Covered(t, t.list[0].time))
  {
    RunKeeps(s, actions);
    var t := Run(s, actions).value;
    forall e <- t.list ensures e.id in t.timers && t.timers[e.id].expiration == e.time {
      assert EntryOf(t.timers, e.id) == e;
    }
  }

  /** So the timerfd is readable at the latest when the earliest timer is due, or after
      the minimal wait if that is later. */
  lemma EarliestFires(s: Queue, actions: seq<Action>)
    requires Start(s) && Run(s, actions).Some?
    ensures var t := Run(s, actions).value;
            t.phase.Idle? && t.list != [] ==>
              TickStep(t, Wait(t.list[0].time, t.now)).readable
  {
    RunKeeps(s, actions);
  }

  /** Over every run every callback came when its timer was due or later; a timer that
      does not repeat ran at most once, and has run exactly once when it is deleted;
      one that repeats is always in the set or in the expired batch. */
  lemma CallsAreDue(s: Queue, actions: seq<Action>, k: nat)
    requires Start(s) && Run(s, actions).Some? && k < |Run(s, actions).value.made|
    ensures var t := Run(s, actions).value;
            var id := t.made[k].id;
            && Timely(t.calls, t.made)
            && (!t.made[k].timer.Repeat() ==> CallsOf(t.calls, k) <= 1)
            && if Alive(t.timers, t.made, k) then
                 EntryOf(t.timers, id) in t.list || EntryOf(t.timers, id) in Batch(t)
               else
                 !t.made[k].timer.Repeat() && CallsOf(t.calls, k) == 1
  {
    RunKeeps(s, actions);
    var t := Run(s, actions).value;
    assert PacedAt(t, k);
  }

  // --------------------------------------------------------------- the object

  lemma {:induction false} ExpiredBound(list: seq<Entry>, now: int, i: nat)
    requires i <= |list| && (forall j :: 0 <= j < i ==> list[j].time <= now)
    requires i == |list| || now < list[i].time
    ensures Expired(list, now) == i
    decreases |list|
  {
    if i > 0 {
      ExpiredBound(list[1..], now, i - 1);
    }
  }

  /** What reset does from here on; None where the code would go wrong. */
  function ResetAll(s: Queue): Option<Queue>
    requires s.phase.Resetting?
    decreases |s.phase.batch|
  {
    if s.phase.batch == [] then Step(s, FinishReset)
    else match Step(s, ResetNext)
         case None => None
         case Some(t) => ResetAll(t)
  }

  /** reset finds every expired timer still allocated. */
  lemma {:induction false} ResetCompletes(s: Queue)
    requires Placed(s) && s.phase.Resetting?
    ensures ResetAll(s).Some? && ResetAll(s).value.phase.Idle? && Placed(ResetAll(s).value)
    decreases |s.phase.batch|
  {
    if s.phase.batch != [] {
      assert s.phase.batch[0] in s.phase.batch;
      StepPlaces(s, ResetNext);
      ResetCompletes(Step(s, ResetNext).value);
    } else {
      StepPlaces(s, FinishReset);
    }
  }

  /** The object, with the timers it points to, its timerfd and the clock. */
  class TimerQueue {
    var timers: map<Id, Timer>
    var list: seq<Entry>
    var readable: bool
    var armed: Option<Arm>
    var now: int
    ghost var phase: Phase
    ghost var made: seq<Made>
    ghost var calls: seq<Call>

    ghost function State(): Queue
      reads this
    {
      Queue(timers, list, phase, readable, armed, now, made, calls)
    }

    constructor (clock: int)
      requires clock > 0
      ensures Start(State())
    {
      timers, list, readable, armed, now := map[], [], false, None, clock;
      phase, made, calls := Idle, [], [];
    }

    method ResetTimerfd(expiration: int)
      modifies this`readable, this`armed
      ensures State() == Armed(old(State()), expiration)
    {
      readable, armed := false, Some(Arm(expiration, now));
    }

    method InsertTimer(id: Id) returns (earliestChanged: bool)
      requires id in timers
      modifies this`list
      ensures list == Insert(old(list), EntryOf(timers, id))
      ensures earliestChanged <==> old(list) == [] || timers[id].expiration < old(list)[0].time
    {
      var when := timers[id].expiration;
      earliestChanged := list == [] || when < list[0].time;
      list := Insert(list, Entry(when, id));
    }

    method AddTimerInLoop(id: Id, timer: Timer)
      modifies this
      ensures State() == AddInLoop(old(State()), id, timer)
    {
      timers, made := timers[id := timer], made + [Made(id, timer)];
      var earliestChanged := InsertTimer(id);
      if earliestChanged {
        ResetTimerfd(timer.expiration);
      }
    }

    /** handleRead up to the callbacks: reads the timerfd and takes what is due. */
    method GetExpired() returns (expired: seq<Entry>)
      requires Sorted(list) && phase.Idle?
      modifies this`list, this`readable, this`phase
      ensures State() == Began(old(State())) && expired == Batch(State())
      ensures forall e :: e in expired <==> e in old(list) && e.time <= now
    {
      ExpiredExactly(list, now);
      readable := false;
      var it := 0;
      while it < |list| && list[it].time <= now
        invariant it <= |list| && forall j :: 0 <= j < it ==> list[j].time <= now
      {
        it := it + 1;
      }
      ExpiredBound(list, now, it);
      expired := list[..it];
      list := list[it..];
      phase := Running(now, expired, 0);
    }

    method ResetTimer(id: Id, at: int)
      requires id in timers
      modifies this`timers, this`list
      ensures State() == ResetOne(old(State()), at, id)
    {
      if timers[id].Repeat() {
        timers := timers[id := timers[id].(expiration := at + timers[id].Delta())];
        var _ := InsertTimer(id);
      } else {
        timers := timers - {id};
      }
    }

    /** Restarts or deletes the timers that ran, and arms the timerfd again. */
    method Reset(expired: seq<Entry>, at: int)
      requires phase == Resetting(at, expired) && ResetAll(State()).Some?
      modifies this
      ensures Some(State()) == ResetAll(old(State()))
    {
      hide Insert;
      var i := 0;
      while i < |expired|
        invariant i <= |expired| && phase == Resetting(at, expired[i..])
        invariant ResetAll(State()) == old(ResetAll(State()))
      {
        var id := expired[i].id;
        assert expired[i..][1..] == expired[i + 1..];
        ResetTimer(id, at);
        i := i + 1;
        phase := Resetting(at, expired[i..]);
      }
      phase := Idle;
      if list != [] && list[0].time > 0 {
        ResetTimerfd(list[0].time);
      }
    }
  }
}
