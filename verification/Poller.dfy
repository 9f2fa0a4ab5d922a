/** Channels registered with a poller, against the set the kernel keeps for epoll. */
module Poller {
  const NEW: int := -1
  const ADD: int := 1
  const DELETED: int := 2

  const NONE_EVENT: bv16 := 0
  const READ_EVENT: bv16 := 3   // POLLIN | POLLPRI
  const WRITE_EVENT: bv16 := 4  // POLLOUT

  datatype Chan = Chan(fd: int, events: bv16, index: int)

  /** A registration in the kernel: the mask and the channel in event.data. */
  datatype Reg<K> = Reg(mask: bv16, chan: K)

  /** The channels alive, the poller's map of them, the kernel's set and how many calls
      of epoll_ctl failed. */
  datatype Poll<K> = Poll(chans: map<K, Chan>, channels: map<int, K>, kernel: map<int, Reg<K>>, errors: nat)

  datatype Op = CtlAdd | CtlMod | CtlDel

  /** epoll_ctl: adding a descriptor that is registered fails, and so does changing or
      deleting one that is not. */
  function EpollCtl<K>(s: Poll<K>, op: Op, c: K): Poll<K>
    requires c in s.chans
  {
    var fd := s.chans[c].fd;
    if op.CtlAdd? == (fd in s.kernel) then s.(errors := s.errors + 1)
    else if op.CtlDel? then s.(kernel := s.kernel - {fd})
    else s.(kernel := s.kernel[fd := Reg(s.chans[c].events, c)])
  }

  function WithIndex<K>(s: Poll<K>, c: K, index: int): Poll<K>
    requires c in s.chans
  {
    s.(chans := s.chans[c := s.chans[c].(index := index)])
  }

  /** updateChannel. */
  function Updated<K>(s: Poll<K>, c: K): Poll<K>
    requires c in s.chans
  {
    var ch := s.chans[c];
    if ch.index == NEW || ch.index == DELETED then
      var t := if ch.index == NEW then s.(channels := s.channels[ch.fd := c]) else s;
      EpollCtl(WithIndex(t, c, ADD), CtlAdd, c)
    else if ch.events == NONE_EVENT then WithIndex(EpollCtl(s, CtlDel, c), c, DELETED)
    else EpollCtl(s, CtlMod, c)
  }

  /** removeChannel. */
  function Removed<K>(s: Poll<K>, c: K): Poll<K>
    requires c in s.chans
  {
    var t := s.(channels := s.channels - {s.chans[c].fd});
    WithIndex(if s.chans[c].index == ADD then EpollCtl(t, CtlDel, c) else t, c, NEW)
  }

  function WithEvents<K>(s: Poll<K>, c: K, events: bv16): Poll<K>
    requires c in s.chans
  {
    s.(chans := s.chans[c := s.chans[c].(events := events)])
  }

  datatype Change = EnableReading | EnableWriting | DisableWriting | DisableAll

  function Mask(change: Change, events: bv16): bv16 {
    match change
    case EnableReading => events | READ_EVENT
    case EnableWriting => events | WRITE_EVENT
    case DisableWriting => events & !WRITE_EVENT
    case DisableAll => events  // the new mask is computed and dropped
  }

  /** Bit by bit, with POLLIN 1, POLLPRI 2 and POLLOUT 4: what a change sets or clears, and
      that every other bit of the mask stays. */
  predicate Changes(change: Change, before: bv16, after: bv16) {
    match change
    case EnableReading => after & 3 == 3 && after & 0xFFFC == before & 0xFFFC
    case EnableWriting => after & 4 == 4 && after & 0xFFFB == before & 0xFFFB
    case DisableWriting => after & 4 == 0 && after & 0xFFFB == before & 0xFFFB
    case DisableAll => after == before
  }

  lemma ReadingBits(e: bv16)
    ensures Changes(EnableReading, e, Mask(EnableReading, e))
  {
  }

  lemma WritingBits(e: bv16)
    ensures Changes(EnableWriting, e, Mask(EnableWriting, e))
  {
  }

  lemma NoWritingBits(e: bv16)
    ensures Changes(DisableWriting, e, Mask(DisableWriting, e))
  {
  }

  /** What each change of the interest does to the mask. */
  lemma MaskBits(change: Change, events: bv16)
    ensures Changes(change, events, Mask(change, events))
  {
    match change
    case EnableReading => ReadingBits(events);
    case EnableWriting => WritingBits(events);
    case DisableWriting => NoWritingBits(events);
    case DisableAll =>
  }

  datatype Action<K> =
    | Open(c: K, fd: int)
    | Alter(c: K, change: Change)
    | Remove(c: K)
    | Close(c: K)

  /** No other channel is registered for the descriptor. */
  predicate Free<K(==)>(s: Poll<K>, c: K)
    requires c in s.chans
  {
    s.chans[c].index == NEW ==> s.chans[c].fd !in s.channels
  }

  function Altered<K>(s: Poll<K>, c: K, change: Change): Poll<K>
    requires c in s.chans
  {
    Updated(WithEvents(s, c, Mask(change, s.chans[c].events)), c)
  }

  /** Whether the caller keeps to the rule: a channel is constructed once and destroyed
      only unregistered, and at most one is registered for a descriptor. */
  predicate Allowed<K(==)>(s: Poll<K>, a: Action<K>) {
    match a
    case Open(c, _) => c !in s.chans
    case Alter(c, _) => c in s.chans && Free(s, c)
    case Remove(c) => c in s.chans && Free(s, c)
    case Close(c) => c in s.chans && s.chans[c].index == NEW
  }

  function Step<K>(s: Poll<K>, a: Action<K>): Poll<K>
    requires Allowed(s, a)
  {
    match a
    case Open(c, fd) => s.(chans := s.chans[c := Chan(fd, NONE_EVENT, NEW)])
    case Alter(c, change) => Altered(s, c, change)
    case Remove(c) => Removed(s, c)
    case Close(c) => s.(chans := s.chans - {c})
  }

  predicate AllAllowed<K(==)>(s: Poll<K>, actions: seq<Action<K>>)
    decreases |actions|
  {
    actions == [] || (Allowed(s, actions[0]) && AllAllowed(Step(s, actions[0]), actions[1..]))
  }

  function Run<K>(s: Poll<K>, actions: seq<Action<K>>): Poll<K>
    requires AllAllowed(s, actions)
    decreases |actions|
  {
    if actions == [] then s else Run(Step(s, actions[0]), actions[1..])
  }

  /** The kernel holds a channel exactly when its index is ADD, with the channel's mask;
      the poller's map holds it exactly when its index is not NEW. */
  ghost predicate Agree<K>(s: Poll<K>) {
    && s.errors == 0
    && (forall c <- s.chans :: Fits(s, c))
    && (forall fd <- s.kernel ::
          var r := s.kernel[fd]; r.chan in s.chans && s.chans[r.chan].fd == fd && s.chans[r.chan].events == r.mask)
    && (forall fd <- s.channels :: s.channels[fd] in s.chans && s.chans[s.channels[fd]].fd == fd)
  }

  ghost predicate Fits<K>(s: Poll<K>, c: K)
    requires c in s.chans
  {
    var ch := s.chans[c];
    && ch.index in {NEW, ADD, DELETED}
    && (ch.index == ADD <==> ch.fd in s.kernel && s.kernel[ch.fd].chan == c)
    && (ch.index != NEW <==> ch.fd in s.channels && s.channels[ch.fd] == c)
  }

  lemma AlterAgrees<K>(s: Poll<K>, c: K, change: Change)
    requires Agree(s) && c in s.chans && Free(s, c)
    ensures Agree(Altered(s, c, change))
  {
    var t := Altered(s, c, change);
    assert Fits(s, c);
    forall d <- t.chans ensures Fits(t, d) {
      assert Fits(s, d);
      AlterFits(s, c, change, d);
    }
    hide Mask;
  }

  lemma AlterFits<K>(s: Poll<K>, c: K, change: Change, d: K)
    requires Agree(s) && c in s.chans && Free(s, c) && d in s.chans
    ensures Fits(Altered(s, c, change), d)
  {
    hide Mask;
    assert Fits(s, c) && Fits(s, d);
  }

  lemma RemoveAgrees<K>(s: Poll<K>, c: K)
    requires Agree(s) && c in s.chans && Free(s, c)
    ensures Agree(Removed(s, c))
  {
    var t := Removed(s, c);
    assert Fits(s, c);
    forall d <- t.chans ensures Fits(t, d) {
      assert Fits(s, d);
    }
  }

  lemma StepAgrees<K>(s: Poll<K>, a: Action<K>)
    requires Agree(s) && Allowed(s, a)
    ensures Agree(Step(s, a))
  {
    match a
    case Alter(c, change) => AlterAgrees(s, c, change);
    case Remove(c) => RemoveAgrees(s, c);
    case Open(c, fd) =>
      forall d <- Step(s, a).chans ensures Fits(Step(s, a), d) {
        assert d != c ==> Fits(s, d);
      }
    case Close(c) =>
      assert Fits(s, c);
      forall d <- Step(s, a).chans ensures Fits(Step(s, a), d) {
        assert Fits(s, d);
      }
  }

  lemma {:induction false} RunKeeps<K>(s: Poll<K>, actions: seq<Action<K>>)
    requires Agree(s) && AllAllowed(s, actions)
    ensures Agree(Run(s, actions))
    decreases |actions|
  {
    if actions != [] {
      StepAgrees(s, actions[0]);
      RunKeeps(Step(s, actions[0]), actions[1..]);
    }
  }

  /** A poller without channels. */
  function Empty<K>(): Poll<K> { Poll(map[], map[], map[], 0) }

  /** After any sequence of calls that keeps to the rule the poller and the kernel
      agree, and no call of epoll_ctl has failed: no ADD found the descriptor there, no
      MOD or DEL found it missing. */
  lemma RunAgrees<K>(actions: seq<Action<K>>)
    requires AllAllowed(Empty<K>(), actions)
    ensures Agree(Run(Empty<K>(), actions))
  {
    RunKeeps(Empty<K>(), actions);
  }

  /** The rule is what the agreement needs: a call for a channel that is not registered
      keeps it if and only if no other channel is registered for the descriptor, and
      fails in epoll_ctl if and only if the kernel has the descriptor. */
  lemma AlterAgreesIff<K>(s: Poll<K>, c: K, change: Change)
    requires Agree(s) && c in s.chans
    ensures Agree(Altered(s, c, change)) <==> Free(s, c)
    ensures s.chans[c].index == NEW ==>
              (Altered(s, c, change).errors > 0 <==> s.chans[c].fd in s.kernel)
  {
    if Free(s, c) {
      AlterAgrees(s, c, change);
    } else {
      var d := s.channels[s.chans[c].fd];
      var t := Altered(s, c, change);
      assert Fits(s, d) && Fits(s, c);
      assert d in t.chans && !Fits(t, d);
    }
  }

  /** Removing a channel that is not registered keeps the agreement if and only if no other
      one is registered for the descriptor; otherwise that one's entry is erased. */
  lemma RemoveAgreesIff<K>(s: Poll<K>, c: K)
    requires Agree(s) && c in s.chans
    ensures Agree(Removed(s, c)) <==> Free(s, c)
    ensures Removed(s, c).errors == 0 && s.chans[c].fd !in Removed(s, c).channels
  {
    if Free(s, c) {
      RemoveAgrees(s, c);
    } else {
      var d := s.channels[s.chans[c].fd];
      var t := Removed(s, c);
      assert Fits(s, d) && Fits(s, c);
      assert d in t.chans && !Fits(t, d);
    }
    assert Fits(s, c);
  }

  /** What updating a channel leaves: the kernel has it with its mask, or, if it was there
      and wants no events any more, does not have it; nothing else changes. */
  lemma UpdateRegisters<K>(s: Poll<K>, c: K, events: bv16)
    requires Agree(s) && c in s.chans && Free(s, c)
    ensures var t, fd := Updated(WithEvents(s, c, events), c), s.chans[c].fd;
            && t.chans.Keys == s.chans.Keys && t.chans[c].fd == fd && t.chans[c].events == events
            && (if s.chans[c].index == ADD && events == 0 then fd !in t.kernel && t.chans[c].index == DELETED
                else fd in t.kernel && t.kernel[fd] == Reg(events, c) && t.chans[c].index == ADD)
            && (forall d <- s.chans :: d != c ==> t.chans[d] == s.chans[d])
            && (forall f <- s.kernel :: f != fd ==> f in t.kernel && t.kernel[f] == s.kernel[f])
            && (forall f <- t.kernel :: f != fd ==> f in s.kernel)
  {
    assert Fits(s, c);
  }

  /** And what removing one leaves: nothing of it, and all else as it was. */
  lemma RemoveUnregisters<K>(s: Poll<K>, c: K)
    requires Agree(s) && c in s.chans && Free(s, c)
    ensures var t, fd := Removed(s, c), s.chans[c].fd;
            && t.chans == s.chans[c := s.chans[c].(index := NEW)]
            && t.channels == s.channels - {fd} && t.kernel == s.kernel - {fd}
  {
    assert Fits(s, c);
  }

  /** A channel that is made wants nothing and is registered nowhere; one that is destroyed
      is gone; the kernel and the poller's map do not notice either. */
  lemma OpenAndClose<K>(s: Poll<K>, c: K, fd: int)
    ensures c !in s.chans ==>
              Step(s, Open(c, fd)) == Poll(s.chans[c := Chan(fd, 0, NEW)], s.channels, s.kernel, s.errors)
    ensures c in s.chans && s.chans[c].index == NEW ==>
              Step(s, Close(c)) == Poll(s.chans - {c}, s.channels, s.kernel, s.errors)
  {
  }

  /** A run takes one step after another. */
  lemma {:induction false} RunSnoc<K>(s: Poll<K>, actions: seq<Action<K>>, a: Action<K>)
    requires AllAllowed(s, actions + [a])
    ensures AllAllowed(s, actions) && Allowed(Run(s, actions), a)
    ensures Run(s, actions + [a]) == Step(Run(s, actions), a)
    decreases |actions|
  {
    if actions == [] {
      assert actions + [a] == [a] && [a][1..] == [];
    } else {
      assert (actions + [a])[0] == actions[0] && (actions + [a])[1..] == actions[1..] + [a];
      RunSnoc(Step(s, actions[0]), actions[1..], a);
    }
  }

  /** A registered channel that wants events has them asked for: a channel that is not in
      the kernel's set is not registered, or wants none. */
  ghost predicate Served<K>(s: Poll<K>) {
    forall c <- s.chans :: s.chans[c].index == DELETED ==> s.chans[c].events == 0
  }

  lemma StepServes<K>(s: Poll<K>, a: Action<K>)
    requires Agree(s) && Served(s) && Allowed(s, a)
    ensures Served(Step(s, a))
  {
    match a
    case Alter(c, change) => UpdateRegisters(s, c, Mask(change, s.chans[c].events));
    case Remove(c) => RemoveUnregisters(s, c);
    case Open(_, _) =>
    case Close(_) =>
  }

  lemma {:induction false} RunServes<K>(s: Poll<K>, actions: seq<Action<K>>)
    requires Agree(s) && Served(s) && AllAllowed(s, actions)
    ensures Agree(Run(s, actions)) && Served(Run(s, actions))
    decreases |actions|
  {
    if actions != [] {
      StepAgrees(s, actions[0]);
      StepServes(s, actions[0]);
      RunServes(Step(s, actions[0]), actions[1..]);
    }
  }

  /** Over every run that keeps to the rule: whatever events a registered channel wants,
      the kernel watches its descriptor for exactly those. */
  lemma EventsAreWatched<K>(actions: seq<Action<K>>, c: K)
    requires AllAllowed(Empty<K>(), actions) && c in Run(Empty<K>(), actions).chans
    ensures var s := Run(Empty<K>(), actions);
            var ch := s.chans[c];
            ch.fd in s.channels && s.channels[ch.fd] == c && ch.events != 0 ==>
              ch.fd in s.kernel && s.kernel[ch.fd] == Reg(ch.events, c)
  {
    RunServes(Empty<K>(), actions);
    assert Fits(Run(Empty<K>(), actions), c);
  }

  // ------------------------------------------------------------- the objects

  class Channel {
    const fd: int
    var events: bv16
    var index: int

    constructor (poller: Poller, fd: int)
      modifies poller`all
      ensures poller.all == old(poller.all) + {this} && this !in old(poller.all)
      ensures poller.State() == old(poller.State().(chans := poller.State().chans[this := Chan(fd, NONE_EVENT, NEW)]))
    {
      this.fd, events, index := fd, NONE_EVENT, NEW;
      new;
      poller.all := poller.all + {this};
    }

    predicate IsWriting()
      reads this
    {
      events & WRITE_EVENT != 0
    }

    method EnableReading(poller: Poller)
      requires this in poller.all
      modifies this, poller
      ensures poller.all == old(poller.all)
      ensures poller.State() == Altered(old(poller.State()), this, Change.EnableReading)
      ensures Changes(Change.EnableReading, old(events), events)
    {
      events := events | READ_EVENT;
      assert poller.State() == WithEvents(old(poller.State()), this, Mask(Change.EnableReading, old(events)));
      MaskBits(Change.EnableReading, old(events));
      poller.UpdateChannel(this);
    }

    method EnableWriting(poller: Poller)
      requires this in poller.all
      modifies this, poller
      ensures poller.all == old(poller.all)
      ensures poller.State() == Altered(old(poller.State()), this, Change.EnableWriting)
      ensures IsWriting() && Changes(Change.EnableWriting, old(events), events)
    {
      events := events | WRITE_EVENT;
      assert poller.State() == WithEvents(old(poller.State()), this, Mask(Change.EnableWriting, old(events)));
      MaskBits(Change.EnableWriting, old(events));
      poller.UpdateChannel(this);
    }

    method DisableWriting(poller: Poller)
      requires this in poller.all
      modifies this, poller
      ensures poller.all == old(poller.all)
      ensures poller.State() == Altered(old(poller.State()), this, Change.DisableWriting)
      ensures !IsWriting() && Changes(Change.DisableWriting, old(events), events)
    {
      events := events & !WRITE_EVENT;
      assert poller.State() == WithEvents(old(poller.State()), this, Mask(Change.DisableWriting, old(events)));
      MaskBits(Change.DisableWriting, old(events));
      poller.UpdateChannel(this);
    }
  }

  class Poller {
    var channels: map<int, Channel>
    var kernel: map<int, Reg<Channel>>
    var errors: nat
    ghost var all: set<Channel>  // the channels alive

    ghost function State(): Poll<Channel>
      reads this, all
    {
      Poll(map c: Channel | c in all :: Chan(c.fd, c.events, c.index), channels, kernel, errors)
    }

    constructor ()
      ensures Agree(State()) && all == {}
    {
      channels, kernel, errors, all := map[], map[], 0, {};
    }

    method SetIndex(channel: Channel, index: int)
      requires channel in all
      modifies channel`index
      ensures State() == WithIndex(old(State()), channel, index)
    {
      channel.index := index;
    }

    method UpdateChannel(channel: Channel)
      requires channel in all
      modifies this`channels, this`kernel, this`errors, channel`index
      ensures State() == Updated(old(State()), channel)
    {
      hide EpollCtl;
      var idx := channel.index;
      if idx == NEW || idx == DELETED {
        if idx == NEW {
          ghost var s := State();
          channels := channels[channel.fd := channel];
          assert State() == s.(channels := s.channels[channel.fd := channel]);
        }
        SetIndex(channel, ADD);
        Update(CtlAdd, channel);
      } else if channel.events == NONE_EVENT {
        Update(CtlDel, channel);
        SetIndex(channel, DELETED);
      } else {
        Update(CtlMod, channel);
      }
    }

    method RemoveChannel(channel: Channel)
      requires channel in all
      modifies this`channels, this`kernel, this`errors, channel`index
      ensures State() == Removed(old(State()), channel)
    {
      hide EpollCtl;
      ghost var s := State();
      channels := channels - {channel.fd};
      assert State() == s.(channels := s.channels - {channel.fd});
      if channel.index == ADD {
        Update(CtlDel, channel);
      }
      SetIndex(channel, NEW);
    }

    method Update(op: Op, channel: Channel)
      requires channel in all
      modifies this`kernel, this`errors
      ensures State() == EpollCtl(old(State()), op, channel)
    {
      if op.CtlAdd? == (channel.fd in kernel) {
        errors := errors + 1;
      } else if op.CtlDel? {
        kernel := kernel - {channel.fd};
      } else {
        kernel := kernel[channel.fd := Reg(channel.events, channel)];
      }
    }
  }
}
