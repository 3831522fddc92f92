/** The two pollers (muduo/net/poller/PollPoller.cc, EPollPoller.cc) over the same channels. */
module Pollers {

  const NONE_EVENT: nat := 0

  /** The part of Channel a poller reads and writes. */
  class Channel {
    const fd: nat
    var events: nat
    var revents: nat
    var index: int

    constructor (fd: nat)
      ensures this.fd == fd && events == NONE_EVENT && revents == 0 && index == -1
    {
      this.fd := fd;
      events, revents, index := NONE_EVENT, 0, -1;
    }
  }

  // ---------- poll(2) ----------

  datatype PollFd = PollFd(fd: int, events: nat, revents: nat) {
    /** An ignored slot holds -fd-1 in place of fd. */
    function Owner(): int {
      if fd < 0 then -fd - 1 else fd
    }
  }

  /** The slots with events: all of them, each once, in order. */
  function Ready(slots: seq<PollFd>): (r: seq<nat>)
    ensures forall k :: 0 <= k < |r| ==> r[k] < |slots| && slots[r[k]].revents > 0
    ensures forall j, k :: 0 <= j < k < |r| ==> r[j] < r[k]
    ensures forall i :: 0 <= i < |slots| && slots[i].revents > 0 ==> i in r
  {
    if slots == [] then []
    else
      var n := |slots| - 1;
      var r := Ready(slots[..n]);
      assert forall i :: 0 <= i < n ==> slots[..n][i] == slots[i];
      if slots[n].revents > 0 then
        assert forall i :: i in r + [n] <==> i in r || i == n;
        r + [n]
      else r
  }

  /** Of the ascending indexes r exactly the first k lie below i. */
  ghost predicate Scanned(r: seq<nat>, k: nat, i: nat) {
    k <= |r| && (forall j :: 0 <= j < k ==> r[j] < i) && (k < |r| ==> r[k] >= i)
  }

  lemma ScanStep(slots: seq<PollFd>, k: nat, i: nat)
    requires i < |slots| && Scanned(Ready(slots), k, i)
    ensures var r := Ready(slots);
            if slots[i].revents > 0 then k < |r| && r[k] == i && Scanned(r, k + 1, i + 1) else Scanned(r, k, i + 1)
  {
    hide Ready;
    var r := Ready(slots);
    if slots[i].revents > 0 {
      var j :| 0 <= j < |r| && r[j] == i;
      assert j == k;
    }
  }

  lemma ScanStart(r: seq<nat>)
    ensures Scanned(r, 0, 0)
  {
  }

  lemma Below(r: seq<nat>, k: nat, i: nat)
    requires Scanned(r, k, i)
    ensures k <= |r| && forall j :: 0 <= j < k ==> r[j] < i
  {
  }

  lemma ScanEnd(r: seq<nat>, k: nat, i: nat)
    requires Scanned(r, k, i) && forall j :: 0 <= j < |r| ==> r[j] < i
    ensures k == |r|
  {
  }

  class PollPoller {
    var pollfds: seq<PollFd>
    var channels: map<int, Channel>

    /** The slot of a registered channel. */
    ghost predicate HasSlot(fd: int)
      requires fd in channels
      reads this, channels.Values
    {
      var ch := channels[fd];
      && ch.fd == fd && 0 <= ch.index < |pollfds|
      && pollfds[ch.index].Owner() == fd
      && pollfds[ch.index].events == ch.events
      && (pollfds[ch.index].fd < 0 ==> ch.events == NONE_EVENT)
    }

    /** Channels and slots are in bijection. */
    ghost predicate Valid()
      reads this, channels.Values
    {
      && (forall fd :: fd in channels ==> HasSlot(fd))
      && (forall i :: 0 <= i < |pollfds| ==> pollfds[i].Owner() in channels && channels[pollfds[i].Owner()].index == i)
    }

    ghost predicate Masked(fd: int)
      requires fd in channels && HasSlot(fd)
      reads this, channels.Values
    {
      pollfds[channels[fd].index].fd == -fd - 1
    }

    /** The abstract registry: which fd is watched for what. */
    ghost function Interests(): map<int, nat>
      reads this, channels.Values
    {
      map fd | fd in channels :: channels[fd].events
    }

    /** The descriptors whose slot is ignored: what the assertions in removeChannel ask for. */
    ghost function Ignored(): set<int>
      requires Valid()
      reads this, channels.Values
    {
      set fd | fd in channels && Masked(fd)
    }

    /** What poll(2) is asked to watch. */
    ghost predicate Watches(fd: int, events: nat)
      requires Valid()
      reads this, channels.Values
    {
      exists i :: 0 <= i < |pollfds| && pollfds[i].fd == fd && pollfds[i].events == events
        && fd >= 0 && events != NONE_EVENT
    }

    lemma WatchesInterests(fd: int, events: nat)
      requires Valid()
      ensures Watches(fd, events) <==> fd in Interests() && Interests()[fd] == events != NONE_EVENT
    {
    }

    constructor ()
      ensures Valid() && channels == map[] && pollfds == []
    {
      pollfds, channels := [], map[];
    }

    /** The first branch of updateChannel: a new slot at the end. */
    method Register(ch: Channel, events: nat)
      requires Valid() && ch.index < 0 && ch.fd !in channels
      modifies this, ch
      ensures Valid() && channels == old(channels)[ch.fd := ch] && ch.index >= 0
      ensures pollfds == old(pollfds) + [PollFd(ch.fd, events, 0)]
      ensures ch.events == events
    {
      assert forall fd :: fd in channels ==> HasSlot(fd) && channels[fd] != ch;
      ch.events := events;
      pollfds := pollfds + [PollFd(ch.fd, events, 0)];
      ch.index := |pollfds| - 1;
      channels := channels[ch.fd := ch];
    }

    /** The second branch: the slot is rewritten, and ignored when no interest is left. */
    method Change(ch: Channel, events: nat)
      requires Valid() && ch.fd in channels && channels[ch.fd] == ch
      modifies this, ch
      ensures Valid() && channels == old(channels) && ch.index == old(ch.index)
      ensures pollfds == old(pollfds)[ch.index :=
                        PollFd(if events == NONE_EVENT then -(ch.fd as int) - 1 else ch.fd as int, events, 0)]
      ensures ch.events == events
    {
      assert HasSlot(ch.fd);
      assert forall fd :: fd in channels && fd != ch.fd ==> HasSlot(fd) && channels[fd] != ch;
      ch.events := events;
      var slotFd: int := ch.fd;
      if events == NONE_EVENT {
        slotFd := -slotFd - 1;
      }
      pollfds := pollfds[ch.index := PollFd(slotFd, events, 0)];
    }

    /** Channel::update with its new interest.  The slot ends up ignored exactly when an already
        registered channel drops all interest, and no other slot changes. */
    method Update(ch: Channel, events: nat)
      requires Valid()
      requires if ch.index < 0 then ch.fd !in channels else ch.fd in channels && channels[ch.fd] == ch
      modifies this, ch
      ensures Valid() && channels == old(channels)[ch.fd := ch] && ch.index >= 0
      ensures ch.events == events
      ensures Ignored() == if old(ch.fd in channels) && events == NONE_EVENT then old(Ignored()) + {ch.fd as int}
                           else old(Ignored()) - {ch.fd as int}
    {
      if ch.index < 0 {
        Register(ch, events);
      } else {
        Change(ch, events);
      }
    }

    /** The channel of a descriptor, which its owner creates on first use. */
    method ChannelOf(fd: nat) returns (ch: Channel)
      requires Valid()
      ensures ch.fd == fd
      ensures if fd in channels then ch == channels[fd] && ch.index >= 0 else fresh(ch) && ch.index < 0
      ensures forall f :: f in channels && f != fd ==> channels[f] != ch
    {
      assert forall f :: f in channels ==> HasSlot(f);
      if fd in channels {
        ch := channels[fd];
      } else {
        ch := new Channel(fd);
      }
    }

    method Watch(fd: nat, events: nat)
      requires Valid()
      modifies this, channels.Values
      ensures Valid() && Interests() == old(Interests())[fd := events]
      ensures Ignored() == if old(fd in channels) && events == NONE_EVENT then old(Ignored()) + {fd as int}
                           else old(Ignored()) - {fd as int}
      ensures fresh(channels.Values - old(channels.Values))
    {
      hide PollPoller.Valid, PollPoller.Ignored, PollPoller.HasSlot, PollPoller.Masked;
      ghost var was, known := Interests(), channels;
      var ch := ChannelOf(fd);
      Update(ch, events);
      assert forall f :: f in known && f != fd ==> channels[f].events == was[f];
      assert Interests() == was[fd := events];
    }

    /** Removal by swapping with the last slot, whose channel gets the freed index. */
    method Remove(ch: Channel)
      requires Valid()
      requires ch.fd in channels && channels[ch.fd] == ch && ch.events == NONE_EVENT && Masked(ch.fd)
      modifies this, channels.Values`index
      ensures Valid() && channels == old(channels) - {ch.fd}
      ensures forall fd :: fd in channels ==> (Masked(fd) <==> old(Masked(fd)))
    {
      var idx := ch.index;
      channels := channels - {ch.fd};
      if idx != |pollfds| - 1 {
        var channelAtEnd := pollfds[|pollfds| - 1].fd;
        pollfds := pollfds[idx := pollfds[|pollfds| - 1]];
        if channelAtEnd < 0 {
          channelAtEnd := -channelAtEnd - 1;
        }
        channels[channelAtEnd].index := idx;
      }
      pollfds := pollfds[..|pollfds| - 1];
    }

    /** The assertion in removeChannel about the slot. */
    method CanRemove(fd: nat) returns (ok: bool)
      requires Valid() && fd in channels
      ensures ok <==> fd in Ignored()
    {
      assert HasSlot(fd);
      ok := pollfds[channels[fd].index].fd == -(fd as int) - 1;
    }

    method Unwatch(fd: nat)
      requires Valid() && fd in Ignored() && channels[fd].events == NONE_EVENT
      modifies this, channels.Values`index
      ensures Valid() && Ignored() == old(Ignored()) - {fd as int} && Interests() == old(Interests()) - {fd}
      ensures channels.Values <= old(channels.Values)
    {
      assert HasSlot(fd) && Masked(fd);
      ghost var was := Ignored();
      hide PollPoller.Valid, PollPoller.HasSlot, PollPoller.Masked;
      Remove(channels[fd]);
      assert Ignored() == was - {fd as int};
      assert Interests() == old(Interests()) - {fd};
    }

    /** The kernel reports nothing for ignored slots. */
    ghost predicate PollReturned()
      reads this
    {
      forall i :: 0 <= i < |pollfds| && pollfds[i].revents > 0 ==> pollfds[i].fd >= 0
    }

    /** The scan stops once numEvents ready slots have been seen; a count that is not too small
        returns the channels of all of them, each once. */
    method FillActiveChannels(numEvents: nat) returns (active: seq<Channel>)
      requires Valid() && PollReturned()
      modifies channels.Values`revents
      ensures |active| == if numEvents < |Ready(pollfds)| then numEvents else |Ready(pollfds)|
      ensures forall k :: 0 <= k < |active| ==>
        var slot := pollfds[Ready(pollfds)[k]];
        slot.fd in channels && active[k] == channels[slot.fd] && active[k].revents == slot.revents
    {
      hide Ready, Scanned, PollPoller.HasSlot;
      ghost var r := Ready(pollfds);
      active := [];
      var left := numEvents;
      var i := 0;
      assert Scanned(r, 0, 0) by { ScanStart(r); }
      while i < |pollfds| && left > 0
        invariant 0 <= i <= |pollfds| && |active| + left == numEvents && |active| <= |r| && Scanned(r, |active|, i)
        invariant forall k :: 0 <= k < |active| ==>
          var slot := pollfds[r[k]];
          slot.fd in channels && active[k] == channels[slot.fd]
          && active[k].index == r[k] && active[k].revents == slot.revents
      {
        ScanStep(pollfds, |active|, i);
        if pollfds[i].revents > 0 {
          left := left - 1;
          var channel := channels[pollfds[i].fd];
          assert channel.index == i;
          Below(r, |active|, i);
          channel.revents := pollfds[i].revents;
          active := active + [channel];
        }
        i := i + 1;
      }
      if left > 0 {
        ScanEnd(r, |active|, i);
      }
    }
  }

  // ---------- epoll(4) ----------

  const NEW := -1
  const ADDED := 1
  const DELETED := 2

  datatype Operation = Add | Mod | Del

  class EPollPoller {
    var channels: map<int, Channel>
    var kernel: map<int, nat>  // the interest list behind epollfd_

    ghost predicate Tracks(fd: int)
      requires fd in channels
      reads this, channels.Values
    {
      var ch := channels[fd];
      && ch.fd == fd && (ch.index == ADDED || ch.index == DELETED)
      && (fd in kernel <==> ch.index == ADDED)
      && (fd in kernel ==> kernel[fd] == ch.events)
      && (fd !in kernel ==> ch.events == NONE_EVENT)
    }

    ghost predicate Valid()
      reads this, channels.Values
    {
      && (forall fd :: fd in channels ==> Tracks(fd))
      && (forall fd :: fd in kernel ==> fd in channels)
    }

    ghost function Interests(): map<int, nat>
      reads this, channels.Values
    {
      map fd | fd in channels :: channels[fd].events
    }

    ghost predicate Watches(fd: int, events: nat)
      reads this
    {
      fd in kernel && kernel[fd] == events != NONE_EVENT
    }

    lemma WatchesInterests(fd: int, events: nat)
      requires Valid()
      ensures Watches(fd, events) <==> fd in Interests() && Interests()[fd] == events != NONE_EVENT
    {
    }

    constructor ()
      ensures Valid() && channels == map[] && kernel == map[]
    {
      channels, kernel := map[], map[];
    }

    /** epoll_ctl: it refuses to add what is present and to modify or delete what is absent. */
    method Ctl(op: Operation, ch: Channel)
      requires op.Add? <==> ch.fd !in kernel
      modifies this`kernel
      ensures kernel == if op.Del? then old(kernel) - {ch.fd} else old(kernel)[ch.fd := ch.events]
    {
      match op
      case Add => kernel := kernel[ch.fd := ch.events];
      case Mod => kernel := kernel[ch.fd := ch.events];
      case Del => kernel := kernel - {ch.fd};
    }

    method Update(ch: Channel, events: nat)
      requires Valid()
      requires if ch.index == NEW then ch.fd !in channels else ch.fd in channels && channels[ch.fd] == ch
      modifies this, ch
      ensures Valid() && channels == old(channels)[ch.fd := ch] && ch.index != NEW
      ensures ch.events == events
      ensures kernel == if old(ch.index) == ADDED && events == NONE_EVENT then old(kernel) - {ch.fd}
                        else old(kernel)[ch.fd := events]
    {
      assert forall fd :: fd in channels && fd != ch.fd ==> Tracks(fd) && channels[fd] != ch;
      assert ch.index != NEW ==> Tracks(ch.fd);
      ch.events := events;
      if ch.index == NEW || ch.index == DELETED {
        channels := channels[ch.fd := ch];
        ch.index := ADDED;
        Ctl(Add, ch);
      } else if events == NONE_EVENT {
        Ctl(Del, ch);
        ch.index := DELETED;
      } else {
        Ctl(Mod, ch);
      }
    }

    method ChannelOf(fd: nat) returns (ch: Channel)
      requires Valid()
      ensures ch.fd == fd
      ensures if fd in channels then ch == channels[fd] && ch.index != NEW else fresh(ch) && ch.index == NEW
      ensures forall f :: f in channels && f != fd ==> channels[f] != ch
    {
      assert forall f :: f in channels ==> Tracks(f);
      if fd in channels {
        ch := channels[fd];
      } else {
        ch := new Channel(fd);
      }
    }

    method Watch(fd: nat, events: nat)
      requires Valid()
      modifies this, channels.Values
      ensures Valid() && Interests() == old(Interests())[fd := events]
      ensures fresh(channels.Values - old(channels.Values))
    {
      hide EPollPoller.Valid, EPollPoller.Tracks;
      ghost var was, known := Interests(), channels;
      var ch := ChannelOf(fd);
      Update(ch, events);
      assert forall f :: f in known && f != fd ==> channels[f].events == was[f];
      assert Interests() == was[fd := events];
    }

    method Remove(ch: Channel)
      requires Valid()
      requires ch.fd in channels && channels[ch.fd] == ch && ch.events == NONE_EVENT
      modifies this, ch
      ensures Valid() && channels == old(channels) - {ch.fd} && ch.index == NEW
      ensures Interests() == old(Interests()) - {ch.fd} && kernel == old(kernel) - {ch.fd}
    {
      ghost var was := Interests();
      assert forall fd :: fd in channels && fd != ch.fd ==> Tracks(fd) && channels[fd] != ch;
      assert Tracks(ch.fd);
      channels := channels - {ch.fd};
      if ch.index == ADDED {
        Ctl(Del, ch);
      }
      ch.index := NEW;
      assert forall fd :: fd in was && fd != ch.fd ==> channels[fd].events == was[fd];
      assert Interests() == was - {ch.fd};
    }

    method Unwatch(fd: nat)
      requires Valid() && fd in channels && channels[fd].events == NONE_EVENT
      modifies this, channels.Values
      ensures Valid() && Interests() == old(Interests()) - {fd}
      ensures channels.Values <= old(channels.Values)
    {
      assert Tracks(fd);
      hide EPollPoller.Valid, EPollPoller.Tracks;
      Remove(channels[fd]);
    }
  }

  // ---------- agreement ----------

  datatype Op = Update(fd: nat, events: nat) | Remove(fd: nat)

  function Step(reg: map<int, nat>, op: Op): map<int, nat> {
    match op
    case Update(fd, events) => reg[fd := events]
    case Remove(fd) => reg - {fd}
  }

  /** Channel::remove asserts that no interest is left; an update is always legal. */
  predicate LegalStep(reg: map<int, nat>, op: Op) {
    op.Remove? ==> op.fd in reg && reg[op.fd] == NONE_EVENT
  }

  function Replay(ops: seq<Op>): map<int, nat> {
    if ops == [] then map[] else Step(Replay(ops[..|ops| - 1]), ops[|ops| - 1])
  }

  predicate Legal(ops: seq<Op>) {
    forall i :: 0 <= i < |ops| ==> LegalStep(Replay(ops[..i]), ops[i])
  }

  /** The descriptors updated exactly once since they were registered. */
  function StepOnce(reg: map<int, nat>, once: set<int>, op: Op): set<int> {
    if op.Update? && op.fd !in reg then once + {op.fd as int} else once - {op.fd as int}
  }

  function Once(ops: seq<Op>): set<int> {
    if ops == [] then {}
    else
      var before := ops[..|ops| - 1];
      StepOnce(Replay(before), Once(before), ops[|ops| - 1])
  }

  /** What poll ignores: no interest, unless the only update was the registration. */
  function IgnoredOf(reg: map<int, nat>, once: set<int>): set<int> {
    set fd | fd in reg && reg[fd] == NONE_EVENT && fd !in once
  }

  lemma IgnoredStep(reg: map<int, nat>, once: set<int>, op: Op)
    ensures var now := IgnoredOf(Step(reg, op), StepOnce(reg, once, op));
            now == if op.Update? && op.fd in reg && op.events == NONE_EVENT then IgnoredOf(reg, once) + {op.fd as int}
                   else IgnoredOf(reg, once) - {op.fd as int}
  {
  }

  ghost predicate PollAt(p: PollPoller, reg: map<int, nat>, once: set<int>)
    reads p, p.channels.Values
  {
    p.Valid() && p.Interests() == reg && p.Ignored() == IgnoredOf(reg, once)
  }

  ghost predicate EPollAt(e: EPollPoller, reg: map<int, nat>)
    reads e, e.channels.Values
  {
    e.Valid() && e.Interests() == reg
  }

  /** Both pollers over their own channels, in the state reached by the same calls. */
  ghost predicate Agree(p: PollPoller, e: EPollPoller, reg: map<int, nat>, once: set<int>)
    reads p, e, p.channels.Values, e.channels.Values
  {
    PollAt(p, reg, once) && EPollAt(e, reg) && p.channels.Values !! e.channels.Values
  }

  /** A registered channel that poll does not ignore: removeChannel's assertion fails. */
  ghost predicate Stuck(p: PollPoller, fd: nat)
    reads p, p.channels.Values
  {
    p.Valid() && fd in p.channels && fd !in p.Ignored()
  }

  /** A channel without interest can be removed from poll if and only if it has been updated since its
      registration. */
  lemma RemovalAssertionIff(p: PollPoller, reg: map<int, nat>, once: set<int>, fd: nat)
    requires PollAt(p, reg, once) && LegalStep(reg, Remove(fd))
    ensures fd in p.channels && p.channels[fd].events == NONE_EVENT && (Stuck(p, fd) <==> fd in once)
  {
    assert fd in p.Interests();
  }

  /** One call on poll, unless its removal assertion fails. */
  method StepPoll(p: PollPoller, op: Op, ghost reg: map<int, nat>, ghost once: set<int>) returns (ok: bool)
    requires PollAt(p, reg, once) && LegalStep(reg, op)
    modifies p, p.channels.Values
    ensures ok <==> !(op.Remove? && op.fd in once)
    ensures if ok then PollAt(p, Step(reg, op), StepOnce(reg, once, op)) else PollAt(p, reg, once) && Stuck(p, op.fd)
    ensures fresh(p.channels.Values - old(p.channels.Values))
  {
    hide PollPoller.Valid, PollPoller.Ignored, IgnoredOf, StepOnce;
    IgnoredStep(reg, once, op);
    ok := true;
    if op.Update? {
      assert op.fd in reg <==> op.fd in p.channels;
      p.Watch(op.fd, op.events);
    } else {
      RemovalAssertionIff(p, reg, once, op.fd);
      ok := p.CanRemove(op.fd);
      if ok {
        p.Unwatch(op.fd);
      }
    }
  }

  /** One call on epoll. */
  method StepEPoll(e: EPollPoller, op: Op, ghost reg: map<int, nat>)
    requires EPollAt(e, reg) && LegalStep(reg, op)
    modifies e, e.channels.Values
    ensures EPollAt(e, Step(reg, op))
    ensures fresh(e.channels.Values - old(e.channels.Values))
  {
    hide EPollPoller.Valid;
    if op.Update? {
      e.Watch(op.fd, op.events);
    } else {
      assert op.fd in e.Interests();
      e.Unwatch(op.fd);
    }
  }

  lemma AgreeOnWatches(p: PollPoller, e: EPollPoller, reg: map<int, nat>, once: set<int>)
    requires Agree(p, e, reg, once)
    ensures forall fd, events :: p.Watches(fd, events) <==> e.Watches(fd, events)
  {
    forall fd, events ensures p.Watches(fd, events) <==> e.Watches(fd, events) {
      p.WatchesInterests(fd, events);
      e.WatchesInterests(fd, events);
    }
  }

  method Begin() returns (p: PollPoller, e: EPollPoller)
    ensures fresh(p) && fresh(e) && fresh(p.channels.Values) && fresh(e.channels.Values)
    ensures Agree(p, e, map[], {})
  {
    p := new PollPoller();
    e := new EPollPoller();
  }

  method RunOne(p: PollPoller, e: EPollPoller, op: Op, ghost reg: map<int, nat>, ghost once: set<int>)
    returns (ok: bool)
    requires Agree(p, e, reg, once) && LegalStep(reg, op)
    modifies p, e, p.channels.Values, e.channels.Values
    ensures ok <==> !(op.Remove? && op.fd in once)
    ensures if ok then Agree(p, e, Step(reg, op), StepOnce(reg, once, op))
            else Agree(p, e, reg, once) && Stuck(p, op.fd)
    ensures fresh(p.channels.Values - old(p.channels.Values)) && fresh(e.channels.Values - old(e.channels.Values))
  {
    hide PollAt, EPollAt, Stuck, LegalStep, Step, StepOnce;
    ok := StepPoll(p, op, reg, once);
    if ok {
      StepEPoll(e, op, reg);
    }
  }

  lemma NoOps(ops: seq<Op>)
    ensures Replay(ops[..0]) == map[] && Once(ops[..0]) == {}
  {
  }

  lemma OneMore(ops: seq<Op>, n: nat)
    requires n < |ops| && Legal(ops)
    ensures LegalStep(Replay(ops[..n]), ops[n])
    ensures Replay(ops[..n + 1]) == Step(Replay(ops[..n]), ops[n])
    ensures Once(ops[..n + 1]) == StepOnce(Replay(ops[..n]), Once(ops[..n]), ops[n])
  {
    hide LegalStep, Step, StepOnce;
    assert ops[..n + 1][..n] == ops[..n];
  }

  /** The shortest call sequence that fails: registered without interest, then removed. */
  lemma RemovedAfterEmptyRegistration(fd: nat)
    ensures var ops := [Update(fd, NONE_EVENT), Remove(fd)]; Legal(ops) && fd in Once(ops[..1])
  {
    var ops := [Update(fd, NONE_EVENT), Remove(fd)];
    assert ops[..0] == [] && ops[..1] == [ops[0]] && ops[..1][..0] == [];
    assert Replay(ops[..1]) == Step(map[], ops[0]);
  }

  /** Under the same calls both pollers watch the same descriptors for the same events, and epoll_ctl
      is never refused.  An assertion fails, in poll only, exactly at the first removal of a channel
      that has not been updated since its registration. */
  method RunBoth(ops: seq<Op>) returns (p: PollPoller, e: EPollPoller, done: nat)
    requires Legal(ops)
    ensures done <= |ops| && Agree(p, e, Replay(ops[..done]), Once(ops[..done]))
    ensures forall fd, events :: p.Watches(fd, events) <==> e.Watches(fd, events)
    ensures forall i :: 0 <= i < done ==> !(ops[i].Remove? && ops[i].fd in Once(ops[..i]))
    ensures done < |ops| ==>
      ops[done].Remove? && ops[done].fd in Once(ops[..done]) && Stuck(p, ops[done].fd)
  {
    hide Agree, Stuck, Legal, LegalStep, Step, StepOnce, Replay, Once;
    p, e := Begin();
    NoOps(ops);
    done := 0;
    var ok := true;
    while done < |ops| && ok
      invariant done <= |ops| && Agree(p, e, Replay(ops[..done]), Once(ops[..done]))
      invariant fresh(p) && fresh(e) && fresh(p.channels.Values) && fresh(e.channels.Values)
      invariant forall i :: 0 <= i < done ==> !(ops[i].Remove? && ops[i].fd in Once(ops[..i]))
      invariant !ok ==>
        done < |ops| && ops[done].Remove? && ops[done].fd in Once(ops[..done]) && Stuck(p, ops[done].fd)
      decreases |ops| - done, ok
    {
      OneMore(ops, done);
      ok := RunOne(p, e, ops[done], Replay(ops[..done]), Once(ops[..done]));
      if ok {
        done := done + 1;
      }
    }
    AgreeOnWatches(p, e, Replay(ops[..done]), Once(ops[..done]));
  }
}
