/** A connection's output path and life cycle (muduo/net/TcpConnection.cc, Channel.cc).

    What the loop thread does with one connection: its own calls, the functors other threads queued,
    and the events of its channel.  The output buffer is the byte sequence module Buffers shows it to
    be, and the kernel answers each write as it likes. */
module TcpConnections {
  import opened Collections
  import opened NetworkOrder

  datatype State = Connecting | Connected | Disconnecting | Disconnected {
    function Rank(): nat {
      match this case Connecting => 0 case Connected => 1 case Disconnecting => 2 case Disconnected => 3
    }

    /** handleClose, forceClose and the events of the channel belong to these states. */
    predicate Open() {
      Connected? || Disconnecting?
    }
  }

  /** write(2): bytes taken, EWOULDBLOCK, EPIPE or ECONNRESET, any other error. */
  datatype WriteResult = Wrote(n: nat) | WouldBlock | Broken | OtherError

  datatype Notice = WriteComplete | HighWaterMark(size: nat)

  /** `registered` is addedToLoop_: Channel::update sets it at every change of interest, Channel::remove
      clears it.  `kernel`, `accepted`, `ups`, `downs`, `closes` and `notices` are histories: bytes
      written, messages taken, reports to the user's callbacks. */
  datatype Conn = Conn(state: State, readInterest: bool, writeInterest: bool, reading: bool, output: seq<Byte>,
                       writeShut: bool, registered: bool,
                       kernel: seq<Byte>, accepted: seq<seq<Byte>>,
                       ups: nat, downs: nat, closes: nat, notices: seq<Notice>)

  const START := Conn(Connecting, false, false, true, [], false, false, [], [], 0, 0, 0, [])

  const HIGH_WATER_MARK := 64 * 1024 * 1024

  // ---------- the operations ----------

  /** What the kernel may answer to a write of len bytes. */
  predicate Answers(s: Conn, r: WriteResult, len: nat) {
    (r.Wrote? ==> r.n <= len) && (s.writeShut ==> r.Broken?)
  }

  /** The rest of a message goes behind the output buffer. */
  function Queue(s: Conn, rest: seq<Byte>): Conn {
    var size := |s.output| + |rest|;
    s.(output := s.output + rest, writeInterest := true, registered := s.registered || !s.writeInterest,
       notices := if size >= HIGH_WATER_MARK && |s.output| < HIGH_WATER_MARK
                  then s.notices + [HighWaterMark(size)] else s.notices)
  }

  function SendInLoop(s: Conn, data: seq<Byte>, r: WriteResult): Conn
    requires Answers(s, r, |data|)
  {
    var direct := !s.writeInterest && s.output == [];
    if s.state == Disconnected || (direct && r.Broken?) then s
    else
      var n := if direct && r.Wrote? then r.n else 0;
      var s1 := s.(kernel := s.kernel + data[..n], accepted := s.accepted + [data]);
      if n < |data| then Queue(s1, data[n..])
      else if direct && r.Wrote? then s1.(notices := s.notices + [WriteComplete])
      else s1
  }

  function ShutdownInLoop(s: Conn): Conn {
    if !s.writeInterest then s.(writeShut := true) else s
  }

  function Shutdown(s: Conn): Conn {
    if s.state == Connected then s.(state := Disconnecting) else s
  }

  function ForceClose(s: Conn): Conn {
    if s.state.Open() then s.(state := Disconnecting) else s
  }

  function HandleWrite(s: Conn, r: WriteResult): Conn
    requires Answers(s, r, |s.output|)
  {
    if s.writeInterest && r.Wrote? && r.n > 0 then
      var s1 := s.(kernel := s.kernel + s.output[..r.n], output := s.output[r.n..]);
      if s1.output == [] then
        var s2 := s1.(writeInterest := false, registered := true, notices := s.notices + [WriteComplete]);
        if s2.state == Disconnecting then ShutdownInLoop(s2) else s2
      else s1
    else s
  }

  function HandleClose(s: Conn): Conn {
    s.(state := Disconnected, readInterest := false, writeInterest := false, registered := true,
       downs := s.downs + 1, closes := s.closes + 1)
  }

  function ForceCloseInLoop(s: Conn): Conn {
    if s.state.Open() then HandleClose(s) else s
  }

  function StartReadInLoop(s: Conn): Conn {
    if !s.reading || !s.readInterest then s.(readInterest := true, reading := true, registered := true) else s
  }

  function StopReadInLoop(s: Conn): Conn {
    if s.reading || s.readInterest then s.(readInterest := false, reading := false, registered := true) else s
  }

  function ConnectEstablished(s: Conn): Conn {
    s.(state := Connected, readInterest := true, registered := true, ups := s.ups + 1)
  }

  /** connectDestroyed up to the removal of the channel. */
  function BeforeRemove(s: Conn): Conn {
    if s.state == Connected then
      s.(state := Disconnected, readInterest := false, writeInterest := false, registered := true, downs := s.downs + 1)
    else s
  }

  /** Channel::remove asserts that no interest is left. */
  predicate CanRemove(s: Conn) {
    !s.readInterest && !s.writeInterest
  }

  // ---------- the invariant of the connection ----------

  ghost predicate Conserved(s: Conn) {
    s.kernel + s.output == Concat(s.accepted)
  }

  predicate Consistent(s: Conn) {
    && (s.state.Open() ==> (s.writeInterest <==> s.output != []))
    && (!s.state.Open() ==> !s.writeInterest)
    && (s.state == Connecting ==> !s.readInterest && s.output == [])
    && (s.writeShut ==> s.state.Rank() >= 2)
    && (s.writeShut && s.state == Disconnecting ==> s.output == [])
    && s.ups == (if s.state == Connecting then 0 else 1)
    && s.downs == (if s.state == Disconnected then 1 else 0)
    && s.closes <= s.downs
  }

  ghost predicate Inv(s: Conn) {
    Conserved(s) && Consistent(s)
  }

  lemma SendBehind(s: Conn, data: seq<Byte>, r: WriteResult)
    requires s.state != Disconnected && s.output != [] && Answers(s, r, |data|)
    ensures var s' := SendInLoop(s, data, r);
            s'.accepted == s.accepted + [data] && s'.kernel + s'.output == s.kernel + s.output + data
  {
    assert data[..0] == [] && data[0..] == data;
    assert s.kernel + (s.output + data) == s.kernel + s.output + data;
  }

  lemma SendDirectly(s: Conn, data: seq<Byte>, r: WriteResult)
    requires s.state != Disconnected && s.output == [] && !s.writeInterest && Answers(s, r, |data|)
    ensures var s' := SendInLoop(s, data, r);
            if r.Broken? then s' == s
            else s'.accepted == s.accepted + [data] && s'.kernel + s'.output == s.kernel + data
  {
    var n := if r.Wrote? then r.n else 0;
    assert s.kernel + data[..n] + data[n..] == s.kernel + data;
  }

  /** A message is taken whole or not at all, and it is refused only on a closed connection or when
      the direct write finds the connection broken. */
  lemma SendTakesWholeMessages(s: Conn, data: seq<Byte>, r: WriteResult)
    requires Consistent(s) && s.state != Connecting && Answers(s, r, |data|)
    ensures var s' := SendInLoop(s, data, r);
            var refused := s.state == Disconnected || (s.output == [] && r.Broken?);
            && s'.accepted == (if refused then s.accepted else s.accepted + [data])
            && s'.kernel + s'.output == (if refused then s.kernel + s.output else s.kernel + s.output + data)
  {
    if s.state != Disconnected {
      hide SendInLoop;
      if s.output == [] {
        SendDirectly(s, data, r);
        assert s.kernel + s.output == s.kernel;
      } else {
        SendBehind(s, data, r);
      }
    }
  }

  lemma SendConsistent(s: Conn, data: seq<Byte>, r: WriteResult)
    requires Consistent(s) && s.state != Connecting && Answers(s, r, |data|)
    ensures Consistent(SendInLoop(s, data, r))
  {
  }

  lemma SendKeeps(s: Conn, data: seq<Byte>, r: WriteResult)
    requires Inv(s) && s.state != Connecting && Answers(s, r, |data|)
    ensures Inv(SendInLoop(s, data, r))
  {
    hide Concat, SendInLoop, Consistent, Answers;
    SendConsistent(s, data, r);
    SendTakesWholeMessages(s, data, r);
    ConcatSnoc(s.accepted, data);
  }

  lemma WriteKeeps(s: Conn, r: WriteResult)
    requires Inv(s) && Answers(s, r, |s.output|)
    ensures Inv(HandleWrite(s, r)) && HandleWrite(s, r).accepted == s.accepted
    ensures HandleWrite(s, r).kernel + HandleWrite(s, r).output == s.kernel + s.output
  {
  }

  /** The callbacks a send leads to: the high-water mark exactly when the buffer crosses it, write
      complete exactly when the kernel took the whole message at once. */
  lemma SendNotices(s: Conn, data: seq<Byte>, r: WriteResult)
    requires Consistent(s) && s.state.Open() && Answers(s, r, |data|)
    ensures var s' := SendInLoop(s, data, r);
            s'.notices == s.notices
              + (if |s.output| < HIGH_WATER_MARK <= |s'.output| then [HighWaterMark(|s'.output|)] else [])
              + (if s.output == [] && r == Wrote(|data|) then [WriteComplete] else [])
  {
  }

  /** A writable event reports write complete exactly when it empties the buffer, and then also
      finishes a shutdown that had to wait for the buffer. */
  lemma WriteNotices(s: Conn, r: WriteResult)
    requires Consistent(s) && s.state.Open() && Answers(s, r, |s.output|)
    ensures var s' := HandleWrite(s, r); var drained := s.output != [] && s'.output == [];
            && s'.notices == s.notices + (if drained then [WriteComplete] else [])
            && s'.writeShut == (s.writeShut || (drained && s.state == Disconnecting))
            && s'.state == s.state
  {
  }

  // ---------- the loop thread and the connection ----------

  /** revents_, and how far handleEventWithGuard has come with it. */
  datatype Mask = Mask(hup: bool, pollin: bool, pri: bool, rdhup: bool, pollout: bool) {
    predicate Closes() { hup && !pollin }
    predicate Reads() { pollin || pri || rdhup }
  }

  datatype Stage = AtClose | AtRead | AtWrite

  /** `closed` records whether the connection was closed already when the event arrived. */
  datatype Event = Event(mask: Mask, stage: Stage, closed: bool)

  datatype ReadResult = Got | Eof | Failed

  datatype Task = SendTask(data: seq<Byte>) | ShutdownTask | ForceCloseTask | DestroyTask

  /** `asked` records that shutdown was called on the connected connection. */
  datatype Sys = Sys(c: Conn, event: Option<Event>, tasks: seq<Task>, asked: bool, destroyPosted: bool, destroyed: bool)

  datatype Action =
    | Establish                              // connectEstablished
    | Send(data: seq<Byte>, r: WriteResult)  // send from the loop thread, a callback included
    | PostSend(data: seq<Byte>)              // send from another thread
    | ShutdownNow | PostShutdown             // shutdown, likewise
    | PostForceClose | DelayForceClose       // forceClose, forceCloseWithDelay
    | StartRead | StopRead
    | RunTask(r: WriteResult)                // the next pending functor
    | Poll(mask: Mask)                       // the channel becomes active
    | DispatchClose | DispatchRead(got: ReadResult) | DispatchWrite(r: WriteResult)
    | PostDestroy                            // what the close callback leads to

  /** Where each step can be taken.  Reads can be switched at any time, the closed and the destroyed
      connection included, and events of any mask can arrive at any time. */
  predicate Possible(s: Sys, a: Action) {
    match a
    case Establish => s.c.state == Connecting
    case Send(data, r) => Answers(s.c, r, |data|)
    case StartRead => s.c.state != Connecting
    case StopRead => s.c.state != Connecting
    case RunTask(r) =>
      s.event.None? && s.tasks != [] && (s.tasks[0].SendTask? ==> Answers(s.c, r, |s.tasks[0].data|))
    case Poll(_) => s.event.None? && s.c.state != Connecting
    case DispatchClose => s.event.Some? && s.event.value.stage.AtClose?
    case DispatchRead(_) => s.event.Some? && s.event.value.stage.AtRead?
    case DispatchWrite(r) => s.event.Some? && s.event.value.stage.AtWrite? && Answers(s.c, r, |s.c.output|)
    case PostDestroy => s.c.closes > 0 && !s.destroyPosted
    case _ => true
  }

  /** The assertions in handleClose and in Channel::remove. */
  predicate Safe(s: Sys, a: Action) {
    match a
    case DispatchClose => s.event.Some? && s.event.value.mask.Closes() ==> s.c.state.Open()
    case DispatchRead(got) => s.event.Some? && s.event.value.mask.Reads() && got.Eof? ==> s.c.state.Open()
    case RunTask(_) => s.tasks != [] && s.tasks[0].DestroyTask? ==> CanRemove(BeforeRemove(s.c))
    case _ => true
  }

  function DoTask(s: Sys, t: Task, r: WriteResult): Sys
    requires t.SendTask? ==> Answers(s.c, r, |t.data|)
  {
    match t
    case SendTask(data) => s.(c := SendInLoop(s.c, data, r))
    case ShutdownTask => s.(c := ShutdownInLoop(s.c))
    case ForceCloseTask => s.(c := ForceCloseInLoop(s.c))
    case DestroyTask => s.(c := BeforeRemove(s.c).(registered := false), destroyed := true)
  }

  function Next(s: Sys, a: Action): Sys
    requires Possible(s, a)
  {
    match a
    case Establish => s.(c := ConnectEstablished(s.c))
    case Send(data, r) => if s.c.state == Connected then s.(c := SendInLoop(s.c, data, r)) else s
    case PostSend(data) => if s.c.state == Connected then s.(tasks := s.tasks + [SendTask(data)]) else s
    case ShutdownNow => if s.c.state == Connected then s.(c := ShutdownInLoop(Shutdown(s.c)), asked := true) else s
    case PostShutdown =>
      if s.c.state == Connected then s.(c := Shutdown(s.c), tasks := s.tasks + [ShutdownTask], asked := true) else s
    case PostForceClose =>
      if s.c.state.Open() then s.(c := ForceClose(s.c), tasks := s.tasks + [ForceCloseTask]) else s
    case DelayForceClose => s.(c := ForceClose(s.c))
    case StartRead => s.(c := StartReadInLoop(s.c))
    case StopRead => s.(c := StopReadInLoop(s.c))
    case RunTask(r) => DoTask(s.(tasks := s.tasks[1..]), s.tasks[0], r)
    case Poll(mask) => s.(event := Some(Event(mask, AtClose, s.c.state == Disconnected)))
    case DispatchClose =>
      s.(c := if s.event.value.mask.Closes() then HandleClose(s.c) else s.c,
         event := Some(s.event.value.(stage := AtRead)))
    case DispatchRead(got) =>
      s.(c := if s.event.value.mask.Reads() && got.Eof? then HandleClose(s.c) else s.c,
         event := Some(s.event.value.(stage := AtWrite)))
    case DispatchWrite(r) =>
      s.(c := if s.event.value.mask.pollout then HandleWrite(s.c, r) else s.c, event := None)
    case PostDestroy => s.(tasks := s.tasks + [DestroyTask], destroyPosted := true)
  }

  /** The connection's own invariant, and what a queued functor or an event under way may rely on. */
  ghost predicate SysInv(s: Sys) {
    Inv(s.c) && Obligations(s)
  }

  predicate Obligations(s: Sys) {
    && (s.tasks != [] || s.event.Some? ==> s.c.state != Connecting)
    && (ShutdownTask in s.tasks ==> s.c.state.Rank() >= 2)
    && (s.destroyed || DestroyTask in s.tasks ==> s.c.state == Disconnected)
    && (s.event.Some? ==>
          var e := s.event.value;
          && (e.stage.AtClose? ==> (s.c.state == Disconnected <==> e.closed))
          && (e.stage.AtRead? ==> (s.c.state == Disconnected <==> e.closed || e.mask.Closes())))
  }

  // ---------- what each step keeps ----------

  lemma SendState(s: Conn, data: seq<Byte>, r: WriteResult)
    requires Answers(s, r, |data|)
    ensures var s' := SendInLoop(s, data, r);
            && s'.state == s.state && s'.readInterest == s.readInterest && s'.reading == s.reading
            && s'.closes == s.closes && s'.downs == s.downs && (s.registered ==> s'.registered)
            && (s.state == Disconnected ==> s' == s)
            && s'.writeShut == s.writeShut && (s'.output == [] ==> s.output == [])
  {
  }

  lemma WriteState(s: Conn, r: WriteResult)
    requires Answers(s, r, |s.output|)
    ensures var s' := HandleWrite(s, r);
            && s'.state == s.state && s'.readInterest == s.readInterest && s'.reading == s.reading
            && s'.closes == s.closes && s'.downs == s.downs && (s.registered ==> s'.registered)
            && (!s.writeInterest ==> s' == s)
  {
  }

  lemma OperationsKeep(c: Conn)
    requires Inv(c)
    ensures c.state == Connecting ==> Inv(ConnectEstablished(c))
    ensures c.state == Connected ==> Inv(Shutdown(c)) && Inv(ShutdownInLoop(Shutdown(c)))
    ensures c.state.Rank() >= 2 ==> Inv(ShutdownInLoop(c))
    ensures Inv(ForceClose(c)) && (c.state.Open() ==> Inv(HandleClose(c)))
    ensures c.state != Connecting ==> Inv(StartReadInLoop(c)) && Inv(StopReadInLoop(c))
    ensures c.state == Disconnected ==> Inv(BeforeRemove(c).(registered := false))
  {
  }

  lemma ClosedIsDisconnected(c: Conn)
    requires Inv(c)
    ensures c.closes > 0 ==> c.state == Disconnected
    ensures c.state == Disconnected ==> !c.writeInterest
  {
  }

  predicate IsPost(a: Action) {
    a.PostSend? || a.PostShutdown? || a.PostForceClose? || a.PostDestroy?
  }

  predicate IsEvent(a: Action) {
    a.Poll? || a.DispatchClose? || a.DispatchRead? || a.DispatchWrite?
  }

  lemma CallKeepsInv(s: Sys, a: Action)
    requires Inv(s.c) && Possible(s, a) && !IsEvent(a) && !a.RunTask?
    ensures Inv(Next(s, a).c)
  {
    hide Inv, SendInLoop;
    OperationsKeep(s.c);
    if a.Send? && s.c.state == Connected {
      SendKeeps(s.c, a.data, a.r);
    }
  }

  lemma PostKeepsObligations(s: Sys, a: Action)
    requires SysInv(s) && Possible(s, a) && IsPost(a)
    ensures Obligations(Next(s, a)) && Next(s, a).c.state.Rank() >= s.c.state.Rank()
  {
    hide Inv;
    ClosedIsDisconnected(s.c);
  }

  lemma CallKeepsObligations(s: Sys, a: Action)
    requires SysInv(s) && Possible(s, a) && !IsEvent(a) && !a.RunTask? && !IsPost(a)
    ensures Obligations(Next(s, a)) && Next(s, a).c.state.Rank() >= s.c.state.Rank()
  {
    hide Inv, SendInLoop;
    if a.Send? {
      SendState(s.c, a.data, a.r);
    }
  }

  lemma EventKeepsInv(s: Sys, a: Action)
    requires SysInv(s) && Possible(s, a) && Safe(s, a) && IsEvent(a)
    ensures Inv(Next(s, a).c)
  {
    hide Inv, HandleWrite;
    OperationsKeep(s.c);
    if a.DispatchWrite? {
      WriteKeeps(s.c, a.r);
    }
  }

  lemma EventKeepsObligations(s: Sys, a: Action)
    requires SysInv(s) && Possible(s, a) && Safe(s, a) && IsEvent(a)
    ensures Obligations(Next(s, a)) && Next(s, a).c.state.Rank() >= s.c.state.Rank()
  {
    hide Inv, HandleWrite;
    if a.DispatchWrite? {
      WriteState(s.c, a.r);
    }
  }

  lemma FirstTask(tasks: seq<Task>, x: Task)
    requires tasks != []
    ensures x in tasks <==> x == tasks[0] || x in tasks[1..]
  {
    assert tasks == [tasks[0]] + tasks[1..];
  }

  lemma TaskKeepsInv(s: Sys, r: WriteResult)
    requires SysInv(s) && Possible(s, RunTask(r))
    ensures Inv(Next(s, RunTask(r)).c)
  {
    hide Inv, SendInLoop;
    var t := s.tasks[0];
    assert t in s.tasks;
    OperationsKeep(s.c);
    if t.SendTask? {
      SendKeeps(s.c, t.data, r);
    }
  }

  lemma TaskKeepsObligations(s: Sys, r: WriteResult)
    requires SysInv(s) && Possible(s, RunTask(r))
    ensures Obligations(Next(s, RunTask(r))) && Next(s, RunTask(r)).c.state.Rank() >= s.c.state.Rank()
  {
    hide Inv, SendInLoop;
    var t := s.tasks[0];
    FirstTask(s.tasks, ShutdownTask);
    FirstTask(s.tasks, DestroyTask);
    if t.SendTask? {
      SendState(s.c, t.data, r);
    }
  }

  /** Every step that passes its assertion keeps the invariant and moves the state forward only. */
  lemma StepKeeps(s: Sys, a: Action)
    requires SysInv(s) && Possible(s, a) && Safe(s, a)
    ensures SysInv(Next(s, a)) && Next(s, a).c.state.Rank() >= s.c.state.Rank()
  {
    hide Inv, Obligations, Next, Possible, Safe;
    if IsEvent(a) {
      EventKeepsInv(s, a);
      EventKeepsObligations(s, a);
    } else if a.RunTask? {
      TaskKeepsInv(s, a.r);
      TaskKeepsObligations(s, a.r);
    } else {
      CallKeepsInv(s, a);
      if IsPost(a) {
        PostKeepsObligations(s, a);
      } else {
        CallKeepsObligations(s, a);
      }
    }
  }

  // ---------- runs ----------

  const BEGIN := Sys(START, None, [], false, false, false)

  /** A run of any steps, as long as no assertion fails. */
  ghost predicate IsRun(states: seq<Sys>, actions: seq<Action>) {
    && |states| == |actions| + 1 && states[0] == BEGIN
    && forall i :: 0 <= i < |actions| ==>
         && Possible(states[i], actions[i]) && Safe(states[i], actions[i])
         && states[i + 1] == Next(states[i], actions[i])
  }

  lemma StartOk()
    ensures SysInv(BEGIN)
  {
  }

  lemma {:induction false} RunsKeepInv(states: seq<Sys>, actions: seq<Action>, k: nat)
    requires IsRun(states, actions) && k <= |actions|
    ensures SysInv(states[k])
  {
    hide SysInv, Safe, Possible, Next;
    if k > 0 {
      RunsKeepInv(states, actions, k - 1);
      StepKeeps(states[k - 1], actions[k - 1]);
      assert states[k] == states[(k - 1) + 1];
    } else {
      StartOk();
    }
  }

  /** In every run of sends, partial writes, blocked and broken writes, events and queued functors:
      the bytes given to the kernel followed by the output buffer are the accepted messages in
      order, and while the connection is open write interest is on exactly when bytes wait. */
  lemma ByteStreamIsConserved(states: seq<Sys>, actions: seq<Action>, k: nat)
    requires IsRun(states, actions) && k <= |actions|
    ensures var c := states[k].c;
            && c.kernel + c.output == Concat(c.accepted)
            && (c.state.Open() ==> (c.writeInterest <==> c.output != []))
  {
    RunsKeepInv(states, actions, k);
  }

  /** The write side is shut down, while the connection is open, only after every accepted byte has
      been given to the kernel. */
  lemma HalfCloseLosesNothing(states: seq<Sys>, actions: seq<Action>, k: nat)
    requires IsRun(states, actions) && k <= |actions| && states[k].c.writeShut && states[k].c.state.Open()
    ensures states[k].c.output == [] && states[k].c.kernel == Concat(states[k].c.accepted)
  {
    RunsKeepInv(states, actions, k);
  }

  /** The state only moves forward; UP is reported once, DOWN and the close callback at most once. */
  lemma {:induction false} LifeCycle(states: seq<Sys>, actions: seq<Action>, i: nat, j: nat)
    requires IsRun(states, actions) && i <= j <= |actions|
    ensures states[i].c.state.Rank() <= states[j].c.state.Rank()
    ensures var c := states[j].c;
            && c.ups == (if c.state == Connecting then 0 else 1)
            && c.closes <= c.downs == (if c.state == Disconnected then 1 else 0)
    decreases j - i
  {
    hide Possible, Next, Safe;
    RunsKeepInv(states, actions, j);
    if i < j {
      LifeCycle(states, actions, i, j - 1);
      RunsKeepInv(states, actions, j - 1);
      StepKeeps(states[j - 1], actions[j - 1]);
      assert states[j] == states[(j - 1) + 1];
    }
  }

  /** A shutdown is not forgotten: it has been done, waits for the buffer or is still queued. */
  predicate ShutdownKept(s: Sys) {
    && (s.asked ==> s.c.state.Rank() >= 2)
    && (s.asked && s.c.state == Disconnecting ==> s.c.writeShut || s.c.output != [] || ShutdownTask in s.tasks)
  }

  lemma TaskKeepsShutdown(s: Sys, r: WriteResult)
    requires SysInv(s) && ShutdownKept(s) && Possible(s, RunTask(r))
    ensures ShutdownKept(Next(s, RunTask(r)))
  {
    hide Conserved, Obligations, SendInLoop;
    FirstTask(s.tasks, ShutdownTask);
    if s.tasks[0].SendTask? {
      SendState(s.c, s.tasks[0].data, r);
    }
  }

  lemma StepKeepsShutdown(s: Sys, a: Action)
    requires SysInv(s) && ShutdownKept(s) && Possible(s, a) && Safe(s, a)
    ensures ShutdownKept(Next(s, a))
  {
    hide Conserved, SendInLoop, HandleWrite;
    if a.RunTask? {
      hide Next, ShutdownKept;
      TaskKeepsShutdown(s, a.r);
    } else if a.Send? {
      SendState(s.c, a.data, a.r);
    } else if a.DispatchWrite? {
      WriteState(s.c, a.r);
      if s.c.state.Open() {
        WriteNotices(s.c, a.r);
      }
    }
  }

  /** The other half of the half close: once shutdown has been asked for and its functor has run,
      the write side is shut down as soon as the output buffer is empty. */
  lemma {:induction false} ShutdownIsDone(states: seq<Sys>, actions: seq<Action>, k: nat)
    requires IsRun(states, actions) && k <= |actions|
    ensures ShutdownKept(states[k])
    ensures var s := states[k];
            s.asked && s.c.state == Disconnecting && s.c.output == [] && ShutdownTask !in s.tasks ==> s.c.writeShut
  {
    if k > 0 {
      hide Possible, Next, Safe, SysInv;
      ShutdownIsDone(states, actions, k - 1);
      RunsKeepInv(states, actions, k - 1);
      StepKeepsShutdown(states[k - 1], actions[k - 1]);
      assert states[k] == states[(k - 1) + 1];
    }
  }

  // ---------- the histories are what was asked for ----------

  /** On an open connection a send gives the kernel exactly what the direct write took, and what it
      did not take goes behind the buffer. */
  lemma SendWrites(s: Conn, data: seq<Byte>, r: WriteResult)
    requires Consistent(s) && s.state.Open() && Answers(s, r, |data|)
    ensures var s' := SendInLoop(s, data, r); var n := if s.output == [] && r.Wrote? then r.n else 0;
            && s'.kernel == s.kernel + data[..n]
            && s'.output == (if s.output == [] && r.Broken? then [] else s.output + data[n..])
  {
    var n := if s.output == [] && r.Wrote? then r.n else 0;
    if n == |data| {
      assert data[n..] == [] && s.output + [] == s.output;
    }
  }

  /** A writable event gives the kernel exactly what the write took from the front of the buffer. */
  lemma WriteWrites(s: Conn, r: WriteResult)
    requires Consistent(s) && Answers(s, r, |s.output|)
    ensures var s' := HandleWrite(s, r); var n := if s.state.Open() && r.Wrote? then r.n else 0;
            s'.kernel == s.kernel + s.output[..n] && s'.output == s.output[n..]
  {
    assert s.output[..0] == [] && s.output[0..] == s.output && s.kernel + [] == s.kernel;
  }

  /** The bytes that the write of a step took: of the message, or from the front of the buffer. */
  function WrittenBy(s: Sys, a: Action): seq<Byte>
    requires Possible(s, a)
  {
    match a
    case Send(data, r) => if s.c.state == Connected && s.c.output == [] && r.Wrote? then data[..r.n] else []
    case RunTask(r) =>
      if s.tasks[0].SendTask? && s.c.state.Open() && s.c.output == [] && r.Wrote? then s.tasks[0].data[..r.n] else []
    case DispatchWrite(r) =>
      if s.event.value.mask.pollout && s.c.state.Open() && r.Wrote? then s.c.output[..r.n] else []
    case _ => []
  }

  /** The message of a step, unless the connection is closed or the direct write finds it broken. */
  function AcceptedBy(s: Sys, a: Action): seq<seq<Byte>>
    requires Possible(s, a)
  {
    match a
    case Send(data, r) => if s.c.state == Connected && !(s.c.output == [] && r.Broken?) then [data] else []
    case RunTask(r) =>
      if s.tasks[0].SendTask? && s.c.state.Open() && !(s.c.output == [] && r.Broken?) then [s.tasks[0].data] else []
    case _ => []
  }

  lemma SendStream(c: Conn, data: seq<Byte>, r: WriteResult)
    requires Consistent(c) && c.state != Connecting && Answers(c, r, |data|)
    ensures var c' := SendInLoop(c, data, r);
            && c'.kernel == c.kernel + (if c.state.Open() && c.output == [] && r.Wrote? then data[..r.n] else [])
            && c'.accepted == c.accepted + (if c.state.Open() && !(c.output == [] && r.Broken?) then [data] else [])
  {
    hide SendInLoop, Consistent;
    SendTakesWholeMessages(c, data, r);
    if c.state.Open() {
      SendWrites(c, data, r);
      assert data[..0] == [];
    } else {
      SendState(c, data, r);
    }
  }

  lemma StreamStep(s: Sys, a: Action)
    requires SysInv(s) && Possible(s, a) && Safe(s, a)
    ensures Next(s, a).c.kernel == s.c.kernel + WrittenBy(s, a)
    ensures Next(s, a).c.accepted == s.c.accepted + AcceptedBy(s, a)
  {
    hide Conserved, Consistent, SendInLoop, HandleWrite, Concat;
    if a.Send? && s.c.state == Connected {
      SendStream(s.c, a.data, a.r);
    } else if a.RunTask? && s.tasks[0].SendTask? {
      SendStream(s.c, s.tasks[0].data, a.r);
    } else if a.DispatchWrite? {
      WriteWrites(s.c, a.r);
      KeepsAccepted(s.c, a.r);
      assert s.c.output[..0] == [];
    }
  }

  lemma KeepsAccepted(s: Conn, r: WriteResult)
    requires Answers(s, r, |s.output|)
    ensures HandleWrite(s, r).accepted == s.accepted
  {
  }

  ghost function AllWritten(states: seq<Sys>, actions: seq<Action>, k: nat): seq<Byte>
    requires IsRun(states, actions) && k <= |actions|
  {
    if k == 0 then [] else AllWritten(states, actions, k - 1) + WrittenBy(states[k - 1], actions[k - 1])
  }

  ghost function AllAccepted(states: seq<Sys>, actions: seq<Action>, k: nat): seq<seq<Byte>>
    requires IsRun(states, actions) && k <= |actions|
  {
    if k == 0 then [] else AllAccepted(states, actions, k - 1) + AcceptedBy(states[k - 1], actions[k - 1])
  }

  /** Over every run: what the writes took, one after the other, followed by the output buffer, is the
      messages whose sends were not refused, one after the other. */
  lemma {:induction false} StreamIsWhatWasSent(states: seq<Sys>, actions: seq<Action>, k: nat)
    requires IsRun(states, actions) && k <= |actions|
    ensures states[k].c.kernel == AllWritten(states, actions, k)
    ensures states[k].c.accepted == AllAccepted(states, actions, k)
    ensures AllWritten(states, actions, k) + states[k].c.output == Concat(AllAccepted(states, actions, k))
  {
    ByteStreamIsConserved(states, actions, k);
    hide Possible, Safe, Next, SysInv, WrittenBy, AcceptedBy, Concat;
    if k > 0 {
      StreamIsWhatWasSent(states, actions, k - 1);
      RunsKeepInv(states, actions, k - 1);
      StreamStep(states[k - 1], actions[k - 1]);
      assert states[k] == states[(k - 1) + 1];
    } else {
      assert states[0] == BEGIN;
    }
  }

  /** The functor that a call from another thread, or the close callback, queues. */
  function PostedBy(s: Sys, a: Action): seq<Task> {
    match a
    case PostSend(data) => if s.c.state == Connected then [SendTask(data)] else []
    case PostShutdown => if s.c.state == Connected then [ShutdownTask] else []
    case PostForceClose => if s.c.state.Open() then [ForceCloseTask] else []
    case PostDestroy => [DestroyTask]
    case _ => []
  }

  function RunBy(s: Sys, a: Action): seq<Task> {
    if a.RunTask? && s.tasks != [] then [s.tasks[0]] else []
  }

  ghost function AllPosted(states: seq<Sys>, actions: seq<Action>, k: nat): seq<Task>
    requires k <= |actions| <= |states|
  {
    if k == 0 then [] else AllPosted(states, actions, k - 1) + PostedBy(states[k - 1], actions[k - 1])
  }

  ghost function AllRun(states: seq<Sys>, actions: seq<Action>, k: nat): seq<Task>
    requires k <= |actions| <= |states|
  {
    if k == 0 then [] else AllRun(states, actions, k - 1) + RunBy(states[k - 1], actions[k - 1])
  }

  lemma QueueAfterTask(s: Sys, r: WriteResult)
    requires Possible(s, RunTask(r))
    ensures Next(s, RunTask(r)).tasks == s.tasks[1..]
  {
  }

  lemma QueueAfterCall(s: Sys, a: Action)
    requires Possible(s, a) && !a.RunTask?
    ensures Next(s, a).tasks == if PostedBy(s, a) == [] then s.tasks else s.tasks + PostedBy(s, a)
  {
    hide SendInLoop, HandleWrite;
  }

  lemma QueueStep(s: Sys, a: Action)
    requires Possible(s, a)
    ensures RunBy(s, a) + Next(s, a).tasks == s.tasks + PostedBy(s, a)
  {
    hide Next;
    if a.RunTask? {
      QueueAfterTask(s, a.r);
      assert [s.tasks[0]] + s.tasks[1..] == s.tasks + [];
    } else {
      QueueAfterCall(s, a);
      assert [] + s.tasks == s.tasks + [];
    }
  }

  /** Over every run the functors that have run, followed by those queued, are the ones posted. */
  lemma {:induction false} FunctorsRunInOrder(states: seq<Sys>, actions: seq<Action>, k: nat)
    requires IsRun(states, actions) && k <= |actions|
    ensures AllRun(states, actions, k) + states[k].tasks == AllPosted(states, actions, k)
  {
    hide Possible, Safe, Next, RunBy, PostedBy;
    if k > 0 {
      FunctorsRunInOrder(states, actions, k - 1);
      QueueStep(states[k - 1], actions[k - 1]);
      assert states[k] == states[(k - 1) + 1];
      var s, a := states[k - 1], actions[k - 1];
      assert AllRun(states, actions, k - 1) + RunBy(s, a) + states[k].tasks
          == AllRun(states, actions, k - 1) + (RunBy(s, a) + states[k].tasks);
      assert AllRun(states, actions, k - 1) + (s.tasks + PostedBy(s, a))
          == AllRun(states, actions, k - 1) + s.tasks + PostedBy(s, a);
    } else {
      assert states[0] == BEGIN;
    }
  }

  /** What closes an open connection: a hang-up without POLLIN, a read that finds the end, and the
      functor of forceClose. */
  predicate ClosedBy(s: Sys, a: Action)
    requires Possible(s, a)
  {
    match a
    case DispatchClose => s.event.value.mask.hup && !s.event.value.mask.pollin
    case DispatchRead(got) =>
      got.Eof? && (s.event.value.mask.pollin || s.event.value.mask.pri || s.event.value.mask.rdhup)
    case RunTask(_) => s.tasks[0].ForceCloseTask? && s.c.state.Open()
    case _ => false
  }

  lemma CloseStep(s: Sys, a: Action)
    requires SysInv(s) && Possible(s, a) && Safe(s, a)
    ensures Next(s, a).c.state == Disconnected <==> s.c.state == Disconnected || ClosedBy(s, a)
    ensures Next(s, a).c.closes == s.c.closes + (if ClosedBy(s, a) then 1 else 0)
  {
    hide Inv, SendInLoop, HandleWrite;
    if a.RunTask? {
      assert s.tasks[0] in s.tasks;
      if s.tasks[0].SendTask? {
        SendState(s.c, s.tasks[0].data, a.r);
      }
    } else if a.Send? {
      SendState(s.c, a.data, a.r);
    } else if a.DispatchWrite? {
      WriteState(s.c, a.r);
    }
  }

  /** Over every run a connection is closed, and the close callback has been called, exactly if one of
      those steps was taken. */
  lemma {:induction false} ClosedIff(states: seq<Sys>, actions: seq<Action>, k: nat)
    requires IsRun(states, actions) && k <= |actions|
    ensures states[k].c.state == Disconnected <==> exists i :: 0 <= i < k && ClosedBy(states[i], actions[i])
    ensures states[k].c.closes == (if states[k].c.state == Disconnected then 1 else 0)
  {
    hide Possible, Safe, Next, SysInv, ClosedBy;
    if k > 0 {
      var s, a := states[k - 1], actions[k - 1];
      assert states[k] == states[(k - 1) + 1];
      ClosedIff(states, actions, k - 1);
      RunsKeepInv(states, actions, k - 1);
      CloseStep(s, a);
      if ClosedBy(s, a) {
        ClosesOnlyOpen(s, a);
      }
    } else {
      assert states[0] == BEGIN;
    }
  }

  lemma ClosesOnlyOpen(s: Sys, a: Action)
    requires SysInv(s) && Possible(s, a) && Safe(s, a) && ClosedBy(s, a)
    ensures s.c.state.Open()
  {
  }

  /** Once forceClose was called on an open connection and its functor has run, it is closed. */
  lemma {:induction false} ForceCloseIsDone(states: seq<Sys>, actions: seq<Action>, i: nat, k: nat)
    requires IsRun(states, actions) && i < k <= |actions| && actions[i].PostForceClose? && states[i].c.state.Open()
    ensures ForceCloseTask in states[k].tasks || states[k].c.state == Disconnected
    decreases k
  {
    hide Possible, Safe, SysInv, PostedBy, RunBy;
    var s, a := states[k - 1], actions[k - 1];
    assert states[k] == states[(k - 1) + 1];
    RunsKeepInv(states, actions, k - 1);
    if i < k - 1 {
      ForceCloseIsDone(states, actions, i, k - 1);
      ForceCloseStep(s, a);
    }
  }

  lemma ForceCloseStep(s: Sys, a: Action)
    requires SysInv(s) && Possible(s, a) && Safe(s, a) && (ForceCloseTask in s.tasks || s.c.state == Disconnected)
    ensures ForceCloseTask in Next(s, a).tasks || Next(s, a).c.state == Disconnected
  {
    hide Inv, SendInLoop, HandleWrite;
    CloseStep(s, a);
    if a.RunTask? {
      FirstTask(s.tasks, ForceCloseTask);
    }
  }

  predicate Asks(s: Sys, a: Action) {
    (a.ShutdownNow? || a.PostShutdown?) && s.c.state == Connected
  }

  /** The calls that end a connection, where they take effect. */
  predicate Ends(s: Sys, a: Action) {
    Asks(s, a) || ((a.PostForceClose? || a.DelayForceClose?) && s.c.state.Open())
  }

  lemma EndStep(s: Sys, a: Action)
    requires Possible(s, a)
    ensures Ends(s, a) ==> Next(s, a).c.state.Rank() >= 2
    ensures Next(s, a).asked <==> s.asked || Asks(s, a)
  {
  }

  /** After shutdown, forceClose or forceCloseWithDelay the connection is never connected again; and
      `asked` says whether shutdown was called on it. */
  lemma {:induction false} EndingIsFinal(states: seq<Sys>, actions: seq<Action>, k: nat)
    requires IsRun(states, actions) && k <= |actions|
    ensures (exists i :: 0 <= i < k && Ends(states[i], actions[i])) ==> states[k].c.state.Rank() >= 2
    ensures states[k].asked <==>
            exists i :: 0 <= i < k && Asks(states[i], actions[i])
  {
    hide Possible, Safe, Next, SysInv, Ends, Asks;
    if k > 0 {
      var s, a := states[k - 1], actions[k - 1];
      assert states[k] == states[(k - 1) + 1];
      EndingIsFinal(states, actions, k - 1);
      RunsKeepInv(states, actions, k - 1);
      StepKeeps(s, a);
      EndStep(s, a);
    } else {
      assert states[0] == BEGIN;
    }
  }

  /** While open, read interest is the flag reading_, which is set before. */
  predicate ReadsAsFlagged(c: Conn) {
    (c.state.Open() ==> c.readInterest == c.reading) && (c.state == Connecting ==> c.reading)
  }

  lemma TaskReading(s: Sys, r: WriteResult)
    requires SysInv(s) && Possible(s, RunTask(r)) && ReadsAsFlagged(s.c)
    ensures ReadsAsFlagged(Next(s, RunTask(r)).c) && Next(s, RunTask(r)).c.reading == s.c.reading
  {
    hide Inv, SendInLoop;
    assert s.tasks[0] in s.tasks;
    if s.tasks[0].SendTask? {
      SendState(s.c, s.tasks[0].data, r);
    }
  }

  lemma ReadingStep(s: Sys, a: Action)
    requires SysInv(s) && Possible(s, a) && Safe(s, a) && ReadsAsFlagged(s.c)
    ensures var c := Next(s, a).c;
            ReadsAsFlagged(c) && c.reading == (a.StartRead? || (s.c.reading && !a.StopRead?))
  {
    hide Inv, SendInLoop, HandleWrite, Obligations;
    if a.RunTask? {
      hide Next;
      TaskReading(s, a.r);
    } else if a.Send? {
      SendState(s.c, a.data, a.r);
    } else if a.DispatchWrite? {
      WriteState(s.c, a.r);
    }
  }

  /** Every stopRead before k was followed by a startRead. */
  ghost predicate NotStopped(actions: seq<Action>, k: nat)
    requires k <= |actions|
  {
    forall i :: 0 <= i < k && actions[i].StopRead? ==> exists j :: i < j < k && actions[j].StartRead?
  }

  /** An open connection reads exactly unless stopRead was called after the last startRead. */
  lemma {:induction false} ReadsUnlessStopped(states: seq<Sys>, actions: seq<Action>, k: nat)
    requires IsRun(states, actions) && k <= |actions|
    ensures var c := states[k].c;
            (c.reading <==> NotStopped(actions, k)) && ReadsAsFlagged(c)
  {
    hide Possible, Safe, Next, SysInv;
    if k > 0 {
      var s, a := states[k - 1], actions[k - 1];
      assert states[k] == states[(k - 1) + 1];
      ReadsUnlessStopped(states, actions, k - 1);
      RunsKeepInv(states, actions, k - 1);
      ReadingStep(s, a);
      SwitchedLast(actions, k);
    } else {
      assert states[0] == BEGIN;
    }
  }

  lemma SwitchedLast(actions: seq<Action>, k: nat)
    requires 0 < k <= |actions|
    ensures NotStopped(actions, k)
       <==> actions[k - 1].StartRead? || (!actions[k - 1].StopRead? && NotStopped(actions, k - 1))
  {
  }

  // ---------- when the assertions hold ----------

  /** The assertion of handleClose, at both its callers in a dispatch.  It fails exactly when a mask
      that closes meets a connection that was closed before, or a read that finds the end does, or
      one whose own mask closes it: a hang-up without POLLIN that carries POLLPRI or POLLRDHUP. */
  lemma CloseAssertionIff(states: seq<Sys>, actions: seq<Action>, k: nat, got: ReadResult)
    requires IsRun(states, actions) && k <= |actions| && states[k].event.Some?
    ensures var s, e := states[k], states[k].event.value;
            && (e.stage.AtClose? ==> (Safe(s, DispatchClose) <==> !(e.closed && e.mask.Closes())))
            && (e.stage.AtRead? ==>
                  (Safe(s, DispatchRead(got)) <==> !(got.Eof? && e.mask.Reads() && (e.closed || e.mask.Closes()))))
  {
    hide Inv;
    RunsKeepInv(states, actions, k);
  }

  /** The assertion of Channel::remove on any consistent connection: read interest must be off, and
      no bytes may wait in a half closed one; a connected one is switched off first. */
  lemma RemoveAssertionIff(c: Conn)
    requires Consistent(c)
    ensures CanRemove(BeforeRemove(c))
       <==> c.state == Connected || (!c.readInterest && (c.state == Disconnecting ==> c.output == []))
    ensures BeforeRemove(c).downs == c.downs + (if c.state == Connected then 1 else 0)
    ensures BeforeRemove(c).state == (if c.state == Connected then Disconnected else c.state)
  {
  }

  /** Whether read interest is on after the close: only startRead turns it on, only stopRead off. */
  lemma ReadInterestStep(s: Sys, a: Action)
    requires SysInv(s) && Possible(s, a) && Safe(s, a) && Next(s, a).c.state == Disconnected
    ensures Next(s, a).c.readInterest
         == (s.c.state == Disconnected && (a.StartRead? || (s.c.readInterest && !a.StopRead?)))
  {
    hide Inv, SendInLoop, HandleWrite;
    if a.RunTask? {
      var t := s.tasks[0];
      assert t in s.tasks;
      if t.SendTask? {
        SendState(s.c, t.data, a.r);
      }
    } else if a.Send? {
      SendState(s.c, a.data, a.r);
    } else if a.DispatchWrite? {
      WriteState(s.c, a.r);
    }
  }

  /** Step i restarts the reads of a closed connection, and no step before k stops them again. */
  ghost predicate LeavesReads(states: seq<Sys>, actions: seq<Action>, i: nat, k: nat)
    requires i < k <= |actions| <= |states|
  {
    && actions[i].StartRead? && states[i].c.state == Disconnected
    && forall j :: i < j < k ==> !actions[j].StopRead?
  }

  lemma {:induction false} ReadInterestAfterClose(states: seq<Sys>, actions: seq<Action>, k: nat)
    requires IsRun(states, actions) && k <= |actions| && states[k].c.state == Disconnected
    ensures states[k].c.readInterest <==> exists i :: 0 <= i < k && LeavesReads(states, actions, i, k)
  {
    hide Possible, Safe, Next, SysInv;
    if k > 0 {
      var s, a := states[k - 1], actions[k - 1];
      assert states[k] == states[(k - 1) + 1];
      RunsKeepInv(states, actions, k - 1);
      ReadInterestStep(s, a);
      if s.c.state == Disconnected {
        ReadInterestAfterClose(states, actions, k - 1);
        if a.StartRead? {
          assert LeavesReads(states, actions, k - 1, k);
        } else if s.c.readInterest && !a.StopRead? {
          var i :| 0 <= i < k - 1 && LeavesReads(states, actions, i, k - 1);
          assert LeavesReads(states, actions, i, k);
        } else {
          forall i | 0 <= i < k ensures !LeavesReads(states, actions, i, k) {
            assert i < k - 1 && LeavesReads(states, actions, i, k) ==> LeavesReads(states, actions, i, k - 1);
          }
        }
      } else {
        forall i | 0 <= i < k ensures states[i].c.state != Disconnected {
          LifeCycle(states, actions, i, k - 1);
        }
      }
    } else {
      assert states[0] == BEGIN;
    }
  }

  /** Once the connection is closed, connectDestroyed can remove its channel if and only if every
      startRead called after the close has been followed by a stopRead. */
  lemma RemovalAfterCloseIff(states: seq<Sys>, actions: seq<Action>, k: nat, r: WriteResult)
    requires IsRun(states, actions) && k <= |actions| && states[k].c.state == Disconnected
    ensures CanRemove(BeforeRemove(states[k].c))
       <==> forall i :: 0 <= i < k && actions[i].StartRead? && states[i].c.state == Disconnected ==>
              exists j :: i < j < k && actions[j].StopRead?
    ensures states[k].tasks != [] && states[k].tasks[0].DestroyTask? ==>
              (Safe(states[k], RunTask(r)) <==> CanRemove(BeforeRemove(states[k].c)))
  {
    RunsKeepInv(states, actions, k);
    hide Possible, Next;
    ReadInterestAfterClose(states, actions, k);
    ClosedIsDisconnected(states[k].c);
    hide SysInv;
    if states[k].c.readInterest {
      var i :| 0 <= i < k && LeavesReads(states, actions, i, k);
    } else {
      forall i | 0 <= i < k && actions[i].StartRead? && states[i].c.state == Disconnected
        ensures exists j :: i < j < k && actions[j].StopRead?
      {
        assert !LeavesReads(states, actions, i, k);
      }
    }
  }

  /** What callers and events are expected to keep to. */
  predicate Expected(s: Sys, a: Action) {
    && (a.StartRead? ==> s.c.state != Disconnected)
    && (a.Poll? ==> s.c.state.Open() && !(a.mask.Closes() && a.mask.Reads()))
  }

  ghost predicate IsExpectedRun(states: seq<Sys>, actions: seq<Action>) {
    IsRun(states, actions) && forall i :: 0 <= i < |actions| ==> Expected(states[i], actions[i])
  }

  predicate Quiet(s: Sys) {
    && (s.c.state == Disconnected ==> !s.c.readInterest)
    && (s.event.Some? ==> !s.event.value.closed && !(s.event.value.mask.Closes() && s.event.value.mask.Reads()))
  }

  lemma StepKeepsQuiet(s: Sys, a: Action)
    requires SysInv(s) && Quiet(s) && Possible(s, a) && Safe(s, a) && Expected(s, a)
    ensures Quiet(Next(s, a))
  {
    hide Inv, SendInLoop, HandleWrite, Obligations;
    if Next(s, a).c.state == Disconnected {
      ReadInterestStep(s, a);
    }
  }

  lemma {:induction false} ExpectedRunsAreQuiet(states: seq<Sys>, actions: seq<Action>, k: nat)
    requires IsExpectedRun(states, actions) && k <= |actions|
    ensures Quiet(states[k])
  {
    if k > 0 {
      hide Possible, Next, Safe, SysInv, Expected, Quiet;
      ExpectedRunsAreQuiet(states, actions, k - 1);
      RunsKeepInv(states, actions, k - 1);
      StepKeepsQuiet(states[k - 1], actions[k - 1]);
      assert states[k] == states[(k - 1) + 1];
    }
  }

  /** As long as nobody restarts the reads of a closed connection and no event arrives for one or
      with a mask that closes and reads, no assertion can fail: every step that is possible next is
      safe, and connectDestroyed finds no interest after the close. */
  lemma ExpectedStepsAreSafe(states: seq<Sys>, actions: seq<Action>, a: Action)
    requires IsExpectedRun(states, actions) && Possible(states[|actions|], a) && Expected(states[|actions|], a)
    ensures Safe(states[|actions|], a)
    ensures var c := states[|actions|].c; c.closes > 0 ==> CanRemove(c)
  {
    var s := states[|actions|];
    RunsKeepInv(states, actions, |actions|);
    ExpectedRunsAreQuiet(states, actions, |actions|);
    hide Inv;
    ClosedIsDisconnected(s.c);
    if a.RunTask? {
      assert s.tasks[0] in s.tasks;
    }
  }

  // ---------- registration ----------

  /** The guards of startReadInLoop and stopReadInLoop. */
  predicate Acts(c: Conn, a: Action) {
    (a.StartRead? && (!c.reading || !c.readInterest)) || (a.StopRead? && (c.reading || c.readInterest))
  }

  /** The channel is in the poller exactly from connectEstablished to connectDestroyed. */
  predicate Registered(s: Sys) {
    s.c.registered <==> s.c.state != Connecting && !s.destroyed
  }

  lemma TaskRegistration(s: Sys, r: WriteResult)
    requires SysInv(s) && Possible(s, RunTask(r)) && Registered(s)
    ensures Registered(Next(s, RunTask(r)))
  {
    hide Inv, SendInLoop;
    var t := s.tasks[0];
    assert t in s.tasks;
    if t.SendTask? {
      SendState(s.c, t.data, r);
    }
  }

  lemma DestroyedStays(s: Sys, a: Action)
    requires Possible(s, a) && s.destroyed
    ensures Next(s, a).destroyed
  {
  }

  lemma StepRegistration(s: Sys, a: Action)
    requires SysInv(s) && Possible(s, a) && Safe(s, a)
    ensures s.destroyed ==> Next(s, a).destroyed
    ensures Registered(s) ==> (Registered(Next(s, a)) <==> !(s.destroyed && Acts(s.c, a)))
  {
    ClosedIsDisconnected(s.c);
    hide Inv;
    if s.destroyed {
      DestroyedStays(s, a);
    }
    if a.RunTask? {
      hide Next;
      if Registered(s) {
        TaskRegistration(s, a.r);
      }
    } else {
      hide SendInLoop, HandleWrite;
      if a.Send? {
        SendState(s.c, a.data, a.r);
      } else if a.DispatchWrite? {
        WriteState(s.c, a.r);
      }
    }
  }

  lemma BeginRegistered()
    ensures Registered(BEGIN)
  {
  }

  lemma {:induction false} RunsKeepRegistered(states: seq<Sys>, actions: seq<Action>, k: nat)
    requires IsRun(states, actions) && k <= |actions|
    ensures (forall i :: 0 <= i < k ==> !(states[i].destroyed && Acts(states[i].c, actions[i])))
        ==> Registered(states[k])
  {
    hide Possible, Next, Safe, SysInv, Registered, Acts;
    if k > 0 {
      RunsKeepRegistered(states, actions, k - 1);
      RunsKeepInv(states, actions, k - 1);
      StepRegistration(states[k - 1], actions[k - 1]);
      assert states[k] == states[(k - 1) + 1];
    } else {
      BeginRegistered();
    }
  }

  /** The channel is registered exactly from establishment to destruction if and only if neither
      startRead nor stopRead acts after the destruction. */
  lemma RegisteredUntilDestroyedIff(states: seq<Sys>, actions: seq<Action>)
    requires IsRun(states, actions)
    ensures (forall k :: 0 <= k < |states| ==> Registered(states[k]))
       <==> (forall i :: 0 <= i < |actions| ==> !(states[i].destroyed && Acts(states[i].c, actions[i])))
  {
    hide Possible, Next, Safe, SysInv, Registered, Acts;
    if forall i :: 0 <= i < |actions| ==> !(states[i].destroyed && Acts(states[i].c, actions[i])) {
      forall k | 0 <= k < |states| ensures Registered(states[k]) {
        RunsKeepRegistered(states, actions, k);
      }
    }
    if forall k :: 0 <= k < |states| ==> Registered(states[k]) {
      forall i | 0 <= i < |actions| ensures !(states[i].destroyed && Acts(states[i].c, actions[i])) {
        RunsKeepInv(states, actions, i);
        StepRegistration(states[i], actions[i]);
        assert Registered(states[i + 1]);
      }
    }
  }

  // ---------- runs that fail ----------

  lemma Extend(states: seq<Sys>, actions: seq<Action>, a: Action, last: Sys)
    requires IsRun(states, actions) && Possible(states[|actions|], a) && Safe(states[|actions|], a)
    requires last == Next(states[|actions|], a)
    ensures IsRun(states + [last], actions + [a])
    ensures IsExpectedRun(states, actions) && Expected(states[|actions|], a)
        ==> IsExpectedRun(states + [last], actions + [a])
  {
    hide Possible, Safe, Next, Expected;
  }

  const UP := Sys(ConnectEstablished(START), None, [], false, false, false)
  const DOWN := UP.(c := HandleClose(UP.c))
  const GONE := DOWN.(c := DOWN.c.(registered := false), destroyPosted := true, destroyed := true)

  const HANG_UP := Event(Mask(true, false, false, false, false), AtClose, false)

  /** Established, and the peer hangs up. */
  lemma HangUp() returns (states: seq<Sys>, actions: seq<Action>)
    ensures |states| == 6 && |actions| == 5 && states[5] == DOWN
    ensures IsRun(states, actions) && IsExpectedRun(states, actions)
  {
    var e := HANG_UP;
    states, actions := [BEGIN], [];
    assert IsExpectedRun(states, actions);
    hide IsRun, IsExpectedRun;
    Extend(states, actions, Establish, UP);
    states, actions := states + [UP], actions + [Establish];
    Extend(states, actions, Poll(e.mask), UP.(event := Some(e)));
    states, actions := states + [UP.(event := Some(e))], actions + [Poll(e.mask)];
    var closed := DOWN.(event := Some(e.(stage := AtRead)));
    Extend(states, actions, DispatchClose, closed);
    states, actions := states + [closed], actions + [DispatchClose];
    var read := DOWN.(event := Some(e.(stage := AtWrite)));
    Extend(states, actions, DispatchRead(Got), read);
    states, actions := states + [read], actions + [DispatchRead(Got)];
    Extend(states, actions, DispatchWrite(WouldBlock), DOWN);
    states, actions := states + [DOWN], actions + [DispatchWrite(WouldBlock)];
  }

  /** A run that keeps to every expectation and registers the removed channel again: the peer hangs
      up, the connection is destroyed, and then stopRead finds reading_ still set. */
  lemma StopReadAfterDestroy() returns (states: seq<Sys>, actions: seq<Action>)
    ensures |states| == 9 && |actions| == 8 && actions[7] == StopRead && IsExpectedRun(states, actions)
    ensures states[7].destroyed && !states[7].c.registered && states[8].destroyed && states[8].c.registered
  {
    states, actions := HangUp();
    hide IsRun, IsExpectedRun;
    var posted := DOWN.(tasks := [DestroyTask], destroyPosted := true);
    Extend(states, actions, PostDestroy, posted);
    states, actions := states + [posted], actions + [PostDestroy];
    Extend(states, actions, RunTask(WouldBlock), GONE);
    states, actions := states + [GONE], actions + [RunTask(WouldBlock)];
    var again := GONE.(c := StopReadInLoop(GONE.c));
    Extend(states, actions, StopRead, again);
    states, actions := states + [again], actions + [StopRead];
  }

  /** startRead after the close: then connectDestroyed fails the assertion of Channel::remove. */
  lemma StartReadBeforeDestroy() returns (states: seq<Sys>, actions: seq<Action>)
    ensures IsRun(states, actions) && |states| == 8 && |actions| == 7
            && actions[5] == StartRead && actions[6] == PostDestroy
    ensures Possible(states[7], RunTask(WouldBlock)) && !Safe(states[7], RunTask(WouldBlock))
  {
    states, actions := HangUp();
    hide IsRun, IsExpectedRun;
    var reading := DOWN.(c := StartReadInLoop(DOWN.c));
    Extend(states, actions, StartRead, reading);
    states, actions := states + [reading], actions + [StartRead];
    var posted := reading.(tasks := [DestroyTask], destroyPosted := true);
    Extend(states, actions, PostDestroy, posted);
    states, actions := states + [posted], actions + [PostDestroy];
  }

  /** startRead after the close: then a read that finds the end closes again. */
  lemma ReadAfterClose() returns (states: seq<Sys>, actions: seq<Action>)
    ensures IsRun(states, actions) && |states| == 9 && |actions| == 8 && actions[5] == StartRead
    ensures actions[6] == Poll(Mask(false, true, false, false, false)) && actions[7] == DispatchClose
    ensures Possible(states[8], DispatchRead(Eof)) && !Safe(states[8], DispatchRead(Eof))
  {
    states, actions := HangUp();
    hide IsRun, IsExpectedRun;
    var e := Event(Mask(false, true, false, false, false), AtClose, true);
    var reading := DOWN.(c := StartReadInLoop(DOWN.c));
    Extend(states, actions, StartRead, reading);
    states, actions := states + [reading], actions + [StartRead];
    Extend(states, actions, Poll(e.mask), reading.(event := Some(e)));
    states, actions := states + [reading.(event := Some(e))], actions + [Poll(e.mask)];
    Extend(states, actions, DispatchClose, reading.(event := Some(e.(stage := AtRead))));
    states, actions := states + [reading.(event := Some(e.(stage := AtRead)))], actions + [DispatchClose];
  }

  /** A hang-up with POLLRDHUP and without POLLIN: closing it, the dispatch reads the end and closes
      again. */
  lemma HangUpThatReads() returns (states: seq<Sys>, actions: seq<Action>)
    ensures IsRun(states, actions) && |states| == 4 && |actions| == 3
    ensures actions[1] == Poll(Mask(true, false, false, true, false)) && actions[2] == DispatchClose
    ensures Possible(states[3], DispatchRead(Eof)) && !Safe(states[3], DispatchRead(Eof))
  {
    var e := Event(Mask(true, false, false, true, false), AtClose, false);
    states, actions := [BEGIN], [];
    assert IsRun(states, actions);
    hide IsRun;
    Extend(states, actions, Establish, UP);
    states, actions := states + [UP], actions + [Establish];
    Extend(states, actions, Poll(e.mask), UP.(event := Some(e)));
    states, actions := states + [UP.(event := Some(e))], actions + [Poll(e.mask)];
    Extend(states, actions, DispatchClose, DOWN.(event := Some(e.(stage := AtRead))));
    states, actions := states + [DOWN.(event := Some(e.(stage := AtRead)))], actions + [DispatchClose];
  }

  // ---------- the class ----------

  class TcpConnection {
    var state: State
    var readInterest: bool
    var writeInterest: bool
    var reading: bool
    var outputBuffer: seq<Byte>
    var writeShut: bool
    var registered: bool
    ghost var kernel: seq<Byte>
    ghost var accepted: seq<seq<Byte>>
    var ups: nat
    var downs: nat
    var closes: nat
    var notices: seq<Notice>

    ghost function Value(): Conn
      reads this
    {
      Conn(state, readInterest, writeInterest, reading, outputBuffer, writeShut, registered,
           kernel, accepted, ups, downs, closes, notices)
    }

    constructor ()
      ensures Value() == START
    {
      state, readInterest, writeInterest, reading := Connecting, false, false, true;
      outputBuffer, writeShut, registered := [], false, false;
      kernel, accepted, ups, downs, closes, notices := [], [], 0, 0, 0, [];
    }

    method Enqueue(rest: seq<Byte>)
      modifies this`outputBuffer, this`writeInterest, this`registered, this`notices
      ensures Value() == Queue(old(Value()), rest)
    {
      var oldLen := |outputBuffer|;
      if oldLen + |rest| >= HIGH_WATER_MARK && oldLen < HIGH_WATER_MARK {
        notices := notices + [HighWaterMark(oldLen + |rest|)];
      }
      outputBuffer := outputBuffer + rest;
      if !writeInterest {
        writeInterest, registered := true, true;
      }
    }

    method Send(data: seq<Byte>, r: WriteResult)
      requires Answers(Value(), r, |data|)
      modifies this
      ensures Value() == SendInLoop(old(Value()), data, r)
    {
      hide Queue;
      if state == Disconnected {
        return;
      }
      var nwrote := 0;
      if !writeInterest && outputBuffer == [] {
        if r.Broken? {
          return;
        }
        if r.Wrote? {
          nwrote := r.n;
          if nwrote == |data| {
            notices := notices + [WriteComplete];
          }
        }
      }
      kernel := kernel + data[..nwrote];
      accepted := accepted + [data];
      if nwrote < |data| {
        Enqueue(data[nwrote..]);
      }
    }

    method ShutdownWrite()
      modifies this`writeShut
      ensures Value() == ShutdownInLoop(old(Value()))
    {
      if !writeInterest {
        writeShut := true;
      }
    }

    method OnWritable(r: WriteResult)
      requires Answers(Value(), r, |outputBuffer|)
      modifies this
      ensures Value() == HandleWrite(old(Value()), r)
    {
      if writeInterest {
        if r.Wrote? && r.n > 0 {
          kernel := kernel + outputBuffer[..r.n];
          outputBuffer := outputBuffer[r.n..];
          if outputBuffer == [] {
            writeInterest, registered := false, true;
            notices := notices + [WriteComplete];
            if state == Disconnecting {
              ShutdownWrite();
            }
          }
        }
      }
    }

    method Close()
      requires state.Open()
      modifies this
      ensures Value() == HandleClose(old(Value()))
    {
      state := Disconnected;
      readInterest, writeInterest, registered := false, false, true;
      downs := downs + 1;
      closes := closes + 1;
    }

    method Establish()
      requires state == Connecting
      modifies this
      ensures Value() == ConnectEstablished(old(Value()))
    {
      state := Connected;
      readInterest, registered := true, true;
      ups := ups + 1;
    }

    method StartReading()
      modifies this`readInterest, this`reading, this`registered
      ensures Value() == StartReadInLoop(old(Value()))
    {
      if !reading || !readInterest {
        readInterest, registered := true, true;
        reading := true;
      }
    }

    method StopReading()
      modifies this`readInterest, this`reading, this`registered
      ensures Value() == StopReadInLoop(old(Value()))
    {
      if reading || readInterest {
        readInterest, registered := false, true;
        reading := false;
      }
    }

    method Destroy()
      requires CanRemove(BeforeRemove(Value()))
      modifies this
      ensures Value() == BeforeRemove(old(Value())).(registered := false)
    {
      if state == Connected {
        state := Disconnected;
        readInterest, writeInterest := false, false;
        downs := downs + 1;
      }
      registered := false;
    }

    /** handleEventWithGuard: close, read, write, in this order. */
    method HandleEvent(mask: Mask, got: ReadResult, r: WriteResult)
      requires mask.Closes() ==> state.Open()
      requires mask.Reads() && got.Eof? ==> state.Open() && !mask.Closes()
      requires Answers(Value(), r, |outputBuffer|)
      modifies this
      ensures var c := if mask.Closes() || (mask.Reads() && got.Eof?) then HandleClose(old(Value())) else old(Value());
              Value() == if mask.pollout then HandleWrite(c, r) else c
    {
      if mask.hup && !mask.pollin {
        Close();
      }
      if mask.pollin || mask.pri || mask.rdhup {
        if got.Eof? {
          Close();
        }
      }
      if mask.pollout {
        OnWritable(r);
      }
    }
  }
}
