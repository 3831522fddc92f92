/** Handing tasks to the loop thread (muduo/net/EventLoop.cc).

    A step machine: every step is what one thread does between two points where another thread can
    interfere, so the runs below are all interleavings of the loop with any number of callers. */
module EventLoops {
  import opened Collections

  /** Where the loop thread is: at the loop test, in poll, dispatching (with the wakeup channel still
      to be handled or not), before and after setting callingPendingFunctors_, running functors. */
  datatype Pc = Top | Polling | Handling(wakeup: bool) | BeforeCalling | BeforeSwap | Draining | Stopped

  /** `waking` are the other threads between their push or quit store and their wakeup; `loopWaking`
      says the same of the loop thread itself.  `submitted` and `executed` are histories. */
  datatype Loop<Task> = Loop(pc: Pc, pending: seq<Task>, snapshot: seq<Task>, calling: bool, quit: bool, eventfd: nat,
                             waking: set<nat>, loopWaking: bool, submitted: seq<Task>, executed: seq<Task>)

  datatype Action<Task> =
    | Submit(thread: nat, task: Task)  // queueInLoop in another thread, up to its test
    | Quit(thread: nat)                // quit in another thread, the store
    | Wakeup(thread: nat)              // their write to the eventfd
    | SubmitHere(task: Task)           // queueInLoop from a handler or functor, up to its test
    | QuitHere                         // quit from a handler or functor
    | WakeupHere                       // its write to the eventfd
    | Test | PollReturns | ReadWakeup | EndHandling | SetCalling | Swap | RunFunctor | EndDraining

  predicate Enabled<Task>(s: Loop<Task>, a: Action<Task>) {
    match a
    case Submit(t, _) => t !in s.waking
    case Quit(t) => t !in s.waking
    case Wakeup(t) => t in s.waking
    case WakeupHere => s.loopWaking
    case _ =>
      && !s.loopWaking
      && match a {
           case SubmitHere(_) => s.pc.Handling? || s.pc.Draining?
           case QuitHere => s.pc.Handling? || s.pc.Draining?
           case Test => s.pc.Top?
           case PollReturns => s.pc.Polling?
           case ReadWakeup => s.pc == Handling(true)
           case EndHandling => s.pc == Handling(false)
           case SetCalling => s.pc.BeforeCalling?
           case Swap => s.pc.BeforeSwap?
           case RunFunctor => s.pc.Draining? && s.snapshot != []
           case EndDraining => s.pc.Draining? && s.snapshot == []
           case _ => false
         }
  }

  function Next<Task>(s: Loop<Task>, a: Action<Task>): Loop<Task>
    requires Enabled(s, a)
  {
    match a
    case Submit(t, task) =>
      s.(pending := s.pending + [task], submitted := s.submitted + [task], waking := s.waking + {t})
    case Quit(t) => s.(quit := true, waking := s.waking + {t})
    case Wakeup(t) => s.(eventfd := s.eventfd + 1, waking := s.waking - {t})
    case SubmitHere(task) =>
      s.(pending := s.pending + [task], submitted := s.submitted + [task], loopWaking := s.calling)
    case QuitHere => s.(quit := true)
    case WakeupHere => s.(eventfd := s.eventfd + 1, loopWaking := false)
    case Test => s.(pc := if s.quit then Stopped else Polling)
    case PollReturns => s.(pc := Handling(s.eventfd > 0))
    case ReadWakeup => s.(eventfd := 0, pc := Handling(false))
    case EndHandling => s.(pc := BeforeCalling)
    case SetCalling => s.(calling := true, pc := BeforeSwap)
    case Swap => s.(snapshot := s.pending, pending := [], pc := Draining)
    case RunFunctor => s.(executed := s.executed + [s.snapshot[0]], snapshot := s.snapshot[1..])
    case EndDraining => s.(calling := false, pc := Top)
  }

  function Start<Task>(): Loop<Task> {
    Loop(Top, [], [], false, false, 0, {}, false, [], [])
  }

  /** The loop will be woken: the eventfd is readable or a write to it is under way. */
  predicate WillWake<Task>(s: Loop<Task>) {
    s.eventfd > 0 || s.waking != {} || s.loopWaking
  }

  ghost predicate Inv<Task>(s: Loop<Task>) {
    && s.executed + s.snapshot + s.pending == s.submitted
    && (s.snapshot != [] ==> s.pc.Draining?)
    && (s.calling <==> s.pc.BeforeSwap? || s.pc.Draining?)
    && (s.loopWaking ==> s.pc.Draining?)
    && (s.pending != [] && (s.pc.Draining? || s.pc.Top? || s.pc.Polling?) ==> WillWake(s))
    && (s.quit && s.pc.Polling? ==> WillWake(s))
  }

  lemma StepKeeps<Task>(s: Loop<Task>, a: Action<Task>)
    requires Inv(s) && Enabled(s, a)
    ensures Inv(Next(s, a))
  {
  }

  ghost predicate IsRun<Task>(states: seq<Loop<Task>>, actions: seq<Action<Task>>) {
    && |states| == |actions| + 1 && states[0] == Start()
    && forall i :: 0 <= i < |actions| ==> Enabled(states[i], actions[i]) && states[i + 1] == Next(states[i], actions[i])
  }

  /** In every interleaving: tasks run at most once, in submission order, none is dropped; and
      whenever the loop is in poll with tasks pending or quit set, it will be woken. */
  lemma {:induction false} NoLostWakeup<Task>(states: seq<Loop<Task>>, actions: seq<Action<Task>>, k: nat)
    requires IsRun(states, actions) && k <= |actions|
    ensures Inv(states[k])
    ensures states[k].executed + states[k].snapshot + states[k].pending == states[k].submitted
    ensures states[k].pc.Polling? && (states[k].pending != [] || states[k].quit)
        ==> states[k].eventfd > 0 || states[k].waking != {}
  {
    if k > 0 {
      NoLostWakeup(states, actions, k - 1);
      StepKeeps(states[k - 1], actions[k - 1]);
      assert states[k] == states[(k - 1) + 1];
    }
  }

  /** What the calls of queueInLoop asked for, in order. */
  function Queued<Task>(actions: seq<Action<Task>>): seq<Task> {
    if actions == [] then []
    else
      Queued(actions[..|actions| - 1]) + match actions[|actions| - 1] {
        case Submit(_, task) => [task]
        case SubmitHere(task) => [task]
        case _ => []
      }
  }

  /** What the loop has called, in order. */
  ghost function Called<Task>(states: seq<Loop<Task>>, actions: seq<Action<Task>>, k: nat): seq<Task>
    requires k <= |actions| <= |states|
  {
    if k == 0 then []
    else
      var s := states[k - 1];
      Called(states, actions, k - 1) + if actions[k - 1].RunFunctor? && s.snapshot != [] then [s.snapshot[0]] else []
  }

  lemma HistoryStep<Task>(s: Loop<Task>, a: Action<Task>)
    requires Enabled(s, a)
    ensures Next(s, a).submitted == s.submitted + (if a.Submit? || a.SubmitHere? then [a.task] else [])
    ensures Next(s, a).executed == s.executed + (if a.RunFunctor? && s.snapshot != [] then [s.snapshot[0]] else [])
    ensures Next(s, a).quit == (s.quit || a.Quit? || a.QuitHere?)
  {
  }

  /** The histories are what was asked for and what was called, so that with NoLostWakeup: the tasks
      called, those of the snapshot and those pending are the tasks queued, in order. */
  lemma {:induction false} CalledInOrder<Task>(states: seq<Loop<Task>>, actions: seq<Action<Task>>, k: nat)
    requires IsRun(states, actions) && k <= |actions|
    ensures states[k].submitted == Queued(actions[..k]) && states[k].executed == Called(states, actions, k)
    ensures Called(states, actions, k) + states[k].snapshot + states[k].pending == Queued(actions[..k])
  {
    hide Enabled, Next, Inv;
    NoLostWakeup(states, actions, k);
    if k > 0 {
      assert states[k] == states[(k - 1) + 1] && actions[..k][..k - 1] == actions[..k - 1];
      CalledInOrder(states, actions, k - 1);
      HistoryStep(states[k - 1], actions[k - 1]);
    }
  }

  /** The quit flag is set exactly once quit has been called, from whichever thread. */
  lemma {:induction false} QuitIff<Task>(states: seq<Loop<Task>>, actions: seq<Action<Task>>, k: nat)
    requires IsRun(states, actions) && k <= |actions|
    ensures states[k].quit <==> exists i :: 0 <= i < k && (actions[i].Quit? || actions[i].QuitHere?)
  {
    hide Enabled, Next, Inv;
    if k > 0 {
      assert states[k] == states[(k - 1) + 1];
      QuitIff(states, actions, k - 1);
      HistoryStep(states[k - 1], actions[k - 1]);
    }
  }

  // ---------- what a wakeup leads to ----------

  /** The loop thread going on by itself: no more handlers' submissions, no other thread. */
  function LoopAction<Task>(s: Loop<Task>): Option<Action<Task>> {
    if s.loopWaking then Some(WakeupHere)
    else
      match s.pc
      case Top => Some(Test)
      case Polling => Some(PollReturns)
      case Handling(w) => Some(if w then ReadWakeup else EndHandling)
      case BeforeCalling => Some(SetCalling)
      case BeforeSwap => Some(Swap)
      case Draining => Some(if s.snapshot != [] then RunFunctor else EndDraining)
      case Stopped => None
  }

  function RunAlone<Task>(s: Loop<Task>, steps: nat): Loop<Task>
    decreases steps
  {
    if steps == 0 || LoopAction(s).None? then s else RunAlone(Next(s, LoopAction(s).value), steps - 1)
  }

  lemma AloneStep<Task>(s: Loop<Task>, n: nat)
    requires n > 0 && LoopAction(s).Some?
    ensures RunAlone(s, n) == RunAlone(Next(s, LoopAction(s).value), n - 1)
  {
  }

  /** From the end of the dispatch to the swap. */
  lemma ReachesDraining<Task>(s: Loop<Task>)
    requires s.pc == Handling(false) && !s.loopWaking
    ensures RunAlone(s, 3) == s.(calling := true, snapshot := s.pending, pending := [], pc := Draining)
  {
    hide RunAlone;
    var s1 := Next(s, EndHandling);
    AloneStep(s, 3);
    AloneStep(s1, 2);
    var s2 := Next(s1, SetCalling);
    AloneStep(s2, 1);
    RunsNoStep(Next(s2, Swap));
  }

  lemma RunsNoStep<Task>(s: Loop<Task>)
    ensures RunAlone(s, 0) == s
  {
  }

  lemma ReachesHandled<Task>(s: Loop<Task>)
    requires s.pc.Polling? && !s.loopWaking
    ensures RunAlone(s, if s.eventfd > 0 then 2 else 1) == s.(eventfd := 0, pc := Handling(false))
  {
    hide RunAlone;
    var s1 := Next(s, PollReturns);
    RunsNoStep(s1);
    if s.eventfd > 0 {
      AloneStep(s, 2);
      AloneStep(s1, 1);
      RunsNoStep(Next(s1, ReadWakeup));
    } else {
      AloneStep(s, 1);
    }
  }

  /** One round of an undisturbed loop from poll on executes everything submitted before it, and
      then the loop ends if quit was called and waits again otherwise. */
  lemma OneRoundExecutesAll<Task>(s: Loop<Task>)
    requires Inv(s) && s.pc.Polling?
    ensures var n := (if s.eventfd > 0 then 2 else 1) + 3 + (|s.pending| + 1); var t := RunAlone(s, n);
            && t.pc.Top? && t.executed == s.submitted && t.pending == []
            && RunAlone(s, n + 1).pc == if s.quit then Stopped else Polling
  {
    hide RunAlone;
    var k := if s.eventfd > 0 then 2 else 1;
    var b := s.(eventfd := 0, pc := Handling(false));
    ReachesHandled(s);
    ReachesDraining(b);
    RunAloneAdds(s, k, 3);
    var c := RunAlone(b, 3);
    assert c.executed + c.snapshot + c.pending == s.submitted;
    DrainsSnapshot(c);
    RunAloneAdds(s, k + 3, |s.pending| + 1);
    var t := RunAlone(c, |s.pending| + 1);
    RunAloneAdds(s, k + 3 + (|s.pending| + 1), 1);
    AloneStep(t, 1);
    RunsNoStep(Next(t, Test));
  }

  /** A call of quit, from any thread, is never forgotten: in every later state in which the loop is in
      poll it will be woken, and its next undisturbed round is the last. */
  lemma QuitEndsTheLoop<Task>(states: seq<Loop<Task>>, actions: seq<Action<Task>>, i: nat, j: nat)
    requires IsRun(states, actions) && i < j <= |actions| && (actions[i].Quit? || actions[i].QuitHere?)
    requires states[j].pc.Polling?
    ensures var s := states[j];
            && (s.eventfd > 0 || s.waking != {})
            && RunAlone(s, (if s.eventfd > 0 then 2 else 1) + 3 + (|s.pending| + 1) + 1).pc.Stopped?
  {
    hide RunAlone, Inv, Enabled, Next;
    QuitIff(states, actions, j);
    NoLostWakeup(states, actions, j);
    OneRoundExecutesAll(states[j]);
  }

  lemma {:induction false} RunAloneAdds<Task>(s: Loop<Task>, m: nat, n: nat)
    ensures RunAlone(s, m + n) == RunAlone(RunAlone(s, m), n)
    decreases m
  {
    if m > 0 && LoopAction(s).Some? {
      RunAloneAdds(Next(s, LoopAction(s).value), m - 1, n);
    }
  }

  lemma {:induction false} DrainsSnapshot<Task>(s: Loop<Task>)
    requires Inv(s) && s.pc.Draining? && !s.loopWaking
    ensures var t := RunAlone(s, |s.snapshot| + 1);
            t.pc.Top? && !t.loopWaking && t.executed == s.executed + s.snapshot
            && t.pending == s.pending && t.quit == s.quit
    decreases |s.snapshot|
  {
    if s.snapshot != [] {
      StepKeeps(s, RunFunctor);
      DrainsSnapshot(Next(s, RunFunctor));
      assert (s.executed + [s.snapshot[0]]) + s.snapshot[1..] == s.executed + s.snapshot;
    }
  }

  // ---------- the loop thread's own code ----------

  /** What functors queue while they run, in order. */
  ghost function Spawned<Task>(spawns: Task -> seq<Task>, run: seq<Task>): seq<Task> {
    if run == [] then [] else Spawned(spawns, run[..|run| - 1]) + spawns(run[|run| - 1])
  }

  class EventLoop<Task> {
    var pendingFunctors: seq<Task>
    var callingPendingFunctors: bool
    var eventfd: nat
    ghost var executed: seq<Task>

    constructor ()
      ensures pendingFunctors == [] && !callingPendingFunctors && eventfd == 0 && executed == []
    {
      pendingFunctors, callingPendingFunctors, eventfd, executed := [], false, 0, [];
    }

    method QueueInLoop(task: Task, inLoopThread: bool)
      modifies this`pendingFunctors, this`eventfd
      ensures pendingFunctors == old(pendingFunctors) + [task]
      ensures eventfd == old(eventfd) + (if !inLoopThread || callingPendingFunctors then 1 else 0)
    {
      pendingFunctors := pendingFunctors + [task];
      if !inLoopThread || callingPendingFunctors {
        eventfd := eventfd + 1;
      }
    }

    /** Running functor f queues spawns(f); every one of those wakes the loop up again. */
    method DoPendingFunctors(spawns: Task -> seq<Task>)
      requires !callingPendingFunctors
      modifies this
      ensures !callingPendingFunctors
      ensures executed == old(executed) + old(pendingFunctors)
      ensures pendingFunctors == Spawned(spawns, old(pendingFunctors))
      ensures eventfd == old(eventfd) + |pendingFunctors|
    {
      callingPendingFunctors := true;
      var functors := pendingFunctors;
      pendingFunctors := [];
      for i := 0 to |functors|
        invariant callingPendingFunctors
        invariant executed == old(executed) + functors[..i]
        invariant pendingFunctors == Spawned(spawns, functors[..i])
        invariant eventfd == old(eventfd) + |pendingFunctors|
      {
        executed := executed + [functors[i]];
        var more := spawns(functors[i]);
        for j := 0 to |more|
          modifies this`pendingFunctors, this`eventfd
          invariant pendingFunctors == Spawned(spawns, functors[..i]) + more[..j]
          invariant eventfd == old(eventfd) + |pendingFunctors|
        {
          QueueInLoop(more[j], true);
        }
        assert functors[..i + 1][..i] == functors[..i];
      }
      assert functors[..|functors|] == functors;
      callingPendingFunctors := false;
    }
  }
}
