/** Queues with waiting producers and consumers (muduo/base/BoundedBlockingQueue.h, ThreadPool.cc).

    Both classes are the same monitor: a queue, two condition variables and, in the thread pool,
    the flag running_.  A step is what a thread does while it holds the mutex, from locking or
    being woken to unlocking or waiting; pthread_cond_signal moves one waiting thread, if there is
    any, to those that have been woken and must lock the mutex again; Spurious moves one more. */
module BoundedQueues {
  import opened Collections

  /** BoundedBlockingQueue is bounded, whatever its capacity; a ThreadPool is if maxQueueSize_ > 0. */
  datatype Bound = Bound(bounded: bool, capacity: nat)

  /** `entering` are the threads about to call take: workers that have found running_ set.  `late`
      are those that have taken an item after stop. */
  datatype Monitor<T> = Monitor(queue: seq<T>, running: bool, entering: set<nat>,
                                waitingTakers: set<nat>, wokenTakers: set<nat>,
                                waitingPutters: set<nat>, wokenPutters: set<nat>, items: map<nat, T>,
                                accepted: seq<T>, taken: seq<T>, late: set<nat>)

  datatype Action<T> =
    | Put(thread: nat, item: T, signalled: nat)   // put or run, from the lock on
    | PutWoken(thread: nat, signalled: nat)       // the same after a wait
    | Enter(thread: nat)                          // a consumer decides to take
    | Take(thread: nat, signalled: nat)
    | TakeWoken(thread: nat, signalled: nat)
    | Spurious(thread: nat)
    | Stop

  predicate Full<T>(b: Bound, s: Monitor<T>) {
    b.bounded && |s.queue| >= b.capacity
  }

  predicate Busy<T>(s: Monitor<T>, t: nat) {
    t in s.entering || t in s.waitingTakers || t in s.wokenTakers || t in s.waitingPutters || t in s.wokenPutters
  }

  predicate Enabled<T>(b: Bound, s: Monitor<T>, a: Action<T>) {
    match a
    case Put(t, _, w) => !Busy(s, t) && (s.waitingTakers != {} ==> w in s.waitingTakers)
    case PutWoken(t, w) => t in s.wokenPutters && t in s.items && (s.waitingTakers != {} ==> w in s.waitingTakers)
    case Enter(t) => !Busy(s, t) && s.running
    case Take(t, w) => t in s.entering && (s.waitingPutters != {} ==> w in s.waitingPutters)
    case TakeWoken(t, w) => t in s.wokenTakers && (s.waitingPutters != {} ==> w in s.waitingPutters)
    case Spurious(t) => t in s.waitingTakers || t in s.waitingPutters
    case Stop => true
  }

  /** put and ThreadPool::run, holding the mutex. */
  function DoPut<T>(b: Bound, s: Monitor<T>, t: nat, x: T, signalled: nat): Monitor<T> {
    if Full(b, s) && s.running then s.(waitingPutters := s.waitingPutters + {t}, items := s.items[t := x])
    else if !s.running then s
    else
      s.(queue := s.queue + [x], accepted := s.accepted + [x],
         waitingTakers := s.waitingTakers - {signalled},
         wokenTakers := if s.waitingTakers != {} then s.wokenTakers + {signalled} else s.wokenTakers)
  }

  /** take, holding the mutex; without an item it only returns after stop. */
  function DoTake<T>(b: Bound, s: Monitor<T>, t: nat, signalled: nat): Monitor<T> {
    if s.queue == [] && s.running then s.(waitingTakers := s.waitingTakers + {t})
    else if s.queue == [] then s
    else
      s.(queue := s.queue[1..], taken := s.taken + [s.queue[0]], late := if s.running then s.late else s.late + {t},
         waitingPutters := if b.bounded then s.waitingPutters - {signalled} else s.waitingPutters,
         wokenPutters := if b.bounded && s.waitingPutters != {} then s.wokenPutters + {signalled} else s.wokenPutters)
  }

  function Next<T>(b: Bound, s: Monitor<T>, a: Action<T>): Monitor<T>
    requires Enabled(b, s, a)
  {
    match a
    case Put(t, x, w) => DoPut(b, s, t, x, w)
    case PutWoken(t, w) => DoPut(b, s.(wokenPutters := s.wokenPutters - {t}), t, s.items[t], w)
    case Enter(t) => s.(entering := s.entering + {t})
    case Take(t, w) => DoTake(b, s.(entering := s.entering - {t}), t, w)
    case TakeWoken(t, w) => DoTake(b, s.(wokenTakers := s.wokenTakers - {t}), t, w)
    case Spurious(t) =>
      if t in s.waitingTakers then s.(waitingTakers := s.waitingTakers - {t}, wokenTakers := s.wokenTakers + {t})
      else s.(waitingPutters := s.waitingPutters - {t}, wokenPutters := s.wokenPutters + {t})
    case Stop =>
      s.(running := false, wokenTakers := s.wokenTakers + s.waitingTakers, waitingTakers := {},
         wokenPutters := s.wokenPutters + s.waitingPutters, waitingPutters := {})
  }

  function Start<T>(): Monitor<T> {
    Monitor([], true, {}, {}, {}, {}, {}, map[], [], [], {})
  }

  // ---------- the invariant ----------

  /** A thread is in one place at a time. */
  predicate Places<T>(s: Monitor<T>) {
    && (forall t :: t in s.entering ==>
          t !in s.waitingTakers && t !in s.wokenTakers && t !in s.waitingPutters && t !in s.wokenPutters)
    && (forall t :: t in s.waitingTakers ==> t !in s.wokenTakers && t !in s.waitingPutters && t !in s.wokenPutters)
    && (forall t :: t in s.wokenTakers ==> t !in s.waitingPutters && t !in s.wokenPutters)
    && (forall t :: t in s.waitingPutters ==> t !in s.wokenPutters && t in s.items)
    && (forall t :: t in s.wokenPutters ==> t in s.items)
  }

  /** As long as someone waits for items, every item has a woken taker to come for it; as long as
      someone waits for room, every free place has a woken putter. */
  predicate NoLostSignal<T>(b: Bound, s: Monitor<T>) {
    && (s.waitingTakers != {} ==> s.running && |s.queue| <= |s.wokenTakers|)
    && (s.waitingPutters != {} ==> s.running && b.bounded && b.capacity - |s.queue| <= |s.wokenPutters|)
    && (b.bounded ==> |s.queue| <= b.capacity)
  }

  /** After stop a thread that has taken an item is out of take for good. */
  predicate LateOnce<T>(s: Monitor<T>) {
    && (s.late != {} ==> !s.running)
    && (forall t :: t in s.late ==> t !in s.entering && t !in s.waitingTakers && t !in s.wokenTakers)
  }

  ghost predicate Inv<T>(b: Bound, s: Monitor<T>) {
    Places(s) && NoLostSignal(b, s) && LateOnce(s) && s.taken + s.queue == s.accepted
  }

  /** The state in which a thread has left its place and holds the mutex. */
  ghost predicate InvBut<T>(b: Bound, s: Monitor<T>, t: nat, takers: nat, putters: nat) {
    && Places(s) && LateOnce(s) && s.taken + s.queue == s.accepted && !Busy(s, t)
    && (s.waitingTakers != {} ==> s.running && |s.queue| <= |s.wokenTakers| + takers)
    && (s.waitingPutters != {} ==> s.running && b.bounded && b.capacity - |s.queue| <= |s.wokenPutters| + putters)
    && (b.bounded ==> |s.queue| <= b.capacity)
  }

  lemma DoPutPlaces<T>(b: Bound, s: Monitor<T>, t: nat, x: T, w: nat)
    requires Places(s) && LateOnce(s) && !Busy(s, t) && (s.waitingTakers != {} ==> w in s.waitingTakers)
    ensures Places(DoPut(b, s, t, x, w)) && LateOnce(DoPut(b, s, t, x, w))
  {
  }

  lemma DoPutKeeps<T>(b: Bound, s: Monitor<T>, t: nat, x: T, w: nat)
    requires InvBut(b, s, t, 0, 1) && (s.waitingTakers != {} ==> w in s.waitingTakers)
    ensures Inv(b, DoPut(b, s, t, x, w))
  {
    assert w in s.waitingTakers ==> w !in s.wokenTakers;
    hide Places, LateOnce, Busy;
    DoPutPlaces(b, s, t, x, w);
    assert s.taken + (s.queue + [x]) == s.accepted + [x];
  }

  lemma DoTakeKeeps<T>(b: Bound, s: Monitor<T>, t: nat, w: nat)
    requires InvBut(b, s, t, 1, 0) && t !in s.late && (s.waitingPutters != {} ==> w in s.waitingPutters)
    ensures Inv(b, DoTake(b, s, t, w))
  {
  }

  lemma LeaveWokenPutters<T>(b: Bound, s: Monitor<T>, t: nat)
    requires Inv(b, s) && t in s.wokenPutters
    ensures InvBut(b, s.(wokenPutters := s.wokenPutters - {t}), t, 0, 1)
  {
  }

  lemma LeaveWokenTakers<T>(b: Bound, s: Monitor<T>, t: nat)
    requires Inv(b, s) && t in s.wokenTakers
    ensures InvBut(b, s.(wokenTakers := s.wokenTakers - {t}), t, 1, 0) && t !in s.late
  {
  }

  lemma LeaveEntering<T>(b: Bound, s: Monitor<T>, t: nat)
    requires Inv(b, s) && t in s.entering
    ensures InvBut(b, s.(entering := s.entering - {t}), t, 1, 0) && t !in s.late
  {
  }

  /** The steps that go on where a thread had left. */
  lemma WokenKeeps<T>(b: Bound, s: Monitor<T>, a: Action<T>)
    requires Inv(b, s) && Enabled(b, s, a) && (a.PutWoken? || a.Take? || a.TakeWoken?)
    ensures Inv(b, Next(b, s, a))
  {
    hide Inv, InvBut, DoPut, DoTake;
    match a
    case PutWoken(t, w) =>
      LeaveWokenPutters(b, s, t);
      DoPutKeeps(b, s.(wokenPutters := s.wokenPutters - {t}), t, s.items[t], w);
    case Take(t, w) =>
      LeaveEntering(b, s, t);
      DoTakeKeeps(b, s.(entering := s.entering - {t}), t, w);
    case TakeWoken(t, w) =>
      LeaveWokenTakers(b, s, t);
      DoTakeKeeps(b, s.(wokenTakers := s.wokenTakers - {t}), t, w);
  }

  lemma SpuriousKeeps<T>(b: Bound, s: Monitor<T>, t: nat)
    requires Inv(b, s) && (t in s.waitingTakers || t in s.waitingPutters)
    ensures Inv(b, Next(b, s, Spurious(t)))
  {
    assert t in s.waitingTakers ==> t !in s.wokenTakers;
    assert t in s.waitingPutters ==> t !in s.wokenPutters;
  }

  lemma EnterKeeps<T>(b: Bound, s: Monitor<T>, t: nat)
    requires Inv(b, s) && !Busy(s, t) && s.running
    ensures Inv(b, Next(b, s, Enter(t)))
  {
  }

  lemma StopKeeps<T>(b: Bound, s: Monitor<T>)
    requires Inv(b, s)
    ensures Inv(b, Next(b, s, Stop))
  {
  }

  /** The steps that only move threads. */
  lemma MoveKeeps<T>(b: Bound, s: Monitor<T>, a: Action<T>)
    requires Inv(b, s) && Enabled(b, s, a) && (a.Enter? || a.Spurious? || a.Stop?)
    ensures Inv(b, Next(b, s, a))
  {
    hide Inv, Next, Busy;
    match a
    case Enter(t) => EnterKeeps(b, s, t);
    case Spurious(t) => SpuriousKeeps(b, s, t);
    case Stop => StopKeeps(b, s);
  }

  lemma HoldLock<T>(b: Bound, s: Monitor<T>, t: nat)
    requires Inv(b, s) && !Busy(s, t)
    ensures InvBut(b, s, t, 0, 1)
  {
    hide Places, LateOnce;
  }

  lemma StepKeeps<T>(b: Bound, s: Monitor<T>, a: Action<T>)
    requires Inv(b, s) && Enabled(b, s, a)
    ensures Inv(b, Next(b, s, a))
  {
    hide Inv, InvBut, DoPut, DoTake, Busy;
    if a.Put? {
      HoldLock(b, s, a.thread);
      DoPutKeeps(b, s, a.thread, a.item, a.signalled);
    } else if a.PutWoken? || a.Take? || a.TakeWoken? {
      WokenKeeps(b, s, a);
    } else {
      MoveKeeps(b, s, a);
    }
  }

  ghost predicate IsRun<T>(b: Bound, states: seq<Monitor<T>>, actions: seq<Action<T>>) {
    && |states| == |actions| + 1 && states[0] == Start()
    && forall i :: 0 <= i < |actions| ==>
         Enabled(b, states[i], actions[i]) && states[i + 1] == Next(b, states[i], actions[i])
  }

  /** For any number of threads, in any order, with single signals and spurious wakeups: items
      come out once and in the order they were accepted, and no signal is lost. */
  lemma {:induction false} RunsKeepInv<T>(b: Bound, states: seq<Monitor<T>>, actions: seq<Action<T>>, k: nat)
    requires IsRun(b, states, actions) && k <= |actions|
    ensures Inv(b, states[k])
  {
    if k > 0 {
      RunsKeepInv(b, states, actions, k - 1);
      StepKeeps(b, states[k - 1], actions[k - 1]);
      assert states[k] == states[(k - 1) + 1];
    }
  }

  /** Nobody sleeps over work that nobody is coming for. */
  lemma WaitersAreServed<T>(b: Bound, states: seq<Monitor<T>>, actions: seq<Action<T>>, k: nat)
    requires IsRun(b, states, actions) && k <= |actions|
    ensures var s := states[k];
            && s.taken + s.queue == s.accepted
            && (s.waitingTakers != {} && s.queue != [] ==> s.wokenTakers != {})
            && (s.waitingPutters != {} && !Full(b, s) ==> s.wokenPutters != {})
            && (!s.running ==> s.waitingTakers == {} && s.waitingPutters == {})
  {
    RunsKeepInv(b, states, actions, k);
  }

  // ---------- the items ----------

  /** What thread t last called put with. */
  function Asked<T>(actions: seq<Action<T>>, t: nat): Option<T> {
    if actions == [] then None
    else
      var a := actions[|actions| - 1];
      if a.Put? && a.thread == t then Some(a.item) else Asked(actions[..|actions| - 1], t)
  }

  lemma ItemStep<T>(b: Bound, s: Monitor<T>, a: Action<T>, t: nat)
    requires Inv(b, s) && Enabled(b, s, a)
    requires t in Next(b, s, a).waitingPutters || t in Next(b, s, a).wokenPutters
    ensures var s' := Next(b, s, a);
            && t in s'.items
            && if a.Put? && a.thread == t then s'.items[t] == a.item
               else (t in s.waitingPutters || t in s.wokenPutters) && t in s.items && s'.items[t] == s.items[t]
  {
  }

  /** A producer that has to wait keeps the item it came with. */
  lemma {:induction false} WaitersKeepTheirItem<T>(b: Bound, states: seq<Monitor<T>>, actions: seq<Action<T>>,
                                                  k: nat, t: nat)
    requires IsRun(b, states, actions) && k <= |actions|
    requires t in states[k].waitingPutters || t in states[k].wokenPutters
    ensures t in states[k].items && Asked(actions[..k], t) == Some(states[k].items[t])
    decreases k
  {
    hide Enabled, Next, Inv;
    if k > 0 {
      assert states[k] == states[(k - 1) + 1] && actions[..k][..k - 1] == actions[..k - 1];
      RunsKeepInv(b, states, actions, k - 1);
      ItemStep(b, states[k - 1], actions[k - 1], t);
      if !(actions[k - 1].Put? && actions[k - 1].thread == t) {
        WaitersKeepTheirItem(b, states, actions, k - 1, t);
      }
    }
  }

  /** The item that a step puts: what its thread called put with, if there is room and no stop. */
  function PutItems<T>(b: Bound, s: Monitor<T>, before: seq<Action<T>>, a: Action<T>): seq<T> {
    if !s.running || Full(b, s) then []
    else
      match a
      case Put(_, x, _) => [x]
      case PutWoken(t, _) => (match Asked(before, t) case Some(x) => [x] case None => [])
      case _ => []
  }

  /** The item that a step takes: the oldest. */
  function TakenItems<T>(s: Monitor<T>, a: Action<T>): seq<T> {
    if (a.Take? || a.TakeWoken?) && s.queue != [] then [s.queue[0]] else []
  }

  ghost function AllPut<T>(b: Bound, states: seq<Monitor<T>>, actions: seq<Action<T>>, k: nat): seq<T>
    requires k <= |actions| <= |states|
  {
    if k == 0 then []
    else AllPut(b, states, actions, k - 1) + PutItems(b, states[k - 1], actions[..k - 1], actions[k - 1])
  }

  ghost function AllTaken<T>(states: seq<Monitor<T>>, actions: seq<Action<T>>, k: nat): seq<T>
    requires k <= |actions| <= |states|
  {
    if k == 0 then [] else AllTaken(states, actions, k - 1) + TakenItems(states[k - 1], actions[k - 1])
  }

  lemma FlowStep<T>(b: Bound, s: Monitor<T>, before: seq<Action<T>>, a: Action<T>)
    requires Inv(b, s) && Enabled(b, s, a)
    requires a.PutWoken? ==> Asked(before, a.thread) == Some(s.items[a.thread])
    ensures Next(b, s, a).accepted == s.accepted + PutItems(b, s, before, a)
    ensures Next(b, s, a).taken == s.taken + TakenItems(s, a)
  {
    hide Inv, Asked;
  }

  /** Over every run what was accepted are the items of the calls that found room on a running queue,
      each the one its thread came with, and what was taken are the oldest items in the order of the
      calls that took them. */
  lemma {:induction false} ItemsAreWhatWasPut<T>(b: Bound, states: seq<Monitor<T>>, actions: seq<Action<T>>, k: nat)
    requires IsRun(b, states, actions) && k <= |actions|
    ensures states[k].accepted == AllPut(b, states, actions, k) && states[k].taken == AllTaken(states, actions, k)
  {
    hide Next, Inv, PutItems, TakenItems;
    if k > 0 {
      var a := actions[k - 1];
      assert states[k] == states[(k - 1) + 1];
      ItemsAreWhatWasPut(b, states, actions, k - 1);
      RunsKeepInv(b, states, actions, k - 1);
      if a.PutWoken? {
        WaitersKeepTheirItem(b, states, actions, k - 1, a.thread);
      }
      FlowStep(b, states[k - 1], actions[..k - 1], a);
    }
  }

  /** The queue runs exactly until stop is called. */
  lemma {:induction false} RunsUntilStop<T>(b: Bound, states: seq<Monitor<T>>, actions: seq<Action<T>>, k: nat)
    requires IsRun(b, states, actions) && k <= |actions|
    ensures states[k].running <==> forall i :: 0 <= i < k ==> !actions[i].Stop?
  {
    if k > 0 {
      assert states[k] == states[(k - 1) + 1];
      RunsUntilStop(b, states, actions, k - 1);
    }
  }

  // ---------- after stop ----------

  /** Was an item taken in step k, and by whom? */
  predicate TakesItem<T>(s: Monitor<T>, a: Action<T>, t: nat) {
    (a.Take? || a.TakeWoken?) && a.thread == t && s.queue != []
  }

  /** Stop is final: from then on nothing more is accepted. */
  lemma {:induction false} StopIsFinal<T>(b: Bound, states: seq<Monitor<T>>, actions: seq<Action<T>>, i: nat, j: nat)
    requires IsRun(b, states, actions) && i <= j <= |actions|
    ensures states[i].late <= states[j].late
    ensures !states[i].running ==> !states[j].running && states[j].accepted == states[i].accepted
    decreases j - i
  {
    if i < j {
      StopIsFinal(b, states, actions, i, j - 1);
      assert states[j] == states[(j - 1) + 1];
    }
  }

  /** After stop every worker takes at most one more task. */
  lemma AtMostOneMoreTask<T>(b: Bound, states: seq<Monitor<T>>, actions: seq<Action<T>>, i: nat, j: nat, t: nat)
    requires IsRun(b, states, actions) && i < j < |actions| && !states[i].running
    requires TakesItem(states[i], actions[i], t)
    ensures !TakesItem(states[j], actions[j], t)
  {
    RunsKeepInv(b, states, actions, i);
    RunsKeepInv(b, states, actions, j);
    StopIsFinal(b, states, actions, i + 1, j);
    assert t in states[i + 1].late;
  }
}
