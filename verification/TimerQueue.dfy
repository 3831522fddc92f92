/** The timer queue (muduo/net/TimerQueue.cc, Timer.h, Timer.cc).

    Timers are raw pointers in the source.  Here an address is a number and `heap` holds the live
    timers, so that a deleted address can be given out again. */
module TimerQueues {
  import opened Collections

  /** `interval` is in microseconds, as addTime rounds it; `repeat` is interval_ > 0.0. */
  datatype Timer = Timer(expiration: int, interval: nat, repeat: bool, sequence: nat)

  datatype Entry = Entry(expiration: int, addr: nat)

  datatype Id = Id(addr: nat, sequence: nat)

  // ---------- std::set<Entry> ----------

  predicate Less(a: Entry, b: Entry) {
    a.expiration < b.expiration || (a.expiration == b.expiration && a.addr < b.addr)
  }

  predicate Sorted(s: seq<Entry>) {
    forall i, j :: 0 <= i < j < |s| ==> Less(s[i], s[j])
  }

  lemma ConsSorted(e: Entry, s: seq<Entry>)
    requires Sorted(s) && forall f :: f in s ==> Less(e, f)
    ensures Sorted([e] + s)
  {
  }

  lemma TailSorted(s: seq<Entry>)
    requires Sorted(s) && s != []
    ensures Sorted(s[1..]) && forall f :: f in s[1..] ==> Less(s[0], f)
    ensures forall f :: f in s <==> f == s[0] || f in s[1..]
  {
  }

  function InsertSorted(s: seq<Entry>, e: Entry): (r: seq<Entry>)
    ensures forall f :: f in r <==> f == e || f in s
    ensures Sorted(s) && e !in s ==> Sorted(r)
  {
    if s == [] || Less(e, s[0]) then [e] + s
    else
      var t := InsertSorted(s[1..], e);
      assert Sorted(s) && e !in s ==> Sorted([s[0]] + t) by {
        if Sorted(s) && e !in s {
          TailSorted(s);
          ConsSorted(s[0], t);
        }
      }
      assert s == [s[0]] + s[1..];
      [s[0]] + t
  }

  function Erase(s: seq<Entry>, e: Entry): (r: seq<Entry>)
    ensures Sorted(s) ==> Sorted(r) && forall f :: f in r <==> f in s && f != e
  {
    if s == [] then []
    else
      assert Sorted(s) ==> Sorted(s[1..]) && forall f :: f in s[1..] ==> Less(s[0], f)
        by { if Sorted(s) { TailSorted(s); } }
      assert s == [s[0]] + s[1..];
      if s[0] == e then s[1..]
      else
        var t := Erase(s[1..], e);
        assert Sorted(s) ==> Sorted([s[0]] + t) by { if Sorted(s) { ConsSorted(s[0], t); } }
        [s[0]] + t
  }

  /** lower_bound of (now, UINTPTR_MAX): the number of entries due at `now`. */
  function DueCount(s: seq<Entry>, now: int): (n: nat)
    ensures n <= |s|
    ensures forall i :: 0 <= i < n ==> s[i].expiration <= now
    ensures Sorted(s) ==> forall i :: n <= i < |s| ==> s[i].expiration > now
  {
    if s == [] || s[0].expiration > now then 0 else 1 + DueCount(s[1..], now)
  }

  // ---------- the queue ----------

  /** `due` is when the timer descriptor becomes, or became, readable; reading it clears it.
      `armedAt` is the clock reading at the last timerfd_settime. */
  datatype Queue = Queue(timers: seq<Entry>, active: set<Id>, canceling: set<Id>, heap: map<nat, Timer>,
                         due: Option<int>, armedAt: int) {
    function IdOf(a: nat): Id
      requires a in heap
    {
      Id(a, heap[a].sequence)
    }
  }

  const EMPTY := Queue([], {}, {}, map[], None, 0)

  /** The two indexes describe the same live timers. */
  predicate IndexesAgree(q: Queue) {
    && Sorted(q.timers)
    && (forall e :: e in q.timers ==>
          e.addr in q.heap && q.heap[e.addr].expiration == e.expiration && q.IdOf(e.addr) in q.active)
    && (forall id :: id in q.active ==>
          id.addr in q.heap && q.IdOf(id.addr) == id && Entry(q.heap[id.addr].expiration, id.addr) in q.timers)
  }

  /** timerfd_settime for an expiration, no sooner than 100 microseconds ahead. */
  function HowMuchTimeFromNow(when: int, now: int): int {
    if when - now < 100 then 100 else when - now
  }

  /** The descriptor never fires early, is late only up to the floor, and the timespec handed to the
      kernel is that many microseconds exactly. */
  lemma TimespecIsExact(when: int, now: int)
    ensures var us := HowMuchTimeFromNow(when, now); var sec, nsec := us / 1000000, us % 1000000 * 1000;
            && us >= 100 && now + us >= when && (us > 100 ==> now + us == when)
            && 0 <= nsec < 1000000000 && sec * 1000000000 + nsec == us * 1000
  {
  }

  function Arm(q: Queue, when: int, now: int): Queue {
    q.(due := Some(now + HowMuchTimeFromNow(when, now)), armedAt := now)
  }

  /** After timerfd_settime the descriptor is due at the expiration, or 100 microseconds ahead if that
      is later, and nothing else has changed. */
  lemma ArmedExactly(q: Queue, when: int, now: int)
    ensures Arm(q, when, now) == q.(due := Some(if when >= now + 100 then when else now + 100), armedAt := now)
  {
  }

  function Insert(q: Queue, a: nat): Queue
    requires a in q.heap
  {
    q.(timers := InsertSorted(q.timers, Entry(q.heap[a].expiration, a)), active := q.active + {q.IdOf(a)})
  }

  function AddTimerInLoop(q: Queue, a: nat, now: int): Queue
    requires a in q.heap
  {
    var when := q.heap[a].expiration;
    var earliestChanged := q.timers == [] || when < q.timers[0].expiration;
    if earliestChanged then Arm(Insert(q, a), when, now) else Insert(q, a)
  }

  function CancelInLoop(q: Queue, id: Id, calling: bool): Queue
    requires id in q.active ==> id.addr in q.heap
  {
    if id in q.active then
      q.(timers := Erase(q.timers, Entry(q.heap[id.addr].expiration, id.addr)),
         active := q.active - {id}, heap := q.heap - {id.addr})
    else if calling then q.(canceling := q.canceling + {id})
    else q
  }

  /** The start of handleRead: read the descriptor, take the due entries out of both indexes. */
  function GetExpired(q: Queue, now: int): Queue
    requires forall e :: e in q.timers ==> e.addr in q.heap
  {
    var n := DueCount(q.timers, now);
    q.(timers := q.timers[n..], active := q.active - IdsOf(q, q.timers[..n]), canceling := {}, due := None)
  }

  function IdsOf(q: Queue, es: seq<Entry>): set<Id>
    requires forall e :: e in es ==> e.addr in q.heap
  {
    set e | e in es :: q.IdOf(e.addr)
  }

  function ResetOne(q: Queue, e: Entry, now: int): Queue
    requires e.addr in q.heap
  {
    var t := q.heap[e.addr];
    if t.repeat && q.IdOf(e.addr) !in q.canceling then
      Insert(q.(heap := q.heap[e.addr := t.(expiration := now + t.interval)]), e.addr)
    else q.(heap := q.heap - {e.addr})
  }

  /** The end of handleRead, after the callbacks. */
  function ResetAll(q: Queue, expired: seq<Entry>, now: int): Queue
    requires forall e :: e in expired ==> e.addr in q.heap
    requires forall i, j :: 0 <= i < j < |expired| ==> expired[i].addr != expired[j].addr
    decreases |expired|
  {
    if expired == [] then q else ResetAll(ResetOne(q, expired[0], now), expired[1..], now)
  }

  function Rearm(q: Queue, now: int): Queue {
    if q.timers != [] && q.timers[0].expiration > 0 then Arm(q, q.timers[0].expiration, now) else q
  }

  /** Adding re-arms the descriptor exactly for a timer due before all others, the end of a batch for
      the earliest timer if its expiration is valid; otherwise it stays as it was. */
  lemma RearmedIff(q: Queue, a: nat, now: int)
    requires a in q.heap
    ensures var when := q.heap[a].expiration;
            AddTimerInLoop(q, a, now).due
              == if q.timers == [] || when < q.timers[0].expiration then Arm(q, when, now).due else q.due
    ensures Rearm(q, now).due
         == if q.timers != [] && q.timers[0].expiration > 0 then Arm(q, q.timers[0].expiration, now).due else q.due
    ensures Rearm(q, now).timers == q.timers && Rearm(q, now).active == q.active && Rearm(q, now).heap == q.heap
  {
    hide InsertSorted;
  }

  // ---------- ownership ----------

  /** Every live timer has exactly one owner: the indexes, an addTimerInLoop still to run
      (`pending`), or the batch being called. */
  predicate Owned(q: Queue, pending: set<nat>, batch: seq<Entry>) {
    && (forall i, j :: 0 <= i < j < |batch| ==> batch[i].addr != batch[j].addr)
    && (forall e :: e in batch ==> e.addr in q.heap && q.IdOf(e.addr) !in q.active && e.addr !in pending)
    && (forall a :: a in pending ==> a in q.heap && q.IdOf(a) !in q.active)
    && (forall a :: a in q.heap ==> q.IdOf(a) in q.active || a in pending || InBatch(batch, a))
    && (forall a, b :: a in q.heap && b in q.heap && a != b ==> q.heap[a].sequence != q.heap[b].sequence)
  }

  predicate InBatch(batch: seq<Entry>, a: nat) {
    exists i :: 0 <= i < |batch| && batch[i].addr == a
  }

  predicate Inv(q: Queue, pending: set<nat>, batch: seq<Entry>) {
    IndexesAgree(q) && Owned(q, pending, batch)
  }

  lemma InsertKeeps(q: Queue, a: nat, pending: set<nat>, batch: seq<Entry>)
    requires a in q.heap && q.IdOf(a) !in q.active && a !in pending && !InBatch(batch, a)
    requires IndexesAgree(q)
    requires Owned(q, pending + {a}, batch)
    ensures Inv(Insert(q, a), pending, batch)
    ensures Entry(q.heap[a].expiration, a) !in q.timers
  {
  }

  lemma CancelKeepsIndexes(q: Queue, id: Id, calling: bool)
    requires IndexesAgree(q)
    ensures IndexesAgree(CancelInLoop(q, id, calling))
  {
  }

  lemma CancelKeepsOwned(q: Queue, id: Id, calling: bool, pending: set<nat>, batch: seq<Entry>)
    requires Inv(q, pending, batch)
    ensures Owned(CancelInLoop(q, id, calling), pending, batch)
  {
    hide Sorted, Erase;
  }

  lemma CancelKeeps(q: Queue, id: Id, calling: bool, pending: set<nat>, batch: seq<Entry>)
    requires Inv(q, pending, batch)
    ensures Inv(CancelInLoop(q, id, calling), pending, batch)
  {
    CancelKeepsIndexes(q, id, calling);
    CancelKeepsOwned(q, id, calling, pending, batch);
  }

  lemma SplitTimers(q: Queue, n: nat)
    requires IndexesAgree(q) && n <= |q.timers|
    ensures Sorted(q.timers[n..])
    ensures forall e :: e in q.timers <==> e in q.timers[..n] || e in q.timers[n..]
    ensures forall i, j :: 0 <= i < j < |q.timers| ==> q.timers[i].addr != q.timers[j].addr
    ensures forall e, f :: e in q.timers[..n] && f in q.timers[n..] ==> e.addr != f.addr
  {
  }

  lemma ExpireIndexes(q: Queue, now: int)
    requires IndexesAgree(q)
    ensures IndexesAgree(GetExpired(q, now))
  {
  }

  lemma ExpireOwned(q: Queue, now: int, pending: set<nat>)
    requires Inv(q, pending, [])
    ensures Owned(GetExpired(q, now), pending, q.timers[..DueCount(q.timers, now)])
  {
    var n := DueCount(q.timers, now);
    var batch, q' := q.timers[..n], GetExpired(q, now);
    SplitTimers(q, n);
    forall a | a in q'.heap ensures q'.IdOf(a) in q'.active || a in pending || InBatch(batch, a) {
      if q.IdOf(a) in q.active && q.IdOf(a) !in q'.active {
        var e :| e in batch && q.IdOf(e.addr) == q.IdOf(a);
        assert InBatch(batch, a);
      }
    }
  }

  /** getExpired takes out exactly the entries due at `now`, in ascending order. */
  lemma ExpiredExactly(q: Queue, now: int)
    requires IndexesAgree(q)
    ensures var batch := q.timers[..DueCount(q.timers, now)]; var rest := GetExpired(q, now).timers;
            && Sorted(batch)
            && (forall e :: e in batch <==> e in q.timers && e.expiration <= now)
            && (forall e :: e in rest <==> e in q.timers && e.expiration > now)
            && (forall id :: id in GetExpired(q, now).active <==> id in q.active && q.heap[id.addr].expiration > now)
  {
    ExpireIndexes(q, now);
    var n, q' := DueCount(q.timers, now), GetExpired(q, now);
    SplitTimers(q, n);
    forall id | id in q.active ensures id in q'.active <==> q.heap[id.addr].expiration > now {
      assert Entry(q.heap[id.addr].expiration, id.addr) in q.timers;
    }
  }

  lemma BatchToPending(q: Queue, batch: seq<Entry>, pending: set<nat>)
    requires batch != [] && Owned(q, pending, batch)
    ensures var a := batch[0].addr;
            a in q.heap && q.IdOf(a) !in q.active && a !in pending && !InBatch(batch[1..], a)
            && Owned(q, pending + {a}, batch[1..])
  {
  }

  lemma RestartKeeps(q: Queue, a: nat, when: int, pending: set<nat>, batch: seq<Entry>)
    requires Inv(q, pending, batch) && a in q.heap && q.IdOf(a) !in q.active
    ensures Inv(q.(heap := q.heap[a := q.heap[a].(expiration := when)]), pending, batch)
  {
  }

  lemma DeleteKeeps(q: Queue, a: nat, pending: set<nat>, batch: seq<Entry>)
    requires Inv(q, pending + {a}, batch) && a !in pending
    ensures Inv(q.(heap := q.heap - {a}), pending, batch)
  {
  }

  lemma ResetOneKeeps(q: Queue, batch: seq<Entry>, now: int, pending: set<nat>)
    requires batch != [] && Inv(q, pending, batch)
    ensures batch[0].addr in q.heap && Inv(ResetOne(q, batch[0], now), pending, batch[1..])
  {
    hide IndexesAgree, Owned, InBatch, InsertSorted;
    var a, rest := batch[0].addr, batch[1..];
    BatchToPending(q, batch, pending);
    var t := q.heap[a];
    if t.repeat && q.IdOf(a) !in q.canceling {
      var q1 := q.(heap := q.heap[a := t.(expiration := now + t.interval)]);
      RestartKeeps(q, a, now + t.interval, pending + {a}, rest);
      InsertKeeps(q1, a, pending, rest);
    } else {
      DeleteKeeps(q, a, pending, rest);
    }
  }

  lemma ResetUnfold(q: Queue, batch: seq<Entry>, now: int, pending: set<nat>)
    requires batch != [] && Inv(q, pending, batch)
    ensures batch[0].addr in q.heap && Fresh(q, batch[0].addr)
    ensures Inv(ResetOne(q, batch[0], now), pending, batch[1..])
    ensures ResetAll(q, batch, now) == ResetAll(ResetOne(q, batch[0], now), batch[1..], now)
  {
    ResetOneKeeps(q, batch, now, pending);
  }

  lemma BatchTail(batch: seq<Entry>)
    requires batch != []
    ensures forall a :: InBatch(batch, a) <==> a == batch[0].addr || InBatch(batch[1..], a)
  {
  }

  /** Cancelled meanwhile, or due only once. */
  predicate Dies(q: Queue, a: nat)
    requires a in q.heap
  {
    !q.heap[a].repeat || q.IdOf(a) in q.canceling
  }

  /** What the end of a batch leaves: of its timers those that do not die, due again one interval after
      `now`; and every other timer as it was. */
  predicate Survivors(q: Queue, batch: seq<Entry>, now: int, q': Queue) {
    && (forall a :: a in q'.heap ==> a in q.heap && !(InBatch(batch, a) && Dies(q, a)))
    && (forall a :: a in q.heap && !InBatch(batch, a) ==> a in q'.heap && q'.heap[a] == q.heap[a])
    && (forall a :: a in q.heap && InBatch(batch, a) && !Dies(q, a) ==>
          var due := now + q.heap[a].interval;
          a in q'.heap && q'.heap[a] == q.heap[a].(expiration := due) && Entry(due, a) in q'.timers)
    && (forall e :: e in q.timers ==> e in q'.timers)
    && (forall e :: e in q'.timers ==>
          || e in q.timers
          || (InBatch(batch, e.addr) && e.addr in q.heap && e.expiration == now + q.heap[e.addr].interval))
  }

  /** One turn of the loop touches nothing but its own timer. */
  lemma ResetOneEffect(q: Queue, e: Entry, now: int)
    requires e.addr in q.heap
    ensures var q', t := ResetOne(q, e, now), q.heap[e.addr]; var again := Entry(now + t.interval, e.addr);
            && q'.canceling == q.canceling && q'.due == q.due && q'.armedAt == q.armedAt
            && (e.addr in q'.heap <==> !Dies(q, e.addr))
            && (e.addr in q'.heap ==> q'.heap[e.addr] == t.(expiration := now + t.interval) && again in q'.timers)
            && (forall a :: a != e.addr ==> (a in q'.heap <==> a in q.heap))
            && (forall a :: a in q.heap && a != e.addr ==> q'.heap[a] == q.heap[a])
            && (forall f :: f in q.timers ==> f in q'.timers)
            && (forall f :: f in q'.timers ==> f in q.timers || f == again)
  {
  }

  lemma HeadNotInTail(q: Queue, batch: seq<Entry>, pending: set<nat>)
    requires batch != [] && Inv(q, pending, batch)
    ensures !InBatch(batch[1..], batch[0].addr)
  {
  }

  /** What the rest of the batch leaves of what one turn left. */
  lemma SurvivorsStep(q: Queue, batch: seq<Entry>, now: int, q': Queue)
    requires batch != [] && batch[0].addr in q.heap && !InBatch(batch[1..], batch[0].addr)
    requires Survivors(ResetOne(q, batch[0], now), batch[1..], now, q')
    ensures Survivors(q, batch, now, q')
  {
    hide InBatch, ResetOne, InsertSorted;
    var q1, a0 := ResetOne(q, batch[0], now), batch[0].addr;
    ResetOneEffect(q, batch[0], now);
    BatchTail(batch);
    assert forall a :: a in q.heap && a != a0 ==> Dies(q1, a) == Dies(q, a);
    hide Dies;
  }

  lemma {:induction false} ResetAllKeeps(q: Queue, batch: seq<Entry>, now: int, pending: set<nat>)
    requires Inv(q, pending, batch)
    ensures Inv(ResetAll(q, batch, now), pending, [])
    ensures Survivors(q, batch, now, ResetAll(q, batch, now))
    ensures var q' := ResetAll(q, batch, now);
            q'.due == q.due && q'.armedAt == q.armedAt && q'.canceling == q.canceling
    decreases |batch|
  {
    if batch == [] {
      ResetNothing(q, now);
    } else {
      hide Inv, ResetAll, ResetOne, InBatch, InsertSorted, Survivors;
      ResetUnfold(q, batch, now, pending);
      HeadNotInTail(q, batch, pending);
      ResetOneEffect(q, batch[0], now);
      ResetAllKeeps(ResetOne(q, batch[0], now), batch[1..], now, pending);
      SurvivorsStep(q, batch, now, ResetAll(q, batch, now));
    }
  }

  // ---------- runs ----------

  datatype Phase = Idle | Calling(expired: seq<Entry>, next: nat, now: int) {
    function Batch(): seq<Entry> {
      if Idle? then [] else expired
    }
  }

  /** The loop thread between atomic steps.  `issued` maps a sequence number to the address its
      TimerId holds, `added` and `cancelled` collect the sequence numbers addTimerInLoop and, after
      it, cancelInLoop have been called for. */
  datatype Sys = Sys(q: Queue, phase: Phase, pending: set<nat>, created: nat, clock: int,
                     issued: map<nat, nat>, added: set<nat>, cancelled: set<nat>)

  datatype Action =
    | Create(addr: nat, when: int, interval: nat, repeat: bool)  // new Timer in addTimer, in any thread
    | Add(addr: nat, now: int)                                   // addTimerInLoop, also from a callback
    | Cancel(id: Id)                                             // cancelInLoop, also from a callback
    | Fire(now: int)                                             // handleRead up to the callbacks
    | CallNext                                                   // one callback
    | Finish(now: int)                                           // reset

  predicate Enabled(s: Sys, a: Action) {
    match a
    case Create(addr, when, interval, repeat) => addr !in s.q.heap
    case Add(addr, now) => addr in s.pending && now >= s.clock
    case Cancel(id) => id.sequence in s.issued ==> s.issued[id.sequence] == id.addr
    case Fire(now) => s.phase.Idle? && now >= s.clock
    case CallNext => s.phase.Calling? && s.phase.next < |s.phase.expired|
    case Finish(now) => s.phase.Calling? && s.phase.next == |s.phase.expired| && now >= s.clock
  }

  /** Every pointer the step follows is to a live timer, and the assertions about the indexes on
      the way hold.  Outside of it the source has undefined behaviour. */
  predicate Safe(s: Sys, a: Action)
    requires Enabled(s, a)
  {
    var q := s.q;
    match a
    case Create(_, _, _, _) => true
    case Add(addr, _) => addr in q.heap && Fresh(q, addr)
    case Cancel(id) => id in q.active ==> id.addr in q.heap && Entry(q.heap[id.addr].expiration, id.addr) in q.timers
    case Fire(now) => forall e :: e in q.timers ==> e.addr in q.heap && q.IdOf(e.addr) in q.active
    case CallNext => s.phase.expired[s.phase.next].addr in q.heap
    case Finish(_) =>
      && (forall e :: e in s.phase.expired ==> e.addr in q.heap && Fresh(q, e.addr))
      && (forall i, j :: 0 <= i < j < |s.phase.expired| ==> s.phase.expired[i].addr != s.phase.expired[j].addr)
  }

  predicate Fresh(q: Queue, a: nat)
    requires a in q.heap
  {
    q.IdOf(a) !in q.active && forall e :: e in q.timers ==> e.addr != a
  }

  function Next(s: Sys, a: Action): Sys
    requires Enabled(s, a) && Safe(s, a)
  {
    match a
    case Create(addr, when, interval, repeat) =>
      var k := s.created + 1;
      s.(q := s.q.(heap := s.q.heap[addr := Timer(when, interval, repeat, k)]), pending := s.pending + {addr},
         created := k, issued := s.issued[k := addr])
    case Add(addr, now) =>
      s.(q := AddTimerInLoop(s.q, addr, now), pending := s.pending - {addr}, clock := now,
         added := s.added + {s.q.heap[addr].sequence})
    case Cancel(id) =>
      s.(q := CancelInLoop(s.q, id, s.phase.Calling?),
         cancelled := if id.sequence in s.added then s.cancelled + {id.sequence} else s.cancelled)
    case Fire(now) =>
      s.(q := GetExpired(s.q, now), phase := Calling(s.q.timers[..DueCount(s.q.timers, now)], 0, now), clock := now)
    case CallNext =>
      s.(phase := s.phase.(next := s.phase.next + 1))
    case Finish(now) =>
      s.(q := Rearm(ResetAll(s.q, s.phase.expired, s.phase.now), now), phase := Idle, clock := now)
  }

  /** The descriptor fires no later than the earliest timer, up to the 100 microsecond floor. */
  predicate Armed(q: Queue, clock: int)
    requires q.timers != []
  {
    q.due.Some? && q.armedAt <= clock
    && (q.due.value <= q.timers[0].expiration || q.due.value <= q.armedAt + 100)
  }

  predicate ArmingOk(s: Sys) {
    && s.clock > 0 && (s.phase.Calling? ==> 0 < s.phase.now <= s.clock)
    && (s.q.timers != [] && (s.phase.Idle? || s.q.timers[0].expiration <= s.phase.now) ==> Armed(s.q, s.clock))
  }

  predicate HistoryOk(s: Sys) {
    && (forall k :: k in s.issued ==> 1 <= k <= s.created)
    && (forall k :: k in s.added ==> k in s.issued)
    && s.cancelled <= s.added
    && (forall a :: a in s.q.heap ==>
          var k := s.q.heap[a].sequence;
          && k in s.issued && s.issued[k] == a
          && (k in s.added <==> a !in s.pending)
          && (k in s.cancelled ==> InBatch(s.phase.Batch(), a) && Id(a, k) in s.q.canceling))
  }

  predicate SysInv(s: Sys) {
    Inv(s.q, s.pending, s.phase.Batch()) && HistoryOk(s) && ArmingOk(s)
    && (s.phase.Calling? ==> s.phase.next <= |s.phase.expired|)
  }

  lemma InvImpliesSafe(s: Sys, a: Action)
    requires SysInv(s) && Enabled(s, a)
    ensures Safe(s, a)
  {
  }

  const START := Sys(EMPTY, Idle, {}, 0, 1, map[], {}, {})

  lemma CreateInv(q: Queue, addr: nat, t: Timer, pending: set<nat>, batch: seq<Entry>)
    requires Inv(q, pending, batch) && addr !in q.heap
    requires forall a :: a in q.heap ==> q.heap[a].sequence != t.sequence
    ensures Inv(q.(heap := q.heap[addr := t]), pending + {addr}, batch)
  {
  }

  lemma CreateHistory(s: Sys, a: Action)
    requires HistoryOk(s) && a.Create? && Enabled(s, a)
    ensures HistoryOk(Next(s, a)) && forall b :: b in s.q.heap ==> s.q.heap[b].sequence != s.created + 1
  {
  }

  lemma CreateKeeps(s: Sys, a: Action)
    requires SysInv(s) && Enabled(s, a) && Safe(s, a) && a.Create?
    ensures SysInv(Next(s, a))
  {
    hide Inv, HistoryOk;
    CreateHistory(s, a);
    CreateInv(s.q, a.addr, Timer(a.when, a.interval, a.repeat, s.created + 1), s.pending, s.phase.Batch());
  }

  lemma ArmKeeps(q: Queue, when: int, now: int, pending: set<nat>, batch: seq<Entry>)
    requires Inv(q, pending, batch)
    ensures Inv(Arm(q, when, now), pending, batch)
  {
  }

  lemma AddInv(s: Sys, addr: nat, now: int)
    requires Inv(s.q, s.pending, s.phase.Batch()) && addr in s.pending
    ensures addr in s.q.heap && Inv(AddTimerInLoop(s.q, addr, now), s.pending - {addr}, s.phase.Batch())
  {
    var q1 := Insert(s.q, addr);
    assert s.pending - {addr} + {addr} == s.pending;
    InsertKeeps(s.q, addr, s.pending - {addr}, s.phase.Batch());
    ArmKeeps(q1, s.q.heap[addr].expiration, now, s.pending - {addr}, s.phase.Batch());
  }

  lemma AddArms(s: Sys, addr: nat, now: int)
    requires ArmingOk(s) && addr in s.q.heap && now >= s.clock
    ensures ArmingOk(s.(q := AddTimerInLoop(s.q, addr, now), clock := now))
  {
  }

  lemma AddKeeps(s: Sys, a: Action)
    requires SysInv(s) && Enabled(s, a) && Safe(s, a) && a.Add?
    ensures SysInv(Next(s, a))
  {
    hide Inv, ArmingOk, InBatch;
    AddInv(s, a.addr, a.now);
    AddArms(s, a.addr, a.now);
    assert ArmingOk(Next(s, a)) by {
      PendingIrrelevant(s.(q := AddTimerInLoop(s.q, a.addr, a.now), clock := a.now), Next(s, a));
    }
  }

  lemma PendingIrrelevant(s: Sys, t: Sys)
    requires s.q == t.q && s.phase == t.phase && s.clock == t.clock
    ensures ArmingOk(s) == ArmingOk(t)
  {
  }

  lemma CancelHistory(s: Sys, id: Id)
    requires Inv(s.q, s.pending, s.phase.Batch()) && HistoryOk(s) && Enabled(s, Cancel(id)) && Safe(s, Cancel(id))
    ensures HistoryOk(Next(s, Cancel(id)))
  {
  }

  lemma CancelArms(s: Sys, id: Id)
    requires IndexesAgree(s.q) && ArmingOk(s) && Enabled(s, Cancel(id)) && Safe(s, Cancel(id))
    ensures ArmingOk(Next(s, Cancel(id)))
  {
  }

  lemma CancelStepKeeps(s: Sys, a: Action)
    requires SysInv(s) && Enabled(s, a) && Safe(s, a) && a.Cancel?
    ensures SysInv(Next(s, a))
  {
    CancelHistory(s, a.id);
    CancelArms(s, a.id);
    CancelKeeps(s.q, a.id, s.phase.Calling?, s.pending, s.phase.Batch());
    hide Inv, HistoryOk, ArmingOk;
  }

  lemma FireKeeps(s: Sys, a: Action)
    requires SysInv(s) && Enabled(s, a) && Safe(s, a) && a.Fire?
    ensures SysInv(Next(s, a))
  {
    ExpireIndexes(s.q, a.now);
    ExpireOwned(s.q, a.now, s.pending);
  }

  lemma FinishArms(s: Sys, q': Queue, now: int)
    requires ArmingOk(s) && s.phase.Calling? && now >= s.clock
    requires q'.due == s.q.due && q'.armedAt == s.q.armedAt && Sorted(q'.timers) && Sorted(s.q.timers)
    requires forall e :: e in q'.timers ==> e in s.q.timers || e.expiration >= s.phase.now
    ensures ArmingOk(s.(q := Rearm(q', now), phase := Idle, clock := now))
  {
  }

  lemma FinishHistory(s: Sys, now: int)
    requires Inv(s.q, s.pending, s.phase.Batch()) && HistoryOk(s) && s.phase.Calling?
    requires Survivors(s.q, s.phase.expired, s.phase.now, ResetAll(s.q, s.phase.expired, s.phase.now))
    ensures HistoryOk(s.(q := Rearm(ResetAll(s.q, s.phase.expired, s.phase.now), now), phase := Idle, clock := now))
  {
  }

  lemma FinishKeeps(s: Sys, a: Action)
    requires SysInv(s) && Enabled(s, a) && Safe(s, a) && a.Finish?
    ensures SysInv(Next(s, a))
  {
    hide InBatch, ResetAll, HistoryOk, ArmingOk;
    var q' := ResetAll(s.q, s.phase.expired, s.phase.now);
    ResetAllKeeps(s.q, s.phase.expired, s.phase.now, s.pending);
    FinishArms(s, q', a.now);
    FinishHistory(s, a.now);
    if q'.timers != [] {
      ArmKeeps(q', q'.timers[0].expiration, a.now, s.pending, []);
    }
  }

  lemma StepKeeps(s: Sys, a: Action)
    requires SysInv(s) && Enabled(s, a) && Safe(s, a)
    ensures SysInv(Next(s, a))
  {
    match a
    case Create(_, _, _, _) => CreateKeeps(s, a);
    case Add(_, _) => AddKeeps(s, a);
    case Cancel(_) => CancelStepKeeps(s, a);
    case Fire(_) => FireKeeps(s, a);
    case CallNext =>
    case Finish(_) => FinishKeeps(s, a);
  }

  /** A run from the empty queue: the actions taken and the states between them.  After an unsafe
      step anything may follow. */
  predicate IsRun(states: seq<Sys>, actions: seq<Action>) {
    && |states| == |actions| + 1 && states[0] == START
    && forall i :: 0 <= i < |actions| ==>
         Enabled(states[i], actions[i])
         && (Safe(states[i], actions[i]) ==> states[i + 1] == Next(states[i], actions[i]))
  }

  /** Over every run, with adds and cancels from callbacks, other threads and the loop: both
      indexes describe the same live timers, each live timer has one owner, nothing is used or
      deleted after being deleted, and the descriptor is armed whenever the loop waits. */
  lemma {:induction false} RunsAreSafe(states: seq<Sys>, actions: seq<Action>, k: nat)
    requires IsRun(states, actions) && k <= |actions|
    ensures SysInv(states[k]) && (k < |actions| ==> Safe(states[k], actions[k]))
  {
    hide SysInv, Safe, Enabled;
    if k > 0 {
      RunsAreSafe(states, actions, k - 1);
      StepKeeps(states[k - 1], actions[k - 1]);
      assert states[k] == states[(k - 1) + 1];
    } else {
      StartOk();
    }
    if k < |actions| {
      InvImpliesSafe(states[k], actions[k]);
    }
  }

  lemma StartOk()
    ensures SysInv(START)
  {
  }

  lemma StepKeepsHistories(s: Sys, a: Action)
    requires Enabled(s, a) && Safe(s, a)
    ensures s.cancelled <= Next(s, a).cancelled && s.added <= Next(s, a).added
  {
  }

  lemma {:induction false} HistoriesGrow(states: seq<Sys>, actions: seq<Action>, i: nat, j: nat)
    requires IsRun(states, actions) && i <= j <= |actions|
    ensures states[i].cancelled <= states[j].cancelled && states[i].added <= states[j].added
    decreases j - i
  {
    hide Enabled, Safe, Next, SysInv;
    if i < j {
      HistoriesGrow(states, actions, i, j - 1);
      RunsAreSafe(states, actions, j - 1);
      StepKeepsHistories(states[j - 1], actions[j - 1]);
      assert states[j] == states[(j - 1) + 1];
    }
  }

  /** Step h hands the timer with this sequence number to addTimerInLoop. */
  ghost predicate Adds(states: seq<Sys>, actions: seq<Action>, h: nat, sequence: nat)
    requires h < |actions| <= |states|
  {
    actions[h].Add? && actions[h].addr in states[h].q.heap && states[h].q.heap[actions[h].addr].sequence == sequence
  }

  lemma AddIsRemembered(states: seq<Sys>, actions: seq<Action>, h: nat, i: nat, sequence: nat)
    requires IsRun(states, actions) && h < i <= |actions| && Adds(states, actions, h, sequence)
    ensures sequence in states[i].added
  {
    RunsAreSafe(states, actions, h);
    HistoriesGrow(states, actions, h + 1, i);
    hide SysInv;
  }

  /** Once cancelInLoop has run for a timer that had been added, no later batch contains it, be it
      cancelled by itself, by a batch peer or from outside. */
  lemma CancelledNeverFiresAgain(states: seq<Sys>, actions: seq<Action>, h: nat, i: nat, j: nat)
    requires IsRun(states, actions) && h < i < j < |actions|
    requires actions[i].Cancel? && Adds(states, actions, h, actions[i].id.sequence) && actions[j].Fire?
    ensures forall e :: e in states[j + 1].phase.Batch() ==>
      e.addr in states[j + 1].q.heap && states[j + 1].q.heap[e.addr].sequence != actions[i].id.sequence
  {
    AddIsRemembered(states, actions, h, i, actions[i].id.sequence);
    RunsAreSafe(states, actions, i);
    RunsAreSafe(states, actions, j);
    HistoriesGrow(states, actions, i + 1, j);
    NoCancelledInBatch(states[j], actions[j]);
  }

  lemma NoCancelledInBatch(s: Sys, a: Action)
    requires SysInv(s) && Enabled(s, a) && Safe(s, a) && a.Fire?
    ensures forall e :: e in Next(s, a).phase.Batch() ==>
      e.addr in s.q.heap && Next(s, a).q.heap == s.q.heap && s.q.heap[e.addr].sequence !in s.cancelled
  {
  }

  lemma FinishHeap(s: Sys, now: int, b: nat)
    requires SysInv(s) && Enabled(s, Finish(now)) && Safe(s, Finish(now))
    ensures var q' := Next(s, Finish(now)).q;
            && q'.canceling == s.q.canceling
            && (b in q'.heap ==>
                  b in s.q.heap && (q'.heap[b] == s.q.heap[b] || (q'.heap[b].repeat
                  && q'.heap[b] == s.q.heap[b].(expiration := s.phase.now + q'.heap[b].interval))))
  {
    hide HistoryOk, ArmingOk, InBatch, ResetAll, IndexesAgree, Owned;
    ResetAllKeeps(s.q, s.phase.expired, s.phase.now, s.pending);
  }

  /** A step makes the timer it is asked for, restarts repeating timers one interval after the time of
      the batch, and changes no other timer. */
  lemma HeapStep(s: Sys, a: Action, b: nat)
    requires SysInv(s) && Enabled(s, a) && Safe(s, a) && b in Next(s, a).q.heap
    ensures var t := Next(s, a).q.heap[b];
            || (b in s.q.heap && t == s.q.heap[b])
            || (a.Create? && b == a.addr && t == Timer(a.when, a.interval, a.repeat, s.created + 1))
            || (a.Finish? && s.phase.Calling? && b in s.q.heap && t.repeat
                && t == s.q.heap[b].(expiration := s.phase.now + t.interval))
  {
    hide HistoryOk, ArmingOk, InBatch, IndexesAgree, Owned, ResetAll;
    if a.Finish? {
      hide Next, Safe;
      FinishHeap(s, a.now, b);
    }
  }

  /** The timer a step has created. */
  ghost predicate Makes(states: seq<Sys>, actions: seq<Action>, i: nat, addr: nat, t: Timer)
    requires i < |actions| <= |states|
  {
    var a := actions[i];
    a.Create? && a.addr == addr && t == Timer(t.expiration, a.interval, a.repeat, states[i].created + 1)
  }

  /** When it is due: as asked for, or one interval after a batch it was called in. */
  ghost predicate DueAsAsked(states: seq<Sys>, actions: seq<Action>, i: nat, k: nat, t: Timer)
    requires i < k <= |actions| <= |states| && actions[i].Create?
  {
    t.expiration == actions[i].when || (t.repeat && exists j :: i < j < k && RestartsAt(states, actions, j, t))
  }

  ghost predicate RestartsAt(states: seq<Sys>, actions: seq<Action>, j: nat, t: Timer)
    requires j < |actions| <= |states|
  {
    actions[j].Finish? && states[j].phase.Calling? && t.expiration == states[j].phase.now + t.interval
  }

  /** Over every run each live timer is one that addTimer created, with its interval, its kind and a
      sequence number of its own, and is due when it was asked for or one interval after a batch. */
  lemma {:induction false} TimersAreAsCreated(states: seq<Sys>, actions: seq<Action>, k: nat, b: nat) returns (i: nat)
    requires IsRun(states, actions) && k <= |actions| && b in states[k].q.heap
    ensures i < k && Makes(states, actions, i, b, states[k].q.heap[b])
    ensures DueAsAsked(states, actions, i, k, states[k].q.heap[b])
    decreases k
  {
    hide Enabled, Safe, Next, SysInv;
    if k == 0 {
      assert false;
    } else {
      var s, a, t := states[k - 1], actions[k - 1], states[k].q.heap[b];
      assert states[k] == states[(k - 1) + 1];
      RunsAreSafe(states, actions, k - 1);
      HeapStep(s, a, b);
      if a.Create? && b == a.addr && t == Timer(a.when, a.interval, a.repeat, s.created + 1) {
        i := k - 1;
      } else {
        i := TimersAreAsCreated(states, actions, k - 1, b);
        if t != s.q.heap[b] {
          assert RestartsAt(states, actions, k - 1, t);
        } else if t.expiration != actions[i].when {
          var j :| i < j < k - 1 && RestartsAt(states, actions, j, t);
        }
      }
    }
  }

  lemma BatchStep(s: Sys, a: Action)
    requires Enabled(s, a) && Safe(s, a) && Next(s, a).phase.Calling?
    ensures var phase := Next(s, a).phase;
            if a.Fire? then phase == Calling(s.q.timers[..DueCount(s.q.timers, a.now)], 0, a.now)
            else
              && s.phase.Calling? && !a.Finish? && phase.expired == s.phase.expired && phase.now == s.phase.now
              && phase.next == s.phase.next + (if a.CallNext? then 1 else 0)
  {
  }

  /** The batch being called is that of the last expiry: the entries due then, its time, and one
      callback called for each CallNext since. */
  lemma {:induction false} BatchIsOfLastFire(states: seq<Sys>, actions: seq<Action>, k: nat) returns (i: nat)
    requires IsRun(states, actions) && k <= |actions| && states[k].phase.Calling?
    ensures i < k && actions[i] == Fire(states[k].phase.now)
    ensures states[k].phase.expired == states[i].q.timers[..DueCount(states[i].q.timers, states[k].phase.now)]
    ensures forall j :: i < j < k ==> !actions[j].Fire? && !actions[j].Finish?
    ensures states[k].phase.next == Calls(actions[i + 1..k])
    decreases k
  {
    hide Enabled, Safe, Next, SysInv, DueCount;
    if k == 0 {
      assert false;
    } else {
      var a := actions[k - 1];
      assert states[k] == states[(k - 1) + 1];
      RunsAreSafe(states, actions, k - 1);
      BatchStep(states[k - 1], a);
      if a.Fire? {
        i := k - 1;
      } else {
        i := BatchIsOfLastFire(states, actions, k - 1);
        assert actions[i + 1..k][..k - 1 - (i + 1)] == actions[i + 1..k - 1];
      }
    }
  }

  function Calls(actions: seq<Action>): nat {
    if actions == [] then 0
    else Calls(actions[..|actions| - 1]) + if actions[|actions| - 1].CallNext? then 1 else 0
  }

  lemma CancelingStep(s: Sys, a: Action, id: Id)
    requires SysInv(s) && Enabled(s, a) && Safe(s, a) && id in Next(s, a).q.canceling
    ensures !a.Fire? && (id in s.q.canceling || (a == Cancel(id) && s.phase.Calling?))
  {
    hide HistoryOk, ArmingOk, InBatch, IndexesAgree, Owned, ResetAll;
    if a.Finish? {
      hide Next, Safe;
      FinishHeap(s, a.now, 0);
    }
  }

  /** What keeps a repeating timer from being restarted is a cancel made during the callbacks of this
      very batch. */
  lemma {:induction false} CancelingIsOfThisBatch(states: seq<Sys>, actions: seq<Action>, k: nat, id: Id)
    returns (i: nat)
    requires IsRun(states, actions) && k <= |actions| && id in states[k].q.canceling
    ensures i < k && actions[i] == Cancel(id) && states[i].phase.Calling?
    ensures forall j :: i < j < k ==> !actions[j].Fire?
    decreases k
  {
    hide Enabled, Safe, Next, SysInv;
    if k == 0 {
      assert false;
    } else {
      RunsAreSafe(states, actions, k - 1);
      assert states[k] == states[(k - 1) + 1];
      CancelingStep(states[k - 1], actions[k - 1], id);
      if id in states[k - 1].q.canceling {
        i := CancelingIsOfThisBatch(states, actions, k - 1, id);
      } else {
        i := k - 1;
      }
    }
  }

  /** An id whose timer is gone cannot touch the timer that now has its address, nor any other. */
  lemma StaleIdIsHarmless(q: Queue, id: Id, calling: bool, a: nat)
    requires IndexesAgree(q) && a in q.heap && q.heap[a].sequence != id.sequence
    ensures var q' := CancelInLoop(q, id, calling);
            a in q'.heap && q'.heap[a] == q.heap[a] && (q.IdOf(a) in q.active <==> q.IdOf(a) in q'.active)
            && forall e: Entry :: e.addr == a ==> (e in q'.timers <==> e in q.timers)
  {
  }

  // ---------- the assertions on sizes ----------

  lemma {:induction false} SameSize(q: Queue)
    requires IndexesAgree(q)
    ensures |q.timers| == |q.active|
    decreases |q.timers|
  {
    if q.timers == [] {
      assert q.active == {};
    } else {
      var e := q.timers[0];
      assert e in q.timers;
      var id := q.IdOf(e.addr);
      CancelKeepsIndexes(q, id, false);
      SameSize(CancelInLoop(q, id, false));
      assert Erase(q.timers, e) == q.timers[1..];
    }
  }

  // ---------- the class ----------

  /** The methods that run on the loop thread, each against its function above. */
  class TimerQueue {
    var timers: seq<Entry>
    var active: set<Id>
    var canceling: set<Id>
    var heap: map<nat, Timer>
    var due: Option<int>
    var armedAt: int
    var calling: bool

    function Value(): Queue
      reads this
    {
      Queue(timers, active, canceling, heap, due, armedAt)
    }

    constructor ()
      ensures Value() == EMPTY && !calling
    {
      timers, active, canceling, heap := [], {}, {}, map[];
      due, armedAt, calling := None, 0, false;
    }

    method ResetTimerfd(when: int, now: int)
      modifies this`due, this`armedAt
      ensures Value() == Arm(old(Value()), when, now)
    {
      var microseconds := when - now;
      if microseconds < 100 {
        microseconds := 100;
      }
      due, armedAt := Some(now + microseconds), now;
    }

    method InsertTimer(a: nat) returns (earliestChanged: bool)
      requires a in heap && Fresh(Value(), a)
      modifies this`timers, this`active
      ensures Value() == Insert(old(Value()), a)
      ensures earliestChanged <==> old(timers) == [] || heap[a].expiration < old(timers)[0].expiration
    {
      earliestChanged := false;
      var when := heap[a].expiration;
      if timers == [] || when < timers[0].expiration {
        earliestChanged := true;
      }
      timers := InsertSorted(timers, Entry(when, a));
      active := active + {Id(a, heap[a].sequence)};
    }

    method AddTimer(a: nat, now: int)
      requires a in heap && Fresh(Value(), a)
      modifies this`timers, this`active, this`due, this`armedAt
      ensures Value() == AddTimerInLoop(old(Value()), a, now)
    {
      var earliestChanged := InsertTimer(a);
      if earliestChanged {
        ResetTimerfd(heap[a].expiration, now);
      }
    }

    method Cancel(id: Id)
      requires IndexesAgree(Value())
      modifies this`timers, this`active, this`canceling, this`heap
      ensures Value() == CancelInLoop(old(Value()), id, calling)
      ensures IndexesAgree(Value()) && |timers| == |active|
    {
      ghost var q := Value();
      if id in active {
        timers := Erase(timers, Entry(heap[id.addr].expiration, id.addr));
        heap := heap - {id.addr};
        active := active - {id};
      } else if calling {
        canceling := canceling + {id};
      }
      CancelKeepsIndexes(q, id, calling);
      SameSize(Value());
    }

    /** The loop of getExpired over activeTimers_. */
    method EraseActive(expired: seq<Entry>)
      requires forall e :: e in expired ==> e.addr in heap
      modifies this`active
      ensures active == old(active) - IdsOf(Value(), expired)
    {
      var i := 0;
      while i < |expired|
        invariant 0 <= i <= |expired|
        invariant active == old(active) - IdsOf(Value(), expired[..i])
      {
        assert expired[..i + 1] == expired[..i] + [expired[i]];
        active := active - {Id(expired[i].addr, heap[expired[i].addr].sequence)};
        i := i + 1;
      }
      assert expired[..i] == expired;
    }

    /** getExpired and the lines of handleRead around it. */
    method TakeExpired(now: int) returns (expired: seq<Entry>)
      requires IndexesAgree(Value())
      modifies this`timers, this`active, this`canceling, this`due, this`calling
      ensures calling && Value() == GetExpired(old(Value()), now)
      ensures expired == old(timers)[..DueCount(old(timers), now)]
      ensures |timers| == |active|
    {
      hide DueCount;
      ghost var q := Value();
      due := None;
      var n := DueCount(timers, now);
      expired := timers[..n];
      timers := timers[n..];
      EraseActive(expired);
      assert IdsOf(Value(), expired) == IdsOf(q, expired);
      calling := true;
      canceling := {};
      ExpireIndexes(q, now);
      hide IndexesAgree;
      SameSize(Value());
    }

    /** One turn of the loop in reset. */
    method ResetEntry(e: Entry, now: int)
      requires e.addr in heap && Fresh(Value(), e.addr)
      modifies this`timers, this`active, this`heap
      ensures Value() == ResetOne(old(Value()), e, now)
    {
      var t := heap[e.addr];
      if t.repeat && Id(e.addr, t.sequence) !in canceling {
        heap := heap[e.addr := t.(expiration := now + t.interval)];
        var _ := InsertTimer(e.addr);
      } else {
        heap := heap - {e.addr};
      }
    }

    method Reset(expired: seq<Entry>, now: int, clock: int, ghost pending: set<nat>)
      requires Inv(Value(), pending, expired)
      modifies this`timers, this`active, this`heap, this`due, this`armedAt, this`calling
      ensures !calling && Value() == Rearm(ResetAll(old(Value()), expired, now), clock)
      ensures Inv(Value(), pending, [])
    {
      hide IndexesAgree, InBatch, ResetOne, ResetAll, Fresh;
      calling := false;
      ghost var q := Value();
      var i := 0;
      while i < |expired|
        invariant 0 <= i <= |expired|
        invariant Inv(Value(), pending, expired[i..])
        invariant ResetAll(Value(), expired[i..], now) == ResetAll(q, expired, now)
        modifies this`timers, this`active, this`heap
      {
        ResetUnfold(Value(), expired[i..], now, pending);
        assert expired[i..][1..] == expired[i + 1..];
        ResetEntry(expired[i], now);
        i := i + 1;
      }
      ResetNothing(Value(), now);
      assert expired[i..] == [];
      if timers != [] && timers[0].expiration > 0 {
        ArmKeeps(Value(), timers[0].expiration, clock, pending, []);
        ResetTimerfd(timers[0].expiration, clock);
      }
    }
  }

  lemma ResetNothing(q: Queue, now: int)
    ensures ResetAll(q, [], now) == q
  {
  }
}
