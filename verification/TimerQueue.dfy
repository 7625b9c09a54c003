/**
 * The timer queue: an ordered set of (expiration, timer) entries, one timerfd armed for the
 * earliest, a batch of expired timers whose callbacks may add and cancel timers, and the
 * re-insertion of the repeating ones.  Timers are identified by address; addresses are
 * reused after delete, sequence numbers are not.  Times are microseconds.
 */
module TimerQueue {
  import opened Common

  type Addr = nat

  const UINTPTR_MAX: nat := 0xffff_ffff_ffff_ffff

  datatype Timer = Timer(expiration: int, interval: nat, repeat: bool, seqNo: nat)

  datatype Entry = Entry(when: int, timer: Addr)

  /** A timer's identity to the outside: address and sequence number. */
  datatype Id = Id(timer: Addr, seqNo: nat)

  /** The armed timerfd: when it fires, and when it was set. */
  datatype Arm = Arm(deadline: int, at: int)

  datatype Queue = Queue(
    heap: map<Addr, Timer>,      // timers allocated and not deleted
    pendingAdd: set<Addr>,       // created, addTimerInLoop still to run
    timers: seq<Entry>,          // timers_, in its order
    active: set<Id>,             // activeTimers_
    canceling: set<Id>,          // cancelingTimers_
    calling: bool,               // callingExpiredTimers_
    batch: seq<Entry>,           // the expired timers of the current handleRead
    next: nat,                   // how many of them have run
    now: int,                    // the time handleRead read
    armed: Option<Arm>,          // the timerfd; None when disarmed
    reported: bool,              // the poller has reported the timerfd, handleRead still to run
    clock: int,
    created: nat,                // s_numCreated_
    ran: seq<nat>                // history: sequence numbers of the callbacks run
  )

  predicate Init(s: Queue)
  {
    s.clock > 0 && s == Queue(map[], {}, [], {}, {}, false, [], 0, s.clock, None, false, s.clock, s.created, [])
  }

  // ---- The ordered set ----

  predicate Less(a: Entry, b: Entry)
  {
    a.when < b.when || (a.when == b.when && a.timer < b.timer)
  }

  predicate Sorted(ts: seq<Entry>)
  {
    forall i, j :: 0 <= i < j < |ts| ==> Less(ts[i], ts[j])
  }

  /** The timers of some entries exist, at addresses below the sentry's. */
  predicate Allocated(ts: seq<Entry>, heap: map<Addr, Timer>)
  {
    forall e :: e in ts ==> e.timer in heap && e.timer < UINTPTR_MAX
  }

  function Insert(ts: seq<Entry>, e: Entry): seq<Entry>
  {
    if ts == [] || Less(e, ts[0]) then [e] + ts
    else if e == ts[0] then ts
    else [ts[0]] + Insert(ts[1..], e)
  }

  lemma {:induction false} InsertIsSorted(ts: seq<Entry>, e: Entry)
    requires Sorted(ts)
    ensures Sorted(Insert(ts, e))
    ensures forall x :: x in Insert(ts, e) <==> x in ts || x == e
    decreases |ts|
  {
    if !(ts == [] || Less(e, ts[0]) || e == ts[0]) {
      InsertIsSorted(ts[1..], e);
      var rest := Insert(ts[1..], e);
      assert ts == [ts[0]] + ts[1..];
      assert forall x :: x in rest ==> Less(ts[0], x);
    }
  }

  /** Everything in an ordered set is later than `when` if its first entry is. */
  lemma FirstIsEarliest(ts: seq<Entry>, when: int)
    requires Sorted(ts)
    ensures ts == [] || when < ts[0].when <==> forall e :: e in ts ==> when < e.when
  {
    if ts != [] {
      assert ts[0] in ts;
    }
  }

  /** The position of the first entry from `k` on that is not due at `now`. */
  function FirstNotDue(ts: seq<Entry>, now: int, k: nat): (r: nat)
    requires k <= |ts|
    ensures k <= r <= |ts| && (r < |ts| ==> ts[r].when > now)
    ensures forall i :: k <= i < r ==> ts[i].when <= now
    decreases |ts| - k
  {
    if k < |ts| && ts[k].when <= now then FirstNotDue(ts, now, k + 1) else k
  }

  /** The entries in front of it, and the others. */
  function Due(ts: seq<Entry>, now: int): seq<Entry>
  {
    ts[..FirstNotDue(ts, now, 0)]
  }

  function NotDue(ts: seq<Entry>, now: int): seq<Entry>
  {
    ts[FirstNotDue(ts, now, 0)..]
  }

  lemma SplitSorted(ts: seq<Entry>, now: int, k: nat)
    requires Sorted(ts) && k <= |ts|
    requires forall i :: 0 <= i < k ==> ts[i].when <= now
    requires forall i :: k <= i < |ts| ==> ts[i].when > now
    ensures Sorted(ts[..k]) && Sorted(ts[k..]) && ts[..k] + ts[k..] == ts
    ensures forall e :: e in ts[..k] <==> e in ts && e.when <= now
    ensures forall e :: e in ts[k..] <==> e in ts && e.when > now
  {
    assert ts == ts[..k] + ts[k..];
  }

  /** A batch is exactly the entries with expiration at or before `now`, in ascending order. */
  lemma DueSplits(ts: seq<Entry>, now: int)
    requires Sorted(ts)
    ensures Sorted(Due(ts, now)) && Sorted(NotDue(ts, now)) && Due(ts, now) + NotDue(ts, now) == ts
    ensures forall e :: e in Due(ts, now) <==> e in ts && e.when <= now
    ensures forall e :: e in NotDue(ts, now) <==> e in ts && e.when > now
  {
    var k := FirstNotDue(ts, now, 0);
    assert forall i :: k < i < |ts| ==> Less(ts[k], ts[i]);
    SplitSorted(ts, now, k);
  }

  // ---- Steps ----

  function Max(a: int, b: int): int
  {
    if a < b then b else a
  }

  /** timerfd_settime for `when`, at least 100 microseconds from now. */
  function ArmFor(when: int, clock: int): Arm
  {
    Arm(clock + Max(when - clock, 100), clock)
  }

  function AddInLoop(s: Queue, a: Addr): Queue
    requires a in s.heap
  {
    var when := s.heap[a].expiration;
    var s1 := s.(timers := Insert(s.timers, Entry(when, a)), pendingAdd := s.pendingAdd - {a});
    if s.timers == [] || when < s.timers[0].when then s1.(armed := Some(ArmFor(when, s.clock))) else s1
  }

  function Cancel(s: Queue, id: Id): Queue
  {
    if id in s.active && id.timer in s.heap then
      var e := Entry(s.heap[id.timer].expiration, id.timer);
      s.(timers := Without(s.timers, e), heap := s.heap - {id.timer}, active := s.active - {id})
    else if s.calling then s.(canceling := s.canceling + {id})
    else s
  }

  function Without(ts: seq<Entry>, e: Entry): seq<Entry>
  {
    if ts == [] then [] else (if ts[0] == e then [] else [ts[0]]) + Without(ts[1..], e)
  }

  /** The identities of the timers of some entries. */
  function Ids(heap: map<Addr, Timer>, es: seq<Entry>): set<Id>
  {
    set e | e in es && e.timer in heap :: Id(e.timer, heap[e.timer].seqNo)
  }

  /**
   * Reading the timerfd: it disarms an expired one.  One that was set again after the poll
   * has not expired; the read fails and it stays armed.
   */
  function ReadTimerfd(armed: Option<Arm>, clock: int): Option<Arm>
  {
    if armed.Some? && armed.value.deadline > clock then armed else None
  }

  /** handleRead takes the time and reads the timerfd. */
  function ReadTime(s: Queue): Queue
  {
    s.(now := s.clock, reported := false, armed := ReadTimerfd(s.armed, s.clock))
  }

  /** getExpired: the due entries leave the set and their timers the active set. */
  function TakeExpired(s: Queue): Queue
  {
    var due := Due(s.timers, s.now);
    s.(timers := NotDue(s.timers, s.now), batch := due, active := s.active - Ids(s.heap, due))
  }

  function StartCalling(s: Queue): Queue
  {
    s.(next := 0, calling := true, canceling := {})
  }

  /** handleRead up to the first callback. */
  function BeginExpired(s: Queue): Queue
  {
    StartCalling(TakeExpired(ReadTime(s)))
  }

  function RunOne(s: Queue): Queue
    requires s.next < |s.batch| && s.batch[s.next].timer in s.heap
  {
    s.(ran := s.ran + [s.heap[s.batch[s.next].timer].seqNo], next := s.next + 1)
  }

  /** One turn of the loop in reset: restart and re-insert, or delete. */
  function ResetOne(s: Queue, e: Entry): Queue
  {
    if e.timer !in s.heap then s
    else
      var t := s.heap[e.timer];
      if t.repeat && Id(e.timer, t.seqNo) !in s.canceling then
        var t' := t.(expiration := s.now + t.interval);
        s.(heap := s.heap[e.timer := t'], timers := Insert(s.timers, Entry(t'.expiration, e.timer)))
      else s.(heap := s.heap - {e.timer})
  }

  function ResetAll(s: Queue, es: seq<Entry>): Queue
    decreases |es|
  {
    if es == [] then s else ResetAll(ResetOne(s, es[0]), es[1..])
  }

  /** Re-arms for the earliest entry, if its time is a valid timestamp. */
  function Rearm(s: Queue): Queue
  {
    if s.timers != [] && s.timers[0].when > 0 then s.(armed := Some(ArmFor(s.timers[0].when, s.clock))) else s
  }

  /** handleRead after the last callback. */
  function EndExpired(s: Queue): Queue
  {
    Rearm(ResetAll(s.(calling := false), s.batch).(batch := [], next := 0))
  }

  // ---- The imperative object ----

  class TimerQueue {
    var heap: map<Addr, Timer>
    var pendingAdd: set<Addr>
    var timers: seq<Entry>
    var active: set<Id>
    var canceling: set<Id>
    var calling: bool
    var batch: seq<Entry>
    var next: nat
    var now: int
    var armed: Option<Arm>
    var reported: bool
    var clock: int
    var created: nat
    var ran: seq<nat>

    ghost function View(): Queue
      reads this
    {
      Queue(heap, pendingAdd, timers, active, canceling, calling, batch, next, now, armed, reported, clock, created, ran)
    }

    /** howMuchTimeFromNow and timerfd_settime. */
    method ResetTimerfd(expiration: int)
      modifies this`armed
      ensures armed == Some(ArmFor(expiration, clock))
    {
      var microseconds := expiration - clock;
      if microseconds < 100 {
        microseconds := 100;
      }
      armed := Some(Arm(clock + microseconds, clock));
    }

    /** The set stays ordered and gains exactly the entry; the earliest changed if every other is later. */
    method InsertTimer(a: Addr) returns (earliestChanged: bool)
      requires a in heap && Sorted(timers)
      modifies this`timers
      ensures timers == Insert(old(timers), Entry(heap[a].expiration, a))
      ensures Sorted(timers) && forall e :: e in timers <==> e in old(timers) || e == Entry(heap[a].expiration, a)
      ensures earliestChanged <==> forall e :: e in old(timers) ==> heap[a].expiration < e.when
    {
      InsertIsSorted(timers, Entry(heap[a].expiration, a));
      FirstIsEarliest(timers, heap[a].expiration);
      earliestChanged := false;
      var when := heap[a].expiration;
      if timers == [] || when < timers[0].when {
        earliestChanged := true;
      }
      timers := Insert(timers, Entry(when, a));
    }

    method AddTimerInLoop(a: Addr)
      requires a in heap && Sorted(timers)
      modifies this
      ensures View() == AddInLoop(old(View()), a)
    {
      FirstIsEarliest(timers, heap[a].expiration);
      var earliestChanged := InsertTimer(a);
      pendingAdd := pendingAdd - {a};
      if earliestChanged {
        ResetTimerfd(heap[a].expiration);
      }
    }

    method CancelInLoop(id: Id)
      requires forall i :: i in active ==> i.timer in heap
      modifies this
      ensures View() == Cancel(old(View()), id)
    {
      if id in active {
        timers := Without(timers, Entry(heap[id.timer].expiration, id.timer));
        heap := heap - {id.timer};
        active := active - {id};
      } else if calling {
        canceling := canceling + {id};
      }
    }

    /** lower_bound of the sentry: the first entry that is not due. */
    method LowerBound(t: int) returns (end: nat)
      requires Allocated(timers, heap)
      ensures end == FirstNotDue(timers, t, 0)
    {
      var sentry := Entry(t, UINTPTR_MAX);
      end := 0;
      while end < |timers| && Less(timers[end], sentry)
        invariant 0 <= end <= |timers| && FirstNotDue(timers, t, end) == FirstNotDue(timers, t, 0)
      {
        end := end + 1;
      }
      assert end < |timers| ==> timers[end] in timers;
    }

    method EraseActive(es: seq<Entry>)
      requires forall e :: e in es ==> e.timer in heap
      modifies this`active
      ensures active == old(active) - Ids(heap, es)
    {
      var i := 0;
      while i < |es|
        invariant 0 <= i <= |es| && active == old(active) - Ids(heap, es[..i])
      {
        var id := Id(es[i].timer, heap[es[i].timer].seqNo);
        assert es[..i + 1] == es[..i] + [es[i]];
        assert Ids(heap, es[..i + 1]) == Ids(heap, es[..i]) + {id};
        active := active - {id};
        i := i + 1;
      }
      assert es[..i] == es;
    }

    /** Copies out and erases the due entries, then drops them from the active set. */
    method GetExpired(t: int) returns (expired: seq<Entry>)
      requires Allocated(timers, heap)
      modifies this`timers, this`active
      ensures expired == Due(old(timers), t) && timers == NotDue(old(timers), t)
      ensures active == old(active) - Ids(heap, expired)
    {
      var end := LowerBound(t);
      expired := timers[..end];
      assert forall e :: e in expired ==> e in timers;
      timers := timers[end..];
      EraseActive(expired);
    }

    /** Takes the time; a read of the timerfd before its expiration fails and changes nothing. */
    method TakeTime()
      modifies this`now, this`armed, this`reported
      ensures View() == ReadTime(old(View()))
    {
      now := clock;
      reported := false;
      if armed.Some? && armed.value.deadline <= clock {
        armed := None;
      }
    }

    method TakeBatch()
      requires Allocated(timers, heap)
      modifies this`batch, this`timers, this`active
      ensures View() == TakeExpired(old(View()))
    {
      batch := GetExpired(now);
    }

    method ClearMarks()
      modifies this`next, this`calling, this`canceling
      ensures View() == StartCalling(old(View()))
    {
      next := 0;
      calling := true;
      canceling := {};
    }

    method HandleReadBegin()
      requires Allocated(timers, heap)
      modifies this
      ensures View() == BeginExpired(old(View()))
    {
      TakeTime();
      TakeBatch();
      ClearMarks();
    }

    method HandleReadEnd()
      requires Parts(View(), batch)
      modifies this
      ensures View() == EndExpired(old(View()))
    {
      calling := false;
      Reset();
    }

    /** One turn of the loop in reset. */
    method ResetEntry(e: Entry)
      requires e.timer in heap && Sorted(timers)
      modifies this`heap, this`timers
      ensures View() == ResetOne(old(View()), e)
    {
      var t := heap[e.timer];
      if t.repeat && Id(e.timer, t.seqNo) !in canceling {
        heap := heap[e.timer := t.(expiration := now + t.interval)];
        var _ := InsertTimer(e.timer);
      } else {
        heap := heap - {e.timer};
      }
    }

    /** Re-arms for the earliest timer's own expiration. */
    method ArmEarliest()
      requires forall e :: e in timers ==> Keyed(View(), e)
      modifies this`armed
      ensures View() == Rearm(old(View()))
    {
      if timers != [] {
        assert Keyed(View(), timers[0]);
        var nextExpire := heap[timers[0].timer].expiration;
        if nextExpire > 0 {
          ResetTimerfd(nextExpire);
        }
      }
    }

    /** The loop over the expired timers, then the re-arming. */
    method Reset()
      requires Parts(View(), batch)
      modifies this
      ensures View() == Rearm(ResetAll(old(View()), old(batch)).(batch := [], next := 0))
    {
      var expired := batch;
      var i := 0;
      ghost var s0 := View();
      while i < |expired|
        invariant 0 <= i <= |expired| && Parts(View(), expired[i..])
        invariant ResetAll(View(), expired[i..]) == ResetAll(s0, expired)
      {
        ghost var s := View();
        assert expired[i..][0] == expired[i] && expired[i..][1..] == expired[i + 1..];
        assert expired[i..][0] in expired[i..];
        ResetOneKeepsParts(s, expired[i..]);
        ResetEntry(expired[i]);
        i := i + 1;
      }
      assert expired[i..] == [];
      ghost var r := View();
      batch, next := [], 0;
      PartsFrame(r, View(), []);
      ArmEarliest();
    }
  }

  // ---- Invariants ----

  /** The key of an entry is its timer's own expiration. */
  predicate Keyed(s: Queue, e: Entry)
  {
    e.timer in s.heap && s.heap[e.timer].expiration == e.when
  }

  /**
   * Every allocated timer is in exactly one place: waiting to be added, in the ordered set,
   * or in `rest`, the part of the batch not yet reset.
   */
  predicate Parts(s: Queue, rest: seq<Entry>)
  {
    Placed(s, rest) && Covering(s, rest) && Numbered(s)
  }

  predicate Placed(s: Queue, rest: seq<Entry>)
  {
    && Sorted(s.timers)
    && (forall e :: e in s.timers ==> Keyed(s, e) && e.timer !in s.pendingAdd)
    && (forall e :: e in rest ==> Keyed(s, e) && e.timer !in s.pendingAdd)
    && (forall i, j :: 0 <= i < j < |rest| ==> rest[i].timer != rest[j].timer)
    && (forall e, f :: e in s.timers && f in rest ==> e.timer != f.timer)
    && s.pendingAdd <= s.heap.Keys
  }

  function KeyOf(s: Queue, a: Addr): Entry
    requires a in s.heap
  {
    Entry(s.heap[a].expiration, a)
  }

  predicate Covering(s: Queue, rest: seq<Entry>)
  {
    forall a :: a in s.heap ==> a in s.pendingAdd || KeyOf(s, a) in s.timers || KeyOf(s, a) in rest
  }

  predicate Numbered(s: Queue)
  {
    && (forall a :: a in s.heap ==> a < UINTPTR_MAX && 0 < s.heap[a].seqNo <= s.created)
    && (forall a, b :: a in s.heap && b in s.heap && s.heap[a].seqNo == s.heap[b].seqNo ==> a == b)
  }

  lemma PartsFrame(s: Queue, s': Queue, rest: seq<Entry>)
    requires Parts(s, rest)
    requires s'.heap == s.heap && s'.timers == s.timers && s'.pendingAdd == s.pendingAdd && s'.created == s.created
    ensures Parts(s', rest)
  {
    assert forall e :: Keyed(s', e) == Keyed(s, e);
    assert forall a :: a in s.heap ==> KeyOf(s', a) == KeyOf(s, a);
  }

  /** Armed for the earliest expiration, or for 100 microseconds after it was last set, whichever is later. */
  predicate ArmedInTime(s: Queue)
    requires s.timers != []
  {
    s.armed.Some? && s.armed.value.at <= s.clock
    && s.armed.value.deadline == Max(s.timers[0].when, s.armed.value.at + 100)
  }

  /** Idle: the earliest timer is armed.  During callbacks: at least the ones that are already due. */
  predicate Armed(s: Queue)
  {
    s.timers != [] && (!s.calling || s.timers[0].when <= s.now) ==> ArmedInTime(s)
  }

  predicate Inv(s: Queue)
  {
    && Parts(s, s.batch) && Armed(s)
    && s.active == {} && 0 < s.now <= s.clock
    && (!s.calling ==> s.batch == [])
    && s.next <= |s.batch| && Sorted(s.batch)
    && (forall e :: e in s.batch ==> e.when <= s.now)
  }

  /** The heap after the reset loop has dealt with entry `e`. */
  ghost predicate HeapChange(s: Queue, s': Queue, e: Entry)
  {
    && s'.pendingAdd == s.pendingAdd && s'.created == s.created
    && (forall a :: a != e.timer ==> (a in s'.heap <==> a in s.heap))
    && (forall a :: a != e.timer && a in s'.heap ==> s'.heap[a] == s.heap[a])
    && (e.timer in s'.heap ==> e.timer in s.heap && s'.heap[e.timer].seqNo == s.heap[e.timer].seqNo)
    && (forall x :: x in s'.timers <==> x in s.timers || (e.timer in s'.heap && x == KeyOf(s', e.timer)))
    && Sorted(s'.timers)
  }

  lemma ResetOneChange(s: Queue, e: Entry)
    requires Sorted(s.timers) && e.timer in s.heap
    ensures HeapChange(s, ResetOne(s, e), e)
  {
    InsertIsSorted(s.timers, Entry(s.now + s.heap[e.timer].interval, e.timer));
  }

  lemma HeadOf(rest: seq<Entry>)
    requires rest != [] && forall i, j :: 0 <= i < j < |rest| ==> rest[i].timer != rest[j].timer
    ensures rest[0] in rest
    ensures forall f :: f in rest <==> f == rest[0] || f in rest[1..]
    ensures forall f :: f in rest[1..] ==> f.timer != rest[0].timer
  {
    assert rest == [rest[0]] + rest[1..];
  }

  lemma ChangeKeepsPlaced(s: Queue, s': Queue, rest: seq<Entry>)
    requires rest != [] && Placed(s, rest) && HeapChange(s, s', rest[0])
    ensures Placed(s', rest[1..])
  {
    HeadOf(rest);
  }

  lemma ChangeKeepsCovering(s: Queue, s': Queue, rest: seq<Entry>)
    requires rest != [] && Placed(s, rest) && Covering(s, rest) && HeapChange(s, s', rest[0])
    ensures Covering(s', rest[1..])
  {
    HeadOf(rest);
    forall a | a in s'.heap
      ensures a in s'.pendingAdd || KeyOf(s', a) in s'.timers || KeyOf(s', a) in rest[1..]
    {
      if a != rest[0].timer {
        assert KeyOf(s', a) == KeyOf(s, a);
      } else {
        assert KeyOf(s', a) in s'.timers;
      }
    }
  }

  lemma ResetOneKeepsParts(s: Queue, rest: seq<Entry>)
    requires rest != [] && Parts(s, rest)
    ensures Parts(ResetOne(s, rest[0]), rest[1..])
  {
    var s' := ResetOne(s, rest[0]);
    assert rest[0] in rest;
    ResetOneChange(s, rest[0]);
    ChangeKeepsPlaced(s, s', rest);
    ChangeKeepsCovering(s, s', rest);
    assert Numbered(s');
  }

  /** What the reset loop leaves alone. */
  predicate SameFrame(s: Queue, s': Queue)
  {
    && s'.pendingAdd == s.pendingAdd && s'.active == s.active && s'.canceling == s.canceling
    && s'.calling == s.calling && s'.now == s.now && s'.armed == s.armed && s'.clock == s.clock
    && s'.reported == s.reported && s'.created == s.created && s'.ran == s.ran
  }

  lemma {:induction false} ResetAllKeepsParts(s: Queue, es: seq<Entry>)
    requires Parts(s, es)
    ensures Parts(ResetAll(s, es), []) && SameFrame(s, ResetAll(s, es))
    decreases |es|
  {
    if es != [] {
      ResetOneKeepsParts(s, es);
      ResetAllKeepsParts(ResetOne(s, es[0]), es[1..]);
    }
  }

  lemma ResetOneFirst(s: Queue, e: Entry)
    ensures var s' := ResetOne(s, e);
      s'.now == s.now && (s'.timers != [] && s'.timers[0].when < s.now ==> s.timers != [] && s'.timers[0] == s.timers[0])
  {
  }

  /** Re-inserted timers come after `now`, so an earlier first entry is an old first entry. */
  lemma {:induction false} ResetAllFirst(s: Queue, es: seq<Entry>)
    requires Parts(s, es)
    ensures var ts := ResetAll(s, es).timers;
      ts != [] && ts[0].when < s.now ==> s.timers != [] && ts[0] == s.timers[0]
    decreases |es|
  {
    if es != [] {
      ResetOneKeepsParts(s, es);
      ResetOneFirst(s, es[0]);
      ResetAllFirst(ResetOne(s, es[0]), es[1..]);
    }
  }

  // ---- Whole runs ----

  datatype Action =
    | New(a: Addr, when: int, interval: nat, repeat: bool)
    | Add(a: Addr)
    | CancelId(id: Id)
    | Tick(t: int)
    | Poll
    | Begin
    | Callback
    | End

  /**
   * `new` returns an unused address.  The poller reports the timerfd when it has expired;
   * handlers that come before handleRead in the same dispatch may add and cancel timers.
   */
  predicate Enabled(s: Queue, act: Action)
  {
    match act
    case New(a, _, _, _) => a !in s.heap && a < UINTPTR_MAX
    case Add(a) => a in s.pendingAdd && a in s.heap
    case CancelId(_) => true
    case Tick(t) => s.clock <= t
    case Poll => !s.calling && !s.reported && s.armed.Some? && s.armed.value.deadline <= s.clock
    case Begin => !s.calling && s.reported
    case Callback => s.calling && s.next < |s.batch| && s.batch[s.next].timer in s.heap
    case End => s.calling && s.next == |s.batch|
  }

  function Apply(s: Queue, act: Action): Queue
    requires Enabled(s, act)
  {
    match act
    case New(a, when, interval, repeat) =>
      s.(heap := s.heap[a := Timer(when, interval, repeat, s.created + 1)], created := s.created + 1,
         pendingAdd := s.pendingAdd + {a})
    case Add(a) => AddInLoop(s, a)
    case CancelId(id) => Cancel(s, id)
    case Tick(t) => s.(clock := t)
    case Poll => s.(reported := true)
    case Begin => BeginExpired(s)
    case Callback => RunOne(s)
    case End => EndExpired(s)
  }

  predicate LegalRun(s: Queue, run: seq<Action>)
    decreases |run|
  {
    run == [] || (Enabled(s, run[0]) && LegalRun(Apply(s, run[0]), run[1..]))
  }

  function After(s: Queue, run: seq<Action>): Queue
    requires LegalRun(s, run)
    decreases |run|
  {
    if run == [] then s else After(Apply(s, run[0]), run[1..])
  }

  lemma {:induction false} RunThen(s: Queue, run: seq<Action>, act: Action)
    requires LegalRun(s, run) && Enabled(After(s, run), act)
    ensures LegalRun(s, run + [act]) && After(s, run + [act]) == Apply(After(s, run), act)
    decreases |run|
  {
    if run == [] {
      assert ([] + [act])[1..] == [];
      assert LegalRun(Apply(s, act), []);
    } else {
      RunThen(Apply(s, run[0]), run[1..], act);
      assert (run + [act])[0] == run[0] && (run + [act])[1..] == run[1..] + [act];
    }
  }

  lemma AddKeepsParts(s: Queue, a: Addr)
    requires Parts(s, s.batch) && a in s.pendingAdd && a in s.heap
    ensures Parts(AddInLoop(s, a), s.batch)
  {
    var e := KeyOf(s, a);
    var s1 := s.(timers := Insert(s.timers, e), pendingAdd := s.pendingAdd - {a});
    InsertIsSorted(s.timers, e);
    assert Placed(s1, s.batch);
    forall b | b in s1.heap
      ensures b in s1.pendingAdd || KeyOf(s1, b) in s1.timers || KeyOf(s1, b) in s.batch
    {
      assert KeyOf(s1, b) == KeyOf(s, b);
    }
    assert Covering(s1, s.batch);
    PartsFrame(s1, AddInLoop(s, a), s.batch);
  }

  lemma AddKeepsInv(s: Queue, a: Addr)
    requires Inv(s) && Enabled(s, Add(a))
    ensures Inv(AddInLoop(s, a))
  {
    AddKeepsParts(s, a);
  }

  lemma NewKeepsInv(s: Queue, act: Action)
    requires Inv(s) && act.New? && Enabled(s, act)
    ensures Inv(Apply(s, act))
  {
    NewKeepsParts(s, act);
  }

  lemma NewKeepsPlaced(s: Queue, act: Action)
    requires Placed(s, s.batch) && act.New? && Enabled(s, act)
    ensures Placed(Apply(s, act), s.batch)
  {
    assert forall e :: e in s.timers ==> Keyed(s, e);
    assert forall e :: e in s.batch ==> Keyed(s, e);
  }

  lemma NewKeepsNumbered(s: Queue, act: Action)
    requires Numbered(s) && act.New? && Enabled(s, act)
    ensures Numbered(Apply(s, act))
  {
  }

  lemma NewKeepsParts(s: Queue, act: Action)
    requires Parts(s, s.batch) && act.New? && Enabled(s, act)
    ensures Parts(Apply(s, act), s.batch)
  {
    var s' := Apply(s, act);
    NewKeepsPlaced(s, act);
    NewKeepsNumbered(s, act);
    forall a | a in s'.heap
      ensures a in s'.pendingAdd || KeyOf(s', a) in s'.timers || KeyOf(s', a) in s.batch
    {
      if a != act.a { assert KeyOf(s', a) == KeyOf(s, a); }
    }
  }

  lemma BeginKeepsInv(s: Queue)
    requires Inv(s) && !s.calling
    ensures Inv(BeginExpired(s))
  {
    DueSplits(s.timers, s.clock);
    var s' := BeginExpired(s);
    assert Placed(s', s'.batch) by {
      forall i, j | 0 <= i < j < |s'.batch|
        ensures s'.batch[i].timer != s'.batch[j].timer
      {
        var e, f := s'.batch[i], s'.batch[j];
        assert Less(e, f) && e in s'.batch && f in s'.batch;
        assert Keyed(s, e) && Keyed(s, f);
      }
    }
    assert Covering(s', s'.batch) by {
      forall a | a in s'.heap
        ensures a in s'.pendingAdd || KeyOf(s', a) in s'.timers || KeyOf(s', a) in s'.batch
      {
        assert KeyOf(s', a) == KeyOf(s, a);
      }
    }
    assert s'.timers != [] ==> s'.timers[0] in s'.timers;
  }

  lemma EndKeepsInv(s: Queue)
    requires Inv(s) && s.calling
    ensures Inv(EndExpired(s))
  {
    var s0 := s.(calling := false);
    PartsFrame(s, s0, s.batch);
    ResetAllKeepsParts(s0, s.batch);
    ResetAllFirst(s0, s.batch);
    var r := ResetAll(s0, s.batch);
    PartsFrame(r, EndExpired(s), []);
    RearmKeepsArmed(s, r);
  }

  /** After the reset the first entry is armed anew, or it was due before the batch and is armed still. */
  lemma RearmKeepsArmed(s: Queue, r: Queue)
    requires Armed(s) && 0 < s.now <= s.clock && SameFrame(s.(calling := false), r)
    requires r.timers != [] && r.timers[0].when < s.now ==> s.timers != [] && r.timers[0] == s.timers[0]
    ensures Armed(Rearm(r.(batch := [], next := 0)))
  {
  }

  lemma StepKeepsInv(s: Queue, act: Action)
    requires Inv(s) && Enabled(s, act)
    ensures Inv(Apply(s, act))
  {
    match act {
      case New(_, _, _, _) => NewKeepsInv(s, act);
      case Add(a) => AddKeepsInv(s, a);
      case Begin => BeginKeepsInv(s);
      case End => EndKeepsInv(s);
      case _ =>
    }
  }

  lemma {:induction false} RunKeepsInv(s: Queue, run: seq<Action>)
    requires Inv(s) && LegalRun(s, run)
    ensures Inv(After(s, run))
    decreases |run|
  {
    if run != [] {
      StepKeepsInv(s, run[0]);
      RunKeepsInv(Apply(s, run[0]), run[1..]);
    }
  }

  /** Once the armed time has come, the timerfd is reported and the batch has the earliest timer. */
  lemma DueTimerIsTaken(s: Queue)
    requires Inv(s) && !s.calling && s.timers != []
    requires Max(s.timers[0].when, s.armed.value.at + 100) <= s.clock
    ensures (s.reported || Enabled(s, Poll)) && s.timers[0] in BeginExpired(s).batch
  {
    assert FirstNotDue(s.timers, s.clock, 0) >= 1;
    assert s.timers[0] == BeginExpired(s).batch[0];
  }

  /**
   * No timer is forgotten: between two dispatches the timerfd is armed exactly for the earliest
   * expiration, or for 100 microseconds after it was set if that is later, timers added by callbacks
   * included; and once that time has come, the poller reports it and the batch has the timer.
   */
  lemma NoTimerForgotten(s0: Queue, run: seq<Action>)
    requires Init(s0) && LegalRun(s0, run)
    ensures var s := After(s0, run);
      !s.calling && s.timers != [] ==>
        && ArmedInTime(s)
        && (Max(s.timers[0].when, s.armed.value.at + 100) <= s.clock ==>
              (s.reported || Enabled(s, Poll)) && s.timers[0] in BeginExpired(s).batch)
  {
    RunKeepsInv(s0, run);
    var s := After(s0, run);
    if !s.calling && s.timers != [] && Max(s.timers[0].when, s.armed.value.at + 100) <= s.clock {
      DueTimerIsTaken(s);
    }
  }

  predicate InTimers(s: Queue, a: Addr)
  {
    exists e :: e in s.timers && e.timer == a
  }

  predicate InBatch(s: Queue, a: Addr)
  {
    exists e :: e in s.batch && e.timer == a
  }

  /** Every allocated timer is in exactly one place, and every key is its timer's expiration. */
  lemma OnePlacePerTimer(s0: Queue, run: seq<Action>, a: Addr)
    requires Init(s0) && LegalRun(s0, run)
    ensures var s := After(s0, run);
      && (a in s.heap <==> a in s.pendingAdd || InTimers(s, a) || InBatch(s, a))
      && !(a in s.pendingAdd && InTimers(s, a)) && !(a in s.pendingAdd && InBatch(s, a))
      && !(InTimers(s, a) && InBatch(s, a))
      && (forall e :: e in s.timers ==> Keyed(s, e)) && Sorted(s.timers)
  {
    RunKeepsInv(s0, run);
    var s := After(s0, run);
    if a in s.heap {
      var e := Entry(s.heap[a].expiration, a);
      assert a in s.pendingAdd || (e in s.timers && e.timer == a) || (e in s.batch && e.timer == a);
    }
    assert forall e :: e in s.timers ==> Keyed(s, e);
    assert forall e :: e in s.batch ==> Keyed(s, e);
  }
}
