/**
 * When timers run: a new timer not before its expiration, a repeating one again its own
 * interval after the batch it ran in.
 */
module TimerIntervals {
  import opened Common
  import opened TimerQueue
  import opened TimerCancellation

  // ---- The reset of a batch ----

  /** One turn of the reset loop keeps every other timer and restarts a surviving one. */
  lemma ResetOneRestarts(s: Queue, e: Entry, a: Addr)
    requires a in s.heap && a in ResetOne(s, e).heap
    ensures ResetOne(s, e).heap[a] == if a == e.timer then Restarted(s.heap[a], s.now) else s.heap[a]
    ensures ResetOne(s, e).now == s.now
  {
  }

  /** The timer due again its interval after `now`; nothing else of it changes. */
  function Restarted(t: Timer, now: int): Timer
  {
    Timer(now + t.interval, t.interval, t.repeat, t.seqNo)
  }

  lemma {:induction false} ResetAllRestarts(s: Queue, es: seq<Entry>, a: Addr)
    requires Parts(s, es) && a in s.heap && a in ResetAll(s, es).heap
    ensures ResetAll(s, es).heap[a] ==
      if exists e :: e in es && e.timer == a then Restarted(s.heap[a], s.now) else s.heap[a]
    decreases |es|
  {
    if es != [] {
      var s1 := ResetOne(s, es[0]);
      HeadOf(es);
      ResetOneKeepsParts(s, es);
      ResetAllHeap(s1, es[1..], a);
      ResetOneRestarts(s, es[0], a);
      ResetAllRestarts(s1, es[1..], a);
    }
  }

  /** Everything the reset loop needs of an invariant state. */
  lemma EndIsReset(s: Queue)
    requires Inv(s)
    ensures var s0 := s.(calling := false); var r := ResetAll(s0, s.batch);
      Parts(s0, s.batch) && EndExpired(s).heap == r.heap && EndExpired(s).timers == r.timers
  {
    PartsFrame(s, s.(calling := false), s.batch);
  }

  lemma ResetCovers(s: Queue, es: seq<Entry>)
    requires Parts(s, es)
    ensures Covering(ResetAll(s, es), []) && ResetAll(s, es).pendingAdd == s.pendingAdd
  {
    ResetAllKeepsParts(s, es);
  }

  /**
   * When a batch has been reset, each surviving timer of it is due exactly its own interval after
   * the time the batch was taken, with interval, repeat and number unchanged, and it is in the
   * set under that time; every other timer is as it was.
   */
  lemma RestartedExactly(s: Queue, a: Addr)
    requires Inv(s) && s.calling && a in s.heap && a in EndExpired(s).heap
    ensures EndExpired(s).heap[a] == if InBatch(s, a) then Restarted(s.heap[a], s.now) else s.heap[a]
    ensures InBatch(s, a) ==> Entry(s.now + s.heap[a].interval, a) in EndExpired(s).timers
  {
    var s0 := s.(calling := false);
    EndIsReset(s);
    ResetAllRestarts(s0, s.batch, a);
    if InBatch(s, a) {
      BatchIsAdded(s, a);
      ResetCovers(s0, s.batch);
      KeyIsInSet(ResetAll(s0, s.batch), a);
    }
  }

  lemma KeyIsInSet(r: Queue, a: Addr)
    requires Covering(r, []) && a in r.heap && a !in r.pendingAdd
    ensures Entry(r.heap[a].expiration, a) in r.timers
  {
    assert KeyOf(r, a) == Entry(r.heap[a].expiration, a);
  }

  lemma BatchIsAdded(s: Queue, a: Addr)
    requires Inv(s) && InBatch(s, a)
    ensures a !in s.pendingAdd
  {
    var e :| e in s.batch && e.timer == a;
    assert Keyed(s, e) && e.timer !in s.pendingAdd;
  }

  // ---- Calls over a run ----

  /** A callback: the number of the timer, and the time its batch was taken. */
  datatype Call = Call(seqNo: nat, time: int)

  /** The callbacks an action makes. */
  function Made(s: Queue, act: Action): seq<Call>
    requires Enabled(s, act)
  {
    if act == Callback then [Call(s.heap[s.batch[s.next].timer].seqNo, s.now)] else []
  }

  function Calls(s: Queue, run: seq<Action>): seq<Call>
    requires LegalRun(s, run)
    decreases |run|
  {
    if run == [] then [] else Made(s, run[0]) + Calls(Apply(s, run[0]), run[1..])
  }

  predicate SpacedOne(s: Queue, call: Call, a: Addr)
    requires a in s.heap
  {
    call.seqNo == s.heap[a].seqNo ==>
      call.time + s.heap[a].interval <= s.heap[a].expiration || (HadItsTurn(s, a) && call.time <= s.now)
  }

  /** Every earlier call of a timer lies its interval before its expiration, unless it is one of this batch. */
  predicate Spaced(s: Queue, calls: seq<Call>)
  {
    && (forall k :: 0 <= k < |calls| ==> calls[k].seqNo <= s.created)
    && (forall k, a :: 0 <= k < |calls| && a in s.heap ==> SpacedOne(s, calls[k], a))
  }

  lemma NewSpaced(s: Queue, act: Action, calls: seq<Call>)
    requires Inv(s) && Spaced(s, calls) && act.New? && Enabled(s, act)
    ensures Spaced(Apply(s, act), calls)
  {
    var s' := Apply(s, act);
    forall k, a | 0 <= k < |calls| && a in s'.heap
      ensures SpacedOne(s', calls[k], a)
    {
      if a != act.a {
        assert SpacedOne(s, calls[k], a);
      }
    }
  }

  lemma TurnedAfter(s: Queue, a: Addr)
    requires Enabled(s, Callback)
    ensures HadItsTurn(s, a) || a == s.batch[s.next].timer ==> HadItsTurn(RunOne(s), a)
  {
    if a == s.batch[s.next].timer {
      assert RunOne(s).batch[s.next].timer == a;
    } else if HadItsTurn(s, a) {
      var i :| 0 <= i < s.next && i < |s.batch| && s.batch[i].timer == a;
      assert RunOne(s).batch[i].timer == a;
    }
  }

  lemma CallbackSpaced(s: Queue, calls: seq<Call>)
    requires Inv(s) && Spaced(s, calls) && Enabled(s, Callback)
    ensures Spaced(RunOne(s), calls + Made(s, Callback))
  {
    var s' := RunOne(s);
    var calls' := calls + Made(s, Callback);
    var b := s.batch[s.next].timer;
    forall k, a | 0 <= k < |calls'| && a in s'.heap
      ensures SpacedOne(s', calls'[k], a)
    {
      TurnedAfter(s, a);
      if k < |calls| {
        assert SpacedOne(s, calls[k], a);
      } else if s.heap[a].seqNo == s.heap[b].seqNo {
        assert a == b;
      }
    }
  }

  lemma BatchIsDue(s: Queue, a: Addr)
    requires Inv(s) && InBatch(s, a)
    ensures a in s.heap && s.heap[a].expiration <= s.now
  {
    var e :| e in s.batch && e.timer == a;
    assert Keyed(s, e);
  }

  lemma TurnedIsInBatch(s: Queue, a: Addr)
    requires HadItsTurn(s, a)
    ensures InBatch(s, a)
  {
    var i :| 0 <= i < s.next && i < |s.batch| && s.batch[i].timer == a;
    assert s.batch[i] in s.batch;
  }

  lemma EndSpaced(s: Queue, calls: seq<Call>)
    requires Inv(s) && Spaced(s, calls) && s.calling
    ensures Spaced(EndExpired(s), calls)
  {
    var s0 := s.(calling := false);
    PartsFrame(s, s0, s.batch);
    ResetAllKeepsParts(s0, s.batch);
    var s' := EndExpired(s);
    forall k, a | 0 <= k < |calls| && a in s'.heap
      ensures SpacedOne(s', calls[k], a)
    {
      ResetAllHeap(s0, s.batch, a);
      RestartedExactly(s, a);
      assert SpacedOne(s, calls[k], a);
      if InBatch(s, a) {
        BatchIsDue(s, a);
      } else if HadItsTurn(s, a) {
        TurnedIsInBatch(s, a);
      }
    }
  }

  lemma OtherSpaced(s: Queue, act: Action, calls: seq<Call>)
    requires Inv(s) && Spaced(s, calls) && Enabled(s, act) && !act.New? && act != Callback && act != End
    ensures Spaced(Apply(s, act), calls)
  {
    var s' := Apply(s, act);
    forall k, a | 0 <= k < |calls| && a in s'.heap
      ensures SpacedOne(s', calls[k], a)
    {
      assert SpacedOne(s, calls[k], a);
      if act == Begin && HadItsTurn(s, a) {
        TurnedIsInBatch(s, a);
      } else if HadItsTurn(s, a) {
        var i :| 0 <= i < s.next && i < |s.batch| && s.batch[i].timer == a;
        assert s'.batch[i].timer == a;
      }
    }
  }

  lemma StepSpaced(s: Queue, act: Action, calls: seq<Call>)
    requires Inv(s) && Spaced(s, calls) && Enabled(s, act)
    ensures Spaced(Apply(s, act), calls + Made(s, act))
  {
    assert act != Callback ==> calls + Made(s, act) == calls;
    if act.New? {
      NewSpaced(s, act, calls);
    } else if act == Callback {
      CallbackSpaced(s, calls);
    } else if act == End {
      EndSpaced(s, calls);
    } else {
      OtherSpaced(s, act, calls);
    }
  }

  lemma {:induction false} RunSpaced(s: Queue, calls: seq<Call>, run: seq<Action>)
    requires Inv(s) && Spaced(s, calls) && LegalRun(s, run)
    ensures Inv(After(s, run)) && Spaced(After(s, run), calls + Calls(s, run))
    decreases |run|
  {
    if run == [] {
      assert calls + [] == calls;
    } else {
      StepKeepsInv(s, run[0]);
      StepSpaced(s, run[0], calls);
      RunSpaced(Apply(s, run[0]), calls + Made(s, run[0]), run[1..]);
      JoinCalls(calls, Made(s, run[0]), Calls(Apply(s, run[0]), run[1..]));
    }
  }

  lemma JoinCalls(a: seq<Call>, b: seq<Call>, c: seq<Call>)
    ensures a + (b + c) == a + b + c
  {
  }

  /**
   * Intervals are kept: in every run, whenever a timer is called back, its expiration has come,
   * and each earlier callback of the same timer belongs to a batch taken at least its interval
   * before.
   */
  lemma IntervalsKept(s0: Queue, run: seq<Action>)
    requires Init(s0) && LegalRun(s0, run) && Enabled(After(s0, run), Callback)
    ensures var s := After(s0, run); var t := s.heap[s.batch[s.next].timer]; var calls := Calls(s0, run);
      && t.expiration <= s.now <= s.clock
      && forall k :: 0 <= k < |calls| && calls[k].seqNo == t.seqNo ==> calls[k].time + t.interval <= s.now
  {
    RunSpaced(s0, [], run);
    var s, calls := After(s0, run), Calls(s0, run);
    assert [] + calls == calls;
    var e := s.batch[s.next];
    assert e in s.batch && Keyed(s, e);
    NotYetTurned(s);
    forall k | 0 <= k < |calls| && calls[k].seqNo == s.heap[e.timer].seqNo
      ensures calls[k].time + s.heap[e.timer].interval <= s.now
    {
      assert SpacedOne(s, calls[k], e.timer);
    }
  }

  lemma NotYetTurned(s: Queue)
    requires Inv(s) && s.next < |s.batch|
    ensures !HadItsTurn(s, s.batch[s.next].timer)
  {
  }

  /** The calls of a run are those its history records. */
  function Numbers(calls: seq<Call>): (ns: seq<nat>)
    ensures |ns| == |calls| && forall k :: 0 <= k < |calls| ==> ns[k] == calls[k].seqNo
  {
    seq(|calls|, k requires 0 <= k < |calls| => calls[k].seqNo)
  }

  lemma StepRecords(s: Queue, act: Action)
    requires Inv(s) && Enabled(s, act)
    ensures Apply(s, act).ran == s.ran + Numbers(Made(s, act))
  {
    if act == End {
      PartsFrame(s, s.(calling := false), s.batch);
      ResetAllKeepsParts(s.(calling := false), s.batch);
    }
  }

  lemma {:induction false} CallsAreRecorded(s: Queue, run: seq<Action>)
    requires Inv(s) && LegalRun(s, run)
    ensures After(s, run).ran == s.ran + Numbers(Calls(s, run))
    decreases |run|
  {
    if run != [] {
      StepKeepsInv(s, run[0]);
      StepRecords(s, run[0]);
      CallsAreRecorded(Apply(s, run[0]), run[1..]);
      JoinNumbers(s.ran, Made(s, run[0]), Calls(Apply(s, run[0]), run[1..]));
    } else {
      assert s.ran + Numbers([]) == s.ran;
    }
  }

  lemma JoinNumbers(ran: seq<nat>, a: seq<Call>, b: seq<Call>)
    ensures ran + Numbers(a) + Numbers(b) == ran + Numbers(a + b)
  {
    assert Numbers(a + b) == Numbers(a) + Numbers(b);
  }

  // ---- The first call ----

  /** Until its first call a timer is as it was created. */
  predicate Waiting(s: Queue, a: Addr, t: Timer)
  {
    a in s.heap && s.heap[a] == t && !HadItsTurn(s, a)
  }

  lemma StepKeepsWaiting(s: Queue, act: Action, a: Addr, t: Timer)
    requires Inv(s) && Waiting(s, a, t) && Enabled(s, act)
    requires forall k :: 0 <= k < |Made(s, act)| ==> Made(s, act)[k].seqNo != t.seqNo
    ensures Waiting(Apply(s, act), a, t)
  {
    var s' := Apply(s, act);
    if act == Callback {
      assert Made(s, act)[0].seqNo != t.seqNo;
      NotTurnedBy(s, a);
    } else if act == End {
      EndKeepsWaiting(s, a, t);
    }
  }

  lemma NotTurnedBy(s: Queue, a: Addr)
    requires Enabled(s, Callback) && !HadItsTurn(s, a) && a != s.batch[s.next].timer
    ensures !HadItsTurn(RunOne(s), a)
  {
    forall i | 0 <= i < s.next + 1 && i < |s.batch|
      ensures s.batch[i].timer != a
    {
    }
  }

  lemma EndKeepsWaiting(s: Queue, a: Addr, t: Timer)
    requires Inv(s) && Waiting(s, a, t) && Enabled(s, End)
    ensures Waiting(EndExpired(s), a, t)
  {
    if InBatch(s, a) {
      var i :| 0 <= i < |s.batch| && s.batch[i].timer == a;
      assert HadItsTurn(s, a);
    } else {
      var s0 := s.(calling := false);
      ResetAllHeap(s0, s.batch, a);
    }
  }

  lemma {:induction false} RunKeepsWaiting(s: Queue, run: seq<Action>, a: Addr, t: Timer)
    requires Inv(s) && Waiting(s, a, t) && LegalRun(s, run)
    requires forall k :: 0 <= k < |Calls(s, run)| ==> Calls(s, run)[k].seqNo != t.seqNo
    ensures Inv(After(s, run)) && Waiting(After(s, run), a, t)
    decreases |run|
  {
    if run != [] {
      var first, later := Made(s, run[0]), Calls(Apply(s, run[0]), run[1..]);
      assert Calls(s, run) == first + later;
      assert forall k :: 0 <= k < |first| ==> first[k] == Calls(s, run)[k];
      assert forall k :: 0 <= k < |later| ==> later[k] == Calls(s, run)[|first| + k];
      StepKeepsInv(s, run[0]);
      StepKeepsWaiting(s, run[0], a, t);
      RunKeepsWaiting(Apply(s, run[0]), run[1..], a, t);
    }
  }

  /**
   * A new timer keeps the expiration it was created for until its first callback, and that
   * callback belongs to a batch taken no earlier.
   */
  lemma FirstCallIsNotEarly(s: Queue, a: Addr, when: int, interval: nat, repeat: bool, run: seq<Action>)
    requires Inv(s) && Enabled(s, New(a, when, interval, repeat))
    requires LegalRun(Apply(s, New(a, when, interval, repeat)), run)
    requires var calls := Calls(Apply(s, New(a, when, interval, repeat)), run);
      forall k :: 0 <= k < |calls| ==> calls[k].seqNo != s.created + 1
    ensures var e := After(Apply(s, New(a, when, interval, repeat)), run);
      && a in e.heap && e.heap[a] == Timer(when, interval, repeat, s.created + 1)
      && (Enabled(e, Callback) && e.batch[e.next].timer == a ==> when <= e.now)
  {
    var act := New(a, when, interval, repeat);
    StepKeepsInv(s, act);
    NewWaits(s, a, when, interval, repeat);
    RunKeepsWaiting(Apply(s, act), run, a, Timer(when, interval, repeat, s.created + 1));
    WaitingIsNotEarly(After(Apply(s, act), run), a, Timer(when, interval, repeat, s.created + 1));
  }

  lemma NewWaits(s: Queue, a: Addr, when: int, interval: nat, repeat: bool)
    requires Inv(s) && Enabled(s, New(a, when, interval, repeat))
    ensures Waiting(Apply(s, New(a, when, interval, repeat)), a, Timer(when, interval, repeat, s.created + 1))
  {
    NewIsNotTurned(s, a);
  }

  lemma WaitingIsNotEarly(s: Queue, a: Addr, t: Timer)
    requires Inv(s) && Waiting(s, a, t)
    ensures Enabled(s, Callback) && s.batch[s.next].timer == a ==> t.expiration <= s.now
  {
    if Enabled(s, Callback) && s.batch[s.next].timer == a {
      assert s.batch[s.next] in s.batch;
      BatchIsDue(s, a);
    }
  }

  lemma NewIsNotTurned(s: Queue, a: Addr)
    requires Inv(s) && a !in s.heap
    ensures !HadItsTurn(s, a)
  {
    if HadItsTurn(s, a) {
      TurnedIsInBatch(s, a);
      BatchIsDue(s, a);
    }
  }
}
