/**
 * Cancelling timers.  TimerQueue::insert never fills the active set, so a cancel finds nothing
 * to erase: during callbacks it leaves a mark, which only the reset of the current batch looks
 * at, and at any other time it does nothing.
 */
module TimerCancellation {
  import opened Common
  import opened TimerQueue

  /** No timer with this sequence number exists or will ever exist again. */
  predicate Gone(s: Queue, q: nat)
  {
    q <= s.created && forall a :: a in s.heap ==> s.heap[a].seqNo != q
  }

  /** `q` does not occur from position `n` on. */
  predicate NotFrom(xs: seq<nat>, n: nat, q: nat)
  {
    forall i :: n <= i < |xs| ==> xs[i] != q
  }

  lemma ResetOneHeap(s: Queue, e: Entry, a: Addr)
    ensures var s' := ResetOne(s, e);
      && (a in s'.heap ==> a in s.heap && s'.heap[a].seqNo == s.heap[a].seqNo && s'.heap[a].repeat == s.heap[a].repeat)
      && (a != e.timer && a in s.heap ==> a in s'.heap && s'.heap[a] == s.heap[a])
      && s'.canceling == s.canceling
  {
  }

  lemma {:induction false} ResetAllHeap(s: Queue, es: seq<Entry>, a: Addr)
    ensures var s' := ResetAll(s, es);
      && (a in s'.heap ==> a in s.heap && s'.heap[a].seqNo == s.heap[a].seqNo && s'.heap[a].repeat == s.heap[a].repeat)
      && ((forall e :: e in es ==> e.timer != a) && a in s.heap ==> a in s'.heap && s'.heap[a] == s.heap[a])
      && s'.canceling == s.canceling
    decreases |es|
  {
    if es != [] {
      ResetOneHeap(s, es[0], a);
      ResetAllHeap(ResetOne(s, es[0]), es[1..], a);
    }
  }

  /** A timer of the batch survives the reset exactly when it repeats and was not cancelled meanwhile. */
  lemma {:induction false} ResetAllSurvivors(s: Queue, es: seq<Entry>, e: Entry)
    requires Parts(s, es) && e in es
    ensures e.timer in s.heap
    ensures e.timer in ResetAll(s, es).heap
       <==> s.heap[e.timer].repeat && Id(e.timer, s.heap[e.timer].seqNo) !in s.canceling
    decreases |es|
  {
    assert Keyed(s, e);
    var s1 := ResetOne(s, es[0]);
    ResetOneKeepsParts(s, es);
    if e == es[0] {
      assert forall f :: f in es[1..] ==> f.timer != e.timer;
      ResetAllHeap(s1, es[1..], e.timer);
    } else {
      assert e in es[1..];
      assert es[0].timer != e.timer;
      ResetOneHeap(s, es[0], e.timer);
      ResetAllSurvivors(s1, es[1..], e);
    }
  }

  lemma RunFrom(s: Queue, act: Action, run: seq<Action>)
    requires Enabled(s, act) && LegalRun(Apply(s, act), run)
    ensures LegalRun(s, [act] + run) && After(s, [act] + run) == After(Apply(s, act), run)
  {
    assert ([act] + run)[1..] == run;
  }

  /** From the dispatch of the one timer that is in the set to its callback. */
  lemma OnlyTimerRuns(s: Queue, e: Entry)
    requires !s.calling && s.reported && s.timers == [e] && e.when <= s.clock && e.timer in s.heap
    ensures LegalRun(s, [Begin, Callback])
    ensures After(s, [Begin, Callback]).ran == s.ran + [s.heap[e.timer].seqNo]
  {
    var s1 := Apply(s, Begin);
    assert s1.batch == [e];
    RunFrom(s1, Callback, []);
    assert [Callback] + [] == [Callback];
    RunFrom(s, Begin, [Callback]);
    assert [Begin] + [Callback] == [Begin, Callback];
  }

  /** A pending timer that has been cancelled runs all the same. */
  lemma CancelledPendingTimerRuns(s0: Queue)
    requires Init(s0) && s0.clock == 1 && s0.created == 0
    ensures var run := [New(4, 5, 0, false), Add(4), CancelId(Id(4, 1)), Tick(1000), Poll, Begin, Callback];
      LegalRun(s0, run) && After(s0, run).ran == [1]
  {
    var s1 := Apply(s0, New(4, 5, 0, false));
    var s2 := Apply(s1, Add(4));
    assert s2.timers == [Entry(5, 4)] && s2.armed == Some(Arm(101, 1));
    var s3 := Apply(s2, CancelId(Id(4, 1)));
    var s4 := Apply(s3, Tick(1000));
    var s5 := Apply(s4, Poll);
    OnlyTimerRuns(s5, Entry(5, 4));
    var r := [Begin, Callback];
    RunFrom(s4, Poll, r);
    RunFrom(s3, Tick(1000), [Poll] + r);
    RunFrom(s2, CancelId(Id(4, 1)), [Tick(1000)] + ([Poll] + r));
    RunFrom(s1, Add(4), [CancelId(Id(4, 1))] + ([Tick(1000)] + ([Poll] + r)));
    RunFrom(s0, New(4, 5, 0, false), [Add(4)] + ([CancelId(Id(4, 1))] + ([Tick(1000)] + ([Poll] + r))));
    assert [New(4, 5, 0, false)] + ([Add(4)] + ([CancelId(Id(4, 1))] + ([Tick(1000)] + ([Poll] + r))))
        == [New(4, 5, 0, false), Add(4), CancelId(Id(4, 1)), Tick(1000), Poll, Begin, Callback];
  }

  /** The reset keeps numbers apart: whoever has the number of a timer afterwards is that timer. */
  lemma ResetKeepsNumbers(s: Queue, es: seq<Entry>, b: Addr)
    requires Parts(s, es) && b in s.heap
    ensures forall a :: a in ResetAll(s, es).heap && ResetAll(s, es).heap[a].seqNo == s.heap[b].seqNo ==> a == b
    ensures b in ResetAll(s, es).heap ==> ResetAll(s, es).heap[b].seqNo == s.heap[b].seqNo
    ensures ResetAll(s, es).created == s.created && s.heap[b].seqNo <= s.created
  {
    ResetAllKeepsParts(s, es);
    ResetAllHeap(s, es, b);
    forall a | a in ResetAll(s, es).heap && ResetAll(s, es).heap[a].seqNo == s.heap[b].seqNo
      ensures a == b
    {
      ResetAllHeap(s, es, a);
    }
  }

  /** For a timer of the current batch: it is deleted at the end exactly when it is one-shot or marked. */
  lemma BatchSurvivors(s: Queue, e: Entry)
    requires Inv(s) && s.calling && e in s.batch
    ensures e.timer in s.heap
    ensures Gone(EndExpired(s), s.heap[e.timer].seqNo)
       <==> !s.heap[e.timer].repeat || Id(e.timer, s.heap[e.timer].seqNo) in s.canceling
  {
    var s0 := s.(calling := false);
    PartsFrame(s, s0, s.batch);
    ResetAllSurvivors(s0, s.batch, e);
    ResetKeepsNumbers(s0, s.batch, e.timer);
  }

  lemma StepKeepsGone(s: Queue, act: Action, q: nat)
    requires Inv(s) && Enabled(s, act) && Gone(s, q)
    ensures Gone(Apply(s, act), q)
    ensures s.ran <= Apply(s, act).ran && NotFrom(Apply(s, act).ran, |s.ran|, q)
  {
    var s' := Apply(s, act);
    if act == End {
      var s0 := s.(calling := false);
      ResetAllKeepsParts(s0, s.batch);
      forall a | a in s'.heap
        ensures s'.heap[a].seqNo != q
      {
        ResetAllHeap(s0, s.batch, a);
      }
    }
  }

  lemma {:induction false} GoneForever(s: Queue, run: seq<Action>, q: nat)
    requires Inv(s) && LegalRun(s, run) && Gone(s, q)
    ensures var s' := After(s, run);
      Gone(s', q) && s.ran <= s'.ran && NotFrom(s'.ran, |s.ran|, q)
    decreases |run|
  {
    if run != [] {
      StepKeepsInv(s, run[0]);
      StepKeepsGone(s, run[0], q);
      GoneForever(Apply(s, run[0]), run[1..], q);
    }
  }

  /** A timer of the batch that is one-shot or marked; this lasts until the batch ends. */
  predicate Doomed(s: Queue, e: Entry, q: nat)
  {
    && s.calling && e in s.batch
    && e.timer in s.heap && s.heap[e.timer].seqNo == q
    && (!s.heap[e.timer].repeat || Id(e.timer, q) in s.canceling)
  }

  lemma StepKeepsDoomed(s: Queue, act: Action, e: Entry, q: nat)
    requires Inv(s) && Enabled(s, act) && Doomed(s, e, q)
    ensures if act == End then Gone(Apply(s, act), q) else Doomed(Apply(s, act), e, q)
  {
    if act == End {
      BatchSurvivors(s, e);
    }
  }

  /** The first batch end of the run is its k-th action: from there on the number is gone and never runs. */
  predicate GoneAfter(s: Queue, run: seq<Action>, q: nat, k: int)
    requires LegalRun(s, run)
  {
    && 0 < k <= |run| && LegalRun(s, run[..k]) && After(s, run[..k]).ran <= After(s, run).ran
    && Gone(After(s, run[..k]), q) && NotFrom(After(s, run).ran, |After(s, run[..k]).ran|, q)
    && End !in run[..k - 1]
  }

  /**
   * A timer of the batch that is cancelled during the callbacks is never run in a later batch,
   * whoever gets its address afterwards: before the batch ends it is still doomed, and after
   * it the sequence number is gone for good and no callback carries it.
   */
  lemma {:induction false} CancelledNeverRunsAgain(s: Queue, e: Entry, run: seq<Action>)
    requires Inv(s) && s.calling && e in s.batch && e.timer in s.heap
    requires LegalRun(Cancel(s, Id(e.timer, s.heap[e.timer].seqNo)), run)
    ensures var q := s.heap[e.timer].seqNo; var c := Cancel(s, Id(e.timer, q));
      if End !in run then Doomed(After(c, run), e, q)
      else exists k :: GoneAfter(c, run, q, k)
  {
    var q := s.heap[e.timer].seqNo;
    var c := Cancel(s, Id(e.timer, q));
    StepKeepsInv(s, CancelId(Id(e.timer, q)));
    DoomedRun(c, e, q, run);
  }

  lemma GoneAtOnce(s: Queue, run: seq<Action>, q: nat)
    requires LegalRun(s, run) && run != [] && Inv(Apply(s, run[0])) && Gone(Apply(s, run[0]), q)
    ensures GoneAfter(s, run, q, 1)
  {
    var s1 := Apply(s, run[0]);
    GoneForever(s1, run[1..], q);
    RunThen(s, [], run[0]);
    assert run[..1] == [] + [run[0]];
    assert run[..0] == [];
  }

  lemma GoneAfterOneMore(s: Queue, run: seq<Action>, q: nat, k: int)
    requires LegalRun(s, run) && run != [] && run[0] != End && GoneAfter(Apply(s, run[0]), run[1..], q, k)
    ensures GoneAfter(s, run, q, k + 1)
  {
    var front := run[..k + 1];
    assert front[0] == run[0] && front[1..] == run[1..][..k];
    assert After(s, front) == After(Apply(s, run[0]), run[1..][..k]);
    assert run[..k] == [run[0]] + run[1..][..k - 1];
  }

  lemma {:induction false} DoomedRun(s: Queue, e: Entry, q: nat, run: seq<Action>)
    requires Inv(s) && Doomed(s, e, q) && LegalRun(s, run)
    ensures if End !in run then Doomed(After(s, run), e, q)
            else exists k :: GoneAfter(s, run, q, k)
    decreases |run|
  {
    if run != [] {
      var s1 := Apply(s, run[0]);
      StepKeepsInv(s, run[0]);
      StepKeepsDoomed(s, run[0], e, q);
      if run[0] == End {
        GoneAtOnce(s, run, q);
      } else {
        DoomedRun(s1, e, q, run[1..]);
        if End in run {
          assert run == [run[0]] + run[1..];
          assert End in run[1..];
          var k :| GoneAfter(s1, run[1..], q, k);
          GoneAfterOneMore(s, run, q, k);
        }
      }
    }
  }

  // ---- When a cancel has an effect ----

  /** Everything but the marks. */
  predicate SameButMarks(s: Queue, c: Queue)
  {
    c == s.(canceling := c.canceling)
  }

  /** No later run can tell the cancel: the same runs are possible and they agree on everything but marks. */
  ghost predicate NoEffect(s: Queue, id: Id)
  {
    var c := Cancel(s, id);
    forall run ::
      && (LegalRun(s, run) <==> LegalRun(c, run))
      && (LegalRun(s, run) ==> SameButMarks(After(s, run), After(c, run)))
  }

  /** A mark for `id` would not decide the fate of any of these timers. */
  predicate Harmless(s: Queue, es: seq<Entry>, id: Id)
  {
    id !in s.canceling ==>
      forall e :: e in es && e.timer in s.heap && Id(e.timer, s.heap[e.timer].seqNo) == id ==> !s.heap[e.timer].repeat
  }

  function Mark(s: Queue, id: Id): Queue
  {
    s.(canceling := s.canceling + {id})
  }

  /** `c` is `s`, or `s` with a mark that decides nothing. */
  predicate Agree(s: Queue, c: Queue, id: Id)
  {
    c == s || (c == Mark(s, id) && (s.calling ==> Harmless(s, s.batch, id)))
  }

  lemma ResetOneAgrees(s: Queue, es: seq<Entry>, id: Id)
    requires es != [] && Harmless(s, es, id)
    ensures ResetOne(Mark(s, id), es[0]) == Mark(ResetOne(s, es[0]), id)
    ensures Harmless(ResetOne(s, es[0]), es[1..], id)
  {
    assert es[0] in es;
    assert forall e :: e in es[1..] ==> e in es;
  }

  lemma {:induction false} ResetAllAgrees(s: Queue, es: seq<Entry>, id: Id)
    requires Harmless(s, es, id)
    ensures ResetAll(Mark(s, id), es) == Mark(ResetAll(s, es), id)
    decreases |es|
  {
    if es != [] {
      ResetOneAgrees(s, es, id);
      ResetAllAgrees(ResetOne(s, es[0]), es[1..], id);
    }
  }

  lemma EndAgrees(s: Queue, id: Id)
    requires Harmless(s, s.batch, id)
    ensures EndExpired(Mark(s, id)) == Mark(EndExpired(s), id)
  {
    var s0 := s.(calling := false);
    assert Mark(s, id).(calling := false) == Mark(s0, id);
    ResetAllAgrees(s0, s.batch, id);
  }

  lemma MarkTwice(s: Queue, id: Id, other: Id)
    ensures Mark(Mark(s, id), other) == Mark(Mark(s, other), id)
  {
    assert s.canceling + {id} + {other} == s.canceling + {other} + {id};
  }

  lemma NewAgrees(s: Queue, id: Id, act: Action)
    requires Inv(s) && act.New? && Enabled(s, act) && (s.calling ==> Harmless(s, s.batch, id))
    ensures Apply(Mark(s, id), act) == Mark(Apply(s, act), id)
    ensures s.calling ==> Harmless(Apply(s, act), s.batch, id)
  {
    BatchIsAllocated(s);
  }

  lemma StepAgrees(s: Queue, c: Queue, id: Id, act: Action)
    requires Inv(s) && Agree(s, c, id)
    ensures Enabled(s, act) <==> Enabled(c, act)
    ensures Enabled(s, act) ==> Agree(Apply(s, act), Apply(c, act), id)
  {
    if Enabled(s, act) && c != s {
      match act {
        case New(_, _, _, _) => NewAgrees(s, id, act);
        case CancelId(other) => MarkTwice(s, id, other);
        case Begin => assert Apply(c, Begin) == Apply(s, Begin);
        case End => EndAgrees(s, id);
        case _ =>
      }
    }
  }

  lemma {:induction false} RunAgrees(s: Queue, c: Queue, id: Id, run: seq<Action>)
    requires Inv(s) && Agree(s, c, id)
    ensures LegalRun(s, run) <==> LegalRun(c, run)
    ensures LegalRun(s, run) ==> SameButMarks(After(s, run), After(c, run))
    decreases |run|
  {
    if run != [] {
      StepAgrees(s, c, id, run[0]);
      if Enabled(s, run[0]) {
        StepKeepsInv(s, run[0]);
        RunAgrees(Apply(s, run[0]), Apply(c, run[0]), id, run[1..]);
      }
    }
  }

  function Callbacks(n: nat): seq<Action>
  {
    if n == 0 then [] else [Callback] + Callbacks(n - 1)
  }

  /** The rest of a batch and its reset. */
  function Finish(s: Queue): seq<Action>
    requires s.next <= |s.batch|
  {
    Callbacks(|s.batch| - s.next) + [End]
  }

  lemma {:induction false} FinishRuns(s: Queue) returns (m: Queue)
    requires s.calling && s.next <= |s.batch| && Allocated(s.batch, s.heap)
    ensures m == s.(next := |s.batch|, ran := m.ran)
    ensures LegalRun(s, Finish(s)) && After(s, Finish(s)) == EndExpired(m)
    decreases |s.batch| - s.next
  {
    if s.next == |s.batch| {
      m := s;
      RunFrom(s, End, []);
      assert Finish(s) == [End] + [];
    } else {
      assert s.batch[s.next] in s.batch;
      m := FinishRuns(RunOne(s));
      RunFrom(s, Callback, Finish(RunOne(s)));
      assert Finish(s) == [Callback] + Finish(RunOne(s));
    }
  }

  lemma BatchIsAllocated(s: Queue)
    requires Inv(s)
    ensures Allocated(s.batch, s.heap)
  {
    assert forall e :: e in s.batch ==> Keyed(s, e);
  }

  /** Callbacks leave what the invariant speaks of alone. */
  lemma CallbacksKeepInv(s: Queue, m: Queue)
    requires Inv(s) && m == s.(next := m.next, ran := m.ran) && m.next <= |s.batch|
    ensures Inv(m)
  {
    PartsFrame(s, m, s.batch);
  }

  lemma FinishFate(s: Queue, e: Entry)
    requires Inv(s) && s.calling && e in s.batch
    ensures e.timer in s.heap && LegalRun(s, Finish(s))
    ensures Gone(After(s, Finish(s)), s.heap[e.timer].seqNo)
       <==> !s.heap[e.timer].repeat || Id(e.timer, s.heap[e.timer].seqNo) in s.canceling
  {
    BatchIsAllocated(s);
    var m := FinishRuns(s);
    CallbacksKeepInv(s, m);
    BatchSurvivors(m, e);
  }

  /** The end of the batch tells a mark on a repeating timer of it. */
  lemma MarkTells(s: Queue, e: Entry)
    requires Inv(s) && s.calling && e in s.batch && e.timer in s.heap && s.heap[e.timer].repeat
    requires Id(e.timer, s.heap[e.timer].seqNo) !in s.canceling
    ensures !NoEffect(s, Id(e.timer, s.heap[e.timer].seqNo))
  {
    var q := s.heap[e.timer].seqNo;
    var c := Cancel(s, Id(e.timer, q));
    CancelMarks(s, Id(e.timer, q));
    FinishFate(s, e);
    FinishFate(c, e);
    assert Finish(s) == Finish(c);
    assert !SameButMarks(After(s, Finish(s)), After(c, Finish(s)));
  }

  /** insert never fills the active set, so a cancel leaves a mark during callbacks and else does nothing. */
  lemma CancelMarks(s: Queue, id: Id)
    requires Inv(s)
    ensures Cancel(s, id) == (if s.calling then Mark(s, id) else s) && Inv(Cancel(s, id))
  {
    StepKeepsInv(s, CancelId(id));
  }

  /**
   * A cancel of an allocated timer has an effect that some run can show, exactly when callbacks
   * are being run, the timer is a repeating one of the current batch, and it was not cancelled
   * before.  For every other timer, in the set or waiting to be added, all runs go on as if
   * nothing had been cancelled.
   */
  lemma CancelHasEffect(s: Queue, a: Addr)
    requires Inv(s) && a in s.heap
    ensures var id := Id(a, s.heap[a].seqNo);
      NoEffect(s, id) <==> !(s.calling && InBatch(s, a) && s.heap[a].repeat && id !in s.canceling)
  {
    var id := Id(a, s.heap[a].seqNo);
    if s.calling && InBatch(s, a) && s.heap[a].repeat && id !in s.canceling {
      var e :| e in s.batch && e.timer == a;
      MarkTells(s, e);
    } else {
      forall run
        ensures LegalRun(s, run) <==> LegalRun(Cancel(s, id), run)
        ensures LegalRun(s, run) ==> SameButMarks(After(s, run), After(Cancel(s, id), run))
      {
        RunAgrees(s, Cancel(s, id), id, run);
      }
    }
  }

  // ---- When a cancelled timer still runs ----

  /** After `r1` a batch starts, and one of the callbacks run in `r2` carries the number `q`. */
  predicate RunsInLaterBatch(s: Queue, q: nat, r1: seq<Action>, r2: seq<Action>)
  {
    && LegalRun(s, r1) && Enabled(After(s, r1), Begin)
    && LegalRun(BeginExpired(After(s, r1)), r2)
    && !NotFrom(After(BeginExpired(After(s, r1)), r2).ran, |After(s, r1).ran|, q)
  }

  ghost predicate RunsAgain(s: Queue, q: nat)
  {
    exists r1, r2 :: RunsInLaterBatch(s, q, r1, r2)
  }

  lemma {:induction false} DoomedOrGone(s: Queue, e: Entry, q: nat, run: seq<Action>)
    requires Inv(s) && LegalRun(s, run) && (Doomed(s, e, q) || Gone(s, q))
    ensures Inv(After(s, run)) && (Doomed(After(s, run), e, q) || Gone(After(s, run), q))
    decreases |run|
  {
    if run != [] {
      StepKeepsInv(s, run[0]);
      if Gone(s, q) {
        StepKeepsGone(s, run[0], q);
      } else {
        StepKeepsDoomed(s, run[0], e, q);
      }
      DoomedOrGone(Apply(s, run[0]), e, q, run[1..]);
    }
  }

  lemma DoomedNeverRunsAgain(s: Queue, e: Entry, q: nat)
    requires Inv(s) && Doomed(s, e, q)
    ensures !RunsAgain(s, q)
  {
    forall r1, r2
      ensures !RunsInLaterBatch(s, q, r1, r2)
    {
      if LegalRun(s, r1) && Enabled(After(s, r1), Begin) && LegalRun(BeginExpired(After(s, r1)), r2) {
        DoomedOrGone(s, e, q, r1);
        var m := After(s, r1);
        StepKeepsInv(m, Begin);
        StepKeepsGone(m, Begin, q);
        GoneForever(BeginExpired(m), r2, q);
      }
    }
  }

  /** Callbacks up to the i-th of the batch. */
  lemma {:induction false} RunsTo(s: Queue, i: nat)
    requires s.calling && s.next <= i < |s.batch| && Allocated(s.batch, s.heap)
    ensures s.batch[i].timer in s.heap && LegalRun(s, Callbacks(i + 1 - s.next))
    ensures var r := After(s, Callbacks(i + 1 - s.next)).ran;
      s.ran < r && r[|r| - 1] == s.heap[s.batch[i].timer].seqNo
    decreases i - s.next
  {
    assert s.batch[s.next] in s.batch;
    var s1 := RunOne(s);
    var rest := Callbacks(i - s.next);
    if s.next == i {
      assert rest == [] && After(s1, rest) == s1;
    } else {
      RunsTo(s1, i);
    }
    RunFrom(s, Callback, rest);
  }

  /** Some time later the timerfd has been reported and the entry is due. */
  lemma WaitUntilDue(s: Queue, e: Entry) returns (run: seq<Action>, m: Queue)
    requires Inv(s) && !s.calling && e in s.timers
    ensures LegalRun(s, run) && After(s, run) == m && Inv(m) && !m.calling && m.reported
    ensures m.timers == s.timers && m.heap == s.heap && e.when <= m.clock
  {
    assert s.timers[0] in s.timers && ArmedInTime(s);
    var t := Max(s.clock, Max(e.when, s.armed.value.deadline));
    run, m := [Tick(t)], Apply(s, Tick(t));
    RunFrom(s, Tick(t), []);
    assert [Tick(t)] + [] == [Tick(t)];
    if !s.reported {
      RunThen(s, run, Poll);
      run, m := run + [Poll], Apply(m, Poll);
    }
    RunKeepsInv(s, run);
  }

  /** A due entry of a reported queue is in the batch, and its callback is reached. */
  lemma DueRuns(s: Queue, e: Entry) returns (r2: seq<Action>)
    requires Inv(s) && !s.calling && s.reported && e in s.timers && e.when <= s.clock
    ensures e.timer in s.heap && LegalRun(BeginExpired(s), r2)
    ensures !NotFrom(After(BeginExpired(s), r2).ran, |s.ran|, s.heap[e.timer].seqNo)
  {
    DueSplits(s.timers, s.clock);
    StepKeepsInv(s, Begin);
    var m := BeginExpired(s);
    BatchIsAllocated(m);
    var i :| 0 <= i < |m.batch| && m.batch[i] == e;
    RunsTo(m, i);
    r2 := Callbacks(i + 1);
  }

  /** From a later point of a run, what runs again runs again. */
  lemma RunsAgainLater(s: Queue, before: seq<Action>, q: nat)
    requires LegalRun(s, before) && RunsAgain(After(s, before), q)
    ensures RunsAgain(s, q)
  {
    var r1, r2 :| RunsInLaterBatch(After(s, before), q, r1, r2);
    RunConcat(s, before, r1);
    assert RunsInLaterBatch(s, q, before + r1, r2);
  }

  lemma InTheSetRuns(s: Queue, e: Entry)
    requires Inv(s) && !s.calling && e in s.timers && e.timer in s.heap
    ensures RunsAgain(s, s.heap[e.timer].seqNo)
  {
    var r1, m := WaitUntilDue(s, e);
    var r2 := DueRuns(m, e);
    assert RunsInLaterBatch(s, s.heap[e.timer].seqNo, r1, r2);
  }

  lemma {:induction false} RunConcat(s: Queue, a: seq<Action>, b: seq<Action>)
    requires LegalRun(s, a) && LegalRun(After(s, a), b)
    ensures LegalRun(s, a + b) && After(s, a + b) == After(After(s, a), b)
    decreases |a|
  {
    if a == [] {
      assert a + b == b;
    } else {
      RunConcat(Apply(s, a[0]), a[1..], b);
      assert (a + b)[0] == a[0] && (a + b)[1..] == a[1..] + b;
    }
  }

  /** Between dispatches every allocated timer has a callback to come. */
  lemma IdleRuns(s: Queue, a: Addr)
    requires Inv(s) && !s.calling && a in s.heap
    ensures RunsAgain(s, s.heap[a].seqNo)
  {
    if a in s.pendingAdd {
      RunFrom(s, Add(a), []);
      assert [Add(a)] + [] == [Add(a)];
      StepKeepsInv(s, Add(a));
      InsertIsSorted(s.timers, KeyOf(s, a));
      InTheSetRuns(Apply(s, Add(a)), KeyOf(s, a));
      RunsAgainLater(s, [Add(a)], s.heap[a].seqNo);
    } else {
      InTheSetRuns(s, KeyOf(s, a));
    }
  }

  lemma EndKeepsSurvivor(s: Queue, a: Addr)
    requires Inv(s) && s.calling && a in s.heap
    requires InBatch(s, a) ==> s.heap[a].repeat && Id(a, s.heap[a].seqNo) !in s.canceling
    ensures a in EndExpired(s).heap && EndExpired(s).heap[a].seqNo == s.heap[a].seqNo
  {
    var s0 := s.(calling := false);
    ResetAllHeap(s0, s.batch, a);
    if InBatch(s, a) {
      var e :| e in s.batch && e.timer == a;
      PartsFrame(s, s0, s.batch);
      ResetAllSurvivors(s0, s.batch, e);
    }
  }

  lemma EndIsIdle(s: Queue)
    requires Inv(s) && s.calling
    ensures Inv(EndExpired(s)) && !EndExpired(s).calling
  {
    EndKeepsInv(s);
    PartsFrame(s, s.(calling := false), s.batch);
    ResetAllKeepsParts(s.(calling := false), s.batch);
  }

  /** A timer outlives the current batch unless it is a one-shot or marked timer of it. */
  lemma SurvivorRuns(s: Queue, a: Addr)
    requires Inv(s) && s.calling && a in s.heap
    requires InBatch(s, a) ==> s.heap[a].repeat && Id(a, s.heap[a].seqNo) !in s.canceling
    ensures RunsAgain(s, s.heap[a].seqNo)
  {
    BatchIsAllocated(s);
    var m := FinishRuns(s);
    CallbacksKeepInv(s, m);
    EndKeepsSurvivor(m, a);
    EndIsIdle(m);
    IdleRuns(EndExpired(m), a);
    RunsAgainLater(s, Finish(s), s.heap[a].seqNo);
  }

  /** A timer can run in a later batch exactly when it is not a one-shot or cancelled timer of the current one. */
  lemma RunsAgainExactly(s: Queue, a: Addr)
    requires Inv(s) && a in s.heap
    ensures var q := s.heap[a].seqNo;
      RunsAgain(s, q) <==> !(InBatch(s, a) && (!s.heap[a].repeat || Id(a, q) in s.canceling))
  {
    var q := s.heap[a].seqNo;
    if InBatch(s, a) && (!s.heap[a].repeat || Id(a, q) in s.canceling) {
      var e :| e in s.batch && e.timer == a;
      DoomedNeverRunsAgain(s, e, q);
    } else {
      if s.calling {
        SurvivorRuns(s, a);
      } else {
        IdleRuns(s, a);
      }
    }
  }

  /**
   * A cancelled timer runs in no later batch exactly when it is in the current one.  A timer in
   * the set or waiting to be added runs in a later batch all the same, whether callbacks are
   * being run or not.
   */
  lemma CancelStopsExactly(s: Queue, a: Addr)
    requires Inv(s) && a in s.heap
    ensures var q := s.heap[a].seqNo;
      !RunsAgain(Cancel(s, Id(a, q)), q) <==> InBatch(s, a)
  {
    var id := Id(a, s.heap[a].seqNo);
    CancelMarks(s, id);
    var c := Cancel(s, id);
    assert InBatch(c, a) == InBatch(s, a);
    RunsAgainExactly(c, a);
  }

  // ---- When a cancelled timer is silent at once ----

  /** No run from `c` calls back with number `q` any more. */
  ghost predicate Silent(c: Queue, q: nat)
  {
    forall run :: LegalRun(c, run) ==> NotFrom(After(c, run).ran, |c.ran|, q)
  }

  /** The callback of the timer has been run or is being run in the current batch. */
  predicate HadItsTurn(s: Queue, a: Addr)
  {
    exists i :: 0 <= i < s.next && i < |s.batch| && s.batch[i].timer == a
  }

  lemma StepGrows(s: Queue, act: Action)
    requires Inv(s) && Enabled(s, act)
    ensures s.ran <= Apply(s, act).ran
  {
    if act == End {
      PartsFrame(s, s.(calling := false), s.batch);
      ResetAllKeepsParts(s.(calling := false), s.batch);
    }
  }

  lemma {:induction false} RunGrows(s: Queue, run: seq<Action>)
    requires Inv(s) && LegalRun(s, run)
    ensures Inv(After(s, run)) && s.ran <= After(s, run).ran
    decreases |run|
  {
    if run != [] {
      StepKeepsInv(s, run[0]);
      StepGrows(s, run[0]);
      RunGrows(Apply(s, run[0]), run[1..]);
    }
  }

  /** A doomed timer of the batch that has had its turn. */
  predicate Spent(s: Queue, i: nat, q: nat)
  {
    i < s.next <= |s.batch| && Doomed(s, s.batch[i], q)
  }

  lemma NextIsAnother(s: Queue, i: nat)
    requires Inv(s) && i < s.next < |s.batch| && s.batch[i].timer in s.heap && s.batch[s.next].timer in s.heap
    ensures s.heap[s.batch[s.next].timer].seqNo != s.heap[s.batch[i].timer].seqNo
  {
    assert s.batch[i].timer != s.batch[s.next].timer;
  }

  lemma StepKeepsSpent(s: Queue, act: Action, i: nat, q: nat)
    requires Inv(s) && Enabled(s, act) && Spent(s, i, q)
    ensures if act == End then Gone(Apply(s, act), q) else Spent(Apply(s, act), i, q)
    ensures s.ran <= Apply(s, act).ran && NotFrom(Apply(s, act).ran, |s.ran|, q)
  {
    StepKeepsDoomed(s, act, s.batch[i], q);
    StepGrows(s, act);
    if act == Callback {
      NextIsAnother(s, i);
    } else if act == End {
      PartsFrame(s, s.(calling := false), s.batch);
      ResetAllKeepsParts(s.(calling := false), s.batch);
    }
  }

  lemma {:induction false} SpentIsSilent(s: Queue, run: seq<Action>, i: nat, q: nat)
    requires Inv(s) && LegalRun(s, run) && Spent(s, i, q)
    ensures s.ran <= After(s, run).ran && NotFrom(After(s, run).ran, |s.ran|, q)
    decreases |run|
  {
    if run != [] {
      StepKeepsSpent(s, run[0], i, q);
      StepKeepsInv(s, run[0]);
      if run[0] == End {
        GoneForever(Apply(s, run[0]), run[1..], q);
      } else {
        SpentIsSilent(Apply(s, run[0]), run[1..], i, q);
      }
    }
  }

  /** A timer of the batch whose turn is still to come runs, marked or not. */
  lemma TurnComes(s: Queue, i: nat)
    requires Inv(s) && s.calling && s.next <= i < |s.batch|
    ensures s.batch[i].timer in s.heap && !Silent(s, s.heap[s.batch[i].timer].seqNo)
  {
    BatchIsAllocated(s);
    RunsTo(s, i);
    var run := Callbacks(i + 1 - s.next);
    assert LegalRun(s, run) && |s.ran| <= |After(s, run).ran| - 1;
  }

  lemma RunsAgainIsHeard(s: Queue, q: nat)
    requires Inv(s) && RunsAgain(s, q)
    ensures !Silent(s, q)
  {
    var r1, r2 :| RunsInLaterBatch(s, q, r1, r2);
    RunGrows(s, r1);
    RunThen(s, r1, Begin);
    RunConcat(s, r1 + [Begin], r2);
    Heard(s, r1 + [Begin] + r2, |After(s, r1).ran|, q);
  }

  lemma Heard(s: Queue, run: seq<Action>, n: nat, q: nat)
    requires LegalRun(s, run) && |s.ran| <= n && !NotFrom(After(s, run).ran, n, q)
    ensures !Silent(s, q)
  {
    assert !NotFrom(After(s, run).ran, |s.ran|, q);
  }

  /**
   * No callback after the cancel: this holds exactly when the timer is in the current batch and
   * its turn there has come.  One whose turn is still to come runs in this batch, one outside
   * the batch in a later one.
   */
  lemma CancelSilencesExactly(s: Queue, a: Addr)
    requires Inv(s) && a in s.heap
    ensures var q := s.heap[a].seqNo; Silent(Cancel(s, Id(a, q)), q) <==> HadItsTurn(s, a)
  {
    var q := s.heap[a].seqNo;
    var c := Cancel(s, Id(a, q));
    CancelMarks(s, Id(a, q));
    if HadItsTurn(s, a) {
      var i :| 0 <= i < s.next && i < |s.batch| && s.batch[i].timer == a;
      forall run | LegalRun(c, run)
        ensures NotFrom(After(c, run).ran, |c.ran|, q)
      {
        SpentIsSilent(c, run, i, q);
      }
    } else if InBatch(s, a) {
      var i :| 0 <= i < |s.batch| && s.batch[i].timer == a;
      TurnComes(c, i);
    } else {
      assert InBatch(c, a) == InBatch(s, a);
      RunsAgainExactly(c, a);
      RunsAgainIsHeard(c, q);
    }
  }

  /** From the dispatch of two due timers: the first one's callback cancels the second, which runs. */
  lemma SecondOfTwoRuns(s: Queue, e: Entry, f: Entry, id: Id)
    requires !s.calling && s.reported && s.timers == [e, f] && e.when <= s.clock && f.when <= s.clock
    requires e.timer in s.heap && f.timer in s.heap && s.active == {}
    ensures LegalRun(s, [Begin, Callback, CancelId(id), Callback])
    ensures After(s, [Begin, Callback, CancelId(id), Callback]).ran
         == s.ran + [s.heap[e.timer].seqNo, s.heap[f.timer].seqNo]
  {
    var s1 := Apply(s, Begin);
    assert s1.batch == [e, f] && s1.active == {};
    var s2 := Apply(s1, Callback);
    var s3 := Apply(s2, CancelId(id));
    RunFrom(s3, Callback, []);
    RunFrom(s2, CancelId(id), [Callback] + []);
    RunFrom(s1, Callback, [CancelId(id)] + ([Callback] + []));
    RunFrom(s, Begin, [Callback] + ([CancelId(id)] + ([Callback] + [])));
    assert [Begin] + ([Callback] + ([CancelId(id)] + ([Callback] + []))) == [Begin, Callback, CancelId(id), Callback];
  }

  const TWO_TIMERS: seq<Action> := [New(4, 5, 0, false), New(6, 7, 9, true), Add(4), Add(6)]

  lemma TwoTimersWait(s0: Queue)
    requires Init(s0) && s0.clock == 1 && s0.created == 0
    ensures LegalRun(s0, TWO_TIMERS)
    ensures var s := After(s0, TWO_TIMERS);
      && s == s0.(heap := map[4 := Timer(5, 0, false, 1), 6 := Timer(7, 9, true, 2)], created := 2,
                  timers := [Entry(5, 4), Entry(7, 6)], armed := Some(Arm(101, 1)))
  {
    var s1 := Apply(s0, New(4, 5, 0, false));
    var s2 := Apply(s1, New(6, 7, 9, true));
    var s3 := Apply(s2, Add(4));
    var s4 := Apply(s3, Add(6));
    assert s3.timers == [Entry(5, 4)];
    assert Insert([Entry(5, 4)], Entry(7, 6)) == [Entry(5, 4)] + Insert([], Entry(7, 6));
    assert s4.pendingAdd == {};
    RunFrom(s3, Add(6), []);
    RunFrom(s2, Add(4), [Add(6)] + []);
    RunFrom(s1, New(6, 7, 9, true), [Add(4)] + ([Add(6)] + []));
    RunFrom(s0, New(4, 5, 0, false), [New(6, 7, 9, true)] + ([Add(4)] + ([Add(6)] + [])));
    assert [New(4, 5, 0, false)] + ([New(6, 7, 9, true)] + ([Add(4)] + ([Add(6)] + []))) == TWO_TIMERS;
  }

  /** Two timers due together: the first is called back and cancels the second, which is called back too. */
  lemma CancelledBeforeItsTurnRuns(s0: Queue)
    requires Init(s0) && s0.clock == 1 && s0.created == 0
    ensures var run := TWO_TIMERS + [Tick(1000), Poll, Begin, Callback, CancelId(Id(6, 2)), Callback];
      LegalRun(s0, run) && After(s0, run).ran == [1, 2]
  {
    TwoTimersWait(s0);
    var s := After(s0, TWO_TIMERS);
    var s1 := Apply(s, Tick(1000));
    var s2 := Apply(s1, Poll);
    var r := [Begin, Callback, CancelId(Id(6, 2)), Callback];
    SecondOfTwoRuns(s2, Entry(5, 4), Entry(7, 6), Id(6, 2));
    RunFrom(s1, Poll, r);
    RunFrom(s, Tick(1000), [Poll] + r);
    assert [Tick(1000)] + ([Poll] + r) == [Tick(1000), Poll, Begin, Callback, CancelId(Id(6, 2)), Callback];
    RunConcat(s0, TWO_TIMERS, [Tick(1000)] + ([Poll] + r));
  }
}
