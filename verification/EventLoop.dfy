/**
 * The functor queue of an event loop: a mutex-protected list of functors, an eventfd counter
 * that ends the poll, and the flag that says a batch is being run.  Any number of threads
 * call queueInLoop and quit; every action below is one atomic step of one thread, so a
 * sequence of actions is an interleaving.
 */
module TaskQueue {
  type Thread = nat
  type Functor = nat

  const EVENTFD_MAX: nat := 0xffff_ffff_ffff_fffe

  /** Where the loop thread is. */
  datatype Pc =
    | NotStarted
    | AtCheck                        // about to test quit_
    | InPoll                         // in poller_->poll
    | Handling(wakeupActive: bool)   // dispatching; is the wakeup channel still to come?
    | BeforeSwap                     // callingPendingFunctors_ is set, the list not yet taken
    | BetweenFunctors
    | InFunctor
    | Stopped

  datatype Loop = Loop(
    pc: Pc,
    pending: seq<Functor>,     // pendingFunctors_
    batch: seq<Functor>,       // the rest of the list taken by swap
    eventfd: nat,              // the kernel's counter
    calling: bool,             // callingPendingFunctors_
    quit: bool,                // quit_
    pushed: set<Thread>,       // other threads between their push and their wakeup
    quitting: set<Thread>,     // other threads between storing quit_ and their wakeup
    loopOwes: bool,            // the loop thread itself, between push and wakeup
    executed: seq<Functor>,    // history: functors started, in order
    enqueued: seq<Functor>     // history: functors pushed, in lock order
  )

  const INIT := Loop(NotStarted, [], [], 0, false, false, {}, {}, false, [], [])

  /** Why epoll_wait came back. */
  datatype Cause = Wakeup | OtherFds | Timeout

  datatype Action =
    | Push(t: Thread, f: Functor)
    | Wake(t: Thread)
    | StoreQuit(t: Thread)
    | QuitWake(t: Thread)
    | Start
    | CheckQuit
    | PollReturn(cause: Cause)
    | ReadEventfd
    | EndHandling
    | Swap
    | BeginFunctor
    | EndFunctor
    | EndBatch
    | LoopPush(f: Functor)
    | LoopWake
    | LoopQuit

  predicate Enabled(s: Loop, a: Action)
  {
    match a
    case Push(t, _) => t !in s.pushed && t !in s.quitting
    case Wake(t) => t in s.pushed
    case StoreQuit(t) => t !in s.pushed && t !in s.quitting
    case QuitWake(t) => t in s.quitting
    case Start => s.pc == NotStarted
    case CheckQuit => s.pc == AtCheck
    case PollReturn(cause) => s.pc == InPoll && (cause.Wakeup? ==> s.eventfd > 0) && (cause.Timeout? ==> s.eventfd == 0)
    case ReadEventfd => s.pc == Handling(true)
    case EndHandling => s.pc == Handling(false)
    case Swap => s.pc == BeforeSwap
    case BeginFunctor => s.pc == BetweenFunctors && s.batch != []
    case EndFunctor => s.pc == InFunctor && !s.loopOwes
    case EndBatch => s.pc == BetweenFunctors && s.batch == []
    case LoopPush(_) => (s.pc == NotStarted || s.pc.Handling? || s.pc == InFunctor) && !s.loopOwes
    case LoopWake => s.loopOwes
    case LoopQuit => (s.pc.Handling? || s.pc == InFunctor) && !s.loopOwes
  }

  /** A write of 1; at the maximum it fails and the counter stays. */
  function Written(eventfd: nat): nat
  {
    if eventfd < EVENTFD_MAX then eventfd + 1 else eventfd
  }

  function Apply(s: Loop, a: Action): Loop
    requires Enabled(s, a)
  {
    match a
    case Push(t, f) => s.(pending := s.pending + [f], enqueued := s.enqueued + [f], pushed := s.pushed + {t})
    case Wake(t) => s.(eventfd := Written(s.eventfd), pushed := s.pushed - {t})
    case StoreQuit(t) => s.(quit := true, quitting := s.quitting + {t})
    case QuitWake(t) => s.(eventfd := Written(s.eventfd), quitting := s.quitting - {t})
    case Start => s.(pc := AtCheck, quit := false)
    case CheckQuit => s.(pc := if s.quit then Stopped else InPoll)
    case PollReturn(cause) => s.(pc := Handling(cause.Wakeup?))
    case ReadEventfd => s.(pc := Handling(false), eventfd := 0)
    case EndHandling => s.(pc := BeforeSwap, calling := true)
    case Swap => s.(pc := BetweenFunctors, batch := s.pending, pending := [])
    case BeginFunctor => s.(pc := InFunctor, executed := s.executed + [s.batch[0]], batch := s.batch[1..])
    case EndFunctor => s.(pc := BetweenFunctors)
    case EndBatch => s.(pc := AtCheck, calling := false)
    case LoopPush(f) => s.(pending := s.pending + [f], enqueued := s.enqueued + [f], loopOwes := s.calling)
    case LoopWake => s.(eventfd := Written(s.eventfd), loopOwes := false)
    case LoopQuit => s.(quit := true)
  }

  predicate LegalRun(s: Loop, run: seq<Action>)
    decreases |run|
  {
    run == [] || (Enabled(s, run[0]) && LegalRun(Apply(s, run[0]), run[1..]))
  }

  function After(s: Loop, run: seq<Action>): Loop
    requires LegalRun(s, run)
    decreases |run|
  {
    if run == [] then s else After(Apply(s, run[0]), run[1..])
  }

  // ---- Safety ----

  /** Executed, then the rest of the batch, then the pending list: all functors in lock order. */
  predicate Fifo(s: Loop)
  {
    s.executed + s.batch + s.pending == s.enqueued
  }

  /** Someone has woken the loop or is about to. */
  predicate WakeAssured(s: Loop)
  {
    s.eventfd > 0 || s.pushed != {} || s.loopOwes
  }

  predicate NoLostWakeup(s: Loop)
  {
    s.pc == InPoll && s.pending != [] ==> s.eventfd > 0 || s.pushed != {}
  }

  predicate NoLostQuit(s: Loop)
  {
    s.pc == InPoll && s.quit ==> s.eventfd > 0 || s.quitting != {}
  }

  predicate Structure(s: Loop)
  {
    && (s.calling <==> s.pc == BeforeSwap || s.pc == BetweenFunctors || s.pc == InFunctor)
    && (s.batch != [] ==> s.pc == BetweenFunctors || s.pc == InFunctor)
    && (s.loopOwes ==> s.pc == InFunctor)
    && (s.pc == Handling(true) ==> s.eventfd > 0)
  }

  /** Between taking the list and the next dispatch, whatever was pushed has its wakeup. */
  predicate Covered(s: Loop)
  {
    (s.pc == BetweenFunctors || s.pc == InFunctor || s.pc == AtCheck || s.pc == InPoll)
    ==> s.pending == [] || WakeAssured(s)
  }

  predicate BaseInv(s: Loop)
  {
    Structure(s) && Fifo(s) && NoLostQuit(s)
  }

  lemma StepKeepsBase(s: Loop, a: Action)
    requires BaseInv(s) && Enabled(s, a)
    ensures BaseInv(Apply(s, a))
  {
    var s' := Apply(s, a);
    match a {
      case Push(_, f) => assert s'.executed + s'.batch + s'.pending == s.executed + s.batch + s.pending + [f];
      case LoopPush(f) => assert s'.executed + s'.batch + s'.pending == s.executed + s.batch + s.pending + [f];
      case Swap => assert s'.executed + s'.batch + s'.pending == s.executed + s.batch + s.pending;
      case BeginFunctor => assert s'.executed + s'.batch == s.executed + s.batch;
      case _ =>
    }
  }

  lemma StepKeepsCovered(s: Loop, a: Action)
    requires BaseInv(s) && Covered(s) && s.pc != NotStarted && Enabled(s, a)
    ensures Covered(Apply(s, a)) && Apply(s, a).pc != NotStarted
  {
    match a {
      case Push(t, _) => assert t in Apply(s, a).pushed;
      case _ =>
    }
  }

  lemma {:induction false} RunKeepsBase(s: Loop, run: seq<Action>)
    requires BaseInv(s) && LegalRun(s, run)
    ensures BaseInv(After(s, run))
    decreases |run|
  {
    if run != [] {
      StepKeepsBase(s, run[0]);
      RunKeepsBase(Apply(s, run[0]), run[1..]);
    }
  }

  lemma {:induction false} RunKeepsCovered(s: Loop, run: seq<Action>)
    requires BaseInv(s) && Covered(s) && s.pc != NotStarted && LegalRun(s, run)
    ensures BaseInv(After(s, run)) && Covered(After(s, run)) && After(s, run).pc != NotStarted
    decreases |run|
  {
    if run != [] {
      StepKeepsBase(s, run[0]);
      StepKeepsCovered(s, run[0]);
      RunKeepsCovered(Apply(s, run[0]), run[1..]);
    }
  }

  /**
   * Exactly once, in lock order, under every interleaving: what has run is a prefix of what
   * was enqueued and the rest is still held; and a quit from another thread ends the poll.
   */
  lemma FifoExactlyOnce(run: seq<Action>)
    requires LegalRun(INIT, run)
    ensures var s := After(INIT, run);
      && s.executed + s.batch + s.pending == s.enqueued
      && s.executed <= s.enqueued
      && (s.pc == InPoll && s.quit ==> s.eventfd > 0 || s.quitting != {})
  {
    RunKeepsBase(INIT, run);
    var s := After(INIT, run);
    assert s.enqueued == s.executed + (s.batch + s.pending);
  }

  lemma OneStep(s: Loop, a: Action)
    requires Enabled(s, a)
    ensures LegalRun(s, [a]) && After(s, [a]) == Apply(s, a)
  {
    var s' := Apply(s, a);
    assert [a][1..] == [];
    assert LegalRun(s', []) && After(s', []) == s';
  }

  /**
   * No wakeup is lost.  A functor the loop thread itself queued before loop() is not
   * announced, so the guarantee holds for every run of the loop exactly when, as the loop
   * starts, the list is empty or a wakeup is already on its way.
   */
  lemma NoWakeupIsLost(s: Loop)
    requires BaseInv(s) && s.pc == AtCheck && !s.quit
    ensures (forall run :: LegalRun(s, run) ==> NoLostWakeup(After(s, run)))
       <==> (s.pending == [] || s.eventfd > 0 || s.pushed != {})
  {
    if s.pending == [] || s.eventfd > 0 || s.pushed != {} {
      forall run | LegalRun(s, run)
        ensures NoLostWakeup(After(s, run))
      {
        RunKeepsCovered(s, run);
      }
    } else {
      OneStep(s, CheckQuit);
      assert !NoLostWakeup(After(s, [CheckQuit]));
    }
  }

  /** The loop thread itself pushes nothing before it starts the loop. */
  predicate NothingPushedEarly(run: seq<Action>)
    decreases |run|
  {
    run == [] || run[0] == Start || (!run[0].LoopPush? && NothingPushedEarly(run[1..]))
  }

  /** Before the loop starts, whatever other threads pushed has its wakeup, and nothing reads the counter. */
  predicate CoveredEarly(s: Loop)
  {
    s.pc == NotStarted && (s.pending == [] || s.eventfd > 0 || s.pushed != {})
  }

  lemma EarlyStep(s: Loop, a: Action)
    requires BaseInv(s) && CoveredEarly(s) && Enabled(s, a) && !a.LoopPush?
    ensures if a == Start then Covered(Apply(s, a)) && Apply(s, a).pc == AtCheck else CoveredEarly(Apply(s, a))
  {
    match a {
      case Push(t, _) => assert t in Apply(s, a).pushed;
      case _ =>
    }
  }

  lemma {:induction false} EarlyRun(s: Loop, run: seq<Action>)
    requires BaseInv(s) && CoveredEarly(s) && LegalRun(s, run) && NothingPushedEarly(run)
    ensures NoLostWakeup(After(s, run))
    decreases |run|
  {
    if run != [] {
      var s1 := Apply(s, run[0]);
      StepKeepsBase(s, run[0]);
      EarlyStep(s, run[0]);
      if run[0] == Start {
        RunKeepsCovered(s1, run[1..]);
      } else {
        EarlyRun(s1, run[1..]);
      }
    }
  }

  /** From the construction of the loop on, every run in which the loop thread pushes nothing early keeps all wakeups. */
  lemma NoWakeupIsLostFromTheStart(run: seq<Action>)
    requires LegalRun(INIT, run) && NothingPushedEarly(run)
    ensures var s := After(INIT, run); s.pc == InPoll && s.pending != [] ==> s.eventfd > 0 || s.pushed != {}
  {
    EarlyRun(INIT, run);
  }

  /** The excluded start is reachable. */
  lemma QueuedBeforeLoopIsNotAnnounced()
    ensures LegalRun(INIT, [LoopPush(7), Start])
    ensures var s := After(INIT, [LoopPush(7), Start]);
      BaseInv(s) && s.pc == AtCheck && s.pending == [7] && s.eventfd == 0 && s.pushed == {}
  {
    var s1 := Apply(INIT, LoopPush(7));
    OneStep(s1, Start);
    assert [LoopPush(7), Start][1..] == [Start];
    RunKeepsBase(INIT, [LoopPush(7), Start]);
  }

  // ---- What every batch runs ----

  /** Everything in `es` has been run or is in the batch being run. */
  predicate Taken(s: Loop, es: seq<Functor>)
  {
    (s.pc == BetweenFunctors || s.pc == InFunctor) && s.executed + s.batch == es
  }

  lemma StepKeepsTaken(s: Loop, a: Action, es: seq<Functor>)
    requires BaseInv(s) && Taken(s, es) && Enabled(s, a)
    ensures if a == EndBatch then Apply(s, a).executed == es else Taken(Apply(s, a), es)
  {
    if a == BeginFunctor {
      assert s.executed + [s.batch[0]] + s.batch[1..] == s.executed + s.batch;
    }
  }

  lemma {:induction false} ExecutedGrows(s: Loop, run: seq<Action>)
    requires LegalRun(s, run)
    ensures s.executed <= After(s, run).executed
    decreases |run|
  {
    if run != [] {
      ExecutedGrows(Apply(s, run[0]), run[1..]);
    }
  }

  lemma {:induction false} TakenIsRun(s: Loop, run: seq<Action>, es: seq<Functor>)
    requires BaseInv(s) && Taken(s, es) && LegalRun(s, run) && EndBatch in run
    ensures es <= After(s, run).executed
    decreases |run|
  {
    StepKeepsTaken(s, run[0], es);
    StepKeepsBase(s, run[0]);
    if run[0] == EndBatch {
      ExecutedGrows(Apply(s, run[0]), run[1..]);
    } else {
      assert run == [run[0]] + run[1..];
      TakenIsRun(Apply(s, run[0]), run[1..], es);
    }
  }

  lemma SwapTakes(s: Loop)
    requires BaseInv(s) && Enabled(s, Swap)
    ensures Taken(Apply(s, Swap), s.enqueued)
  {
    assert s.batch == [] && s.executed + s.batch + s.pending == s.executed + s.pending;
  }

  /** In every run, when a batch ends, everything enqueued before its swap has been executed, in order. */
  lemma EveryBatchRunsAll(before: seq<Action>, run: seq<Action>)
    requires LegalRun(INIT, before) && LegalRun(After(INIT, before), run)
    requires run != [] && run[0] == Swap && EndBatch in run
    ensures After(INIT, before).enqueued <= After(After(INIT, before), run).executed
  {
    RunKeepsBase(INIT, before);
    var s := After(INIT, before);
    SwapTakes(s);
    StepKeepsBase(s, Swap);
    assert run == [run[0]] + run[1..];
    TakenIsRun(Apply(s, Swap), run[1..], s.enqueued);
  }

  // ---- Progress without the poll timeout ----

  lemma {:induction false} RunConcat(s: Loop, a: seq<Action>, b: seq<Action>)
    requires LegalRun(s, a) && LegalRun(After(s, a), b)
    ensures LegalRun(s, a + b) && After(s, a + b) == After(After(s, a), b)
    decreases |a|
  {
    if a == [] {
      assert a + b == b;
    } else {
      RunConcat(Apply(s, a[0]), a[1..], b);
      assert (a + b)[0] == a[0] && (a + b)[1..] == a[1..] + b;
    }
  }

  /** Steps that need neither a timeout nor a new task: the loop's own, and owed wakeups. */
  predicate Unaided(a: Action)
  {
    match a
    case PollReturn(cause) => cause.Wakeup?
    case Wake(_) | CheckQuit | ReadEventfd | EndHandling | Swap
    | BeginFunctor | EndFunctor | EndBatch | LoopWake => true
    case _ => false
  }

  predicate AllUnaided(run: seq<Action>)
  {
    forall a :: a in run ==> Unaided(a)
  }

  /** `run` leads from `s` to `s'` by unaided steps. */
  predicate Leads(s: Loop, run: seq<Action>, s': Loop)
  {
    LegalRun(s, run) && AllUnaided(run) && After(s, run) == s'
  }

  lemma Then(s: Loop, run: seq<Action>, m: Loop, a: Action)
    requires Leads(s, run, m) && Enabled(m, a) && Unaided(a)
    ensures Leads(s, run + [a], Apply(m, a))
  {
    OneStep(m, a);
    RunConcat(s, run, [a]);
  }

  lemma Chain(s: Loop, a: seq<Action>, m: Loop, b: seq<Action>, e: Loop)
    requires Leads(s, a, m) && Leads(m, b, e)
    ensures Leads(s, a + b, e)
  {
    RunConcat(s, a, b);
  }

  /** The loop runs the rest of its batch and returns to the top. */
  lemma {:induction false} Drain(s: Loop) returns (run: seq<Action>, e: Loop)
    requires s.pc == BetweenFunctors && !s.loopOwes
    ensures Leads(s, run, e)
    ensures e == s.(pc := AtCheck, calling := false, executed := s.executed + s.batch, batch := [])
    decreases |s.batch|
  {
    if s.batch == [] {
      assert Leads(s, [], s);
      Then(s, [], s, EndBatch);
      run, e := [] + [EndBatch], Apply(s, EndBatch);
    } else {
      assert Leads(s, [], s);
      var s1 := Apply(s, BeginFunctor);
      Then(s, [], s, BeginFunctor);
      var s2 := Apply(s1, EndFunctor);
      Then(s, [] + [BeginFunctor], s1, EndFunctor);
      var rest;
      rest, e := Drain(s2);
      Chain(s, [] + [BeginFunctor] + [EndFunctor], s2, rest, e);
      run := [] + [BeginFunctor] + [EndFunctor] + rest;
      assert s.executed + [s.batch[0]] + s.batch[1..] == s.executed + s.batch;
    }
  }

  /** From dispatching onwards, one pass takes and runs everything enqueued so far. */
  lemma Pass(s: Loop) returns (run: seq<Action>, e: Loop)
    requires BaseInv(s) && (s.pc.Handling? || s.pc == BeforeSwap)
    ensures Leads(s, run, e) && e.executed == s.enqueued == e.enqueued
  {
    var m := s;
    run := [];
    assert Leads(s, run, m);
    if m.pc == Handling(true) {
      Then(s, run, m, ReadEventfd);
      run, m := run + [ReadEventfd], Apply(m, ReadEventfd);
    }
    if m.pc == Handling(false) {
      Then(s, run, m, EndHandling);
      run, m := run + [EndHandling], Apply(m, EndHandling);
    }
    Then(s, run, m, Swap);
    run, m := run + [Swap], Apply(m, Swap);
    var rest;
    rest, e := Drain(m);
    Chain(s, run, m, rest, e);
    run := run + rest;
    assert s.batch == [] && s.executed + s.batch == s.executed;
  }

  /** From the poll, an owed wakeup is enough to reach the next pass. */
  lemma WakeAndPass(s: Loop) returns (run: seq<Action>, e: Loop)
    requires BaseInv(s) && s.pc == InPoll && (s.eventfd > 0 || s.pushed != {})
    ensures Leads(s, run, e) && e.executed == s.enqueued == e.enqueued
  {
    var m := s;
    run := [];
    assert Leads(s, run, m);
    if m.eventfd == 0 {
      var t :| t in m.pushed;
      Then(s, run, m, Wake(t));
      run, m := run + [Wake(t)], Apply(m, Wake(t));
    }
    Then(s, run, m, PollReturn(Wakeup));
    RunKeepsBase(s, run + [PollReturn(Wakeup)]);
    run, m := run + [PollReturn(Wakeup)], Apply(m, PollReturn(Wakeup));
    var rest;
    rest, e := Pass(m);
    Chain(s, run, m, rest, e);
    run := run + rest;
  }

  /** From the middle of a batch to the top of the loop. */
  lemma FinishBatch(s: Loop) returns (run: seq<Action>, e: Loop)
    requires BaseInv(s) && (s.pc == BetweenFunctors || s.pc == InFunctor)
    ensures Leads(s, run, e)
    ensures e.pc == AtCheck && e.enqueued == s.enqueued && e.quit == s.quit
  {
    var m := s;
    run := [];
    assert Leads(s, run, m);
    if m.pc == InFunctor {
      if m.loopOwes {
        Then(s, run, m, LoopWake);
        run, m := run + [LoopWake], Apply(m, LoopWake);
      }
      Then(s, run, m, EndFunctor);
      run, m := run + [EndFunctor], Apply(m, EndFunctor);
    }
    var rest;
    rest, e := Drain(m);
    Chain(s, run, m, rest, e);
    run := run + rest;
  }

  /** From the top of a covered loop, everything enqueued can run. */
  lemma PollAndPass(s: Loop) returns (run: seq<Action>, e: Loop)
    requires BaseInv(s) && Covered(s) && s.pc == AtCheck && !s.quit
    ensures Leads(s, run, e) && e.executed == s.enqueued == e.enqueued
  {
    assert Leads(s, [], s);
    if s.pending == [] {
      run, e := [], s;
      assert s.executed + s.batch + s.pending == s.executed;
    } else {
      Then(s, [], s, CheckQuit);
      var m := Apply(s, CheckQuit);
      StepKeepsBase(s, CheckQuit);
      var rest;
      rest, e := WakeAndPass(m);
      Chain(s, [] + [CheckQuit], m, rest, e);
      run := [] + [CheckQuit] + rest;
    }
  }

  /**
   * From every state of a running loop that has not been told to quit, the loop and the
   * threads that still owe a wakeup can run every functor enqueued so far, in order, with
   * no poll timeout, no other event and no further task.
   */
  lemma EveryFunctorCanRun(s: Loop) returns (run: seq<Action>, e: Loop)
    requires BaseInv(s) && Covered(s) && !s.quit && s.pc != NotStarted && s.pc != Stopped
    ensures Leads(s, run, e) && e.executed == s.enqueued == e.enqueued
  {
    if s.pc.Handling? || s.pc == BeforeSwap {
      run, e := Pass(s);
    } else if s.pc == AtCheck {
      run, e := PollAndPass(s);
    } else if s.pc == InPoll {
      if s.pending == [] {
        run, e := [], s;
        assert s.executed + s.batch + s.pending == s.executed;
      } else {
        run, e := WakeAndPass(s);
      }
    } else {
      var first, m := FinishBatch(s);
      RunKeepsCovered(s, first);
      var rest;
      rest, e := PollAndPass(m);
      Chain(s, first, m, rest, e);
      run := first + rest;
    }
  }

  // ---- Quit ----

  predicate IsQuit(a: Action)
  {
    a.StoreQuit? || a.LoopQuit?
  }

  /** Some thread asks a loop that has been started to quit. */
  predicate QuitAsked(run: seq<Action>)
  {
    exists i, j :: 0 <= i < j < |run| && run[i] == Start && IsQuit(run[j])
  }

  lemma StepKeepsQuit(s: Loop, a: Action)
    requires s.pc != NotStarted && Enabled(s, a)
    ensures Apply(s, a).pc != NotStarted && (s.quit || IsQuit(a) ==> Apply(s, a).quit)
  {
  }

  lemma {:induction false} QuitIsKept(s: Loop, run: seq<Action>)
    requires s.pc != NotStarted && LegalRun(s, run)
    ensures After(s, run).pc != NotStarted
    ensures s.quit || (exists j :: 0 <= j < |run| && IsQuit(run[j])) ==> After(s, run).quit
    decreases |run|
  {
    if run != [] {
      StepKeepsQuit(s, run[0]);
      QuitIsKept(Apply(s, run[0]), run[1..]);
      if j :| 0 <= j < |run| && IsQuit(run[j]) {
        if j > 0 {
          assert IsQuit(run[1..][j - 1]);
        }
      }
    }
  }

  lemma {:induction false} QuitIsStored(s: Loop, run: seq<Action>)
    requires LegalRun(s, run) && QuitAsked(run)
    ensures After(s, run).quit && After(s, run).pc != NotStarted
    decreases |run|
  {
    var i, j :| 0 <= i < j < |run| && run[i] == Start && IsQuit(run[j]);
    var s1 := Apply(s, run[0]);
    if i == 0 {
      assert IsQuit(run[1..][j - 1]);
      QuitIsKept(s1, run[1..]);
    } else {
      assert run[1..][i - 1] == Start && IsQuit(run[1..][j - 1]);
      QuitIsStored(s1, run[1..]);
    }
  }

  /** Once a started loop has been asked to quit, it never enters the poll again: every test of the flag stops it. */
  lemma EveryCheckAfterQuitStops(run: seq<Action>)
    requires LegalRun(INIT, run) && QuitAsked(run) && Enabled(After(INIT, run), CheckQuit)
    ensures Apply(After(INIT, run), CheckQuit).pc == Stopped
  {
    QuitIsStored(INIT, run);
  }

  /** Steps of the loop itself, and wakeups that are owed. */
  predicate OwnSteps(run: seq<Action>)
  {
    forall a :: a in run ==> Unaided(a) || a.QuitWake?
  }

  predicate Reaches(s: Loop, run: seq<Action>, s': Loop)
  {
    LegalRun(s, run) && OwnSteps(run) && After(s, run) == s'
  }

  lemma ReachesThen(s: Loop, run: seq<Action>, m: Loop, a: Action)
    requires Reaches(s, run, m) && Enabled(m, a) && (Unaided(a) || a.QuitWake?)
    ensures Reaches(s, run + [a], Apply(m, a))
  {
    OneStep(m, a);
    RunConcat(s, run, [a]);
  }

  lemma ReachesLeads(s: Loop, a: seq<Action>, m: Loop, b: seq<Action>, e: Loop)
    requires Reaches(s, a, m) && Leads(m, b, e)
    ensures Reaches(s, a + b, e)
  {
    RunConcat(s, a, b);
  }

  /** From dispatching, one pass comes back to the test of the flag, which is still set. */
  lemma PassToCheck(s: Loop) returns (run: seq<Action>, e: Loop)
    requires BaseInv(s) && s.quit && (s.pc.Handling? || s.pc == BeforeSwap)
    ensures Reaches(s, run, e) && e.pc == AtCheck && e.quit
  {
    var m := s;
    run := [];
    assert Reaches(s, run, m);
    if m.pc == Handling(true) {
      ReachesThen(s, run, m, ReadEventfd);
      run, m := run + [ReadEventfd], Apply(m, ReadEventfd);
    }
    if m.pc == Handling(false) {
      ReachesThen(s, run, m, EndHandling);
      run, m := run + [EndHandling], Apply(m, EndHandling);
    }
    ReachesThen(s, run, m, Swap);
    run, m := run + [Swap], Apply(m, Swap);
    var rest;
    rest, e := Drain(m);
    ReachesLeads(s, run, m, rest, e);
    run := run + rest;
  }

  /** Out of the poll, by the wakeup that quit owes. */
  lemma PollToCheck(s: Loop) returns (run: seq<Action>, e: Loop)
    requires BaseInv(s) && s.quit && s.pc == InPoll
    ensures Reaches(s, run, e) && e.pc == AtCheck && e.quit
  {
    var m := s;
    run := [];
    assert Reaches(s, run, m);
    if m.eventfd == 0 {
      var t :| t in m.quitting;
      ReachesThen(s, run, m, QuitWake(t));
      run, m := run + [QuitWake(t)], Apply(m, QuitWake(t));
    }
    ReachesThen(s, run, m, PollReturn(Wakeup));
    run, m := run + [PollReturn(Wakeup)], Apply(m, PollReturn(Wakeup));
    RunKeepsBase(s, run);
    var rest;
    rest, e := PassToCheck(m);
    RunConcat(s, run, rest);
    run := run + rest;
  }

  lemma ToCheck(s: Loop) returns (run: seq<Action>, e: Loop)
    requires BaseInv(s) && s.quit && s.pc != NotStarted && s.pc != Stopped
    ensures Reaches(s, run, e) && e.pc == AtCheck && e.quit
  {
    if s.pc == AtCheck {
      run, e := [], s;
    } else if s.pc == InPoll {
      run, e := PollToCheck(s);
    } else if s.pc.Handling? || s.pc == BeforeSwap {
      run, e := PassToCheck(s);
    } else {
      run, e := FinishBatch(s);
    }
  }

  /**
   * Quit ends the loop: whenever a started loop has been asked to quit, its own steps and the
   * wakeups still owed lead to the end of loop(), with no poll timeout and no other event.
   */
  lemma QuitEndsLoop(run: seq<Action>) returns (more: seq<Action>)
    requires LegalRun(INIT, run) && QuitAsked(run)
    ensures OwnSteps(more) && LegalRun(INIT, run + more) && After(INIT, run + more).pc == Stopped
  {
    RunKeepsBase(INIT, run);
    QuitIsStored(INIT, run);
    var s := After(INIT, run);
    if s.pc == Stopped {
      more := [];
      assert run + more == run;
    } else {
      var toCheck, e := ToCheck(s);
      ReachesThen(s, toCheck, e, CheckQuit);
      more := toCheck + [CheckQuit];
      RunConcat(INIT, run, more);
    }
  }

  /** Nothing else stops it. */
  lemma {:induction false} OnlyQuitStops(s: Loop, run: seq<Action>)
    requires !s.quit && s.pc != Stopped && LegalRun(s, run) && forall a :: a in run ==> !IsQuit(a)
    ensures !After(s, run).quit && After(s, run).pc != Stopped
    decreases |run|
  {
    if run != [] {
      assert run[0] in run && forall a :: a in run[1..] ==> a in run;
      OnlyQuitStops(Apply(s, run[0]), run[1..]);
    }
  }

  lemma NoQuitNoStop(run: seq<Action>)
    requires LegalRun(INIT, run) && forall a :: a in run ==> !IsQuit(a)
    ensures After(INIT, run).pc != Stopped
  {
    OnlyQuitStops(INIT, run);
  }

  /** A quit before loop() is forgotten: loop() clears the flag and polls. */
  lemma EarlyQuitIsForgotten()
    ensures var run := [StoreQuit(1), Start, CheckQuit];
      LegalRun(INIT, run) && After(INIT, run).pc == InPoll
  {
    var run := [StoreQuit(1), Start, CheckQuit];
    var s1 := Apply(INIT, StoreQuit(1));
    var s2 := Apply(s1, Start);
    OneStep(s2, CheckQuit);
    assert run[1..] == [Start, CheckQuit] && run[1..][1..] == [CheckQuit];
    assert LegalRun(s1, run[1..]) && After(s1, run[1..]) == Apply(s2, CheckQuit);
  }

  // ---- The eventfd ----

  predicate IsWakeup(a: Action)
  {
    a.Wake? || a.QuitWake? || a.LoopWake?
  }

  lemma {:induction false} QuietStaysZero(s: Loop, run: seq<Action>)
    requires s.eventfd == 0 && LegalRun(s, run) && forall a :: a in run ==> !IsWakeup(a)
    ensures After(s, run).eventfd == 0
    decreases |run|
  {
    if run != [] {
      assert run[0] in run && forall a :: a in run[1..] ==> a in run;
      QuietStaysZero(Apply(s, run[0]), run[1..]);
    }
  }

  /** A wakeup ends one poll: after its read the poll does not return for the eventfd until another thread writes. */
  lemma WakeupEndsOnePoll(s: Loop, run: seq<Action>)
    requires Enabled(s, ReadEventfd) && LegalRun(Apply(s, ReadEventfd), run) && forall a :: a in run ==> !IsWakeup(a)
    ensures !Enabled(After(Apply(s, ReadEventfd), run), PollReturn(Wakeup))
  {
    QuietStaysZero(Apply(s, ReadEventfd), run);
  }
}
