/**
 * Exactly when assertions and callbacks are safe: a dispatch that enters handleClose twice
 * fails its assertion and calls DOWN twice, whatever the other threads do, and nothing else
 * does.
 */
module CloseSafety {
  import opened Common
  import opened Lifecycle

  /** No dispatch of the run enters handleClose twice. */
  predicate NoDoubleClose(run: seq<Action>)
  {
    forall a :: a in run && a.Dispatch? ==> !DoubleClose(a.r, a.readsZero)
  }

  /** A loop enters handleClose at most once more, and only for an open connection. */
  predicate CalmFrame(s: Server, f: Frame)
  {
    match f
    case Idle => true
    case Busy(_, _, rest) => Closes(rest) == 0
    case Dispatching(c, rest) => Closes(rest) <= if c in s.conns && s.conns[c].place == Open then 1 else 0
  }

  predicate Calm(s: Server)
  {
    forall l :: l in s.frames ==> CalmFrame(s, s.frames[l])
  }

  lemma CalmExecute(s: Server, l: LoopId, m: LoopId)
    requires Inv(s) && Calm(s) && Enabled(s, Advance(l)) && m in s.frames && s.frames[l].Busy?
    ensures m in Statement(s, l).frames && CalmFrame(Statement(s, l), Statement(s, l).frames[m])
  {
    assert CalmFrame(s, s.frames[l]) && CalmFrame(s, s.frames[m]) && FrameOk(s, l);
    ExecuteElsewhere(s, l, s.frames[l].pc, s.frames[l].conn, s.frames[l].rest);
    ExecuteCalls(s, l, s.frames[l].pc, s.frames[l].conn, s.frames[l].rest);
  }

  /** A connection leaves the open place only in the dispatch of its own loop. */
  lemma CalmNextCallback(s: Server, l: LoopId, m: LoopId)
    requires Inv(s) && Calm(s) && Enabled(s, Advance(l)) && m in s.frames && s.frames[l].Dispatching?
    ensures AssertsHold(s, s.frames[l])
    ensures m in Statement(s, l).frames && CalmFrame(Statement(s, l), Statement(s, l).frames[m])
  {
    assert CalmFrame(s, s.frames[l]) && CalmFrame(s, s.frames[m]) && FrameOk(s, m);
    DispatchedIsOpen(s, l);
  }

  lemma CalmStatement(s: Server, l: LoopId, m: LoopId)
    requires Inv(s) && Calm(s) && Enabled(s, Advance(l)) && m in s.frames
    ensures AssertsHold(s, s.frames[l])
    ensures m in Statement(s, l).frames && CalmFrame(Statement(s, l), Statement(s, l).frames[m])
  {
    if s.frames[l].Busy? {
      BusyAssertsHold(s, l);
      CalmExecute(s, l, m);
    } else {
      CalmNextCallback(s, l, m);
    }
  }

  lemma CalmOther(s: Server, a: Action, m: LoopId)
    requires Inv(s) && Calm(s) && Enabled(s, a) && !a.Advance? && m in s.frames
    requires a.Dispatch? ==> !DoubleClose(a.r, a.readsZero)
    ensures m in Apply(s, a).frames && CalmFrame(Apply(s, a), Apply(s, a).frames[m])
  {
    assert CalmFrame(s, s.frames[m]);
    match a {
      case Accept(_) => NextIsFresh(s);
      case Take(l) =>
        assert s.queues[l][0] in s.queues[l];
        assert TaskOk(s, l, s.queues[l][0]);
      case Dispatch(c, r, readsZero) =>
        IdleRegisteredIsOpen(s, c);
        ClosesAtMostOnce(r, readsZero);
      case Shutdown(_) =>
    }
  }

  lemma StepKeepsCalm(s: Server, a: Action)
    requires Inv(s) && Calm(s) && Enabled(s, a) && (a.Dispatch? ==> !DoubleClose(a.r, a.readsZero))
    ensures Inv(Apply(s, a)) && Calm(Apply(s, a))
  {
    var s' := Apply(s, a);
    forall m | m in s'.frames
      ensures CalmFrame(s', s'.frames[m])
    {
      if a.Advance? {
        CalmStatement(s, a.l, m);
      } else {
        CalmOther(s, a, m);
      }
    }
    if a.Advance? {
      CalmStatement(s, a.l, a.l);
    }
    StepKeepsInv(s, a);
  }

  lemma {:induction false} RunKeepsCalm(s: Server, run: seq<Action>)
    requires Inv(s) && Calm(s) && LegalRun(s, run) && NoDoubleClose(run)
    ensures Inv(After(s, run))
    decreases |run|
  {
    if run != [] {
      assert run[0] in run;
      StepKeepsCalm(s, run[0]);
      RunKeepsCalm(Apply(s, run[0]), run[1..]);
    }
  }

  /** How often the frame of a loop will still call DOWN for `c`. */
  function Pending(f: Frame, c: ConnId): nat
  {
    match f
    case Idle => 0
    case Dispatching(d, rest) => if d == c then Closes(rest) else 0
    case Busy(pc, d, rest) =>
      if d == c then Closes(rest) + (if pc.StoreDisconnected? || pc.DisableAll? || pc.CallDown? then 1 else 0) else 0
  }

  /** The frame of a loop will enter handleClose for a connection that is disconnected by then. */
  predicate WillFail(s: Server, f: Frame, c: ConnId)
    requires c in s.conns
  {
    || s.failed
    || match f
       case Idle => false
       case Dispatching(d, rest) =>
         d == c && (Closes(rest) >= 2 || (Closes(rest) >= 1 && s.conns[c].state == Disconnected))
       case Busy(pc, d, rest) =>
         d == c && Closes(rest) >= 1 && (pc == StoreDisconnected || s.conns[c].state == Disconnected)
  }

  /** Loop `l` has made, or will make, two DOWN calls for `c`, and an assertion has failed or will. */
  predicate Doomed(s: Server, l: LoopId, c: ConnId)
  {
    && c in s.conns && c < s.nextConnId && l in s.frames
    && s.conns[c].downs + Pending(s.frames[l], c) >= 2 && WillFail(s, s.frames[l], c)
  }

  /** A statement about `c` on loop `l` concerns nothing else that the doom speaks of. */
  lemma ExecuteElsewhere(s: Server, l: LoopId, pc: Pc, c: ConnId, rest: seq<Callback>)
    requires c in s.conns && l in s.frames
    ensures var s' := Execute(s, l, pc, c, rest);
      && s'.nextConnId == s.nextConnId && s'.conns.Keys == s.conns.Keys && s'.frames.Keys == s.frames.Keys
      && (forall d :: d in s.conns && d != c ==> s'.conns[d] == s.conns[d])
      && (forall m :: m in s.frames && m != l ==> s'.frames[m] == s.frames[m])
  {
  }

  lemma ExecuteCalls(s: Server, l: LoopId, pc: Pc, c: ConnId, rest: seq<Callback>)
    requires c in s.conns && l in s.frames
    ensures var s' := Execute(s, l, pc, c, rest);
      && (s'.frames[l] == Leave(c, rest) || (s'.frames[l].Busy? && s'.frames[l].conn == c && s'.frames[l].rest == rest))
      && s.conns[c].downs <= s'.conns[c].downs
      && s.conns[c].downs + Pending(Busy(pc, c, rest), c) <= s'.conns[c].downs + Pending(s'.frames[l], c)
  {
  }

  lemma ExecuteDisconnects(s: Server, l: LoopId, pc: Pc, c: ConnId, rest: seq<Callback>)
    requires c in s.conns && l in s.frames
    requires pc == StoreDisconnected || (pc != StoreConnected && s.conns[c].state == Disconnected)
    ensures Execute(s, l, pc, c, rest).conns[c].state == Disconnected
    ensures !(Execute(s, l, pc, c, rest).frames[l] == Busy(StoreDisconnected, c, rest))
  {
  }

  /** The doom of a connection by loop `l`, when some loop executes a statement about it. */
  lemma ExecuteKeepsDoom(s: Server, l: LoopId, m: LoopId, c: ConnId)
    requires Doomed(s, l, c) && Enabled(s, Advance(m)) && s.frames[m].Busy? && s.frames[m].conn == c
    ensures Doomed(Apply(s, Advance(m)), l, c)
  {
    var pc, rest := s.frames[m].pc, s.frames[m].rest;
    ExecuteElsewhere(s, m, pc, c, rest);
    ExecuteCalls(s, m, pc, c, rest);
    if s.conns[c].state == Disconnected && pc != StoreConnected {
      ExecuteDisconnects(s, m, pc, c, rest);
    } else if pc == StoreDisconnected {
      ExecuteDisconnects(s, m, pc, c, rest);
    }
  }

  lemma NextCallbackKeepsDoom(s: Server, l: LoopId, m: LoopId, c: ConnId)
    requires Doomed(s, l, c) && Enabled(s, Advance(m)) && s.frames[m].Dispatching?
    ensures Doomed(Apply(s, Advance(m)), l, c)
  {
    var d, rest := s.frames[m].conn, s.frames[m].rest;
    assert Closes([]) == 0;
    if rest != [] {
      assert Closes(rest) == (if Enters(rest[0]) then 1 else 0) + Closes(rest[1..]);
    }
  }

  lemma StatementKeepsDoom(s: Server, l: LoopId, m: LoopId, c: ConnId)
    requires Doomed(s, l, c) && Enabled(s, Advance(m))
    ensures Doomed(Apply(s, Advance(m)), l, c)
  {
    if s.frames[m].Dispatching? {
      NextCallbackKeepsDoom(s, l, m, c);
    } else if s.frames[m].conn == c {
      ExecuteKeepsDoom(s, l, m, c);
    } else {
      ExecuteElsewhere(s, m, s.frames[m].pc, s.frames[m].conn, s.frames[m].rest);
      ExecuteCalls(s, m, s.frames[m].pc, s.frames[m].conn, s.frames[m].rest);
    }
  }

  /** No step of any thread can avert it. */
  lemma StepKeepsDoom(s: Server, a: Action, l: LoopId, c: ConnId)
    requires Doomed(s, l, c) && Enabled(s, a)
    ensures Doomed(Apply(s, a), l, c)
  {
    if a.Advance? {
      StatementKeepsDoom(s, l, a.l, c);
    }
  }

  lemma {:induction false} RunKeepsDoom(s: Server, run: seq<Action>, l: LoopId, c: ConnId)
    requires Doomed(s, l, c) && LegalRun(s, run)
    ensures Doomed(After(s, run), l, c)
    decreases |run|
  {
    if run != [] {
      StepKeepsDoom(s, run[0], l, c);
      RunKeepsDoom(Apply(s, run[0]), run[1..], l, c);
    }
  }

  predicate Numbered(s: Server)
  {
    forall c :: c in s.conns ==> c < s.nextConnId
  }

  lemma StepKeepsNumbered(s: Server, a: Action)
    requires Numbered(s) && Enabled(s, a)
    ensures Numbered(Apply(s, a))
  {
    if a.Advance? && s.frames[a.l].Busy? {
      ExecuteElsewhere(s, a.l, s.frames[a.l].pc, s.frames[a.l].conn, s.frames[a.l].rest);
    }
  }

  lemma DispatchDooms(s: Server, a: Action)
    requires Numbered(s) && Enabled(s, a) && a.Dispatch? && DoubleClose(a.r, a.readsZero)
    ensures Doomed(Apply(s, a), s.conns[a.c].loop, a.c)
  {
    ClosesAtMostOnce(a.r, a.readsZero);
  }

  /** A dispatch that enters handleClose twice dooms its connection. */
  lemma {:induction false} DoubleCloseDooms(s: Server, run: seq<Action>) returns (l: LoopId, c: ConnId)
    requires Numbered(s) && LegalRun(s, run) && !NoDoubleClose(run)
    ensures Doomed(After(s, run), l, c)
    decreases |run|
  {
    var s1 := Apply(s, run[0]);
    if run[0].Dispatch? && DoubleClose(run[0].r, run[0].readsZero) {
      c := run[0].c;
      l := s.conns[c].loop;
      DispatchDooms(s, run[0]);
      RunKeepsDoom(s1, run[1..], l, c);
    } else {
      assert run == [run[0]] + run[1..];
      StepKeepsNumbered(s, run[0]);
      l, c := DoubleCloseDooms(s1, run[1..]);
    }
  }

  /** Statements still to come before the frame is idle, at most. */
  function Measure(f: Frame): nat
  {
    match f
    case Idle => 0
    case Dispatching(_, rest) => 10 * |rest| + 1
    case Busy(pc, _, rest) =>
      10 * |rest| + 1 +
      match pc
      case StoreDisconnected => 7
      case DisableAll => 6
      case CallDown => 5
      case Accepted | CallClose => 4
      case StoreConnected | EraseEntry => 3
      case EnableReading => 2
      case _ => 1
  }

  lemma ExecuteEnds(s: Server, l: LoopId, pc: Pc, c: ConnId, rest: seq<Callback>)
    requires c in s.conns && l in s.frames
    ensures Measure(Execute(s, l, pc, c, rest).frames[l]) < Measure(Busy(pc, c, rest))
  {
  }

  lemma NextCallbackEnds(s: Server, l: LoopId, c: ConnId, rest: seq<Callback>)
    requires c in s.conns && l in s.frames
    ensures Measure(NextCallback(s, l, c, rest).frames[l]) < Measure(Dispatching(c, rest))
  {
  }

  lemma StatementsEnd(s: Server, l: LoopId)
    requires Enabled(s, Advance(l))
    ensures l in Apply(s, Advance(l)).frames && Measure(Apply(s, Advance(l)).frames[l]) < Measure(s.frames[l])
  {
    match s.frames[l] {
      case Busy(pc, c, rest) => ExecuteEnds(s, l, pc, c, rest);
      case Dispatching(c, rest) => NextCallbackEnds(s, l, c, rest);
    }
  }

  /** Statements of loops only. */
  predicate Statements(run: seq<Action>)
  {
    forall a :: a in run ==> a.Advance?
  }

  /** The statements of the one loop bring it about. */
  lemma {:induction false} DoomComes(s: Server, l: LoopId, c: ConnId) returns (more: seq<Action>)
    requires Doomed(s, l, c)
    ensures Statements(more) && LegalRun(s, more)
    ensures var e := After(s, more); e.failed && c in e.conns && e.conns[c].downs >= 2
    decreases if l in s.frames then Measure(s.frames[l]) else 0
  {
    if s.frames[l] == Idle || s.frames[l].conn != c {
      more := [];
    } else {
      var s1 := Apply(s, Advance(l));
      StepKeepsDoom(s, Advance(l), l, c);
      StatementsEnd(s, l);
      var rest := DoomComes(s1, l, c);
      more := [Advance(l)] + rest;
      assert more[0] == Advance(l) && more[1..] == rest;
    }
  }

  lemma {:induction false} RunConcat(s: Server, a: seq<Action>, b: seq<Action>)
    requires LegalRun(s, a)
    ensures LegalRun(s, a + b) <==> LegalRun(After(s, a), b)
    ensures LegalRun(s, a + b) ==> After(s, a + b) == After(After(s, a), b)
    decreases |a|
  {
    if a == [] {
      assert a + b == b;
    } else {
      RunConcat(Apply(s, a[0]), a[1..], b);
      assert (a + b)[0] == a[0] && (a + b)[1..] == a[1..] + b;
    }
  }

  lemma DoubleCloseShows(s0: Server, run: seq<Action>) returns (more: seq<Action>, c: ConnId)
    requires Init(s0) && LegalRun(s0, run) && !NoDoubleClose(run)
    ensures Statements(more) && LegalRun(s0, run + more)
    ensures var e := After(s0, run + more); e.failed && c in e.conns && e.conns[c].downs >= 2
  {
    var l;
    l, c := DoubleCloseDooms(s0, run);
    more := DoomComes(After(s0, run), l, c);
    RunConcat(s0, run, more);
  }

  lemma CalmRun(s0: Server, run: seq<Action>, more: seq<Action>)
    requires Init(s0) && NoDoubleClose(run) && Statements(more) && LegalRun(s0, run + more)
    ensures Inv(After(s0, run + more))
  {
    RunKeepsCalm(s0, run + more);
  }

  /**
   * No assertion of the code fails, in the run or in any statements its loops still have to
   * execute, exactly when no dispatch of the run enters handleClose twice.
   */
  lemma NoAssertionFails(s0: Server, run: seq<Action>)
    requires Init(s0) && LegalRun(s0, run)
    ensures (forall more :: Statements(more) && LegalRun(s0, run + more) ==> !After(s0, run + more).failed)
       <==> NoDoubleClose(run)
  {
    if NoDoubleClose(run) {
      forall more | Statements(more) && LegalRun(s0, run + more)
        ensures !After(s0, run + more).failed
      {
        CalmRun(s0, run, more);
      }
    } else {
      var more, c := DoubleCloseShows(s0, run);
    }
  }

  /**
   * Callbacks: UP at most once, DOWN at most once and after it, exactly when no dispatch of the
   * run enters handleClose twice.  Up to the first failed assertion it holds in any run.
   */
  lemma CallbacksOnceInOrder(s0: Server, run: seq<Action>)
    requires Init(s0) && LegalRun(s0, run)
    ensures !After(s0, run).failed ==> forall c :: c in After(s0, run).conns ==> OnceInOrder(After(s0, run).conns[c])
    ensures (forall more, c :: Statements(more) && LegalRun(s0, run + more) && c in After(s0, run + more).conns ==>
               OnceInOrder(After(s0, run + more).conns[c]))
       <==> NoDoubleClose(run)
  {
    if !After(s0, run).failed {
      RunKeepsInv(s0, run);
      InvGivesOrder(After(s0, run));
    }
    if NoDoubleClose(run) {
      forall more, c | Statements(more) && LegalRun(s0, run + more) && c in After(s0, run + more).conns
        ensures OnceInOrder(After(s0, run + more).conns[c])
      {
        CalmRun(s0, run, more);
        InvGivesOrder(After(s0, run + more));
      }
    } else {
      var more, c := DoubleCloseShows(s0, run);
      assert !OnceInOrder(After(s0, run + more).conns[c]);
    }
  }

  lemma InvGivesOrder(s: Server)
    requires Inv(s)
    ensures forall c :: c in s.conns ==> OnceInOrder(s.conns[c])
  {
    assert forall c :: c in s.conns ==> ConnOk(s, c);
  }

  const URGENT_HANGUP := Revents(true, false, true, false, false, false, false)

  lemma RunFrom(s: Server, a: Action, run: seq<Action>)
    requires Enabled(s, a) && LegalRun(Apply(s, a), run)
    ensures LegalRun(s, [a] + run) && After(s, [a] + run) == After(Apply(s, a), run)
  {
    assert ([a] + run)[1..] == run;
  }

  /** The excluded dispatch can happen: a new connection, then a hang-up with urgent data. */
  lemma DoubleCloseHappens(s0: Server)
    requires Init(s0)
    ensures var run := [Accept(BASE), Advance(BASE), Advance(BASE), Advance(BASE), Advance(BASE),
                        Dispatch(1, URGENT_HANGUP, true)];
      LegalRun(s0, run) && !NoDoubleClose(run)
  {
    var s1 := Apply(s0, Accept(BASE));
    var s2 := Apply(s1, Advance(BASE));
    var s3 := Apply(s2, Advance(BASE));
    var s4 := Apply(s3, Advance(BASE));
    var s5 := Apply(s4, Advance(BASE));
    var d := Dispatch(1, URGENT_HANGUP, true);
    RunFrom(s5, d, []);
    var r5 := [d] + [];
    RunFrom(s4, Advance(BASE), r5);
    var r4 := [Advance(BASE)] + r5;
    RunFrom(s3, Advance(BASE), r4);
    var r3 := [Advance(BASE)] + r4;
    RunFrom(s2, Advance(BASE), r3);
    var r2 := [Advance(BASE)] + r3;
    RunFrom(s1, Advance(BASE), r2);
    RunFrom(s0, Accept(BASE), [Advance(BASE)] + r2);
    var run := [Accept(BASE), Advance(BASE), Advance(BASE), Advance(BASE), Advance(BASE), d];
    assert [Accept(BASE)] + ([Advance(BASE)] + r2) == run;
    assert run[5] == d;
  }
}
