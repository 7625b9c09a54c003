/**
 * What an event leads to.  Every loop works its queue off in order, so from every state of a
 * run without double closes the statements and tasks of the loops alone bring an accepted
 * connection to UP, and a connection whose end of stream has been read to its removal.
 */
module CloseProgress {
  import opened Common
  import opened Lifecycle
  import opened CloseSafety

  /** A state of a run without double closes. */
  ghost predicate Good(s: Server)
  {
    Inv(s) && Calm(s)
  }

  /** Statements and tasks of loops only; nothing new arrives. */
  predicate LoopSteps(run: seq<Action>)
  {
    forall a :: a in run ==> a.Advance? || a.Take?
  }

  ghost predicate Leads(s: Server, run: seq<Action>, e: Server)
  {
    LegalRun(s, run) && LoopSteps(run) && After(s, run) == e && Good(e)
  }

  lemma StepLeads(s: Server, a: Action)
    requires Good(s) && Enabled(s, a) && (a.Advance? || a.Take?)
    ensures Leads(s, [a], Apply(s, a))
  {
    StepKeepsCalm(s, a);
    RunFrom(s, a, []);
    assert [a] + [] == [a];
  }

  lemma Chain(s: Server, a: seq<Action>, m: Server, b: seq<Action>, e: Server)
    requires Leads(s, a, m) && Leads(m, b, e)
    ensures Leads(s, a + b, e)
  {
    RunConcat(s, a, b);
  }

  /** Connection `c` waits in a queue, and loop `l` does something else. */
  ghost predicate Waits(s: Server, l: LoopId, c: ConnId)
  {
    l in s.frames && c in s.conns && s.conns[c].place.InQueue? && (s.frames[l].Busy? ==> s.frames[l].conn != c)
  }

  lemma WaitingIsElsewhere(s: Server, l: LoopId, c: ConnId)
    requires Inv(s) && l in s.frames && c in s.conns && s.conns[c].place.InQueue?
    ensures Waits(s, l, c)
  {
    assert FrameOk(s, l);
  }

  lemma StatementLeavesWaiting(s: Server, l: LoopId, c: ConnId)
    requires Good(s) && Waits(s, l, c) && Enabled(s, Advance(l))
    ensures var e := Apply(s, Advance(l));
      && c in e.conns && e.conns[c] == s.conns[c]
      && e.queues.Keys == s.queues.Keys && forall x :: x in s.queues ==> s.queues[x] <= e.queues[x]
  {
    assert FrameOk(s, l) && CalmFrame(s, s.frames[l]);
    if s.frames[l].Busy? {
      assert ConnOk(s, s.frames[l].conn);
      QueuesGrow(s, l, s.frames[l].pc, s.frames[l].conn, s.frames[l].rest);
    }
  }

  lemma QueuesGrow(s: Server, l: LoopId, pc: Pc, c: ConnId, rest: seq<Callback>)
    requires c in s.conns && s.conns[c].loop in s.queues && BASE in s.queues
    ensures var e := Execute(s, l, pc, c, rest);
      && e.queues.Keys == s.queues.Keys && (forall x :: x in s.queues ==> s.queues[x] <= e.queues[x])
      && (forall d :: d in s.conns && d != c ==> d in e.conns && e.conns[d] == s.conns[d])
  {
  }

  /** A loop finishes what it is doing while `c` waits in a queue. */
  lemma {:induction false} ToIdle(s: Server, l: LoopId, c: ConnId) returns (run: seq<Action>, e: Server)
    requires Good(s) && Waits(s, l, c)
    ensures Leads(s, run, e) && l in e.frames && e.frames[l] == Idle
    ensures c in e.conns && e.conns[c] == s.conns[c]
    ensures e.queues.Keys == s.queues.Keys && forall x :: x in s.queues ==> s.queues[x] <= e.queues[x]
    decreases if l in s.frames then Measure(s.frames[l]) else 0
  {
    if s.frames[l] == Idle {
      run, e := [], s;
    } else {
      assert FrameOk(s, l);
      StatementLeavesWaiting(s, l, c);
      StatementsEnd(s, l);
      StepLeads(s, Advance(l));
      var m := Apply(s, Advance(l));
      WaitingIsElsewhere(m, l, c);
      var rest;
      rest, e := ToIdle(m, l, c);
      Chain(s, [Advance(l)], m, rest, e);
      run := [Advance(l)] + rest;
    }
  }

  lemma TakeOwn(s: Server, l: LoopId)
    requires Good(s) && Enabled(s, Take(l))
    ensures var t := s.queues[l][0]; var e := Apply(s, Take(l));
      t.conn in s.conns && t.conn in e.conns && e.conns[t.conn].place == InFrame(FirstPc(t.kind))
  {
    assert s.queues[l][0] in s.queues[l];
    assert TaskOk(s, l, s.queues[l][0]);
  }

  /** The loop finishes what it is doing, and the i-th task of its queue is still there. */
  lemma IdleWithTask(s: Server, l: LoopId, i: nat, t: Task) returns (run: seq<Action>, e: Server)
    requires Good(s) && l in s.queues && i < |s.queues[l]| && s.queues[l][i] == t
    ensures Leads(s, run, e) && Enabled(e, Take(l)) && i < |e.queues[l]| && e.queues[l][i] == t
  {
    assert t in s.queues[l] && TaskOk(s, l, t);
    WaitingIsElsewhere(s, l, t.conn);
    run, e := ToIdle(s, l, t.conn);
  }

  /** Then it takes the first: the i-th itself, or the i-th is nearer to the front. */
  lemma OneTaken(s: Server, l: LoopId, i: nat, t: Task) returns (run: seq<Action>, e: Server)
    requires Good(s) && l in s.queues && i < |s.queues[l]| && s.queues[l][i] == t
    ensures Leads(s, run, e)
    ensures i == 0 ==> Taken(e, t)
    ensures i > 0 ==> l in e.queues && i - 1 < |e.queues[l]| && e.queues[l][i - 1] == t
  {
    var first, m := IdleWithTask(s, l, i, t);
    StepLeads(m, Take(l));
    e := Apply(m, Take(l));
    Chain(s, first, m, [Take(l)], e);
    run := first + [Take(l)];
    if i == 0 {
      TakeOwn(m, l);
    } else {
      TakeAnother(m, l, i);
    }
  }

  /** The connection is about to execute the first statement of task `t`. */
  ghost predicate Taken(s: Server, t: Task)
  {
    t.conn in s.conns && s.conns[t.conn].place == InFrame(FirstPc(t.kind))
  }

  /** The i-th task of a queue is taken in the end. */
  lemma {:induction false} TaskIsTaken(s: Server, l: LoopId, i: nat, t: Task) returns (run: seq<Action>, e: Server)
    requires Good(s) && l in s.queues && i < |s.queues[l]| && s.queues[l][i] == t
    ensures Leads(s, run, e) && Taken(e, t)
    decreases i
  {
    run, e := OneTaken(s, l, i, t);
    if i > 0 {
      var m := e;
      var rest;
      rest, e := TaskIsTaken(m, l, i - 1, t);
      Chain(s, run, m, rest, e);
      run := run + rest;
    }
  }

  lemma TakeAnother(s: Server, l: LoopId, i: nat)
    requires Good(s) && Enabled(s, Take(l)) && 0 < i < |s.queues[l]|
    ensures var e := Apply(s, Take(l)); l in e.queues && i - 1 < |e.queues[l]| && e.queues[l][i - 1] == s.queues[l][i]
  {
  }

  // ---- The way of one connection ----

  /** How far a connection is from its end; it passes through Open at 10. */
  function Stage(place: Place): nat
  {
    match place
    case InFrame(Accepted) => 15
    case InQueue(EstablishTask) => 14
    case InFrame(StoreConnected) => 13
    case InFrame(EnableReading) => 12
    case InFrame(CallUp) => 11
    case Open => 10
    case InFrame(StoreDisconnected) => 9
    case InFrame(DisableAll) => 8
    case InFrame(CallDown) => 7
    case InFrame(CallClose) => 6
    case InQueue(RemoveTask) => 5
    case InFrame(EraseEntry) => 4
    case InFrame(QueueDestroy) => 3
    case InQueue(DestroyTask) => 2
    case InFrame(Destroy) => 1
    case Dead => 0
  }

  const OPEN := 10

  /** Nearer to its end, but not past the open place. */
  predicate Nearer(before: nat, after: nat)
  {
    after < before && (before > OPEN ==> after >= OPEN)
  }

  ghost predicate At(s: Server, c: ConnId, stage: nat)
  {
    c in s.conns && Stage(s.conns[c].place) == stage
  }

  lemma StatementIsNearer(s: Server, l: LoopId, pc: Pc, c: ConnId, rest: seq<Callback>)
    requires c in s.conns
    ensures var e := Execute(s, l, pc, c, rest); c in e.conns && Nearer(Stage(InFrame(pc)), Stage(e.conns[c].place))
  {
  }

  lemma FindTask(q: seq<Task>, t: Task) returns (i: nat)
    requires t in q
    ensures i < |q| && q[i] == t
  {
    i :| 0 <= i < |q| && q[i] == t;
  }

  /** The loop that executes a statement about the connection brings it on. */
  lemma FrameComesNearer(s: Server, c: ConnId) returns (run: seq<Action>, e: Server)
    requires Good(s) && c in s.conns && s.conns[c].place.InFrame?
    ensures Leads(s, run, e) && c in e.conns && Nearer(Stage(s.conns[c].place), Stage(e.conns[c].place))
  {
    var k := s.conns[c];
    assert ConnOk(s, c);
    var l := HomeOfPc(k.place.pc, k);
    StatementIsNearer(s, l, k.place.pc, c, s.frames[l].rest);
    StepLeads(s, Advance(l));
    run, e := [Advance(l)], Apply(s, Advance(l));
  }

  lemma TaskComesNearer(kind: Kind)
    ensures Nearer(Stage(InQueue(kind)), Stage(InFrame(FirstPc(kind))))
  {
  }

  /** So does the loop that has it in its queue. */
  lemma QueueComesNearer(s: Server, c: ConnId) returns (run: seq<Action>, e: Server)
    requires Good(s) && c in s.conns && s.conns[c].place.InQueue?
    ensures Leads(s, run, e) && c in e.conns && Nearer(Stage(s.conns[c].place), Stage(e.conns[c].place))
  {
    var k := s.conns[c];
    assert ConnOk(s, c);
    var l, t := HomeOfTask(k.place.kind, k), Task(k.place.kind, c);
    var i := FindTask(s.queues[l], t);
    run, e := TaskIsTaken(s, l, i, t);
    TaskComesNearer(k.place.kind);
  }

  lemma ComesNearer(s: Server, c: ConnId, stage: nat) returns (run: seq<Action>, e: Server, stage': nat)
    requires Good(s) && At(s, c, stage) && stage != OPEN && stage != 0
    ensures Leads(s, run, e) && At(e, c, stage') && Nearer(stage, stage')
  {
    if s.conns[c].place.InFrame? {
      run, e := FrameComesNearer(s, c);
    } else {
      run, e := QueueComesNearer(s, c);
    }
    stage' := Stage(e.conns[c].place);
  }

  /** It arrives: at the open place when it is being established, at its end when it is being closed. */
  lemma {:induction false} Arrives(s: Server, c: ConnId, stage: nat) returns (run: seq<Action>, e: Server)
    requires Good(s) && At(s, c, stage)
    ensures Leads(s, run, e) && At(e, c, if stage >= OPEN then OPEN else 0)
    decreases stage
  {
    if stage == OPEN || stage == 0 {
      run, e := [], s;
    } else {
      var first, m, stage' := ComesNearer(s, c, stage);
      var rest;
      rest, e := Arrives(m, c, stage');
      Chain(s, first, m, rest, e);
      run := first + rest;
    }
  }

  lemma OpenIsUp(s: Server, c: ConnId)
    requires Good(s) && At(s, c, OPEN)
    ensures s.conns[c].chan == Registered && s.conns[c].ups == 1 && c in s.connections && !s.failed
  {
    assert s.conns[c].place == Open;
    assert ConnOk(s, c);
  }

  lemma DeadIsRemoved(s: Server, c: ConnId)
    requires Good(s) && At(s, c, 0)
    ensures s.conns[c].chan == Removed && s.conns[c].downs == 1 && c !in s.connections && !s.failed
  {
    assert s.conns[c].place == Dead;
    assert ConnOk(s, c);
  }

  /** Every accepted connection comes up: the loops' own steps register its channel and call UP once. */
  lemma AcceptedComesUp(s: Server, io: LoopId) returns (run: seq<Action>)
    requires Good(s) && Enabled(s, Accept(io))
    ensures LoopSteps(run) && LegalRun(s, [Accept(io)] + run)
    ensures var e := After(s, [Accept(io)] + run); var c := s.nextConnId;
      !e.failed && c in e.conns && e.conns[c].chan == Registered && e.conns[c].ups == 1 && c in e.connections
  {
    StepKeepsCalm(s, Accept(io));
    var m := Apply(s, Accept(io));
    var e;
    run, e := Arrives(m, s.nextConnId, 15);
    OpenIsUp(e, s.nextConnId);
    RunFrom(s, Accept(io), run);
  }

  /** The callbacks of a dispatch lead into handleClose. */
  lemma {:induction false} ReachesClose(s: Server, l: LoopId, c: ConnId, rest: seq<Callback>) returns (run: seq<Action>, e: Server)
    requires Good(s) && l in s.frames && s.frames[l] == Dispatching(c, rest) && Closes(rest) >= 1
    ensures Leads(s, run, e) && At(e, c, 9)
    decreases |rest|
  {
    assert FrameOk(s, l) && CalmFrame(s, s.frames[l]);
    StepLeads(s, Advance(l));
    var m := Apply(s, Advance(l));
    if Enters(rest[0]) {
      run, e := [Advance(l)], m;
    } else {
      assert rest[1..] != [];
      var more;
      more, e := ReachesClose(m, l, c, rest[1..]);
      Chain(s, [Advance(l)], m, more, e);
      run := [Advance(l)] + more;
    }
  }

  /**
   * Every end of stream leads on: when an event reports it on an idle registered connection,
   * the loops' own statements and tasks take the channel out of the poller and the connection
   * out of the map, and DOWN has been called exactly once.
   */
  lemma EndOfStreamRemoves(s: Server, c: ConnId, r: Revents, readsZero: bool) returns (run: seq<Action>)
    requires Good(s) && Enabled(s, Dispatch(c, r, readsZero)) && !DoubleClose(r, readsZero)
    requires (r.hup && !r.readable) || ((r.readable || r.pri) && readsZero)
    ensures LoopSteps(run) && LegalRun(s, [Dispatch(c, r, readsZero)] + run)
    ensures var e := After(s, [Dispatch(c, r, readsZero)] + run);
      !e.failed && c in e.conns && e.conns[c].chan == Removed && e.conns[c].downs == 1 && c !in e.connections
  {
    var a := Dispatch(c, r, readsZero);
    var first, m := DispatchCloses(s, c, r, readsZero);
    var rest, e := Arrives(m, c, 9);
    Chain(Apply(s, a), first, m, rest, e);
    DeadIsRemoved(e, c);
    run := first + rest;
    RunFrom(s, a, run);
  }

  lemma DispatchCloses(s: Server, c: ConnId, r: Revents, readsZero: bool) returns (run: seq<Action>, e: Server)
    requires Good(s) && Enabled(s, Dispatch(c, r, readsZero)) && !DoubleClose(r, readsZero)
    requires (r.hup && !r.readable) || ((r.readable || r.pri) && readsZero)
    ensures Leads(Apply(s, Dispatch(c, r, readsZero)), run, e) && At(e, c, 9)
  {
    var a := Dispatch(c, r, readsZero);
    EntersExactly(r, readsZero);
    StepKeepsCalm(s, a);
    assert Callbacks(r, readsZero) != [];
    run, e := ReachesClose(Apply(s, a), s.conns[c].loop, c, Callbacks(r, readsZero));
  }

  /** The ordinary close by a peer: POLLIN alone, and a read of zero bytes. */
  lemma PeerCloseRemoves(s: Server, c: ConnId) returns (run: seq<Action>)
    requires Good(s) && Enabled(s, Dispatch(c, READABLE, true))
    ensures LoopSteps(run) && LegalRun(s, [Dispatch(c, READABLE, true)] + run)
    ensures var e := After(s, [Dispatch(c, READABLE, true)] + run); c in e.conns && e.conns[c].chan == Removed
  {
    run := EndOfStreamRemoves(s, c, READABLE, true);
  }

  const READABLE := Revents(false, true, false, false, false, false, false)
}
