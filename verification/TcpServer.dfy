/**
 * The life of connections across loops.  The acceptor's loop creates a connection and keeps
 * it in a map; its I/O loop establishes and closes it; the close goes back to the base loop,
 * which erases the map entry and sends the connection to its I/O loop once more to be
 * destroyed.  Every action is one statement that other threads can observe; any thread may
 * call shutdown() at any point.  An assertion that fails is recorded and the run goes on.
 */
module Lifecycle {
  import opened Common
  import LogStream

  type LoopId = nat
  type ConnId = nat

  const BASE: LoopId := 0

  datatype Chan = Unregistered | Registered | Disabled | Removed

  /** The statement a loop is about to execute on a connection. */
  datatype Pc =
    | Accepted                                  // newConnection, after the map insertion
    | StoreConnected | EnableReading | CallUp   // connectEstablished
    | StoreDisconnected | DisableAll | CallDown | CallClose   // handleClose
    | EraseEntry | QueueDestroy                 // removeConnectionInLoop
    | Destroy                                   // connectDestroyed

  /** The callbacks a dispatch makes; a read that returns zero bytes calls handleClose. */
  datatype Callback = CloseCallback | ErrorCallback | ReadCallback(zero: bool) | WriteCallback

  datatype Kind = EstablishTask | RemoveTask | DestroyTask

  datatype Task = Task(kind: Kind, conn: ConnId)

  /**
   * What a loop's thread is doing: nothing, a statement about a connection, or the callbacks
   * of an event dispatch, of which `rest` are still to come.  Unless it is idle its stack holds
   * a reference to the connection.
   */
  datatype Frame =
    | Idle
    | Busy(pc: Pc, conn: ConnId, rest: seq<Callback>)
    | Dispatching(conn: ConnId, rest: seq<Callback>)

  /** History: where the one lifecycle token of a connection is. */
  datatype Place = InFrame(pc: Pc) | InQueue(kind: Kind) | Open | Dead

  datatype Conn = Conn(loop: LoopId, state: State, chan: Chan, ups: nat, downs: nat, place: Place)

  datatype Server = Server(
    conns: map<ConnId, Conn>,
    nextConnId: nat,
    connections: set<ConnId>,         // the map's entries; names and numbers correspond (NamesDiffer)
    queues: map<LoopId, seq<Task>>,
    frames: map<LoopId, Frame>,
    failed: bool                      // history: an assertion has failed
  )

  const NAME_BUFFER: nat := 64
  const MAX_IP_PORT: nat := 21      // 255.255.255.255:65535

  /** snprintf into a buffer of 64 bytes: at most 63 characters and a NUL. */
  function Truncated(s: string): string
  {
    if |s| < NAME_BUFFER then s else s[..NAME_BUFFER - 1]
  }

  /** The name given to connection number `c` by a server that listens on `ipPort`. */
  function Name(server: string, ipPort: string, c: ConnId): string
  {
    server + Truncated("-" + ipPort + "#" + LogStream.Decimal(c))
  }

  lemma NameFits(ipPort: string, c: ConnId)
    requires |ipPort| <= MAX_IP_PORT && c <= LogStream.MAX_UINT64
    ensures var s := "-" + ipPort + "#" + LogStream.Decimal(c);
      Truncated(s) == s && s[|ipPort| + 2..] == LogStream.Decimal(c)
  {
    LogStream.DecimalFits(c);
  }

  /** For every IPv4 address the buffer holds the whole name, so different numbers give different names. */
  lemma NamesDiffer(server: string, ipPort: string, c: ConnId, d: ConnId)
    requires |ipPort| <= MAX_IP_PORT && c <= LogStream.MAX_UINT64 && d <= LogStream.MAX_UINT64
    ensures Name(server, ipPort, c) == Name(server, ipPort, d) ==> c == d
  {
    NameFits(ipPort, c);
    NameFits(ipPort, d);
    LogStream.DecimalRoundTrip(c);
    LogStream.DecimalRoundTrip(d);
    var a, b := "-" + ipPort + "#" + LogStream.Decimal(c), "-" + ipPort + "#" + LogStream.Decimal(d);
    assert (server + a)[|server|..] == a && (server + b)[|server|..] == b;
  }

  predicate Init(s: Server)
  {
    && s.conns == map[] && s.connections == {} && s.nextConnId == 1 && !s.failed
    && BASE in s.queues && s.frames.Keys == s.queues.Keys
    && (forall l :: l in s.queues ==> s.queues[l] == [] && s.frames[l] == Idle)
  }

  // ---- One event dispatch ----

  /** The bits of revents that the dispatch looks at. */
  datatype Revents = Revents(hup: bool, readable: bool, pri: bool, rdhup: bool, nval: bool, err: bool, out: bool)

  function Callbacks(r: Revents, readsZero: bool): seq<Callback>
  {
    When(r.hup && !r.readable, CloseCallback)
    + When(r.err || r.nval, ErrorCallback)
    + When(r.readable || r.pri || r.rdhup, ReadCallback(readsZero))
    + When(r.out, WriteCallback)
  }

  function When(condition: bool, cb: Callback): (cbs: seq<Callback>)
    ensures |cbs| <= 1 && forall x :: x in cbs <==> condition && x == cb
  {
    if condition then [cb] else []
  }

  /** Does the callback enter handleClose? */
  predicate Enters(cb: Callback)
  {
    cb == CloseCallback || cb == ReadCallback(true)
  }

  /** How often the callbacks enter handleClose. */
  function Closes(cbs: seq<Callback>): nat
  {
    if cbs == [] then 0 else (if Enters(cbs[0]) then 1 else 0) + Closes(cbs[1..])
  }

  /** A hang-up without POLLIN, but with urgent data or a half-close, whose read then returns zero. */
  predicate DoubleClose(r: Revents, readsZero: bool)
  {
    r.hup && !r.readable && (r.pri || r.rdhup) && readsZero
  }

  lemma {:induction false} ClosesAppend(a: seq<Callback>, b: seq<Callback>)
    ensures Closes(a + b) == Closes(a) + Closes(b)
  {
    if a == [] {
      assert a + b == b;
    } else {
      assert (a + b)[1..] == a[1..] + b;
      ClosesAppend(a[1..], b);
    }
  }

  lemma ClosesOne(cb: Callback)
    ensures Closes([cb]) == if Enters(cb) then 1 else 0
  {
    assert [cb][1..] == [];
  }

  /** A dispatch enters handleClose at most once, unless it is of this kind; then it does so twice. */
  lemma ClosesAtMostOnce(r: Revents, readsZero: bool)
    ensures Closes(Callbacks(r, readsZero)) <= 2
    ensures Closes(Callbacks(r, readsZero)) <= 1 <==> !DoubleClose(r, readsZero)
  {
    var a := When(r.hup && !r.readable, CloseCallback);
    var b := When(r.err || r.nval, ErrorCallback);
    var c := When(r.readable || r.pri || r.rdhup, ReadCallback(readsZero));
    var d := When(r.out, WriteCallback);
    ClosesAppend(a + b + c, d);
    ClosesAppend(a + b, c);
    ClosesAppend(a, b);
    ClosesOne(CloseCallback);
    ClosesOne(ErrorCallback);
    ClosesOne(ReadCallback(readsZero));
    ClosesOne(WriteCallback);
  }

  /** handleClose is entered at all exactly for a hang-up without POLLIN, or for a read of zero bytes. */
  lemma EntersExactly(r: Revents, readsZero: bool)
    ensures Closes(Callbacks(r, readsZero)) >= 1 <==>
      (r.hup && !r.readable) || ((r.readable || r.pri || r.rdhup) && readsZero)
  {
    var a := When(r.hup && !r.readable, CloseCallback);
    var b := When(r.err || r.nval, ErrorCallback);
    var c := When(r.readable || r.pri || r.rdhup, ReadCallback(readsZero));
    var d := When(r.out, WriteCallback);
    ClosesAppend(a + b + c, d);
    ClosesAppend(a + b, c);
    ClosesAppend(a, b);
    ClosesOne(CloseCallback);
    ClosesOne(ErrorCallback);
    ClosesOne(ReadCallback(readsZero));
    ClosesOne(WriteCallback);
  }

  function Order(cb: Callback): nat
  {
    match cb
    case CloseCallback => 0
    case ErrorCallback => 1
    case ReadCallback(_) => 2
    case WriteCallback => 3
  }

  lemma InFour(a: seq<Callback>, b: seq<Callback>, c: seq<Callback>, d: seq<Callback>)
    ensures forall x :: x in a + b + c + d <==> x in a || x in b || x in c || x in d
    ensures d != [] ==> (a + b + c + d)[|a + b + c + d| - 1] == d[|d| - 1]
  {
  }

  lemma FourInOrder(a: seq<Callback>, b: seq<Callback>, c: seq<Callback>, d: seq<Callback>)
    requires |a| <= 1 && |b| <= 1 && |c| <= 1 && |d| <= 1
    requires (a != [] ==> Order(a[0]) == 0) && (b != [] ==> Order(b[0]) == 1)
    requires (c != [] ==> Order(c[0]) == 2) && (d != [] ==> Order(d[0]) == 3)
    ensures Below(a + b + c + d, 4)
  {
    InOrder(a, b, 1);
    InOrder(a + b, c, 2);
    InOrder(a + b + c, d, 3);
  }

  /** Which callbacks a dispatch makes. */
  lemma DispatchMakes(r: Revents, readsZero: bool)
    ensures var cbs := Callbacks(r, readsZero);
      && (CloseCallback in cbs <==> r.hup && !r.readable)
      && (ErrorCallback in cbs <==> r.err || r.nval)
      && (ReadCallback(readsZero) in cbs <==> r.readable || r.pri || r.rdhup) && ReadCallback(!readsZero) !in cbs
      && (WriteCallback in cbs <==> r.out)
  {
    var a := When(r.hup && !r.readable, CloseCallback);
    var b := When(r.err || r.nval, ErrorCallback);
    var c := When(r.readable || r.pri || r.rdhup, ReadCallback(readsZero));
    var d := When(r.out, WriteCallback);
    InFour(a, b, c, d);
  }

  /** It makes each once, in the order close, error, read, write; a writable event always comes to its callback, last. */
  lemma DispatchOrder(r: Revents, readsZero: bool)
    ensures var cbs := Callbacks(r, readsZero); Below(cbs, 4) && (r.out ==> cbs != [] && cbs[|cbs| - 1] == WriteCallback)
  {
    var a := When(r.hup && !r.readable, CloseCallback);
    var b := When(r.err || r.nval, ErrorCallback);
    var c := When(r.readable || r.pri || r.rdhup, ReadCallback(readsZero));
    var d := When(r.out, WriteCallback);
    FourInOrder(a, b, c, d);
    InFour(a, b, c, d);
    if r.out {
      assert d == [WriteCallback];
    }
  }

  /** In strictly ascending order, and all below `n`. */
  predicate Below(cbs: seq<Callback>, n: nat)
  {
    && (forall i :: 0 <= i < |cbs| ==> Order(cbs[i]) < n)
    && (forall i, j :: 0 <= i < j < |cbs| ==> Order(cbs[i]) < Order(cbs[j]))
  }

  lemma InOrder(a: seq<Callback>, b: seq<Callback>, n: nat)
    requires Below(a, n) && |b| <= 1 && (b != [] ==> Order(b[0]) == n)
    ensures Below(a + b, n + 1)
  {
  }

  // ---- Steps ----

  datatype Action =
    | Accept(io: LoopId)
    | Take(l: LoopId)              // the loop takes the next task of its queue
    | Dispatch(c: ConnId, r: Revents, readsZero: bool)   // the poller reports the channel, the guard is locked
    | Advance(l: LoopId)           // the loop executes its next statement
    | Shutdown(c: ConnId)          // any thread

  /** Channels register POLLIN, POLLPRI and POLLOUT only, so POLLRDHUP is never reported. */
  predicate Enabled(s: Server, a: Action)
  {
    match a
    case Accept(io) => io in s.queues && BASE in s.frames && s.frames[BASE] == Idle
    case Take(l) => l in s.queues && l in s.frames && s.frames[l] == Idle && s.queues[l] != []
    case Dispatch(c, r, _) =>
      && c in s.conns && s.conns[c].loop in s.frames && s.frames[s.conns[c].loop] == Idle
      && s.conns[c].chan == Registered && !r.rdhup
    case Advance(l) => l in s.frames && s.frames[l] != Idle && s.frames[l].conn in s.conns
    case Shutdown(c) => c in s.conns
  }

  function FirstPc(k: Kind): Pc
  {
    match k
    case EstablishTask => StoreConnected
    case RemoveTask => EraseEntry
    case DestroyTask => Destroy
  }

  /** The frame of a loop after a callback, with `rest` still to come. */
  function Leave(c: ConnId, rest: seq<Callback>): Frame
  {
    if rest == [] then Idle else Dispatching(c, rest)
  }

  /** The loop goes on with the same connection at `pc`. */
  function Goto(s: Server, l: LoopId, c: ConnId, rest: seq<Callback>, k: Conn, pc: Pc): Server
  {
    s.(conns := s.conns[c := k.(place := InFrame(pc))], frames := s.frames[l := Busy(pc, c, rest)])
  }

  /** The loop returns; the connection is now at `place`. */
  function Return(s: Server, l: LoopId, c: ConnId, rest: seq<Callback>, k: Conn, place: Place): Server
  {
    s.(conns := s.conns[c := k.(place := place)], frames := s.frames[l := Leave(c, rest)])
  }

  /** The loop returns after pushing a task for the connection to the queue of loop `target`. */
  function Send(s: Server, l: LoopId, c: ConnId, rest: seq<Callback>, k: Conn, kind: Kind, target: LoopId): Server
  {
    var q := if target in s.queues then s.queues[target] else [];
    Return(s, l, c, rest, k, InQueue(kind)).(queues := s.queues[target := q + [Task(kind, c)]])
  }

  /** One statement of the frame of loop `l`.  runInLoop calls directly when it is its own loop. */
  function Execute(s: Server, l: LoopId, pc: Pc, c: ConnId, rest: seq<Callback>): Server
    requires c in s.conns
  {
    var k := s.conns[c];
    match pc
    case Accepted =>
      if k.loop == BASE then Goto(s, l, c, rest, k, StoreConnected) else Send(s, l, c, rest, k, EstablishTask, k.loop)
    case StoreConnected => Goto(s, l, c, rest, k.(state := Connected), EnableReading)
    case EnableReading => Goto(s, l, c, rest, k.(chan := Registered), CallUp)
    case CallUp => Return(s, l, c, rest, k.(ups := k.ups + 1), Open)
    case StoreDisconnected => Goto(s, l, c, rest, k.(state := Disconnected), DisableAll)
    case DisableAll => Goto(s, l, c, rest, k.(chan := Disabled), CallDown)
    case CallDown => Goto(s, l, c, rest, k.(downs := k.downs + 1), CallClose)
    case CallClose =>
      if l == BASE then Goto(s, l, c, rest, k, EraseEntry) else Send(s, l, c, rest, k, RemoveTask, BASE)
    case EraseEntry => Goto(s, l, c, rest, k, QueueDestroy).(connections := s.connections - {c})
    case QueueDestroy => Send(s, l, c, rest, k, DestroyTask, k.loop)
    case Destroy =>
      var k' := if k.state == Connected then k.(state := Disconnected, chan := Disabled, downs := k.downs + 1) else k;
      Return(s, l, c, rest, k'.(chan := Removed), Dead)
  }

  /** The next callback of a dispatch: into handleClose, or past it. */
  function NextCallback(s: Server, l: LoopId, c: ConnId, rest: seq<Callback>): Server
    requires c in s.conns
  {
    if rest == [] then s.(frames := s.frames[l := Idle])
    else if Enters(rest[0]) then Goto(s, l, c, rest[1..], s.conns[c], StoreDisconnected)
    else s.(frames := s.frames[l := Leave(c, rest[1..])])
  }

  /** The assertions the code makes at the statement about to be executed; handleClose makes one on entry. */
  predicate AssertsHold(s: Server, f: Frame)
    requires f != Idle && f.conn in s.conns
  {
    var k := s.conns[f.conn];
    match f
    case Dispatching(_, rest) =>
      rest != [] && Enters(rest[0]) ==> k.state == Connected || k.state == Disconnecting
    case Busy(pc, c, _) =>
      match pc
      case StoreConnected => k.state == Connecting
      case EraseEntry => c in s.connections
      case Destroy => k.state == Connected || k.chan == Disabled
      case _ => true
  }

  function Statement(s: Server, l: LoopId): Server
    requires Enabled(s, Advance(l))
  {
    match s.frames[l]
    case Busy(pc, c, rest) => Execute(s, l, pc, c, rest)
    case Dispatching(c, rest) => NextCallback(s, l, c, rest)
  }

  function Apply(s: Server, a: Action): Server
    requires Enabled(s, a)
  {
    match a
    case Accept(io) =>
      var c := s.nextConnId;
      s.(nextConnId := c + 1,
         conns := s.conns[c := Conn(io, Connecting, Unregistered, 0, 0, InFrame(Accepted))],
         connections := s.connections + {c},
         frames := s.frames[BASE := Busy(Accepted, c, [])])
    case Take(l) =>
      var t := s.queues[l][0];
      var s1 := s.(queues := s.queues[l := s.queues[l][1..]], frames := s.frames[l := Busy(FirstPc(t.kind), t.conn, [])]);
      if t.conn in s.conns then
        s1.(conns := s.conns[t.conn := s.conns[t.conn].(place := InFrame(FirstPc(t.kind)))])
      else s1
    case Dispatch(c, r, readsZero) =>
      s.(frames := s.frames[s.conns[c].loop := Leave(c, Callbacks(r, readsZero))])
    case Advance(l) => Statement(s, l).(failed := s.failed || !AssertsHold(s, s.frames[l]))
    case Shutdown(c) =>
      if s.conns[c].state == Connected then s.(conns := s.conns[c := s.conns[c].(state := Disconnecting)]) else s
  }

  predicate LegalRun(s: Server, run: seq<Action>)
    decreases |run|
  {
    run == [] || (Enabled(s, run[0]) && LegalRun(Apply(s, run[0]), run[1..]))
  }

  function After(s: Server, run: seq<Action>): Server
    requires LegalRun(s, run)
    decreases |run|
  {
    if run == [] then s else After(Apply(s, run[0]), run[1..])
  }

  // ---- Invariant ----

  function HomeOfPc(pc: Pc, k: Conn): LoopId
  {
    if pc == Accepted || pc == EraseEntry || pc == QueueDestroy then BASE else k.loop
  }

  function HomeOfTask(kind: Kind, k: Conn): LoopId
  {
    if kind == RemoveTask then BASE else k.loop
  }

  predicate InMap(place: Place)
  {
    !(place == Dead || place == InFrame(QueueDestroy) || place == InQueue(DestroyTask) || place == InFrame(Destroy))
  }

  /** What a connection looks like at each place of its life. */
  predicate Fits(k: Conn)
  {
    match k.place
    case InQueue(EstablishTask) | InFrame(Accepted) | InFrame(StoreConnected) =>
      k.state == Connecting && k.chan == Unregistered && k.ups == 0 && k.downs == 0
    case InFrame(EnableReading) =>
      (k.state == Connected || k.state == Disconnecting) && k.chan == Unregistered && k.ups == 0 && k.downs == 0
    case InFrame(CallUp) =>
      (k.state == Connected || k.state == Disconnecting) && k.chan == Registered && k.ups == 0 && k.downs == 0
    case Open | InFrame(StoreDisconnected) =>
      (k.state == Connected || k.state == Disconnecting) && k.chan == Registered && k.ups == 1 && k.downs == 0
    case InFrame(DisableAll) => k.state == Disconnected && k.chan == Registered && k.ups == 1 && k.downs == 0
    case InFrame(CallDown) => k.state == Disconnected && k.chan == Disabled && k.ups == 1 && k.downs == 0
    case Dead => k.state == Disconnected && k.chan == Removed && k.ups == 1 && k.downs == 1
    case _ => k.state == Disconnected && k.chan == Disabled && k.ups == 1 && k.downs == 1
  }

  predicate NoDuplicates(q: seq<Task>)
  {
    forall i, j :: 0 <= i < j < |q| ==> q[i] != q[j]
  }

  predicate IsBusy(f: Frame, pc: Pc, c: ConnId)
  {
    f.Busy? && f.pc == pc && f.conn == c
  }

  /** The statements handleClose leads to, on one loop or on two. */
  predicate Closing(pc: Pc)
  {
    pc.StoreDisconnected? || pc.DisableAll? || pc.CallDown? || pc.CallClose? || pc.EraseEntry? || pc.QueueDestroy?
  }

  predicate ConnOk(s: Server, c: ConnId)
    requires c in s.conns
  {
    var k := s.conns[c];
    && c < s.nextConnId && k.loop in s.queues && Fits(k)
    && (k.place.InFrame? ==>
          HomeOfPc(k.place.pc, k) in s.frames && IsBusy(s.frames[HomeOfPc(k.place.pc, k)], k.place.pc, c))
    && (k.place.InQueue? ==>
          HomeOfTask(k.place.kind, k) in s.queues && Task(k.place.kind, c) in s.queues[HomeOfTask(k.place.kind, k)])
    && (InMap(k.place) <==> c in s.connections)
  }

  /** A statement holds the token of its connection; a dispatch keeps the connection from being destroyed. */
  predicate FrameOk(s: Server, l: LoopId)
    requires l in s.frames
  {
    match s.frames[l]
    case Idle => true
    case Busy(pc, c, rest) =>
      && c in s.conns && s.conns[c].place == InFrame(pc) && l == HomeOfPc(pc, s.conns[c])
      && (rest != [] ==> l == s.conns[c].loop && Closing(pc))
    case Dispatching(c, rest) =>
      c in s.conns && l == s.conns[c].loop && s.conns[c].place != Dead
  }

  predicate TaskOk(s: Server, l: LoopId, t: Task)
  {
    t.conn in s.conns && s.conns[t.conn].place == InQueue(t.kind) && l == HomeOfTask(t.kind, s.conns[t.conn])
  }

  predicate Inv(s: Server)
  {
    && BASE in s.queues && s.frames.Keys == s.queues.Keys
    && (forall c :: c in s.conns ==> ConnOk(s, c))
    && (forall l :: l in s.frames ==> FrameOk(s, l))
    && (forall l, t :: l in s.queues && t in s.queues[l] ==> TaskOk(s, l, t))
    && (forall l :: l in s.queues ==> NoDuplicates(s.queues[l]))
    && s.connections <= s.conns.Keys && !s.failed
  }

  /** Only connection `c`, frames that are idle or about `c`, and tasks about `c` differ. */
  ghost predicate Local(s: Server, s': Server, c: ConnId)
  {
    && s'.queues.Keys == s.queues.Keys && s'.frames.Keys == s.frames.Keys && s.nextConnId <= s'.nextConnId
    && s'.conns.Keys == s.conns.Keys + {c} && s'.connections - {c} == s.connections - {c}
    && (forall d :: d in s.conns && d != c ==> s'.conns[d] == s.conns[d])
    && (forall l :: l in s.frames ==> s'.frames[l] == s.frames[l] || (About(s.frames[l], c) && About(s'.frames[l], c)))
    && (forall l, t: Task :: l in s.queues && t.conn != c ==> (t in s'.queues[l] <==> t in s.queues[l]))
    && !s'.failed
  }

  predicate About(f: Frame, c: ConnId)
  {
    f != Idle ==> f.conn == c
  }

  /** The part of the invariant that speaks of connection `c`. */
  ghost predicate OkAbout(s: Server, c: ConnId)
  {
    && c in s.conns && ConnOk(s, c)
    && (forall l :: l in s.frames && s.frames[l] != Idle && s.frames[l].conn == c ==> FrameOk(s, l))
    && (forall l, t :: l in s.queues && t in s.queues[l] && t.conn == c ==> TaskOk(s, l, t))
    && (forall l :: l in s.queues ==> NoDuplicates(s.queues[l]))
  }

  lemma LocalKeepsOther(s: Server, s': Server, c: ConnId, d: ConnId)
    requires Local(s, s', c) && d in s.conns && d != c && ConnOk(s, d)
    ensures ConnOk(s', d)
  {
    var k := s.conns[d];
    assert d in s'.connections <==> d in s'.connections - {c};
    assert d in s.connections <==> d in s.connections - {c};
    if k.place.InQueue? {
      assert Task(k.place.kind, d) in s'.queues[HomeOfTask(k.place.kind, k)];
    }
  }

  lemma LocalKeepsConns(s: Server, s': Server, c: ConnId)
    requires Local(s, s', c) && OkAbout(s', c) && forall d :: d in s.conns ==> ConnOk(s, d)
    ensures forall d :: d in s'.conns ==> ConnOk(s', d)
  {
    forall d | d in s'.conns
      ensures ConnOk(s', d)
    {
      if d != c { LocalKeepsOther(s, s', c, d); }
    }
  }

  lemma LocalKeepsFrames(s: Server, s': Server, c: ConnId)
    requires Local(s, s', c) && OkAbout(s', c) && forall l :: l in s.frames ==> FrameOk(s, l)
    ensures forall l :: l in s'.frames ==> FrameOk(s', l)
  {
    forall l | l in s'.frames
      ensures FrameOk(s', l)
    {
      assert FrameOk(s, l);
    }
  }

  lemma LocalKeepsTasks(s: Server, s': Server, c: ConnId)
    requires Local(s, s', c) && OkAbout(s', c)
    requires forall l, t :: l in s.queues && t in s.queues[l] ==> TaskOk(s, l, t)
    ensures forall l, t :: l in s'.queues && t in s'.queues[l] ==> TaskOk(s', l, t)
  {
    forall l, t | l in s'.queues && t in s'.queues[l]
      ensures TaskOk(s', l, t)
    {
      if t.conn != c { assert t in s.queues[l] && TaskOk(s, l, t); }
    }
  }

  /** A local change that is right about its own connection keeps the whole invariant. */
  lemma LocalKeepsInv(s: Server, s': Server, c: ConnId)
    requires Inv(s) && Local(s, s', c) && OkAbout(s', c)
    ensures Inv(s')
  {
    LocalKeepsConns(s, s', c);
    LocalKeepsFrames(s, s', c);
    LocalKeepsTasks(s, s', c);
    forall d | d in s'.connections
      ensures d in s'.conns
    {
      if d != c { assert d in s'.connections - {c}; }
    }
  }

  lemma Occurrences(s: Server, c: ConnId)
    requires Inv(s) && c in s.conns
    ensures OkAbout(s, c)
  {
  }

  /** Nothing mentions the number of a connection still to come. */
  lemma NextIsFresh(s: Server)
    requires Inv(s)
    ensures s.nextConnId !in s.conns
    ensures forall l, t :: l in s.queues && t in s.queues[l] ==> t.conn != s.nextConnId
    ensures forall l :: l in s.frames && s.frames[l] != Idle ==> s.frames[l].conn != s.nextConnId
  {
    var c := s.nextConnId;
    assert c in s.conns ==> ConnOk(s, c);
    forall l, t | l in s.queues && t in s.queues[l]
      ensures t.conn != c
    {
      assert TaskOk(s, l, t);
    }
    forall l | l in s.frames && s.frames[l] != Idle
      ensures s.frames[l].conn != c
    {
      assert FrameOk(s, l);
    }
  }

  lemma AcceptIsRight(s: Server, io: LoopId)
    requires Enabled(s, Accept(io)) && s.frames.Keys == s.queues.Keys && s.nextConnId !in s.conns && !s.failed
    requires forall l, t :: l in s.queues && t in s.queues[l] ==> t.conn != s.nextConnId
    requires forall l :: l in s.frames && s.frames[l] != Idle ==> s.frames[l].conn != s.nextConnId
    requires forall l :: l in s.queues ==> NoDuplicates(s.queues[l])
    ensures var s' := Apply(s, Accept(io)); Local(s, s', s.nextConnId) && OkAbout(s', s.nextConnId)
  {
  }

  lemma AcceptKeepsInv(s: Server, io: LoopId)
    requires Inv(s) && Enabled(s, Accept(io))
    ensures Inv(Apply(s, Accept(io)))
  {
    NextIsFresh(s);
    AcceptIsRight(s, io);
    LocalKeepsInv(s, Apply(s, Accept(io)), s.nextConnId);
  }

  lemma TailOf(q: seq<Task>)
    requires q != [] && NoDuplicates(q)
    ensures NoDuplicates(q[1..]) && forall u :: u in q[1..] <==> u in q && u != q[0]
  {
    assert q == [q[0]] + q[1..];
  }

  lemma TakeIsLocal(s: Server, l: LoopId)
    requires Enabled(s, Take(l)) && NoDuplicates(s.queues[l]) && s.queues[l][0].conn in s.conns && !s.failed
    ensures Local(s, Apply(s, Take(l)), s.queues[l][0].conn)
  {
    TailOf(s.queues[l]);
  }

  lemma TakeIsRight(s: Server, l: LoopId)
    requires Enabled(s, Take(l)) && s.frames.Keys == s.queues.Keys
    requires var c := s.queues[l][0].conn; c in s.conns && OkAbout(s, c)
    requires TaskOk(s, l, s.queues[l][0])
    ensures OkAbout(Apply(s, Take(l)), s.queues[l][0].conn)
  {
    TakenIsGone(s, l);
  }

  lemma TakenIsGone(s: Server, l: LoopId)
    requires Enabled(s, Take(l)) && OkAbout(s, s.queues[l][0].conn) && TaskOk(s, l, s.queues[l][0])
    ensures var s' := Apply(s, Take(l));
      && (forall x, u :: x in s'.queues && u in s'.queues[x] ==> u.conn != s.queues[l][0].conn)
      && (forall x :: x in s'.queues ==> NoDuplicates(s'.queues[x]))
  {
    var t := s.queues[l][0];
    var s' := Apply(s, Take(l));
    TailOf(s.queues[l]);
    forall x, u | x in s'.queues && u in s'.queues[x]
      ensures u.conn != t.conn
    {
      assert u in s.queues[x] && (u.conn == t.conn ==> u == t && x == l);
    }
  }

  lemma TakeKeepsInv(s: Server, l: LoopId)
    requires Inv(s) && Enabled(s, Take(l))
    ensures Inv(Apply(s, Take(l)))
  {
    var t := s.queues[l][0];
    assert t in s.queues[l] && TaskOk(s, l, t);
    Occurrences(s, t.conn);
    TakeIsLocal(s, l);
    TakeIsRight(s, l);
    LocalKeepsInv(s, Apply(s, Take(l)), t.conn);
  }

  /** Loop `l` may execute a statement about `c`: it holds its token, or dispatches it while it is open. */
  predicate Holds(s: Server, l: LoopId, c: ConnId, rest: seq<Callback>)
  {
    && l in s.frames && c in s.conns && s.frames[l] != Idle && s.frames[l].conn == c
    && (s.frames[l].Dispatching? ==> s.conns[c].place == Open)
    && (s.frames[l].Busy? ==> rest == s.frames[l].rest)
  }

  lemma GotoIsLocal(s: Server, l: LoopId, c: ConnId, rest: seq<Callback>, k: Conn, pc: Pc)
    requires Holds(s, l, c, rest) && !s.failed
    ensures Local(s, Goto(s, l, c, rest, k, pc), c)
  {
  }

  lemma GotoIsRight(s: Server, l: LoopId, c: ConnId, rest: seq<Callback>, k: Conn, pc: Pc)
    requires Holds(s, l, c, rest) && OkAbout(s, c) && FrameOk(s, l)
    requires k.loop == s.conns[c].loop && l == HomeOfPc(pc, k) && Fits(k.(place := InFrame(pc)))
    requires InMap(InFrame(pc)) && InMap(s.conns[c].place) && (rest != [] ==> Closing(pc))
    ensures OkAbout(Goto(s, l, c, rest, k, pc), c)
  {
  }

  lemma GotoKeepsInv(s: Server, l: LoopId, c: ConnId, rest: seq<Callback>, k: Conn, pc: Pc)
    requires Inv(s) && Holds(s, l, c, rest) && k.loop == s.conns[c].loop
    requires l == HomeOfPc(pc, k) && Fits(k.(place := InFrame(pc))) && InMap(InFrame(pc)) && InMap(s.conns[c].place)
    requires rest != [] ==> Closing(pc)
    ensures Inv(Goto(s, l, c, rest, k, pc))
  {
    Occurrences(s, c);
    GotoIsLocal(s, l, c, rest, k, pc);
    GotoIsRight(s, l, c, rest, k, pc);
    LocalKeepsInv(s, Goto(s, l, c, rest, k, pc), c);
  }

  lemma EraseIsRight(s: Server, c: ConnId, rest: seq<Callback>)
    requires BASE in s.frames && s.frames[BASE] == Busy(EraseEntry, c, rest) && FrameOk(s, BASE)
    requires c in s.conns && OkAbout(s, c) && !s.failed
    ensures var s' := Execute(s, BASE, EraseEntry, c, rest); Local(s, s', c) && OkAbout(s', c)
  {
  }

  lemma EraseKeepsInv(s: Server, c: ConnId, rest: seq<Callback>)
    requires Inv(s) && s.frames[BASE] == Busy(EraseEntry, c, rest)
    ensures c in s.conns && Inv(Execute(s, BASE, EraseEntry, c, rest))
  {
    assert FrameOk(s, BASE);
    Occurrences(s, c);
    EraseIsRight(s, c, rest);
    LocalKeepsInv(s, Execute(s, BASE, EraseEntry, c, rest), c);
  }

  lemma PushOn(q: seq<Task>, t: Task)
    requires NoDuplicates(q) && t !in q
    ensures NoDuplicates(q + [t]) && forall u :: u in q + [t] <==> u in q || u == t
  {
  }

  lemma SendIsLocal(s: Server, l: LoopId, c: ConnId, rest: seq<Callback>, kind: Kind, target: LoopId)
    requires Holds(s, l, c, rest) && target in s.queues && !s.failed
    requires NoDuplicates(s.queues[target]) && Task(kind, c) !in s.queues[target]
    ensures Local(s, Send(s, l, c, rest, s.conns[c], kind, target), c)
    ensures NoDuplicates(s.queues[target] + [Task(kind, c)])
  {
    PushOn(s.queues[target], Task(kind, c));
  }

  lemma SendIsRight(s: Server, l: LoopId, c: ConnId, rest: seq<Callback>, kind: Kind, target: LoopId)
    requires Holds(s, l, c, rest) && s.frames[l].Busy? && OkAbout(s, c) && FrameOk(s, l)
    requires s.frames.Keys == s.queues.Keys && BASE in s.queues
    requires target == HomeOfTask(kind, s.conns[c]) && NoDuplicates(s.queues[target] + [Task(kind, c)])
    requires Fits(s.conns[c].(place := InQueue(kind))) && InMap(InQueue(kind)) == InMap(s.conns[c].place)
    ensures OkAbout(Send(s, l, c, rest, s.conns[c], kind, target), c)
  {
    var s' := Send(s, l, c, rest, s.conns[c], kind, target);
    var t := Task(kind, c);
    var q := s.queues[target];
    assert s'.queues == s.queues[target := q + [t]];
    forall x, u | x in s'.queues && u in s'.queues[x] && u.conn == c
      ensures u == t && x == target
    {
      assert u !in s.queues[x];
    }
    assert t in q + [t];
  }

  lemma SendKeepsInv(s: Server, l: LoopId, c: ConnId, rest: seq<Callback>, kind: Kind, target: LoopId)
    requires Inv(s) && Holds(s, l, c, rest) && s.frames[l].Busy?
    requires target == HomeOfTask(kind, s.conns[c])
    requires Fits(s.conns[c].(place := InQueue(kind))) && InMap(InQueue(kind)) == InMap(s.conns[c].place)
    ensures Inv(Send(s, l, c, rest, s.conns[c], kind, target))
  {
    Occurrences(s, c);
    assert FrameOk(s, l);
    SendIsLocal(s, l, c, rest, kind, target);
    SendIsRight(s, l, c, rest, kind, target);
    LocalKeepsInv(s, Send(s, l, c, rest, s.conns[c], kind, target), c);
  }

  /** connectEstablished and connectDestroyed return on the connection's own loop. */
  lemma ReturnKeepsInv(s: Server, l: LoopId, c: ConnId, rest: seq<Callback>, k: Conn, place: Place)
    requires Inv(s) && Holds(s, l, c, rest) && s.frames[l].Busy? && !Closing(s.frames[l].pc) && l == s.conns[c].loop
    requires (place == Open || place == Dead) && k.loop == s.conns[c].loop
    requires Fits(k.(place := place)) && InMap(place) == InMap(s.conns[c].place)
    ensures Inv(Return(s, l, c, rest, k, place))
  {
    Occurrences(s, c);
    assert FrameOk(s, l);
    LocalKeepsInv(s, Return(s, l, c, rest, k, place), c);
  }

  lemma ShutdownIsRight(s: Server, c: ConnId)
    requires c in s.conns && OkAbout(s, c) && !s.failed
    ensures var s' := Apply(s, Shutdown(c)); Local(s, s', c) && OkAbout(s', c)
  {
  }

  lemma ShutdownKeepsInv(s: Server, c: ConnId)
    requires Inv(s) && c in s.conns
    ensures Inv(Apply(s, Shutdown(c)))
  {
    Occurrences(s, c);
    ShutdownIsRight(s, c);
    LocalKeepsInv(s, Apply(s, Shutdown(c)), c);
  }

  lemma AcceptedKeepsInv(s: Server, l: LoopId, c: ConnId, rest: seq<Callback>)
    requires Inv(s) && l in s.frames && s.frames[l] == Busy(Accepted, c, rest)
    ensures c in s.conns && Inv(Execute(s, l, Accepted, c, rest))
  {
    assert FrameOk(s, l) && ConnOk(s, c);
    var k := s.conns[c];
    if k.loop == BASE {
      GotoKeepsInv(s, l, c, rest, k, StoreConnected);
    } else {
      SendKeepsInv(s, l, c, rest, EstablishTask, k.loop);
    }
  }

  lemma EstablishKeepsInv(s: Server, l: LoopId, pc: Pc, c: ConnId, rest: seq<Callback>)
    requires Inv(s) && l in s.frames && s.frames[l] == Busy(pc, c, rest)
    requires pc.StoreConnected? || pc.EnableReading? || pc.CallUp?
    ensures c in s.conns && Inv(Execute(s, l, pc, c, rest))
  {
    assert FrameOk(s, l) && ConnOk(s, c);
    var k := s.conns[c];
    match pc {
      case StoreConnected => GotoKeepsInv(s, l, c, rest, k.(state := Connected), EnableReading);
      case EnableReading => GotoKeepsInv(s, l, c, rest, k.(chan := Registered), CallUp);
      case CallUp => ReturnKeepsInv(s, l, c, rest, k.(ups := k.ups + 1), Open);
    }
  }

  lemma CloseKeepsInv(s: Server, l: LoopId, pc: Pc, c: ConnId, rest: seq<Callback>)
    requires Inv(s) && l in s.frames && s.frames[l] == Busy(pc, c, rest)
    requires pc.StoreDisconnected? || pc.DisableAll? || pc.CallDown? || pc.CallClose?
    ensures c in s.conns && Inv(Execute(s, l, pc, c, rest))
  {
    assert FrameOk(s, l) && ConnOk(s, c);
    var k := s.conns[c];
    match pc {
      case StoreDisconnected => GotoKeepsInv(s, l, c, rest, k.(state := Disconnected), DisableAll);
      case DisableAll => GotoKeepsInv(s, l, c, rest, k.(chan := Disabled), CallDown);
      case CallDown => GotoKeepsInv(s, l, c, rest, k.(downs := k.downs + 1), CallClose);
      case CallClose =>
        if l == BASE { GotoKeepsInv(s, l, c, rest, k, EraseEntry); }
        else { SendKeepsInv(s, l, c, rest, RemoveTask, BASE); }
    }
  }

  lemma RemoveKeepsInv(s: Server, l: LoopId, pc: Pc, c: ConnId, rest: seq<Callback>)
    requires Inv(s) && l in s.frames && s.frames[l] == Busy(pc, c, rest)
    requires pc.EraseEntry? || pc.QueueDestroy? || pc.Destroy?
    ensures c in s.conns && Inv(Execute(s, l, pc, c, rest))
  {
    assert FrameOk(s, l) && ConnOk(s, c);
    var k := s.conns[c];
    match pc {
      case EraseEntry => EraseKeepsInv(s, c, rest);
      case QueueDestroy => SendKeepsInv(s, l, c, rest, DestroyTask, k.loop);
      case Destroy => ReturnKeepsInv(s, l, c, rest, k.(chan := Removed), Dead);
    }
  }

  lemma ExecuteKeepsInv(s: Server, l: LoopId, pc: Pc, c: ConnId, rest: seq<Callback>)
    requires Inv(s) && l in s.frames && s.frames[l] == Busy(pc, c, rest)
    ensures c in s.conns && Inv(Execute(s, l, pc, c, rest))
  {
    if pc.Accepted? {
      AcceptedKeepsInv(s, l, c, rest);
    } else if pc.StoreConnected? || pc.EnableReading? || pc.CallUp? {
      EstablishKeepsInv(s, l, pc, c, rest);
    } else if pc.StoreDisconnected? || pc.DisableAll? || pc.CallDown? || pc.CallClose? {
      CloseKeepsInv(s, l, pc, c, rest);
    } else {
      RemoveKeepsInv(s, l, pc, c, rest);
    }
  }

  /** No statement but the entry of handleClose can fail. */
  lemma BusyAssertsHold(s: Server, l: LoopId)
    requires Inv(s) && l in s.frames && s.frames[l].Busy?
    ensures s.frames[l].conn in s.conns && AssertsHold(s, s.frames[l])
  {
    assert FrameOk(s, l) && ConnOk(s, s.frames[l].conn);
  }

  /** A connection that its own loop dispatches is open exactly when it is not disconnected. */
  lemma DispatchedIsOpen(s: Server, l: LoopId)
    requires Inv(s) && l in s.frames && s.frames[l].Dispatching?
    ensures var c := s.frames[l].conn;
      && c in s.conns && l == s.conns[c].loop
      && (s.conns[c].place == Open <==> s.conns[c].state == Connected || s.conns[c].state == Disconnecting)
  {
    assert FrameOk(s, l) && ConnOk(s, s.frames[l].conn);
  }

  lemma NextCallbackKeepsInv(s: Server, l: LoopId, c: ConnId, rest: seq<Callback>)
    requires Inv(s) && l in s.frames && s.frames[l] == Dispatching(c, rest)
    requires c in s.conns && AssertsHold(s, s.frames[l])
    ensures Inv(NextCallback(s, l, c, rest))
  {
    assert FrameOk(s, l) && ConnOk(s, c);
    if rest != [] && Enters(rest[0]) {
      DispatchedIsOpen(s, l);
      GotoKeepsInv(s, l, c, rest[1..], s.conns[c], StoreDisconnected);
    } else {
      FrameKeepsInv(s, l, c, if rest == [] then Idle else Leave(c, rest[1..]));
    }
  }

  lemma FrameIsRight(s: Server, l: LoopId, c: ConnId, f: Frame)
    requires c in s.conns && OkAbout(s, c) && !s.failed
    requires l in s.frames && l == s.conns[c].loop && s.conns[c].place != Dead
    requires !s.frames[l].Busy? && About(s.frames[l], c) && !f.Busy? && About(f, c)
    ensures var s' := s.(frames := s.frames[l := f]); Local(s, s', c) && OkAbout(s', c)
  {
  }

  /** A step that only changes the frame of the connection's loop, which holds no token. */
  lemma FrameKeepsInv(s: Server, l: LoopId, c: ConnId, f: Frame)
    requires Inv(s) && c in s.conns && l in s.frames && l == s.conns[c].loop && s.conns[c].place != Dead
    requires !s.frames[l].Busy? && About(s.frames[l], c) && !f.Busy? && About(f, c)
    ensures Inv(s.(frames := s.frames[l := f]))
  {
    Occurrences(s, c);
    FrameIsRight(s, l, c, f);
    LocalKeepsInv(s, s.(frames := s.frames[l := f]), c);
  }

  lemma AdvanceKeepsInv(s: Server, l: LoopId)
    requires Inv(s) && Enabled(s, Advance(l)) && AssertsHold(s, s.frames[l])
    ensures Inv(Apply(s, Advance(l)))
  {
    match s.frames[l] {
      case Busy(pc, c, rest) => ExecuteKeepsInv(s, l, pc, c, rest);
      case Dispatching(c, rest) => NextCallbackKeepsInv(s, l, c, rest);
    }
  }

  /** A connection whose channel is registered and whose loop is idle is open. */
  lemma IdleRegisteredIsOpen(s: Server, c: ConnId)
    requires Inv(s) && c in s.conns && s.conns[c].loop in s.frames && s.frames[s.conns[c].loop] == Idle
    requires s.conns[c].chan == Registered
    ensures s.conns[c].place == Open
  {
    assert ConnOk(s, c);
  }

  /** Every step whose assertions hold keeps the invariant. */
  lemma StepKeepsInv(s: Server, a: Action)
    requires Inv(s) && Enabled(s, a) && !Apply(s, a).failed
    ensures Inv(Apply(s, a))
  {
    match a {
      case Accept(io) => AcceptKeepsInv(s, io);
      case Take(l) => TakeKeepsInv(s, l);
      case Dispatch(c, r, readsZero) =>
        IdleRegisteredIsOpen(s, c);
        FrameKeepsInv(s, s.conns[c].loop, c, Leave(c, Callbacks(r, readsZero)));
      case Advance(l) => AdvanceKeepsInv(s, l);
      case Shutdown(c) => ShutdownKeepsInv(s, c);
    }
  }

  lemma {:induction false} FailureLasts(s: Server, run: seq<Action>)
    requires LegalRun(s, run) && s.failed
    ensures After(s, run).failed
    decreases |run|
  {
    if run != [] {
      FailureLasts(Apply(s, run[0]), run[1..]);
    }
  }

  lemma {:induction false} RunKeepsInv(s: Server, run: seq<Action>)
    requires Inv(s) && LegalRun(s, run) && !After(s, run).failed
    ensures Inv(After(s, run))
    decreases |run|
  {
    if run != [] {
      if Apply(s, run[0]).failed {
        FailureLasts(Apply(s, run[0]), run[1..]);
      }
      StepKeepsInv(s, run[0]);
      RunKeepsInv(Apply(s, run[0]), run[1..]);
    }
  }

  // ---- Results for runs in which no assertion has failed ----

  /** Somebody on the server's side holds a reference to the connection. */
  predicate Held(s: Server, c: ConnId)
  {
    || c in s.connections
    || (exists l :: l in s.queues && exists k :: Task(k, c) in s.queues[l])
    || (exists l :: l in s.frames && s.frames[l] != Idle && s.frames[l].conn == c)
  }

  /**
   * Ownership: from its creation until connectDestroyed has taken its channel out of the
   * poller, a connection is held by the map, a queued task or an executing call; afterwards
   * the server holds nothing of it.
   */
  lemma HeldUntilDestroyed(s0: Server, run: seq<Action>, c: ConnId)
    requires Init(s0) && LegalRun(s0, run) && !After(s0, run).failed && c in After(s0, run).conns
    ensures var s := After(s0, run); Held(s, c) <==> s.conns[c].chan != Removed
  {
    RunKeepsInv(s0, run);
    Occurrences(After(s0, run), c);
    HeldExactly(After(s0, run), c);
  }

  lemma HeldExactly(s: Server, c: ConnId)
    requires OkAbout(s, c)
    ensures Held(s, c) <==> s.conns[c].chan != Removed
  {
    var k := s.conns[c];
    if k.place.InQueue? {
      assert Task(k.place.kind, c) in s.queues[HomeOfTask(k.place.kind, k)];
    } else if k.place.InFrame? {
      var l := HomeOfPc(k.place.pc, k);
      assert l in s.frames && s.frames[l] != Idle && s.frames[l].conn == c;
    }
  }

  /** UP at most once, DOWN at most once and only after UP and after the state is final. */
  predicate OnceInOrder(k: Conn)
  {
    && k.downs <= k.ups <= 1
    && (k.downs == 1 ==> k.state == Disconnected && k.chan != Registered)
    && (k.chan == Removed ==> k.ups == 1 && k.downs == 1)
  }

  /** Each erase finds exactly its own entry. */
  lemma ErasesExactlyOne(s0: Server, run: seq<Action>, l: LoopId)
    requires Init(s0) && LegalRun(s0, run) && !After(s0, run).failed
    requires var s := After(s0, run); l in s.frames && s.frames[l].Busy? && s.frames[l].pc == EraseEntry
    ensures var s := After(s0, run);
      Enabled(s, Advance(l)) && |Apply(s, Advance(l)).connections| == |s.connections| - 1
  {
    RunKeepsInv(s0, run);
    var s := After(s0, run);
    var c := s.frames[l].conn;
    assert FrameOk(s, l) && ConnOk(s, c);
    assert Apply(s, Advance(l)).connections == s.connections - {c};
  }

  function Rank(state: State): nat
  {
    match state
    case Connecting => 0
    case Connected => 1
    case Disconnecting => 2
    case Disconnected => 3
  }

  lemma StatementMovesForward(s: Server, l: LoopId, c: ConnId)
    requires Inv(s) && Enabled(s, Advance(l)) && c in s.conns
    ensures c in Statement(s, l).conns && Rank(s.conns[c].state) <= Rank(Statement(s, l).conns[c].state)
  {
    assert FrameOk(s, l) && ConnOk(s, s.frames[l].conn);
  }

  lemma StepMovesForward(s: Server, a: Action, c: ConnId)
    requires Inv(s) && Enabled(s, a) && c in s.conns
    ensures c in Apply(s, a).conns && Rank(s.conns[c].state) <= Rank(Apply(s, a).conns[c].state)
  {
    match a {
      case Accept(_) => assert ConnOk(s, c);
      case Advance(l) => StatementMovesForward(s, l, c);
      case _ =>
    }
  }

  /** After shutdown() an established connection is never connected again. */
  lemma ShutdownIsFinal(s: Server, c: ConnId, run: seq<Action>)
    requires Inv(s) && c in s.conns && s.conns[c].state != Connecting && LegalRun(Apply(s, Shutdown(c)), run)
    requires !After(Apply(s, Shutdown(c)), run).failed
    ensures var e := After(Apply(s, Shutdown(c)), run); c in e.conns && Rank(e.conns[c].state) >= 2
  {
    ShutdownKeepsInv(s, c);
    StateMovesForward(Apply(s, Shutdown(c)), run, c);
  }

  /** A connection's state only moves forward, whatever the concurrent shutdown calls. */
  lemma {:induction false} StateMovesForward(s: Server, run: seq<Action>, c: ConnId)
    requires Inv(s) && LegalRun(s, run) && !After(s, run).failed && c in s.conns
    ensures c in After(s, run).conns && Rank(s.conns[c].state) <= Rank(After(s, run).conns[c].state)
    decreases |run|
  {
    if run != [] {
      if Apply(s, run[0]).failed {
        FailureLasts(Apply(s, run[0]), run[1..]);
      }
      StepKeepsInv(s, run[0]);
      StepMovesForward(s, run[0], c);
      StateMovesForward(Apply(s, run[0]), run[1..], c);
    }
  }
}
