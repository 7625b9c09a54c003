/**
 * The output path of a connection: direct writes, the output buffer behind them, deferred
 * shutdown, and close.  `Conn` is the value every method of the class is specified by;
 * results of system calls are parameters.
 */
module TcpOutput {
  import opened Common
  import opened NetBuffer

  datatype Conn = Conn(
    state: State,
    output: string,          // readable bytes of the output buffer
    writing: bool,           // write interest of the channel
    reading: bool,           // read interest of the channel
    wire: string,            // bytes the socket has taken, in order
    socketShut: bool,        // both directions have been shut down
    accepted: seq<string>,   // history: messages taken by sendInLoop while not disconnected, and responses
    shutdownRan: bool        // history: the functor queued by shutdown() has run
  )

  const INIT := Conn(Connecting, "", false, false, "", false, [], false)

  /** `len` bytes starting at `msg.data() + offset`; `before` is the byte in front of the message. */
  function BytesAt(msg: string, offset: int, before: char): string
    requires -1 <= offset <= |msg|
  {
    if offset < 0 then ([before] + msg)[..|msg|] else msg[offset..]
  }

  predicate Direct(c: Conn)
  {
    !c.writing && c.output == ""
  }

  function SendInLoop(c: Conn, msg: string, n: int, before: char): Conn
    requires -1 <= n <= |msg|
  {
    if c.state == Disconnected then c
    else
      var offset := if Direct(c) then n else 0;
      var taken := if offset > 0 then offset else 0;
      var c1 := c.(wire := c.wire + msg[..taken], accepted := c.accepted + [msg]);
      if taken == |msg| then c1
      else c1.(output := c.output + BytesAt(msg, offset, before), writing := true)
  }

  function ShutdownInLoop(c: Conn): Conn
  {
    if c.writing then c else c.(socketShut := true)
  }

  function HandleWrite(c: Conn, n: int): Conn
    requires n <= |c.output|
  {
    if !c.writing || n <= 0 then c
    else
      var c1 := c.(wire := c.wire + c.output[..n], output := c.output[n..]);
      if c1.output != "" then c1
      else
        var c2 := c1.(writing := false);
        if c2.state == Disconnecting then ShutdownInLoop(c2) else c2
  }

  function Shutdown(c: Conn): Conn
  {
    if c.state == Connected then c.(state := Disconnecting) else c
  }

  function HandleClose(c: Conn): Conn
  {
    c.(state := Disconnected, writing := false, reading := false)
  }

  function ConnectEstablished(c: Conn): Conn
  {
    c.(state := Connected, reading := true)
  }

  function ConnectDestroyed(c: Conn): Conn
  {
    if c.state == Connected then HandleClose(c) else c
  }

  /** send() of the connection's own output buffer: its bytes become the message. */
  function SendBuffer(c: Conn, n: int, before: char): Conn
    requires -1 <= n <= |c.output|
  {
    if c.state == Connected then SendInLoop(c.(output := ""), c.output, n, before) else c
  }

  /** HTTP appends its response to the output buffer itself and then sends the whole buffer. */
  function Respond(c: Conn, response: string, n: int, before: char): Conn
    requires -1 <= n <= |c.output + response|
  {
    SendBuffer(c.(output := c.output + response), n, before).(accepted := c.accepted + [response])
  }

  // ---- The imperative object ----

  class TcpConnection {
    var state: State
    const outputBuffer: Buffer
    var writing: bool
    var reading: bool
    var wire: string
    var socketShut: bool
    ghost var accepted: seq<string>
    ghost var shutdownRan: bool

    ghost predicate Valid()
      reads this, outputBuffer
    {
      outputBuffer.Valid()
    }

    ghost function View(): Conn
      requires Valid()
      reads this, outputBuffer, outputBuffer.data
    {
      Conn(state, outputBuffer.Readable(), writing, reading, wire, socketShut, accepted, shutdownRan)
    }

    constructor ()
      ensures Valid() && fresh(outputBuffer) && fresh(outputBuffer.data)
      ensures View() == INIT
    {
      outputBuffer := new Buffer(INITIAL_SIZE);
      state, writing, reading, wire, socketShut := Connecting, false, false, "", false;
      accepted, shutdownRan := [], false;
    }

    method DoSendInLoop(message: string, result: int, before: char)
      requires Valid() && -1 <= result <= |message|
      modifies this, outputBuffer, outputBuffer.data
      ensures Valid() && (outputBuffer.data == old(outputBuffer.data) || fresh(outputBuffer.data))
      ensures View() == SendInLoop(old(View()), message, result, before)
    {
      if state == Disconnected {
        return;
      }
      accepted := accepted + [message];
      var n := 0;
      var remain := |message|;
      if !writing && outputBuffer.ReadableBytes() == 0 {
        n := result;
        if n >= 0 {
          wire := wire + message[..n];
          remain := remain - n;
        }
      }
      if remain > 0 {
        outputBuffer.Append(BytesAt(message, n, before));
        if !writing {
          writing := true;
        }
      }
    }

    method DoSendBuffer(result: int, before: char)
      requires Valid() && -1 <= result <= |outputBuffer.Readable()|
      modifies this, outputBuffer, outputBuffer.data
      ensures Valid() && View() == SendBuffer(old(View()), result, before)
    {
      if state == Connected {
        var readable := outputBuffer.ReadableBytes();
        var all := outputBuffer.RetrieveAsString(readable);
        assert all == old(outputBuffer.Readable()) && outputBuffer.Readable() == "";
        DoSendInLoop(all, result, before);
      }
    }

    /** A response is appended to the output buffer, which is then sent. */
    method DoRespond(response: string, result: int, before: char)
      requires Valid() && -1 <= result <= |outputBuffer.Readable() + response|
      modifies this, outputBuffer, outputBuffer.data
      ensures Valid() && View() == Respond(old(View()), response, result, before)
    {
      ghost var taken := accepted + [response];
      outputBuffer.Append(response);
      DoSendBuffer(result, before);
      accepted := taken;
    }

    /** The compare-and-exchange of shutdown(); the caller queues shutdownInLoop when it succeeds. */
    method DoShutdown() returns (queued: bool)
      requires Valid()
      modifies this
      ensures Valid() && View() == Shutdown(old(View()))
      ensures queued <==> old(state) == Connected
    {
      queued := state == Connected;
      if queued {
        state := Disconnecting;
      }
    }

    method DoConnectEstablished()
      requires Valid() && state == Connecting
      modifies this
      ensures Valid() && View() == ConnectEstablished(old(View()))
    {
      state := Connected;
      reading := true;
    }

    method DoShutdownInLoop()
      requires Valid()
      modifies this
      ensures Valid() && View() == ShutdownInLoop(old(View()))
    {
      if !writing {
        socketShut := true;
      }
    }

    method DoHandleWrite(n: int)
      requires Valid() && n <= |outputBuffer.Readable()|
      modifies this, outputBuffer
      ensures Valid() && outputBuffer.data == old(outputBuffer.data)
      ensures View() == HandleWrite(old(View()), n)
    {
      if writing {
        if n > 0 {
          var taken := outputBuffer.RetrieveAsString(n);
          wire := wire + taken;
          if outputBuffer.ReadableBytes() == 0 {
            writing := false;
            if state == Disconnecting {
              DoShutdownInLoop();
            }
          }
        }
      }
    }

    method DoHandleClose()
      requires Valid() && (state == Connected || state == Disconnecting)
      modifies this
      ensures Valid() && View() == HandleClose(old(View()))
    {
      state := Disconnected;
      writing, reading := false, false;
    }

    method DoConnectDestroyed()
      requires Valid()
      modifies this
      ensures Valid() && View() == ConnectDestroyed(old(View()))
    {
      if state == Connected {
        state := Disconnected;
        writing, reading := false, false;
      }
    }
  }

  // ---- Whole runs ----

  datatype Event =
    | Established
    | Send(msg: string, n: int, before: char)
    | Reply(response: string, n: int, before: char)
    | Writable(n: int)
    | ShutdownCall
    | ShutdownTask
    | Close
    | Destroyed

  /** What the assertions of the code and the kernel allow; a direct write may fail with -1. */
  predicate Legal(c: Conn, e: Event)
  {
    match e
    case Established => c.state == Connecting
    case Send(msg, n, _) => -1 <= n <= |msg|
    case Reply(response, n, _) => c.state != Connecting && -1 <= n <= |c.output + response|
    case Writable(n) => n <= |c.output|
    case ShutdownTask => c.state == Disconnecting || c.state == Disconnected
    case Close => c.state == Connected || c.state == Disconnecting
    case _ => true
  }

  function Step(c: Conn, e: Event): Conn
    requires Legal(c, e)
  {
    match e
    case Established => ConnectEstablished(c)
    case Send(msg, n, before) => SendInLoop(c, msg, n, before)
    case Reply(response, n, before) => Respond(c, response, n, before)
    case Writable(n) => HandleWrite(c, n)
    case ShutdownCall => Shutdown(c)
    case ShutdownTask => ShutdownInLoop(c).(shutdownRan := true)
    case Close => HandleClose(c)
    case Destroyed => ConnectDestroyed(c)
  }

  predicate LegalRun(c: Conn, run: seq<Event>)
    decreases |run|
  {
    run == [] || (Legal(c, run[0]) && LegalRun(Step(c, run[0]), run[1..]))
  }

  function After(c: Conn, run: seq<Event>): Conn
    requires LegalRun(c, run)
    decreases |run|
  {
    if run == [] then c else After(Step(c, run[0]), run[1..])
  }

  /** No byte is lost, duplicated or reordered between the messages and the wire. */
  predicate Conserved(c: Conn)
  {
    c.wire + c.output == Concat(c.accepted)
  }

  predicate WritingIffPending(c: Conn)
  {
    if c.state == Disconnected then !c.writing else c.writing <==> c.output != ""
  }

  /** A shutdown that had to wait for the output is carried out once the output is gone. */
  predicate ShutdownKept(c: Conn)
  {
    && (c.shutdownRan ==> c.state == Disconnecting || c.state == Disconnected)
    && (c.state == Disconnecting && c.shutdownRan && !c.writing ==> c.socketShut)
  }

  /** What every run keeps: no write interest without output, and deferred shutdowns. */
  predicate Tidy(c: Conn)
  {
    && (c.writing ==> c.output != "" && c.state != Disconnected)
    && (c.state == Connecting || c.state == Connected ==> (c.writing <==> c.output != ""))
    && ShutdownKept(c)
  }

  predicate Inv(c: Conn)
  {
    Tidy(c) && Conserved(c) && WritingIffPending(c)
  }

  /** A response for a connection that is being shut down and has no write interest: nobody will send it. */
  predicate Strands(c: Conn, e: Event)
  {
    e.Reply? && c.state == Disconnecting && !c.writing && e.response != ""
  }

  /** The message an event hands over. */
  function Payload(c: Conn, e: Event): string
  {
    match e
    case Send(msg, _, _) => if c.state == Disconnected then "" else msg
    case Reply(response, _, _) => response
    case _ => ""
  }

  /** A direct write of a non-empty message is attempted and fails. */
  predicate Failed(c: Conn, e: Event)
  {
    && Payload(c, e) != ""
    && match e
       case Send(_, n, _) => Direct(c) && n == -1
       case Reply(_, n, _) => c.state == Connected && !c.writing && n == -1
       case _ => false
  }

  /** What the event adds behind wire and queue: a failed write shifts the message by one byte. */
  function Added(c: Conn, e: Event): string
  {
    if Failed(c, e) then ([e.before] + Payload(c, e))[..|Payload(c, e)|] else Payload(c, e)
  }

  /** What sendInLoop does to wire and queue: an idle connection takes `k` bytes at once and queues the others, if any. */
  lemma SendParts(c: Conn, msg: string, n: int, before: char)
    requires c.state != Disconnected && -1 <= n <= |msg|
    ensures var d := SendInLoop(c, msg, n, before); var k := if Direct(c) && n > 0 then n else 0;
      && d.wire == c.wire + msg[..k]
      && d.output == c.output + (if Failed(c, Send(msg, n, before)) then BytesAt(msg, -1, before) else msg[k..])
      && d.writing == (c.writing || k < |msg|)
  {
    var k := if Direct(c) && n > 0 then n else 0;
    assert k == |msg| ==> msg[k..] == "" && c.output + "" == c.output;
  }

  lemma Rejoin(a: string, b: string, s: string, k: nat)
    requires k <= |s| && (b == "" || k == 0)
    ensures (a + s[..k]) + (b + s[k..]) == a + b + s
  {
    assert s[..k] + s[k..] == s;
  }

  lemma SendAdds(c: Conn, msg: string, n: int, before: char)
    requires c.state != Disconnected && -1 <= n <= |msg|
    ensures var d := SendInLoop(c, msg, n, before);
      && d.wire + d.output == c.wire + c.output + Added(c, Send(msg, n, before))
      && |d.output| >= |c.output| && d.writing == (c.writing || |d.output| > |c.output|)
  {
    SendParts(c, msg, n, before);
    var k := if Direct(c) && n > 0 then n else 0;
    if Failed(c, Send(msg, n, before)) {
      assert c.wire + msg[..0] == c.wire;
      assert c.wire + (c.output + BytesAt(msg, -1, before)) == c.wire + c.output + BytesAt(msg, -1, before);
    } else {
      Rejoin(c.wire, c.output, msg, k);
    }
  }

  /** A response to a connected connection, whose output buffer has write interest exactly when it is not empty. */
  lemma RespondAdds(c: Conn, response: string, n: int, before: char)
    requires c.state == Connected && (c.writing <==> c.output != "") && -1 <= n <= |c.output + response|
    ensures var d := Respond(c, response, n, before);
      && d.wire + d.output == c.wire + c.output + Added(c, Reply(response, n, before))
      && (d.writing <==> d.output != "")
  {
    var all := c.output + response;
    SendAdds(c.(output := ""), all, n, before);
    if !c.writing {
      assert all == response;
    }
    assert c.wire + "" + all == c.wire + c.output + response;
  }

  lemma WriteMoves(c: Conn, n: int)
    requires n <= |c.output|
    ensures HandleWrite(c, n).wire + HandleWrite(c, n).output == c.wire + c.output
  {
    if c.writing && n > 0 {
      SplitAndJoin(c.wire, c.output, n);
    }
  }

  /** Every event adds to the end of the stream and to the end of what was accepted. */
  lemma StepAdds(c: Conn, e: Event)
    requires Tidy(c) && Legal(c, e)
    ensures Step(c, e).wire + Step(c, e).output == c.wire + c.output + Added(c, e)
    ensures Concat(Step(c, e).accepted) == Concat(c.accepted) + Payload(c, e)
  {
    match e {
      case Send(msg, n, before) =>
        ConcatOne(c.accepted, msg);
        if c.state != Disconnected {
          SendAdds(c, msg, n, before);
        }
      case Reply(response, n, before) =>
        ConcatOne(c.accepted, response);
        if c.state == Connected {
          RespondAdds(c, response, n, before);
        }
      case Writable(n) => WriteMoves(c, n);
      case _ =>
    }
  }

  lemma StepKeepsTidy(c: Conn, e: Event)
    requires Tidy(c) && Legal(c, e)
    ensures Tidy(Step(c, e))
  {
    match e {
      case Send(msg, n, before) =>
        if c.state != Disconnected {
          SendAdds(c, msg, n, before);
        }
      case Reply(response, n, before) =>
        if c.state == Connected {
          RespondAdds(c, response, n, before);
        }
      case _ =>
    }
  }

  /** A step keeps write interest and pending output together unless it strands a response. */
  lemma StepInterest(c: Conn, e: Event)
    requires Tidy(c) && WritingIffPending(c) && Legal(c, e)
    ensures Tidy(Step(c, e)) && (WritingIffPending(Step(c, e)) <==> !Strands(c, e))
  {
    StepKeepsTidy(c, e);
    if e.Send? && c.state != Disconnected {
      SendAdds(c, e.msg, e.n, e.before);
    }
  }

  /** At every point of the run write interest holds exactly while output is pending. */
  predicate InterestKept(c: Conn, run: seq<Event>)
    requires LegalRun(c, run)
    decreases |run|
  {
    WritingIffPending(c) && (run == [] || InterestKept(Step(c, run[0]), run[1..]))
  }

  predicate NeverStrands(c: Conn, run: seq<Event>)
    requires LegalRun(c, run)
    decreases |run|
  {
    run == [] || (!Strands(c, run[0]) && NeverStrands(Step(c, run[0]), run[1..]))
  }

  /** No attempted direct write of a non-empty message fails. */
  predicate WritesSucceed(c: Conn, run: seq<Event>)
    requires LegalRun(c, run)
    decreases |run|
  {
    run == [] || (!Failed(c, run[0]) && WritesSucceed(Step(c, run[0]), run[1..]))
  }

  /** Output stream conservation over every run, whatever the partial writes were. */
  lemma {:induction false} RunKeepsTidy(c: Conn, run: seq<Event>)
    requires Tidy(c) && LegalRun(c, run)
    ensures Tidy(After(c, run))
    ensures Conserved(c) && WritesSucceed(c, run) ==> Conserved(After(c, run))
    decreases |run|
  {
    if run != [] {
      StepKeepsTidy(c, run[0]);
      StepAdds(c, run[0]);
      RunKeepsTidy(Step(c, run[0]), run[1..]);
    }
  }

  lemma {:induction false} RunKeepsInterest(c: Conn, run: seq<Event>)
    requires Tidy(c) && WritingIffPending(c) && LegalRun(c, run)
    ensures InterestKept(c, run) <==> NeverStrands(c, run)
    ensures NeverStrands(c, run) ==> WritingIffPending(After(c, run))
    decreases |run|
  {
    if run != [] {
      var d := Step(c, run[0]);
      StepInterest(c, run[0]);
      if Strands(c, run[0]) {
        assert !WritingIffPending(d) && !InterestKept(d, run[1..]);
      } else {
        RunKeepsInterest(d, run[1..]);
      }
    }
  }

  lemma {:induction false} RunThen(c: Conn, run: seq<Event>, e: Event)
    requires LegalRun(c, run) && Legal(After(c, run), e)
    ensures LegalRun(c, run + [e]) && After(c, run + [e]) == Step(After(c, run), e)
    decreases |run|
  {
    if run == [] {
      assert ([] + [e])[1..] == [];
      assert LegalRun(Step(c, e), []);
    } else {
      RunThen(Step(c, run[0]), run[1..], e);
      assert (run + [e])[0] == run[0] && (run + [e])[1..] == run[1..] + [e];
    }
  }

  /**
   * The stream is conserved in every run of sends and HTTP responses whose direct writes do not
   * fail; write interest follows the pending output all along exactly when no response is
   * stranded, and a deferred shutdown is carried out, whatever fails.
   */
  lemma StreamConserved(run: seq<Event>)
    requires LegalRun(INIT, run)
    ensures var c := After(INIT, run);
      && (WritesSucceed(INIT, run) ==> c.wire + c.output == Concat(c.accepted))
      && (c.state == Disconnecting && c.shutdownRan && c.output == "" ==> c.socketShut)
      && (NeverStrands(INIT, run) && c.state != Disconnected ==> (c.writing <==> c.output != ""))
    ensures InterestKept(INIT, run) <==> NeverStrands(INIT, run)
  {
    RunKeepsTidy(INIT, run);
    RunKeepsInterest(INIT, run);
  }

  // ---- Draining ----

  /** Writable events whose writes take these numbers of bytes. */
  function Writes(ns: seq<nat>): (run: seq<Event>)
    ensures |run| == |ns|
  {
    if ns == [] then [] else [Writable(ns[0])] + Writes(ns[1..])
  }

  function Total(ns: seq<nat>): nat
  {
    if ns == [] then 0 else ns[0] + Total(ns[1..])
  }

  /** The connection when `k` bytes of its output have gone out: drained, or still writing the rest. */
  function Drained(c: Conn, k: nat): Conn
    requires k <= |c.output|
  {
    if k < |c.output| then c.(wire := c.wire + c.output[..k], output := c.output[k..])
    else c.(wire := c.wire + c.output, output := "", writing := false,
            socketShut := c.socketShut || c.state == Disconnecting)
  }

  lemma DrainedTwice(c: Conn, a: nat, b: nat)
    requires a + b <= |c.output| && a < |c.output|
    ensures Drained(Drained(c, a), b) == Drained(c, a + b)
  {
    var d := Drained(c, a);
    assert c.output[..a] + c.output[a..][..b] == c.output[..a + b];
    assert c.wire + c.output[..a] + c.output[a..][..b] == c.wire + c.output[..a + b];
    assert c.output[a..][b..] == c.output[a + b..];
    SplitAndJoin(c.wire, c.output, a);
  }

  lemma OneWrite(c: Conn, n: nat)
    requires c.writing && 0 < n <= |c.output|
    ensures Legal(c, Writable(n)) && Step(c, Writable(n)) == Drained(c, n)
  {
    assert c.output[..|c.output|] == c.output;
  }

  /**
   * Output behind a partial write leaves: from a connection with write interest, writable events
   * that take positive numbers of bytes put exactly their sum on the wire; when that is all of
   * the output, the queue is empty, write interest ends, and a deferred shutdown is carried out.
   */
  lemma {:induction false} WritableDrains(c: Conn, ns: seq<nat>)
    requires c.writing && c.output != "" && Total(ns) <= |c.output| && forall i :: 0 <= i < |ns| ==> ns[i] > 0
    ensures LegalRun(c, Writes(ns))
    ensures ns != [] ==> After(c, Writes(ns)) == Drained(c, Total(ns))
    decreases |ns|
  {
    if ns != [] {
      OneWrite(c, ns[0]);
      var d := Drained(c, ns[0]);
      assert Writes(ns)[0] == Writable(ns[0]) && Writes(ns)[1..] == Writes(ns[1..]);
      if ns[1..] == [] {
        assert Writes(ns[1..]) == [] && Total(ns) == ns[0];
      } else {
        assert ns[1] > 0 && Total(ns[1..]) >= ns[1..][0];
        WritableDrains(d, ns[1..]);
        DrainedTwice(c, ns[0], Total(ns[1..]));
      }
    }
  }

  /** Where there is no write interest, or the write takes nothing, a writable event does nothing. */
  lemma WritableElse(c: Conn, n: int)
    requires Legal(c, Writable(n)) && (!c.writing || n <= 0)
    ensures Step(c, Writable(n)) == c
  {
  }

  /** While there is write interest, one write of all the output has everything accepted on the wire. */
  lemma EverythingGoesOut(run: seq<Event>)
    requires LegalRun(INIT, run) && WritesSucceed(INIT, run) && After(INIT, run).writing
    ensures var n := |After(INIT, run).output|;
      && LegalRun(INIT, run + [Writable(n)])
      && After(INIT, run + [Writable(n)]).wire == Concat(After(INIT, run).accepted)
      && (After(INIT, run).state == Disconnecting ==> After(INIT, run + [Writable(n)]).socketShut)
  {
    RunKeepsTidy(INIT, run);
    var c := After(INIT, run);
    OneWrite(c, |c.output|);
    RunThen(INIT, run, Writable(|c.output|));
  }

  // ---- Reading, and the end ----

  /** The channel has read interest exactly while the connection is open. */
  lemma {:induction false} ReadsWhileOpen(c: Conn, run: seq<Event>)
    requires (c.reading <==> c.state == Connected || c.state == Disconnecting) && LegalRun(c, run)
    ensures var d := After(c, run); d.reading <==> d.state == Connected || d.state == Disconnecting
    decreases |run|
  {
    if run != [] {
      ReadsWhileOpen(Step(c, run[0]), run[1..]);
    }
  }

  /** The events that take a connection down. */
  predicate Ends(c: Conn, e: Event)
  {
    e.Close? || (e.Destroyed? && c.state == Connected)
  }

  lemma {:induction false} DownIsFinal(c: Conn, run: seq<Event>)
    requires c.state == Disconnected && !c.writing && LegalRun(c, run)
    ensures var d := After(c, run); d.state == Disconnected && !d.writing && d.wire == c.wire
    decreases |run|
  {
    if run != [] {
      DownIsFinal(Step(c, run[0]), run[1..]);
    }
  }

  /** Once a connection is down it stays so, and no byte of it reaches the wire any more. */
  lemma EndIsFinal(c: Conn, e: Event, run: seq<Event>)
    requires Legal(c, e) && Ends(c, e) && LegalRun(Step(c, e), run)
    ensures var d := After(Step(c, e), run); d.state == Disconnected && !d.writing && d.wire == c.wire
  {
    DownIsFinal(Step(c, e), run);
  }

  lemma {:induction false} NeverConnectedAgain(c: Conn, run: seq<Event>)
    requires (c.state == Disconnecting || c.state == Disconnected) && LegalRun(c, run)
    ensures After(c, run).state == Disconnecting || After(c, run).state == Disconnected
    decreases |run|
  {
    if run != [] {
      NeverConnectedAgain(Step(c, run[0]), run[1..]);
    }
  }

  /** After a shutdown call an established connection is never connected again. */
  lemma ShutdownIsFinal(c: Conn, run: seq<Event>)
    requires c.state != Connecting && LegalRun(Step(c, ShutdownCall), run)
    ensures After(Step(c, ShutdownCall), run).state != Connected && After(Step(c, ShutdownCall), run).state != Connecting
  {
    NeverConnectedAgain(Step(c, ShutdownCall), run);
  }

  // ---- Failed direct writes ----

  /** The same event with another byte in front of its message. */
  predicate SameButBefore(e: Event, f: Event)
  {
    match e
    case Send(msg, n, _) => f.Send? && f.msg == msg && f.n == n
    case Reply(response, n, _) => f.Reply? && f.response == response && f.n == n
    case _ => f == e
  }

  predicate Variant(run: seq<Event>, run': seq<Event>)
  {
    |run| == |run'| && forall i :: 0 <= i < |run| ==> SameButBefore(run[i], run'[i])
  }

  /** Connections that differ in bytes only. */
  predicate SameShape(c: Conn, d: Conn)
  {
    d == c.(output := d.output, wire := d.wire) && |d.output| == |c.output|
  }

  lemma SendKeepsShape(c: Conn, d: Conn, msg: string, msg': string, n: int, before: char, before': char)
    requires SameShape(c, d) && |msg| == |msg'| && -1 <= n <= |msg|
    ensures var c' := SendInLoop(c, msg, n, before); var d' := SendInLoop(d, msg', n, before');
      SameShape(c'.(accepted := []), d'.(accepted := []))
  {
    if c.state != Disconnected {
      SendParts(c, msg, n, before);
      SendParts(d, msg', n, before');
    }
  }

  lemma RespondKeepsShape(c: Conn, d: Conn, response: string, n: int, before: char, before': char)
    requires SameShape(c, d) && -1 <= n <= |c.output + response|
    ensures SameShape(Respond(c, response, n, before), Respond(d, response, n, before'))
  {
    if c.state == Connected {
      SendKeepsShape(c.(output := ""), d.(output := ""), c.output + response, d.output + response, n, before, before');
    }
  }

  lemma WriteKeepsShape(c: Conn, d: Conn, n: int)
    requires SameShape(c, d) && n <= |c.output|
    ensures SameShape(HandleWrite(c, n), HandleWrite(d, n))
  {
  }

  lemma StepKeepsShape(c: Conn, d: Conn, e: Event, f: Event)
    requires SameShape(c, d) && SameButBefore(e, f) && Legal(c, e)
    ensures Legal(d, f) && SameShape(Step(c, e), Step(d, f)) && (Failed(c, e) <==> Failed(d, f))
  {
    match e {
      case Send(msg, n, before) => SendKeepsShape(c, d, msg, msg, n, before, f.before);
      case Reply(response, n, before) => RespondKeepsShape(c, d, response, n, before, f.before);
      case Writable(n) => WriteKeepsShape(c, d, n);
      case _ =>
    }
  }

  lemma {:induction false} RunKeepsShape(c: Conn, d: Conn, run: seq<Event>, run': seq<Event>)
    requires SameShape(c, d) && Variant(run, run') && LegalRun(c, run)
    ensures LegalRun(d, run') && (WritesSucceed(c, run) <==> WritesSucceed(d, run'))
    decreases |run|
  {
    if run != [] {
      StepKeepsShape(c, d, run[0], run'[0]);
      RunKeepsShape(Step(c, run[0]), Step(d, run'[0]), run[1..], run'[1..]);
    }
  }

  /** The stream and what was accepted differ at position `p`. */
  predicate Diverged(c: Conn, p: nat)
  {
    p < |c.wire + c.output| && p < |Concat(c.accepted)| && (c.wire + c.output)[p] != Concat(c.accepted)[p]
  }

  lemma {:induction false} DivergedForGood(c: Conn, run: seq<Event>, p: nat)
    requires Tidy(c) && Diverged(c, p) && LegalRun(c, run)
    ensures Diverged(After(c, run), p)
    decreases |run|
  {
    if run != [] {
      StepAdds(c, run[0]);
      StepKeepsTidy(c, run[0]);
      DivergedForGood(Step(c, run[0]), run[1..], p);
    }
  }

  lemma FailureDiverges(c: Conn, e: Event)
    requires Tidy(c) && Conserved(c) && Legal(c, e) && Failed(c, e) && e.before != Payload(c, e)[0]
    ensures Diverged(Step(c, e), |c.wire + c.output|)
  {
    StepAdds(c, e);
    assert Added(c, e)[0] == e.before;
  }

  function OtherByte(c: char): char
  {
    if c == 'a' then 'b' else 'a'
  }

  /** The event with a byte in front of its message that is not the message's first. */
  function WithOtherByte(c: Conn, e: Event): (f: Event)
    requires Failed(c, e)
    ensures SameButBefore(e, f) && Payload(c, f) == Payload(c, e) && f.before != Payload(c, e)[0]
  {
    e.(before := OtherByte(Payload(c, e)[0]))
  }

  lemma {:induction false} FailedRunDiverges(c: Conn, run: seq<Event>) returns (run': seq<Event>)
    requires Tidy(c) && Conserved(c) && LegalRun(c, run) && !WritesSucceed(c, run)
    ensures Variant(run, run') && LegalRun(c, run') && !Conserved(After(c, run'))
    decreases |run|
  {
    if Failed(c, run[0]) {
      var f := WithOtherByte(c, run[0]);
      run' := [f] + run[1..];
      assert run'[0] == f && run'[1..] == run[1..];
      RunKeepsShape(c, c, run, run');
      StepKeepsShape(c, c, run[0], f);
      FailureDiverges(c, f);
      StepKeepsTidy(c, f);
      DivergedForGood(Step(c, f), run[1..], |c.wire + c.output|);
    } else {
      StepAdds(c, run[0]);
      StepKeepsTidy(c, run[0]);
      var rest := FailedRunDiverges(Step(c, run[0]), run[1..]);
      run' := [run[0]] + rest;
      assert run'[0] == run[0] && run'[1..] == rest;
    }
  }

  /**
   * The stream of a run is conserved, whatever bytes lie in front of its messages, exactly when
   * no attempted direct write of a non-empty message fails: a failed one leaves the offset at
   * -1, queues the byte in front of the message and drops its last.
   */
  lemma StreamConservedExactly(run: seq<Event>)
    requires LegalRun(INIT, run)
    ensures (forall run' :: Variant(run, run') ==> LegalRun(INIT, run') && Conserved(After(INIT, run')))
       <==> WritesSucceed(INIT, run)
  {
    if WritesSucceed(INIT, run) {
      forall run' | Variant(run, run')
        ensures LegalRun(INIT, run') && Conserved(After(INIT, run'))
      {
        RunKeepsShape(INIT, INIT, run, run');
        RunKeepsTidy(INIT, run');
      }
    } else {
      var run' := FailedRunDiverges(INIT, run);
    }
  }

  /** The first write to a new connection fails: the byte in front of the message is queued, its last is dropped. */
  lemma FailedWriteShiftsMessage()
    ensures var run := [Established, Send("ab", -1, 'x')];
      LegalRun(INIT, run) && !WritesSucceed(INIT, run) && After(INIT, run).output == "xa"
  {
    var run := [Established, Send("ab", -1, 'x')];
    assert run[1..] == [Send("ab", -1, 'x')] && run[1..][1..] == [];
    var c := Step(INIT, Established);
    var d := Step(c, Send("ab", -1, 'x'));
    assert LegalRun(d, []) && LegalRun(c, run[1..]);
    assert After(d, []) == d && After(c, run[1..]) == d;
    assert ([ 'x' ] + "ab")[..2] == "xa";
  }

  // ---- Output that is left behind ----

  /**
   * Output is left behind by a close that meets write interest and by a response to a
   * connection that is being shut down, or is down, without write interest; a later message
   * to a connection that is being shut down puts it back under write interest.
   */
  function LeftAfter(c: Conn, e: Event, left: bool): bool
  {
    match e
    case Close => left || c.writing
    case Destroyed => left || (c.state == Connected && c.writing)
    case Reply(response, _, _) =>
      left || (response != "" && !c.writing && (c.state == Disconnecting || c.state == Disconnected))
    case Send(msg, _, _) => left && !(msg != "" && c.state == Disconnecting && !c.writing)
    case _ => left
  }

  predicate LeftBehind(c: Conn, run: seq<Event>, left: bool)
    requires LegalRun(c, run)
    decreases |run|
  {
    if run == [] then left else LeftBehind(Step(c, run[0]), run[1..], LeftAfter(c, run[0], left))
  }

  lemma StepLeaves(c: Conn, e: Event, left: bool)
    requires Tidy(c) && Legal(c, e) && (left <==> c.output != "" && !c.writing)
    ensures LeftAfter(c, e, left) <==> Step(c, e).output != "" && !Step(c, e).writing
  {
    match e {
      case Send(msg, n, before) =>
        if c.state != Disconnected {
          SendAdds(c, msg, n, before);
        }
      case Reply(response, n, before) =>
        if c.state == Connected {
          RespondAdds(c, response, n, before);
        }
      case _ =>
    }
  }

  lemma {:induction false} LeftBehindIsUnwatched(c: Conn, run: seq<Event>, left: bool)
    requires Tidy(c) && LegalRun(c, run) && (left <==> c.output != "" && !c.writing)
    ensures LeftBehind(c, run, left) <==> After(c, run).output != "" && !After(c, run).writing
    decreases |run|
  {
    if run != [] {
      StepLeaves(c, run[0], left);
      StepKeepsTidy(c, run[0]);
      LeftBehindIsUnwatched(Step(c, run[0]), run[1..], LeftAfter(c, run[0], left));
    }
  }

  /**
   * The step that shuts the socket finds no output, and every accepted byte on the wire, exactly
   * when no output was left behind by the events before it.
   */
  lemma ShutOnlyWhenDrained(run: seq<Event>, e: Event)
    requires LegalRun(INIT, run)
    requires var c := After(INIT, run); Legal(c, e) && !c.socketShut && Step(c, e).socketShut
    ensures var d := Step(After(INIT, run), e);
      && (d.output == "" <==> !LeftBehind(INIT, run, false))
      && (WritesSucceed(INIT, run) ==> (d.wire == Concat(d.accepted) <==> !LeftBehind(INIT, run, false)))
  {
    RunKeepsTidy(INIT, run);
    LeftBehindIsUnwatched(INIT, run, false);
    var c := After(INIT, run);
    assert e.ShutdownTask? || e.Writable?;
    StepAdds(c, e);
    var d := Step(c, e);
    assert |d.wire + d.output| == |d.wire| + |d.output|;
    assert d.output == "" ==> d.wire + d.output == d.wire;
  }

  /** The excluded case happens: the peer closes while a shutdown task is queued behind unsent output. */
  lemma ShutAfterCloseDropsOutput()
    ensures var run := [Established, Send("ab", 1, 'x'), ShutdownCall, Close, ShutdownTask];
      && LegalRun(INIT, run)
      && After(INIT, run).socketShut && After(INIT, run).output == "b"
  {
    var r0: seq<Event> := [];
    RunThen(INIT, r0, Established);
    var r1 := r0 + [Established];
    RunThen(INIT, r1, Send("ab", 1, 'x'));
    var r2 := r1 + [Send("ab", 1, 'x')];
    assert After(INIT, r2).output == "b";
    RunThen(INIT, r2, ShutdownCall);
    RunThen(INIT, r2 + [ShutdownCall], Close);
    RunThen(INIT, r2 + [ShutdownCall] + [Close], ShutdownTask);
    assert r2 + [ShutdownCall] + [Close] + [ShutdownTask]
        == [Established, Send("ab", 1, 'x'), ShutdownCall, Close, ShutdownTask];
  }

  /** A response built after the shutdown was carried out stays in the buffer without write interest. */
  lemma ReplyAfterShutdownIsStranded()
    ensures var run := [Established, ShutdownCall, ShutdownTask, Reply("ok", 0, 'x')];
      && LegalRun(INIT, run) && !NeverStrands(INIT, run)
      && After(INIT, run).output == "ok" && !After(INIT, run).writing
  {
    var r0: seq<Event> := [];
    RunThen(INIT, r0, Established);
    var r1 := r0 + [Established];
    RunThen(INIT, r1, ShutdownCall);
    var r2 := r1 + [ShutdownCall];
    RunThen(INIT, r2, ShutdownTask);
    var r3 := r2 + [ShutdownTask];
    RunThen(INIT, r3, Reply("ok", 0, 'x'));
    assert "" + "ok" == "ok";
    RunKeepsInterest(INIT, r3 + [Reply("ok", 0, 'x')]);
    assert r3 + [Reply("ok", 0, 'x')] == [Established, ShutdownCall, ShutdownTask, Reply("ok", 0, 'x')];
  }

  // ---- One step ----

  /**
   * A message or a response keeps the stream, whatever byte precedes it, exactly when its direct
   * write did not fail, was not attempted, or it is empty; and write interest still follows the
   * output exactly when it is not a response stranded by a shutdown.
   */
  lemma StepConservesExactly(c: Conn, e: Event)
    requires Inv(c) && Legal(c, e)
    ensures (forall f :: SameButBefore(e, f) ==> Legal(c, f) && Conserved(Step(c, f))) <==> !Failed(c, e)
    ensures WritingIffPending(Step(c, e)) <==> !Strands(c, e)
  {
    StepInterest(c, e);
    if Failed(c, e) {
      var f := WithOtherByte(c, e);
      StepKeepsShape(c, c, e, f);
      FailureDiverges(c, f);
    } else {
      forall f | SameButBefore(e, f)
        ensures Legal(c, f) && Conserved(Step(c, f))
      {
        StepKeepsShape(c, c, e, f);
        StepAdds(c, f);
      }
    }
  }
}
