/**
 * The asynchronous logger: producers fill the current buffer under a lock, the writer
 * thread swaps the filled ones out, writes them and hands two of them back.  A pointer is
 * an Option, None being null; a step that would use a null pointer or take the back of an
 * empty vector has no successor.  Every action is one critical section or one writer step.
 */
module AsyncLogging {
  import opened Common

  const LARGE_BUFFER: nat := 4000 * 1000

  type Ptr = Option<string>

  /** Where the writer thread is. */
  datatype Pc =
    | Head               // about to test running_
    | Waiting            // inside the loop, has not yet swapped
    | Writing            // walking over buffersToWrite
    | Done

  datatype Log = Log(
    current: Ptr,
    next: Ptr,
    buffers: seq<Ptr>,
    pc: Pc,
    spare1: Ptr,              // newBuffer1
    spare2: Ptr,              // newBuffer2
    toWrite: seq<Ptr>,
    written: nat,             // buffers of toWrite already passed to the file
    running: bool,
    output: string,           // what the file has received
    lines: seq<string>,       // history: lines in lock order
    swapped: nat              // history: lines appended before the last swap
  )

  const INIT := Log(Some(""), Some(""), [], Head, Some(""), Some(""), [], 0, true, "", [], 0)

  datatype Action =
    | Append(line: string)
    | Stop
    | CheckRunning
    | Swap                // the wait is over, for whatever reason
    | WriteOne
    | Recycle

  predicate Enabled(s: Log, a: Action)
  {
    match a
    case Append(_) => true
    case Stop => true
    case CheckRunning => s.pc == Head
    case Swap => s.pc == Waiting
    case WriteOne => s.pc == Writing && s.written < |s.toWrite|
    case Recycle => s.pc == Writing && s.written == |s.toWrite|
  }

  /** FixedBuffer::append: silently refuses what does not fit. */
  function BufferAppend(buf: string, line: string): string
  {
    if LARGE_BUFFER - |buf| > |line| then buf + line else buf
  }

  function AppendLine(s: Log, line: string): Option<Log>
  {
    if s.current.None? then None
    else
      var h := s.(lines := s.lines + [line]);
      if LARGE_BUFFER - |s.current.value| > |line| then
        Some(h.(current := Some(BufferAppend(s.current.value, line))))
      else
        var cur := if s.next.Some? then s.next.value else "";
        Some(h.(buffers := s.buffers + [s.current], next := None, current := Some(BufferAppend(cur, line))))
  }

  function SwapBuffers(s: Log): Log
  {
    var s1 := s.(toWrite := s.buffers + [s.current], buffers := s.toWrite, current := s.spare1, spare1 := None,
                 written := 0, pc := Writing, swapped := |s.lines|);
    if s.next.None? then s1.(next := s.spare2, spare2 := None) else s1
  }

  /** Takes back the last buffer of the vector, emptied; None when there is none to take. */
  function TakeBack(spare: Ptr, vec: seq<Ptr>): Option<(Ptr, seq<Ptr>)>
  {
    if spare.Some? then Some((spare, vec))
    else if vec == [] || vec[|vec| - 1].None? then None
    else Some((Some(""), vec[..|vec| - 1]))
  }

  function RecycleBuffers(s: Log): Option<Log>
  {
    var kept := if |s.toWrite| > 2 then s.toWrite[..2] else s.toWrite;
    var r1 := TakeBack(s.spare1, kept);
    if r1.None? then None
    else
      var r2 := TakeBack(s.spare2, r1.value.1);
      if r2.None? then None
      else Some(s.(spare1 := r1.value.0, spare2 := r2.value.0, toWrite := [], written := 0, pc := Head))
  }

  function Apply(s: Log, a: Action): Option<Log>
    requires Enabled(s, a)
  {
    match a
    case Append(line) => AppendLine(s, line)
    case Stop => Some(s.(running := false))
    case CheckRunning => Some(s.(pc := if s.running then Waiting else Done))
    case Swap => Some(SwapBuffers(s))
    case WriteOne =>
      if s.toWrite[s.written].None? then None
      else Some(s.(output := s.output + s.toWrite[s.written].value, written := s.written + 1))
    case Recycle => RecycleBuffers(s)
  }

  /** Every action of the run is possible and none of them uses a null pointer or an empty vector. */
  predicate SafeRun(s: Log, run: seq<Action>)
    decreases |run|
  {
    run == [] || (Enabled(s, run[0]) && Apply(s, run[0]).Some? && SafeRun(Apply(s, run[0]).value, run[1..]))
  }

  /** Every action of the run is possible; it may stop early in a failed step. */
  predicate LegalRun(s: Log, run: seq<Action>)
    decreases |run|
  {
    run == [] || (Enabled(s, run[0]) && (Apply(s, run[0]).Some? ==> LegalRun(Apply(s, run[0]).value, run[1..])))
  }

  function After(s: Log, run: seq<Action>): Log
    requires SafeRun(s, run)
    decreases |run|
  {
    if run == [] then s else After(Apply(s, run[0]).value, run[1..])
  }

  // ---- Conservation ----

  predicate AllSome(ps: seq<Ptr>)
  {
    forall p :: p in ps ==> p.Some?
  }

  function Contents(ps: seq<Ptr>): string
  {
    if ps == [] then "" else (if ps[0].Some? then ps[0].value else "") + Contents(ps[1..])
  }

  function KeptOf(line: string): string
  {
    if |line| < LARGE_BUFFER then line else ""
  }

  /** The lines the logger keeps: those shorter than a large buffer. */
  function Kept(lines: seq<string>): string
  {
    if lines == [] then ""
    else Kept(lines[..|lines| - 1]) + KeptOf(lines[|lines| - 1])
  }

  lemma {:induction false} ContentsAppend(a: seq<Ptr>, b: seq<Ptr>)
    ensures Contents(a + b) == Contents(a) + Contents(b)
  {
    if a == [] {
      assert a + b == b;
    } else {
      assert (a + b)[1..] == a[1..] + b;
      ContentsAppend(a[1..], b);
    }
  }

  lemma KeptOne(lines: seq<string>, line: string)
    ensures Kept(lines + [line]) == Kept(lines) + KeptOf(line)
  {
    assert (lines + [line])[..|lines|] == lines;
  }

  function Unwritten(s: Log): string
    requires s.written <= |s.toWrite|
  {
    Contents(s.toWrite[s.written..])
  }

  function Front(s: Log): string
  {
    Contents(s.buffers + [s.current])
  }

  /** File, then unwritten buffers, then the producers' buffers: every kept line, in order. */
  predicate Conserved(s: Log)
  {
    && s.written <= |s.toWrite| && s.swapped <= |s.lines|
    && s.output + Unwritten(s) == Kept(s.lines[..s.swapped])
    && s.output + Unwritten(s) + Front(s) == Kept(s.lines)
  }

  /** References: the current buffer exists, a missing next buffer is replaced by a waiting full one. */
  predicate Pointers(s: Log)
  {
    && s.current.Some? && AllSome(s.buffers) && AllSome(s.toWrite)
    && (s.next.None? ==> s.buffers != [])
    && (s.next.Some? ==> s.next.value == "")
    && (s.pc != Writing ==> s.spare1 == Some("") && s.spare2 == Some("") && s.toWrite == [])
    && (s.pc == Writing ==> s.spare1 == None && |s.toWrite| >= 1)
    && (s.pc == Writing && s.spare2.None? ==> |s.toWrite| >= 2)
    && (s.spare2.Some? ==> s.spare2.value == "")
  }

  predicate Inv(s: Log)
  {
    Pointers(s) && Conserved(s)
  }

  lemma FrontIs(s: Log)
    requires s.current.Some?
    ensures Front(s) == Contents(s.buffers) + s.current.value
  {
    ContentsAppend(s.buffers, [s.current]);
    assert Contents([s.current]) == s.current.value + Contents([]);
  }

  lemma AppendExtendsFront(s: Log, line: string)
    requires Pointers(s)
    ensures AppendLine(s, line).Some?
    ensures Front(AppendLine(s, line).value) == Front(s) + KeptOf(line)
  {
    var s' := AppendLine(s, line).value;
    FrontIs(s);
    FrontIs(s');
    if LARGE_BUFFER - |s.current.value| <= |line| {
      assert s'.buffers == s.buffers + [s.current];
      assert s'.current.value == KeptOf(line);
    }
  }

  lemma AppendKeepsPointers(s: Log, line: string)
    requires Pointers(s)
    ensures AppendLine(s, line).Some? && Pointers(AppendLine(s, line).value)
  {
  }

  /** Appending leaves the writer's side alone. */
  predicate SameBack(s: Log, s': Log, line: string)
  {
    && s'.lines == s.lines + [line] && s'.swapped == s.swapped
    && s'.output == s.output && s'.toWrite == s.toWrite && s'.written == s.written
  }

  lemma AppendKeepsConserved(s: Log, s': Log, line: string)
    requires Conserved(s) && SameBack(s, s', line) && Front(s') == Front(s) + KeptOf(line)
    ensures Conserved(s')
  {
    KeptOne(s.lines, line);
    assert s'.lines[..s.swapped] == s.lines[..s.swapped];
    Associate(s.output + Unwritten(s), Front(s), KeptOf(line));
  }

  lemma Associate(a: string, b: string, c: string)
    ensures a + (b + c) == a + b + c
  {
  }

  lemma AppendResult(s: Log, line: string) returns (s': Log)
    requires Pointers(s)
    ensures AppendLine(s, line) == Some(s') && Pointers(s') && SameBack(s, s', line)
    ensures Front(s') == Front(s) + KeptOf(line)
  {
    AppendKeepsPointers(s, line);
    AppendExtendsFront(s, line);
    s' := AppendLine(s, line).value;
  }

  lemma AppendKeepsInv(s: Log, line: string)
    requires Inv(s)
    ensures AppendLine(s, line).Some? && Inv(AppendLine(s, line).value)
  {
    var s' := AppendResult(s, line);
    AppendKeepsConserved(s, s', line);
  }

  lemma SwapKeepsPointers(s: Log)
    requires Pointers(s) && s.pc == Waiting
    ensures Pointers(SwapBuffers(s))
  {
  }

  /** The swap hands the producers' side over whole and leaves an empty one. */
  lemma SwapHandsOver(s: Log)
    requires Pointers(s) && s.pc == Waiting && s.written <= |s.toWrite|
    ensures var s' := SwapBuffers(s);
      Unwritten(s) == "" && s'.written <= |s'.toWrite| && Unwritten(s') == Front(s) && Front(s') == ""
  {
    var s' := SwapBuffers(s);
    assert s'.toWrite[0..] == s'.toWrite;
    assert s'.buffers + [s'.current] == [Some("")];
    assert Contents([Some("")]) == "" + Contents([]);
  }

  lemma SwapKeepsConserved(s: Log, s': Log)
    requires Conserved(s) && Unwritten(s) == ""
    requires s'.written <= |s'.toWrite| && Unwritten(s') == Front(s) && Front(s') == ""
    requires s'.output == s.output && s'.lines == s.lines && s'.swapped == |s.lines|
    ensures Conserved(s')
  {
    assert s'.lines[..s'.swapped] == s.lines;
    assert s.output + "" == s.output;
  }

  lemma SwapKeepsInv(s: Log)
    requires Inv(s) && s.pc == Waiting
    ensures Inv(SwapBuffers(s))
  {
    SwapKeepsPointers(s);
    SwapHandsOver(s);
    SwapKeepsConserved(s, SwapBuffers(s));
  }

  lemma WriteKeepsInv(s: Log)
    requires Inv(s) && Enabled(s, WriteOne)
    ensures Apply(s, WriteOne).Some? && Inv(Apply(s, WriteOne).value)
  {
    var rest := s.toWrite[s.written..];
    var buf := s.toWrite[s.written];
    assert buf in s.toWrite;
    assert rest[0] == buf && rest[1..] == s.toWrite[s.written + 1..];
    assert Contents(rest) == buf.value + Contents(rest[1..]);
    Associate(s.output, buf.value, Contents(rest[1..]));
  }

  /** Both spares come back empty; there are enough buffers to take them from. */
  lemma RecycleSucceeds(s: Log)
    requires Pointers(s) && s.pc == Writing
    ensures RecycleBuffers(s) == Some(s.(spare1 := Some(""), spare2 := Some(""), toWrite := [], written := 0, pc := Head))
  {
    var kept := if |s.toWrite| > 2 then s.toWrite[..2] else s.toWrite;
    assert forall i :: 0 <= i < |kept| ==> kept[i] == s.toWrite[i] && s.toWrite[i].Some?;
    assert TakeBack(s.spare1, kept) == Some((Some(""), kept[..|kept| - 1]));
  }

  lemma RecycleKeepsInv(s: Log)
    requires Inv(s) && Enabled(s, Recycle)
    ensures RecycleBuffers(s).Some? && Inv(RecycleBuffers(s).value)
  {
    RecycleSucceeds(s);
    var s' := RecycleBuffers(s).value;
    assert s.toWrite[s.written..] == [] && s'.toWrite[s'.written..] == [];
    assert Unwritten(s') == Unwritten(s) && Front(s') == Front(s);
  }

  lemma StepKeepsInv(s: Log, a: Action)
    requires Inv(s) && Enabled(s, a)
    ensures Apply(s, a).Some? && Inv(Apply(s, a).value)
  {
    match a {
      case Append(line) => AppendKeepsInv(s, line);
      case Swap => SwapKeepsInv(s);
      case WriteOne => WriteKeepsInv(s);
      case Recycle => RecycleKeepsInv(s);
      case _ =>
    }
  }

  /** In every interleaving no step fails, no reference is null where it is used, and every kept line is conserved. */
  lemma {:induction false} RunKeepsInv(s: Log, run: seq<Action>)
    requires Inv(s) && LegalRun(s, run)
    ensures SafeRun(s, run) && Inv(After(s, run))
    decreases |run|
  {
    if run != [] {
      StepKeepsInv(s, run[0]);
      RunKeepsInv(Apply(s, run[0]).value, run[1..]);
    }
  }

  lemma InitInv()
    ensures Inv(INIT)
  {
    assert INIT.buffers + [INIT.current] == [Some("")];
    assert Contents([Some("")]) == "" + Contents([]);
    assert Front(INIT) == "";
  }

  /**
   * Log conservation: the file holds a prefix of the kept lines; whatever is missing is in
   * the buffers; a line is dropped only when it is as long as a whole buffer.
   */
  lemma LogConserved(run: seq<Action>)
    requires LegalRun(INIT, run)
    ensures SafeRun(INIT, run)
    ensures var s := After(INIT, run);
      && s.written <= |s.toWrite|
      && s.output + Contents(s.toWrite[s.written..]) + Contents(s.buffers + [s.current]) == Kept(s.lines)
      && s.output <= Kept(s.lines)
  {
    InitInv();
    RunKeepsInv(INIT, run);
    var s := After(INIT, run);
    Associate(s.output, Unwritten(s), Front(s));
    PrefixOf(s.output, Unwritten(s) + Front(s));
  }

  lemma PrefixOf(a: string, b: string)
    ensures a <= a + b
  {
  }

  /** The two recoveries never meet an empty vector, and both spares are back at every loop head. */
  lemma RecyclingIsSafe(run: seq<Action>)
    requires LegalRun(INIT, run)
    ensures SafeRun(INIT, run)
    ensures var s := After(INIT, run);
      && s.current.Some?
      && (s.next.None? ==> s.buffers != [])
      && (s.pc == Head ==> s.spare1 == Some("") && s.spare2 == Some(""))
      && (s.pc == Writing && s.written == |s.toWrite| ==> RecycleBuffers(s).Some?)
  {
    InitInv();
    RunKeepsInv(INIT, run);
    var s := After(INIT, run);
    if s.pc == Writing && s.written == |s.toWrite| {
      StepKeepsInv(s, Recycle);
    }
  }

  /**
   * When the writer has stopped the file holds exactly the kept lines of the last swap:
   * nothing is missing if and only if no kept, non-empty line was appended after it.
   */
  lemma StoppedLog(run: seq<Action>)
    requires LegalRun(INIT, run) && SafeRun(INIT, run) && After(INIT, run).pc == Done
    ensures var s := After(INIT, run);
      && s.swapped <= |s.lines|
      && s.output == Kept(s.lines[..s.swapped])
      && (s.output == Kept(s.lines)
          <==> forall k :: s.swapped <= k < |s.lines| ==> |s.lines[k]| == 0 || |s.lines[k]| >= LARGE_BUFFER)
  {
    InitInv();
    RunKeepsInv(INIT, run);
    var s := After(INIT, run);
    assert Unwritten(s) == "";
    KeptFrom(s.lines, s.swapped);
  }

  /** The lost line: nothing was swapped out after it. */
  lemma LineAfterTheLastSwapIsLost()
    ensures var run := [Append("x"), Stop, CheckRunning];
      LegalRun(INIT, run) && SafeRun(INIT, run)
      && After(INIT, run).pc == Done && After(INIT, run).lines == ["x"] && After(INIT, run).output == ""
  {
    var run := [Append("x"), Stop, CheckRunning];
    assert run[1..] == [Stop, CheckRunning] && run[1..][1..] == [CheckRunning] && run[1..][1..][1..] == [];
    var s1 := Apply(INIT, Append("x")).value;
    var s2 := Apply(s1, Stop).value;
    var s3 := Apply(s2, CheckRunning).value;
    assert SafeRun(s3, []) && SafeRun(s2, run[1..][1..]) && SafeRun(s1, run[1..]);
    assert LegalRun(s3, []) && LegalRun(s2, run[1..][1..]) && LegalRun(s1, run[1..]);
    assert After(s3, []) == s3 && After(s2, run[1..][1..]) == s3 && After(s1, run[1..]) == s3;
    assert [] + ["x"] == ["x"];
  }

  lemma {:induction false} KeptFrom(lines: seq<string>, n: nat)
    requires n <= |lines|
    ensures Kept(lines[..n]) <= Kept(lines)
    ensures Kept(lines[..n]) == Kept(lines)
      <==> forall k :: n <= k < |lines| ==> |lines[k]| == 0 || |lines[k]| >= LARGE_BUFFER
    decreases |lines|
  {
    if n == |lines| {
      assert lines[..n] == lines;
    } else {
      var m := |lines| - 1;
      KeptFrom(lines[..m], n);
      assert lines[..m][..n] == lines[..n];
      assert lines == lines[..m] + [lines[m]];
    }
  }

  // ---- Every line can be written ----

  /** The steps of the writer thread. */
  predicate Writers(run: seq<Action>)
  {
    forall a :: a in run ==> a.CheckRunning? || a.Swap? || a.WriteOne? || a.Recycle?
  }

  /** `run` is made of writer steps and leads from `s` to `e`. */
  predicate Leads(s: Log, run: seq<Action>, e: Log)
  {
    SafeRun(s, run) && Writers(run) && After(s, run) == e
  }

  lemma {:induction false} RunConcat(s: Log, a: seq<Action>, b: seq<Action>)
    requires SafeRun(s, a) && SafeRun(After(s, a), b)
    ensures SafeRun(s, a + b) && After(s, a + b) == After(After(s, a), b)
    decreases |a|
  {
    if a == [] {
      assert a + b == b;
    } else {
      RunConcat(Apply(s, a[0]).value, a[1..], b);
      assert (a + b)[0] == a[0] && (a + b)[1..] == a[1..] + b;
    }
  }

  lemma Then(s: Log, run: seq<Action>, m: Log, a: Action) returns (e: Log)
    requires Inv(m) && Leads(s, run, m) && Enabled(m, a) && (a.CheckRunning? || a.Swap? || a.WriteOne? || a.Recycle?)
    ensures Apply(m, a) == Some(e) && Inv(e) && Leads(s, run + [a], e)
  {
    StepKeepsInv(m, a);
    e := Apply(m, a).value;
    assert [a][1..] == [] && SafeRun(e, []);
    assert SafeRun(m, [a]) && After(m, [a]) == e;
    RunConcat(s, run, [a]);
  }

  /** The writer passes every buffer it has taken to the file. */
  lemma {:induction false} WriteAll(s: Log, run: seq<Action>, m: Log) returns (run': seq<Action>, e: Log)
    requires Inv(m) && Leads(s, run, m) && m.pc == Writing
    ensures Leads(s, run', e) && Inv(e) && e.pc == Writing && e.written == |e.toWrite|
    ensures e.lines == m.lines && e.swapped == m.swapped && e.running == m.running
    decreases |m.toWrite| - m.written
  {
    if m.written == |m.toWrite| {
      run', e := run, m;
    } else {
      var next := Then(s, run, m, WriteOne);
      run', e := WriteAll(s, run + [WriteOne], next);
    }
  }

  /** From the moment of a swap, everything appended before it comes to the file. */
  lemma SwapAndWrite(s: Log, run: seq<Action>, m: Log) returns (run': seq<Action>, e: Log)
    requires Inv(m) && Leads(s, run, m) && m.pc == Waiting
    ensures Leads(s, run', e) && Inv(e) && e.lines == m.lines && e.output == Kept(m.lines)
  {
    var w := Then(s, run, m, Swap);
    run', e := WriteAll(s, run + [Swap], w);
    assert e.toWrite[e.written..] == [] && Unwritten(e) == "";
    assert e.lines[..e.swapped] == e.lines && e.output + "" == e.output;
  }

  lemma HeadAndWrite(s: Log, run: seq<Action>, m: Log) returns (run': seq<Action>, e: Log)
    requires Inv(m) && Leads(s, run, m) && m.pc == Head && m.running
    ensures Leads(s, run', e) && Inv(e) && e.lines == m.lines && e.output == Kept(m.lines)
  {
    var w := Then(s, run, m, CheckRunning);
    run', e := SwapAndWrite(s, run + [CheckRunning], w);
  }

  /**
   * From every state of a running logger the writer's own steps bring every kept line appended
   * so far into the file, in order, with no further line.
   */
  lemma EveryLineCanBeWritten(s: Log) returns (run: seq<Action>, e: Log)
    requires Inv(s) && s.running && s.pc != Done
    ensures Leads(s, run, e) && e.output == Kept(s.lines) == Kept(e.lines)
  {
    assert Leads(s, [], s);
    if s.pc == Waiting {
      run, e := SwapAndWrite(s, [], s);
    } else if s.pc == Head {
      run, e := HeadAndWrite(s, [], s);
    } else {
      var first, m := WriteAll(s, [], s);
      var h := Then(s, first, m, Recycle);
      RecycleSucceeds(m);
      run, e := HeadAndWrite(s, first + [Recycle], h);
    }
  }

  /** Stop ends the writer thread: every later test of the flag does. */
  lemma {:induction false} StoppedForGood(s: Log, run: seq<Action>)
    requires !s.running && SafeRun(s, run)
    ensures !After(s, run).running
    decreases |run|
  {
    if run != [] {
      StoppedForGood(Apply(s, run[0]).value, run[1..]);
    }
  }

  lemma StopEndsWriter(s: Log, run: seq<Action>)
    requires SafeRun(Apply(s, Stop).value, run) && Enabled(After(Apply(s, Stop).value, run), CheckRunning)
    ensures Apply(After(Apply(s, Stop).value, run), CheckRunning).Some?
    ensures Apply(After(Apply(s, Stop).value, run), CheckRunning).value.pc == Done
  {
    StoppedForGood(Apply(s, Stop).value, run);
  }

  lemma {:induction false} OnlyStopEnds(s: Log, run: seq<Action>)
    requires s.running && s.pc != Done && SafeRun(s, run) && Stop !in run
    ensures After(s, run).running && After(s, run).pc != Done
    decreases |run|
  {
    if run != [] {
      assert run[0] in run && forall a :: a in run[1..] ==> a in run;
      OnlyStopEnds(Apply(s, run[0]).value, run[1..]);
    }
  }
}
