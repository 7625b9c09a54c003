/**
 * The log file: a write-all loop over partial writes, and rolling to a new file by size or
 * by day.  Clock readings and results of fwrite are parameters.
 */
module LogFile {
  import opened Common

  const ROLL_PER_SECONDS: int := 60 * 60 * 24

  // ---- FileUtil ----

  function Sum(ns: seq<nat>): nat
  {
    if ns == [] then 0 else ns[0] + Sum(ns[1..])
  }

  class FileUtil {
    var content: string
    var writtenBytes: nat

    constructor ()
      ensures content == "" && writtenBytes == 0
    {
      content, writtenBytes := "", 0;
    }

    /**
     * Writes until nothing remains.  `attempts` are the sizes fwrite manages, zero included;
     * the loop leaves only when everything is written, so they must add up to enough.
     */
    method Append(data: string, attempts: seq<nat>)
      requires |data| <= Sum(attempts)
      modifies this
      ensures content == old(content) + data
      ensures writtenBytes == old(writtenBytes) + |data|
    {
      var written := 0;
      var i := 0;
      while written != |data|
        invariant 0 <= written <= |data| && 0 <= i <= |attempts|
        invariant |data| - written <= Sum(attempts[i..])
        invariant content == old(content) + data[..written] && writtenBytes == old(writtenBytes)
        decreases |attempts| - i
      {
        var remain := |data| - written;
        assert attempts[i..][1..] == attempts[i + 1..];
        var n := if attempts[i] < remain then attempts[i] else remain;
        assert data[..written + n] == data[..written] + data[written..written + n];
        content := content + data[written..written + n];
        written := written + n;
        i := i + 1;
      }
      writtenBytes := writtenBytes + written;
    }
  }

  // ---- Rolling, on values ----

  datatype Config = Config(rollSize: int, flushInterval: int, checkEveryN: int)

  datatype Files = Files(
    files: seq<string>,       // contents in order of creation; the last one is open
    written: nat,             // bytes written to the open file since it was created
    count: int,
    lastRoll: int,
    lastFlush: int,
    startOfPeriod: int,
    rollTimes: seq<int>       // history: when each file was created
  )

  function Period(t: int): int
  {
    t / ROLL_PER_SECONDS * ROLL_PER_SECONDS
  }

  function Roll(s: Files, now: int): Files
  {
    if now > s.lastRoll then
      s.(files := s.files + [""], written := 0, lastRoll := now, lastFlush := now,
         startOfPeriod := Period(now), rollTimes := s.rollTimes + [now])
    else s
  }

  /** What the constructor leaves behind at time `now`. */
  function Opened(now: int): Files
  {
    Roll(Files([], 0, 0, 0, 0, 0, []), now)
  }

  function Extend(s: Files, data: string): Files
    requires s.files != []
  {
    var last := |s.files| - 1;
    s.(files := s.files[last := s.files[last] + data], written := s.written + |data|)
  }

  /** `now` is the clock at the periodic check, `rollNow` the later reading when a file is rolled. */
  function Append(cfg: Config, s: Files, data: string, now: int, rollNow: int): Files
    requires s.files != []
  {
    var s1 := Extend(s, data);
    if s1.written > cfg.rollSize then Roll(s1, rollNow)
    else if s.count + 1 < cfg.checkEveryN then s1.(count := s.count + 1)
    else
      var s2 := s1.(count := 0);
      if Period(now) != s.startOfPeriod then Roll(s2, rollNow)
      else if now - s.lastFlush > cfg.flushInterval then s2.(lastFlush := now)
      else s2
  }

  // ---- The imperative object ----

  class LogFile {
    const cfg: Config
    var closed: seq<string>
    var file: FileUtil
    var count: int
    var lastRoll: int
    var lastFlush: int
    var startOfPeriod: int
    ghost var rollTimes: seq<int>

    ghost function View(): Files
      reads this, file
    {
      Files(closed + [file.content], file.writtenBytes, count, lastRoll, lastFlush, startOfPeriod, rollTimes)
    }

    /** The clock must be past the epoch, or no file would be opened at all. */
    constructor (cfg: Config, now: int)
      requires now > 0
      ensures this.cfg == cfg && fresh(file) && View() == Opened(now)
    {
      this.cfg := cfg;
      closed, count := [], 0;
      lastRoll, lastFlush, startOfPeriod := now, now, Period(now);
      rollTimes := [now];
      file := new FileUtil();
    }

    method RollFile(now: int) returns (rolled: bool)
      modifies this
      ensures View() == Roll(old(View()), now) && rolled == (now > old(lastRoll))
      ensures file == old(file) || fresh(file)
    {
      if now > lastRoll {
        lastRoll := now;
        lastFlush := now;
        startOfPeriod := Period(now);
        rollTimes := rollTimes + [now];
        closed := closed + [file.content];
        file := new FileUtil();
        return true;
      }
      return false;
    }

    method AppendUnlocked(data: string, attempts: seq<nat>, now: int, rollNow: int)
      requires |data| <= Sum(attempts)
      modifies this, file
      ensures View() == Append(cfg, old(View()), data, now, rollNow)
      ensures file == old(file) || fresh(file)
    {
      file.Append(data, attempts);
      assert View() == Extend(old(View()), data);
      if file.writtenBytes > cfg.rollSize {
        var _ := RollFile(rollNow);
      } else {
        count := count + 1;
        if count >= cfg.checkEveryN {
          count := 0;
          var thisPeriod := Period(now);
          if thisPeriod != startOfPeriod {
            var _ := RollFile(rollNow);
          } else if now - lastFlush > cfg.flushInterval {
            lastFlush := now;
          }
        }
      }
    }
  }

  // ---- Whole runs ----

  datatype Record = Record(data: string, now: int, rollNow: int)

  predicate Increasing(ts: seq<int>)
  {
    forall i, j :: 0 <= i < j < |ts| ==> ts[i] < ts[j]
  }

  predicate Inv(s: Files)
  {
    && s.files != [] && |s.rollTimes| == |s.files| && Increasing(s.rollTimes)
    && s.lastRoll > 0 && s.rollTimes[|s.rollTimes| - 1] == s.lastRoll
    && s.startOfPeriod == Period(s.lastRoll)
    && s.written == |s.files[|s.files| - 1]|
  }

  /** The clock never runs backwards, over the whole run. */
  predicate MonotoneClock(start: int, run: seq<Record>)
  {
    && (forall i :: 0 <= i < |run| ==> start <= run[i].now <= run[i].rollNow)
    && (forall i, j :: 0 <= i < j < |run| ==> run[i].rollNow <= run[j].now)
  }

  function After(cfg: Config, start: int, run: seq<Record>): (s: Files)
    requires start > 0
    ensures Inv(s)
    decreases |run|
  {
    if run == [] then Opened(start)
    else
      var last := |run| - 1;
      var s := After(cfg, start, run[..last]);
      AppendKeepsInv(cfg, s, run[last]);
      Append(cfg, s, run[last].data, run[last].now, run[last].rollNow)
  }

  function Data(run: seq<Record>): seq<string>
  {
    if run == [] then [] else Data(run[..|run| - 1]) + [run[|run| - 1].data]
  }

  function Flatten(parts: seq<seq<string>>): seq<string>
  {
    if parts == [] then [] else Flatten(parts[..|parts| - 1]) + parts[|parts| - 1]
  }

  /** File number i holds exactly the records of parts[i], whole and in order. */
  predicate Holds(s: Files, parts: seq<seq<string>>)
  {
    |parts| == |s.files| && forall i :: 0 <= i < |parts| ==> s.files[i] == Concat(parts[i])
  }

  lemma AppendKeepsInv(cfg: Config, s: Files, r: Record)
    requires Inv(s)
    ensures Inv(Append(cfg, s, r.data, r.now, r.rollNow))
  {
  }

  /** The partition of the records over the files, extended by one record. */
  lemma AppendExtendsParts(cfg: Config, s: Files, r: Record, parts: seq<seq<string>>) returns (parts': seq<seq<string>>)
    requires Inv(s) && Holds(s, parts)
    ensures Holds(Append(cfg, s, r.data, r.now, r.rollNow), parts')
    ensures Flatten(parts') == Flatten(parts) + [r.data]
  {
    var grown := Grown(parts, r.data);
    GrownHolds(s, parts, r.data);
    GrownFlattens(parts, r.data);
    AppendExtends(cfg, s, r);
    var s' := Append(cfg, s, r.data, r.now, r.rollNow);
    if s'.files == Extend(s, r.data).files {
      parts' := grown;
    } else {
      parts' := grown + [[]];
      assert parts'[..|grown|] == grown && Concat([]) == "";
    }
  }

  /** The last part with one record more. */
  function Grown(parts: seq<seq<string>>, data: string): seq<seq<string>>
    requires parts != []
  {
    parts[..|parts| - 1] + [parts[|parts| - 1] + [data]]
  }

  lemma GrownHolds(s: Files, parts: seq<seq<string>>, data: string)
    requires s.files != [] && Holds(s, parts)
    ensures Holds(Extend(s, data), Grown(parts, data))
  {
    ConcatOne(parts[|parts| - 1], data);
  }

  lemma GrownFlattens(parts: seq<seq<string>>, data: string)
    requires parts != []
    ensures Flatten(Grown(parts, data)) == Flatten(parts) + [data]
  {
    var last := |parts| - 1;
    assert Grown(parts, data)[..last] == parts[..last];
    assert Flatten(parts[..last]) + (parts[last] + [data]) == Flatten(parts[..last]) + parts[last] + [data];
  }

  lemma AppendExtends(cfg: Config, s: Files, r: Record)
    requires Inv(s)
    ensures var e := Extend(s, r.data); var s' := Append(cfg, s, r.data, r.now, r.rollNow);
      s'.files == e.files || s'.files == e.files + [""]
  {
  }

  lemma {:induction false} RollingPartition(cfg: Config, start: int, run: seq<Record>) returns (parts: seq<seq<string>>)
    requires start > 0
    ensures Holds(After(cfg, start, run), parts) && Flatten(parts) == Data(run)
    decreases |run|
  {
    if run == [] {
      parts := [[]];
      assert Flatten(parts[..0]) == [];
    } else {
      var last := |run| - 1;
      var before := RollingPartition(cfg, start, run[..last]);
      parts := AppendExtendsParts(cfg, After(cfg, start, run[..last]), run[last], before);
    }
  }

  lemma {:induction false} ConcatFlatten(files: seq<string>, parts: seq<seq<string>>)
    requires |files| == |parts| && forall i :: 0 <= i < |parts| ==> files[i] == Concat(parts[i])
    ensures Concat(files) == Concat(Flatten(parts))
    decreases |parts|
  {
    if parts == [] {
      assert files == [];
    } else {
      var last := |parts| - 1;
      ConcatFlatten(files[..last], parts[..last]);
      assert files == files[..last] + [files[last]];
      ConcatOne(files[..last], files[last]);
      ConcatAppend(Flatten(parts[..last]), parts[last]);
    }
  }

  /**
   * Rolling conserves content: the files in order of creation are the appended records, no
   * record is split over two files, roll times strictly increase, and the period start is
   * the multiple of a day at or below the last roll.
   */
  lemma RollingConserves(cfg: Config, start: int, run: seq<Record>) returns (parts: seq<seq<string>>)
    requires start > 0
    ensures var s := After(cfg, start, run);
      && Concat(s.files) == Concat(Data(run))
      && Holds(s, parts) && Flatten(parts) == Data(run)
      && |s.rollTimes| == |s.files| && Increasing(s.rollTimes)
      && s.startOfPeriod % ROLL_PER_SECONDS == 0
      && s.startOfPeriod <= s.lastRoll < s.startOfPeriod + ROLL_PER_SECONDS
  {
    parts := RollingPartition(cfg, start, run);
    ConcatFlatten(After(cfg, start, run).files, parts);
    PeriodIsDay(After(cfg, start, run).lastRoll);
  }

  lemma PeriodIsDay(t: int)
    ensures Period(t) % ROLL_PER_SECONDS == 0 && Period(t) <= t < Period(t) + ROLL_PER_SECONDS
  {
  }

  lemma {:induction false} LastRollBehindClock(cfg: Config, start: int, run: seq<Record>, t: int)
    requires start > 0 && MonotoneClock(start, run) && start <= t
    requires forall i :: 0 <= i < |run| ==> run[i].rollNow <= t
    ensures After(cfg, start, run).lastRoll <= t
    decreases |run|
  {
    if run != [] {
      var last := |run| - 1;
      LastRollBehindClock(cfg, start, run[..last], t);
    }
  }

  lemma ClockOfPrefix(start: int, run: seq<Record>, r: Record)
    requires MonotoneClock(start, run + [r])
    ensures MonotoneClock(start, run) && start <= r.now <= r.rollNow
    ensures forall i :: 0 <= i < |run| ==> run[i].rollNow <= r.now
  {
    var all := run + [r];
    assert all[|run|] == r;
    assert forall i :: 0 <= i < |run| ==> run[i] == all[i];
  }

  lemma PeriodMoves(a: int, b: int)
    requires a <= b
    ensures Period(b) != Period(a) ==> a < b
  {
  }

  // ---- The periodic check ----

  /** How many records lie between two periodic checks. */
  function Every(cfg: Config): (n: nat)
    ensures n >= 1
  {
    if cfg.checkEveryN >= 1 then cfg.checkEveryN else 1
  }

  /** The open file has room for the next record. */
  predicate Fits(cfg: Config, start: int, run: seq<Record>, data: string)
    requires start > 0
  {
    var s := After(cfg, start, run);
    |s.files[|s.files| - 1]| + |data| <= cfg.rollSize
  }

  /** The remainder of a division by a positive number. */
  function Modulo(f: nat, n: nat): (r: nat)
    requires n >= 1
    ensures r < n
  {
    if f < n then f else Modulo(f - n, n)
  }

  /** How many records of the run fitted the file they went to. */
  function Fitting(cfg: Config, start: int, run: seq<Record>): nat
    requires start > 0
    decreases |run|
  {
    if run == [] then 0
    else
      var last := |run| - 1;
      Fitting(cfg, start, run[..last]) + (if Fits(cfg, start, run[..last], run[last].data) then 1 else 0)
  }

  /** The next record is the one of a periodic check. */
  predicate Checked(cfg: Config, start: int, run: seq<Record>, data: string)
    requires start > 0
  {
    Fits(cfg, start, run, data) && Modulo(Fitting(cfg, start, run) + 1, Every(cfg)) == 0
  }

  lemma {:induction false} NextCount(f: nat, n: nat)
    requires n >= 1
    ensures Modulo(f + 1, n) == if Modulo(f, n) + 1 >= n then 0 else Modulo(f, n) + 1
  {
    if f >= n {
      NextCount(f - n, n);
    }
  }

  /** The counter is the number of fitting records, modulo the distance of the checks; rolling does not reset it. */
  lemma {:induction false} CountIsFitting(cfg: Config, start: int, run: seq<Record>)
    requires start > 0
    ensures After(cfg, start, run).count == Modulo(Fitting(cfg, start, run), Every(cfg))
    ensures 0 <= After(cfg, start, run).count < Every(cfg)
    decreases |run|
  {
    if run != [] {
      var last := |run| - 1;
      CountIsFitting(cfg, start, run[..last]);
      FittingStep(cfg, start, run[..last], run[last]);
      assert run[..last] + [run[last]] == run;
    }
  }

  lemma FittingStep(cfg: Config, start: int, run: seq<Record>, r: Record)
    requires start > 0 && After(cfg, start, run).count == Modulo(Fitting(cfg, start, run), Every(cfg))
    ensures After(cfg, start, run + [r]).count == Modulo(Fitting(cfg, start, run + [r]), Every(cfg))
  {
    CountStep(cfg, start, run, r);
    ModStep(After(cfg, start, run).count, Fitting(cfg, start, run), Every(cfg), Fits(cfg, start, run, r.data),
            After(cfg, start, run + [r]).count, Fitting(cfg, start, run + [r]));
  }

  lemma ModStep(c: int, f: nat, n: nat, fits: bool, c': int, f': nat)
    requires n >= 1 && c == Modulo(f, n) && f' == f + (if fits then 1 else 0)
    requires c' == if !fits then c else if c + 1 >= n then 0 else c + 1
    ensures c' == Modulo(f', n) && 0 <= c' < n
  {
    NextCount(f, n);
  }

  lemma AfterOneMore(cfg: Config, start: int, run: seq<Record>, r: Record)
    requires start > 0
    ensures After(cfg, start, run + [r]) == Append(cfg, After(cfg, start, run), r.data, r.now, r.rollNow)
    ensures Fitting(cfg, start, run + [r]) == Fitting(cfg, start, run) + if Fits(cfg, start, run, r.data) then 1 else 0
  {
    assert (run + [r])[..|run|] == run && (run + [r])[|run|] == r;
  }

  lemma CountStep(cfg: Config, start: int, run: seq<Record>, r: Record)
    requires start > 0 && 0 <= After(cfg, start, run).count < Every(cfg)
    ensures var c := After(cfg, start, run).count; var fits := Fits(cfg, start, run, r.data);
      && After(cfg, start, run + [r]).count == (if !fits then c else if c + 1 >= Every(cfg) then 0 else c + 1)
      && Fitting(cfg, start, run + [r]) == Fitting(cfg, start, run) + if fits then 1 else 0
  {
    AfterOneMore(cfg, start, run, r);
    OneCount(cfg, After(cfg, start, run), r);
  }

  lemma OneCount(cfg: Config, s: Files, r: Record)
    requires Inv(s) && 0 <= s.count < Every(cfg)
    ensures Append(cfg, s, r.data, r.now, r.rollNow).count ==
      if s.written + |r.data| > cfg.rollSize then s.count
      else if s.count + 1 >= Every(cfg) then 0 else s.count + 1
  {
  }

  /** Whether a file is left, in terms of the state. */
  lemma OneRoll(cfg: Config, s: Files, r: Record)
    requires Inv(s) && 0 <= s.count < Every(cfg) && s.lastRoll <= r.now <= r.rollNow
    ensures var s' := Append(cfg, s, r.data, r.now, r.rollNow); var fits := s.written + |r.data| <= cfg.rollSize;
      |s'.files| > |s.files| <==>
        || (!fits && r.rollNow > s.lastRoll)
        || (fits && s.count + 1 >= Every(cfg) && Period(r.now) != Period(s.lastRoll))
  {
    PeriodMoves(s.lastRoll, r.now);
  }

  /** Where the time of the last flush goes, in terms of the state. */
  lemma OneFlush(cfg: Config, s: Files, r: Record)
    requires Inv(s) && 0 <= s.count < Every(cfg)
    ensures var s' := Append(cfg, s, r.data, r.now, r.rollNow);
      var checked := s.written + |r.data| <= cfg.rollSize && s.count + 1 >= Every(cfg);
      s'.lastFlush ==
        if |s'.files| > |s.files| then r.rollNow
        else if checked && Period(r.now) == Period(s.lastRoll) && r.now - s.lastFlush > cfg.flushInterval then r.now
        else s.lastFlush
  {
  }

  lemma CheckedIsFull(cfg: Config, start: int, run: seq<Record>, data: string)
    requires start > 0
    ensures var s := After(cfg, start, run);
      && 0 <= s.count < Every(cfg)
      && (Fits(cfg, start, run, data) <==> s.written + |data| <= cfg.rollSize)
      && (Checked(cfg, start, run, data) <==> s.written + |data| <= cfg.rollSize && s.count + 1 >= Every(cfg))
  {
    CountIsFitting(cfg, start, run);
    FitsByCount(cfg, start, run, data);
    FullModulo(Fitting(cfg, start, run), Every(cfg));
  }

  lemma FitsByCount(cfg: Config, start: int, run: seq<Record>, data: string)
    requires start > 0
    ensures Fits(cfg, start, run, data) <==> After(cfg, start, run).written + |data| <= cfg.rollSize
  {
  }

  lemma FullModulo(f: nat, n: nat)
    requires n >= 1
    ensures Modulo(f + 1, n) == 0 <==> Modulo(f, n) + 1 >= n
  {
    NextCount(f, n);
  }

  /**
   * A file is left behind for exactly two reasons: it has no room for the record and the clock
   * has moved since it was opened, or the record is the one of a periodic check and a new day
   * has come.  With a clock that does not run backwards the day check never fails to roll.
   */
  lemma RollsExactlyWhen(cfg: Config, start: int, run: seq<Record>, r: Record)
    requires start > 0 && MonotoneClock(start, run + [r])
    ensures var s := After(cfg, start, run); var s' := Append(cfg, s, r.data, r.now, r.rollNow);
      |s'.files| > |s.files| <==>
        || (!Fits(cfg, start, run, r.data) && r.rollNow > s.lastRoll)
        || (Checked(cfg, start, run, r.data) && Period(r.now) != Period(s.lastRoll))
  {
    ClockOfPrefix(start, run, r);
    LastRollBehindClock(cfg, start, run, r.now);
    CheckedIsFull(cfg, start, run, r.data);
    OneRoll(cfg, After(cfg, start, run), r);
  }

  /**
   * The time of the last flush moves to the roll with a new file, and to the clock of a periodic
   * check when the flush interval has passed; so behind a check it is never older than that.
   */
  lemma FlushesExactlyWhen(cfg: Config, start: int, run: seq<Record>, r: Record)
    requires start > 0 && MonotoneClock(start, run + [r])
    ensures var s := After(cfg, start, run); var s' := Append(cfg, s, r.data, r.now, r.rollNow);
      && s'.lastFlush ==
           (if |s'.files| > |s.files| then r.rollNow
            else if Checked(cfg, start, run, r.data) && r.now - s.lastFlush > cfg.flushInterval then r.now
            else s.lastFlush)
      && (Checked(cfg, start, run, r.data) && cfg.flushInterval >= 0 ==> r.now - s'.lastFlush <= cfg.flushInterval)
  {
    RollsExactlyWhen(cfg, start, run, r);
    ClockOfPrefix(start, run, r);
    CheckedIsFull(cfg, start, run, r.data);
    OneFlush(cfg, After(cfg, start, run), r);
  }

  // ---- A new day ----

  function Fold(cfg: Config, s: Files, run: seq<Record>): (e: Files)
    requires Inv(s)
    ensures Inv(e)
    decreases |run|
  {
    if run == [] then s
    else
      AppendKeepsInv(cfg, s, run[0]);
      Fold(cfg, Append(cfg, s, run[0].data, run[0].now, run[0].rollNow), run[1..])
  }

  lemma {:induction false} FoldOneMore(cfg: Config, s: Files, run: seq<Record>, r: Record)
    requires Inv(s)
    ensures Fold(cfg, s, run + [r]) == Append(cfg, Fold(cfg, s, run), r.data, r.now, r.rollNow)
    decreases |run|
  {
    if run == [] {
      assert ([] + [r])[1..] == [];
    } else {
      AppendKeepsInv(cfg, s, run[0]);
      assert (run + [r])[0] == run[0] && (run + [r])[1..] == run[1..] + [r];
      FoldOneMore(cfg, Append(cfg, s, run[0].data, run[0].now, run[0].rollNow), run[1..], r);
    }
  }

  lemma {:induction false} AfterIsFold(cfg: Config, start: int, run: seq<Record>, more: seq<Record>)
    requires start > 0
    ensures After(cfg, start, run + more) == Fold(cfg, After(cfg, start, run), more)
    decreases |more|
  {
    if more == [] {
      assert run + more == run;
    } else {
      var last := |more| - 1;
      assert (run + more)[..|run + more| - 1] == run + more[..last] && (run + more)[|run + more| - 1] == more[last];
      AfterIsFold(cfg, start, run, more[..last]);
      assert more == more[..last] + [more[last]];
      FoldOneMore(cfg, After(cfg, start, run), more[..last], more[last]);
    }
  }

  lemma {:induction false} FilesStay(cfg: Config, s: Files, run: seq<Record>)
    requires Inv(s)
    ensures |Fold(cfg, s, run).files| >= |s.files|
    decreases |run|
  {
    if run != [] {
      AppendKeepsInv(cfg, s, run[0]);
      FilesStay(cfg, Append(cfg, s, run[0].data, run[0].now, run[0].rollNow), run[1..]);
    }
  }

  /** Records dated on a later day than the last roll. */
  predicate LaterDay(s: Files, run: seq<Record>)
  {
    forall i :: 0 <= i < |run| ==>
      s.lastRoll < run[i].now <= run[i].rollNow && Period(run[i].now) != Period(s.lastRoll)
  }

  lemma {:induction false} LeavesSoon(cfg: Config, s: Files, run: seq<Record>)
    requires Inv(s) && 0 <= s.count < Every(cfg) && LaterDay(s, run) && |run| >= Every(cfg) - s.count
    ensures |Fold(cfg, s, run).files| > |s.files|
    decreases |run|
  {
    var s1 := Append(cfg, s, run[0].data, run[0].now, run[0].rollNow);
    AppendKeepsInv(cfg, s, run[0]);
    OneCount(cfg, s, run[0]);
    if |s1.files| > |s.files| {
      FilesStay(cfg, s1, run[1..]);
    } else {
      assert s1.lastRoll == s.lastRoll && s1.count == s.count + 1;
      LeavesSoon(cfg, s1, run[1..]);
    }
  }

  /**
   * A new day ends the file soon: with a clock that does not run backwards, among as many
   * records as lie between two checks, all dated after the day of the last roll, one leaves it.
   */
  lemma NewDayLeavesFile(cfg: Config, start: int, run: seq<Record>, more: seq<Record>)
    requires start > 0 && MonotoneClock(start, run + more) && |more| >= Every(cfg)
    requires forall i :: 0 <= i < |more| ==> Period(more[i].now) != Period(After(cfg, start, run).lastRoll)
    ensures |After(cfg, start, run + more).files| > |After(cfg, start, run).files|
  {
    var s := After(cfg, start, run);
    CountIsFitting(cfg, start, run);
    forall i | 0 <= i < |more|
      ensures s.lastRoll < more[i].now <= more[i].rollNow
    {
      LaterThanRun(cfg, start, run, more, i);
      PeriodMoves(s.lastRoll, more[i].now);
    }
    LeavesSoon(cfg, s, more);
    AfterIsFold(cfg, start, run, more);
  }

  lemma LaterThanRun(cfg: Config, start: int, run: seq<Record>, more: seq<Record>, i: nat)
    requires start > 0 && MonotoneClock(start, run + more) && i < |more|
    ensures After(cfg, start, run).lastRoll <= more[i].now <= more[i].rollNow
  {
    var all := run + more;
    assert all[|run| + i] == more[i];
    assert forall j :: 0 <= j < |run| ==> run[j] == all[j];
    LastRollBehindClock(cfg, start, run, more[i].now);
  }

  const DAY_CONFIG := Config(1000, 3, 2)

  lemma FirstRecord()
    ensures Append(DAY_CONFIG, Opened(1), "a", 1, 1) == Files(["a"], 1, 1, 1, 1, 0, [1])
  {
    assert Opened(1) == Files([""], 0, 0, 1, 1, 0, [1]);
    assert "" + "a" == "a" && [""][0 := "a"] == ["a"];
  }

  lemma SecondRecord()
    ensures Append(DAY_CONFIG, Files(["a"], 1, 1, 1, 1, 0, [1]), "b", 86401, 86401).files == ["ab", ""]
  {
    assert "a" + "b" == "ab" && ["a"][0 := "ab"] == ["ab"];
    assert Period(86401) == 86400;
  }

  /** Two records a day apart, checked every second record: the second ends the file of the first day. */
  lemma SecondDayEndsFile(cfg: Config, a: Record, b: Record)
    requires cfg == DAY_CONFIG && a == Record("a", 1, 1) && b == Record("b", 86401, 86401)
    ensures After(cfg, 1, [a, b]).files == ["ab", ""]
  {
    FirstRecord();
    SecondRecord();
    AfterTwo(cfg, 1, a, b);
  }

  lemma AfterTwo(cfg: Config, start: int, a: Record, b: Record)
    requires start > 0
    ensures var s := Append(cfg, Opened(start), a.data, a.now, a.rollNow);
      s.files != [] && After(cfg, start, [a, b]) == Append(cfg, s, b.data, b.now, b.rollNow)
  {
    AfterOneMore(cfg, start, [], a);
    assert [] + [a] == [a];
    AfterOneMore(cfg, start, [a], b);
    assert [a] + [b] == [a, b];
  }
}
