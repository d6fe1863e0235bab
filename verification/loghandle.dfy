/**
 The user-facing logger (`Log_c`): a handle binding a module name, padded
 or cut to a fixed width, and a severity threshold. A call with a level
 above the threshold is dropped with -1; otherwise the handle builds the
 qualifier `"<module> L<level> -"` and hands the line to the backend.

 Every handle talks to the one shared backend, so the backend and the file
 store are threaded through handle calls explicitly.
 */
module LogHandle {
  import opened Decimal
  import opened LogText
  import opened TextFile
  import Logger

  /** Highest severity level `IsLogLevelValid` accepts. */
  const MAX_LOG_LEVEL: int := 9

  /** The threshold of a handle constructed without one. */
  const DEFAULT_LOG_LEVEL: int := 6

  /** Status of a call dropped by the threshold. */
  const FILTERED: int := -1

  datatype Handle = Handle(moduleName: string, logLevel: int)

  datatype Constructed = Constructed(handle: Handle, backend: Logger.Backend, store: Logger.FileStore)

  /**
   `Log_c(module, level)`: fix the module field at exactly 20 characters
   (the name's first 20, space-filled) and store the level as given; the
   shared backend is obtained, and created on first use.
   */
  function Create(
    name: string, level: int,
    instance: Logger.Option<Logger.Backend>, store: Logger.FileStore, probe: Logger.DirOracle): (r: Constructed)
    ensures |r.handle.moduleName| == MODULE_NAME_LEN
    ensures r.handle.moduleName[..Min(|name|, MODULE_NAME_LEN)] == name[..Min(|name|, MODULE_NAME_LEN)]
    ensures forall i :: Min(|name|, MODULE_NAME_LEN) <= i < MODULE_NAME_LEN ==> r.handle.moduleName[i] == ' '
    ensures r.handle.logLevel == level
    ensures (r.backend, r.store) == Logger.GetInstance(instance, store, probe)
  {
    var (b, s) := Logger.GetInstance(instance, store, probe);
    Constructed(Handle(ModuleField(name), level), b, s)
  }

  /** `Log_c(module)`: the same with the default threshold. */
  function CreateDefault(
    name: string,
    instance: Logger.Option<Logger.Backend>, store: Logger.FileStore, probe: Logger.DirOracle): (r: Constructed)
    ensures r.handle.logLevel == DEFAULT_LOG_LEVEL
    ensures r == Create(name, DEFAULT_LOG_LEVEL, instance, store, probe)
  {
    Create(name, DEFAULT_LOG_LEVEL, instance, store, probe)
  }

  /** `isLogLevelValid`: the level lies in 0 .. MAX_LOG_LEVEL. */
  function IsLogLevelValid(level: int): (r: bool)
    ensures r <==> 0 <= level <= 9
  {
    level >= 0 && level <= MAX_LOG_LEVEL
  }

  function GetLogLevel(h: Handle): (r: int)
    ensures r == h.logLevel
  {
    h.logLevel
  }

  /** `setLogLevel`: any int is stored; validity is not checked. */
  function SetLogLevel(h: Handle, level: int): (r: Handle)
    ensures r.logLevel == level
    ensures r.moduleName == h.moduleName
  {
    h.(logLevel := level)
  }

  /** The threshold test of `printf`/`logf`. */
  predicate Passes(h: Handle, level: int) {
    level <= h.logLevel
  }

  /**
   `printf`/`logf`: drop the call with -1 when `level` is above the
   threshold, without touching the backend; otherwise forward the qualifier
   `"<module> L<level> -"` to the backend's `log` and return its status.
   */
  function Logf(
    h: Handle, b: Logger.Backend, store: Logger.FileStore,
    level: int, msg: Logger.Rendered, now: LocalTime): (r: Logger.Step)
    ensures !Passes(h, level) ==> r == Logger.Step(FILTERED, b, store)
    ensures Passes(h, level) ==> r == Logger.Log(b, store, Qualifier(h.moduleName, level), msg, now)
  {
    if level <= h.logLevel then
      Logger.Log(b, store, Qualifier(h.moduleName, level), msg, now)
    else
      Logger.Step(FILTERED, b, store)
  }

  // Pass-throughs to the shared backend: the handle itself plays no part.

  function Flush(h: Handle, b: Logger.Backend, store: Logger.FileStore, now: LocalTime): (r: Logger.Step)
    ensures r == Logger.Flush(b, store, now)
  {
    Logger.Flush(b, store, now)
  }

  function GetLogFilePath(h: Handle, b: Logger.Backend): (r: string)
    ensures r == Logger.GetLogFilePath(b)
  {
    Logger.GetLogFilePath(b)
  }

  function SetLogFilePath(
    h: Handle, b: Logger.Backend, store: Logger.FileStore,
    path: string, probe: Logger.DirOracle): (r: Logger.PathStep)
    ensures r == Logger.SetLogFilePath(b, store, path, probe)
  {
    Logger.SetLogFilePath(b, store, path, probe)
  }

  function EnableTimestamp(h: Handle, b: Logger.Backend, enable: bool): (r: Logger.Backend)
    ensures r == Logger.EnableTimestamp(b, enable)
  {
    Logger.EnableTimestamp(b, enable)
  }

  // ---------------------------------------------------------------------------
  // Properties

  /**
   An accepted call buffers `"<module> L<level> - <message>"`, after the
   time stamp when that is on, and nothing reaches a file.
   */
  lemma LogfBuffersLine(
    h: Handle, b: Logger.Backend, store: Logger.FileStore,
    level: int, msg: Logger.Rendered, now: LocalTime)
    requires Passes(h, level) && b.error == 0
    requires b.count + 1 != Logger.LINE_COUNT
    ensures var r := Logf(h, b, store, level, msg, now);
      && r.status == 0
      && r.store == store
      && r.backend.cache == b.cache + [StampOf(b.timestamp, now) + h.moduleName + " L" + IntText(level) + " - " + msg.text]
  {
    var stamp, lv := StampOf(b.timestamp, now), IntText(level);
    assert " -" + " " == " - ";
    calc {
      RenderLine(b.timestamp, now, Qualifier(h.moduleName, level), msg.text);
      stamp + (h.moduleName + " L" + lv + " -") + " " + msg.text;
      stamp + h.moduleName + " L" + lv + (" -" + " ") + msg.text;
    }
  }

  /** A filtered call leaves the backend and every file exactly as they were. */
  lemma FilteredCallChangesNothing(
    h: Handle, b: Logger.Backend, store: Logger.FileStore,
    level: int, msg: Logger.Rendered, now: LocalTime)
    requires level > h.logLevel
    ensures Logf(h, b, store, level, msg, now) == Logger.Step(-1, b, store)
  {
  }

  /**
   A directory set through one handle is what every other handle reads, and
   a time-stamp switch made through one handle shapes the lines of another.
   */
  lemma HandlesShareBackend(
    h1: Handle, h2: Handle, b: Logger.Backend, store: Logger.FileStore,
    path: string, probe: Logger.DirOracle,
    enable: bool, level: int, msg: Logger.Rendered, now: LocalTime)
    requires Passes(h2, level) && b.error == 0 && b.count + 1 != Logger.LINE_COUNT
    ensures GetLogFilePath(h2, SetLogFilePath(h1, b, store, path, probe).backend) == StripTrailingSlash(path)
    ensures var b' := EnableTimestamp(h1, b, enable);
      Logf(h2, b', store, level, msg, now).backend.cache
        == b.cache + [RenderLine(enable, now, Qualifier(h2.moduleName, level), msg.text)]
  {
  }

  /** `getLogLevel` returns whatever `setLogLevel` stored, valid or not. */
  lemma SetThenGetLevel(h: Handle, level: int)
    ensures GetLogLevel(SetLogLevel(h, level)) == level
  {
  }

  /** A handle constructed without a level gets a valid one. */
  lemma DefaultHandleIsValid(
    name: string, instance: Logger.Option<Logger.Backend>, store: Logger.FileStore, probe: Logger.DirOracle)
    ensures IsLogLevelValid(GetLogLevel(CreateDefault(name, instance, store, probe).handle))
  {
  }

  // ---------------------------------------------------------------------------
  // Sequences of calls through several handles

  /**
   One `printf` call: the handle it goes through, its level, its rendered
   message and the clock reading the backend takes for it.
   */
  datatype Call = Call(handle: Handle, level: int, msg: Logger.Rendered, now: LocalTime)

  /** The status of each call, in order, and the backend and files after the last. */
  datatype Trace = Trace(statuses: seq<int>, backend: Logger.Backend, store: Logger.FileStore)

  /** Issue `calls` one after another against the shared backend, each at its own time. */
  function Run(b: Logger.Backend, store: Logger.FileStore, calls: seq<Call>): (r: Trace)
    ensures |r.statuses| == |calls|
    ensures r.backend.timestamp == b.timestamp && r.backend.logFilePath == b.logFilePath
    ensures r.store.dirs == store.dirs
    decreases |calls|
  {
    if calls == [] then Trace([], b, store)
    else
      var c := calls[0];
      var s := Logf(c.handle, b, store, c.level, c.msg, c.now);
      var rest := Run(s.backend, s.store, calls[1..]);
      Trace([s.status] + rest.statuses, rest.backend, rest.store)
  }

  /** The line a call contributes: its rendering when it passes its handle's threshold, else nothing. */
  function AcceptedLine(c: Call, timestamp: bool): seq<string> {
    if Passes(c.handle, c.level) then [RenderLine(timestamp, c.now, Qualifier(c.handle.moduleName, c.level), c.msg.text)]
    else []
  }

  /** The lines of the calls that pass their thresholds, in call order. */
  function Accepted(calls: seq<Call>, timestamp: bool): seq<string>
    decreases |calls|
  {
    if calls == [] then [] else AcceptedLine(calls[0], timestamp) + Accepted(calls[1..], timestamp)
  }

  lemma {:induction false} AcceptedAppend(a: seq<Call>, b: seq<Call>, timestamp: bool)
    ensures Accepted(a + b, timestamp) == Accepted(a, timestamp) + Accepted(b, timestamp)
    decreases |a|
  {
    if a == [] {
      assert a + b == b;
    } else {
      assert (a + b)[0] == a[0];
      assert (a + b)[1..] == a[1..] + b;
      AcceptedAppend(a[1..], b, timestamp);
    }
  }

  /** Every call of `calls` happens on the day of `day`. */
  predicate AllOnDay(calls: seq<Call>, day: LocalTime) {
    forall i :: 0 <= i < |calls| ==> SameDay(calls[i].now, day)
  }

  /** Every message of `calls` renders. */
  predicate AllRender(calls: seq<Call>) {
    forall i :: 0 <= i < |calls| ==> calls[i].msg.ok
  }

  /**
   One call of a run, on the day of `day`: what is pending for that day
   grows by the call's accepted line, if any.
   */
  lemma LogfStep(c: Call, b: Logger.Backend, store: Logger.FileStore, day: LocalTime)
    requires b.error == 0
    requires b.logFilePath in store.dirs
    requires c.msg.ok
    requires SameDay(c.now, day)
    ensures var s := Logf(c.handle, b, store, c.level, c.msg, c.now);
      && Logger.Pending(s.backend, s.store, day)
         == Logger.Pending(b, store, day) + Lines(AcceptedLine(c, b.timestamp))
      && s.backend.error == 0
      && s.backend.count == b.count + |AcceptedLine(c, b.timestamp)|
  {
    var s := Logf(c.handle, b, store, c.level, c.msg, c.now);
    assert Logger.TodaysFile(b, c.now) == Logger.TodaysFile(b, day);
    assert Logger.TodaysFile(s.backend, c.now) == Logger.TodaysFile(b, day);
    if Passes(c.handle, c.level) {
      Logger.LogAppendsOneLine(b, store, Qualifier(c.handle.moduleName, c.level), c.msg, c.now);
    } else {
      assert Lines([]) == "";
      assert Logger.Pending(b, store, day) + "" == Logger.Pending(b, store, day);
    }
  }

  /**
   Lines from any mix of handles reach the shared cache, and through it the
   day's file, in global call order: what is pending for the day grows by
   exactly the accepted lines, each with its own time stamp.
   */
  lemma {:induction false} RunKeepsOrder(b: Logger.Backend, store: Logger.FileStore, calls: seq<Call>, day: LocalTime)
    requires b.error == 0
    requires b.logFilePath in store.dirs
    requires AllRender(calls)
    requires AllOnDay(calls, day)
    ensures var r := Run(b, store, calls);
      && Logger.Pending(r.backend, r.store, day)
         == Logger.Pending(b, store, day) + Lines(Accepted(calls, b.timestamp))
      && r.backend.error == 0
      && r.backend.count == b.count + |Accepted(calls, b.timestamp)|
    decreases |calls|
  {
    if calls != [] {
      var c := calls[0];
      var s := Logf(c.handle, b, store, c.level, c.msg, c.now);
      var line := AcceptedLine(c, b.timestamp);
      var rest := Accepted(calls[1..], b.timestamp);
      var r := Run(b, store, calls);
      var t := Run(s.backend, s.store, calls[1..]);
      assert r.backend == t.backend && r.store == t.store;
      assert Accepted(calls, b.timestamp) == line + rest;
      var pb, ps, pt := Logger.Pending(b, store, day), Logger.Pending(s.backend, s.store, day), Logger.Pending(t.backend, t.store, day);
      LogfStep(c, b, store, day);
      assert ps == pb + Lines(line);
      assert AllOnDay(calls[1..], day) by {
        forall i | 0 <= i < |calls[1..]| ensures SameDay(calls[1..][i].now, day) {
          assert calls[1..][i] == calls[i + 1];
        }
      }
      RunKeepsOrder(s.backend, s.store, calls[1..], day);
      assert pt == ps + Lines(rest);
      LinesAppend(line, rest);
      ConcatAssoc(pb, Lines(line), Lines(rest));
    } else {
      var pb := Logger.Pending(b, store, day);
      assert Lines(Accepted(calls, b.timestamp)) == [];
      assert pb + [] == pb;
    }
  }

  /**
   Each call of a run reports 0, or -1 when its handle's threshold filtered
   it, whatever the times of the calls and whether or not the directory exists.
   */
  lemma {:induction false} RunStatuses(b: Logger.Backend, store: Logger.FileStore, calls: seq<Call>)
    requires b.error == 0
    requires AllRender(calls)
    ensures var r := Run(b, store, calls);
      forall i :: 0 <= i < |calls| ==>
        r.statuses[i] == if Passes(calls[i].handle, calls[i].level) then 0 else FILTERED
    decreases |calls|
  {
    if calls != [] {
      var c := calls[0];
      var s := Logf(c.handle, b, store, c.level, c.msg, c.now);
      assert s.backend.error == 0;
      RunStatuses(s.backend, s.store, calls[1..]);
      var r := Run(b, store, calls);
      var rest := Run(s.backend, s.store, calls[1..]);
      assert r.statuses == [s.status] + rest.statuses;
      forall i | 1 <= i < |calls|
        ensures r.statuses[i] == if Passes(calls[i].handle, calls[i].level) then 0 else FILTERED
      {
        assert calls[1..][i - 1] == calls[i];
        assert r.statuses[i] == rest.statuses[i - 1];
      }
    }
  }

  /**
   While the count stays below `LINE_COUNT`, a run touches no file and
   leaves exactly the accepted lines, in call order, at the end of the
   cache, whatever the times of the calls.
   */
  lemma {:induction false} RunBuffersAccepted(b: Logger.Backend, store: Logger.FileStore, calls: seq<Call>)
    requires b.error == 0
    requires AllRender(calls)
    requires b.count + |Accepted(calls, b.timestamp)| < Logger.LINE_COUNT
    ensures var r := Run(b, store, calls);
      r.store == store && r.backend.cache == b.cache + Accepted(calls, b.timestamp)
    decreases |calls|
  {
    if calls != [] {
      var c := calls[0];
      var s := Logf(c.handle, b, store, c.level, c.msg, c.now);
      var line := AcceptedLine(c, b.timestamp);
      var rest := Accepted(calls[1..], b.timestamp);
      assert Accepted(calls, b.timestamp) == line + rest;
      assert s.backend.cache == b.cache + line;
      assert s.backend.count == b.count + |line|;
      RunBuffersAccepted(s.backend, s.store, calls[1..]);
    }
  }

  /**
   After a run within one day and a flush on that day, reading the day's
   file back gives its earlier lines, then the lines cached before the run,
   then the run's accepted lines in call order.
   */
  lemma RunThenFlushReadBack(b: Logger.Backend, store: Logger.FileStore, calls: seq<Call>, now: LocalTime)
    requires b.error == 0
    requires b.logFilePath in store.dirs
    requires AllRender(calls)
    requires AllOnDay(calls, now)
    requires Complete(Logger.FileText(store, Logger.TodaysFile(b, now)))
    requires AllSingleLines(b.cache + Accepted(calls, b.timestamp))
    ensures var r := Run(b, store, calls);
      var f := Logger.Flush(r.backend, r.store, now);
      SplitLines(Logger.FileText(f.store, Logger.TodaysFile(b, now)))
        == SplitLines(Logger.FileText(store, Logger.TodaysFile(b, now))) + b.cache + Accepted(calls, b.timestamp)
  {
    var acc := Accepted(calls, b.timestamp);
    var name := Logger.TodaysFile(b, now);
    var before := Logger.FileText(store, name);
    var r := Run(b, store, calls);
    var f := Logger.Flush(r.backend, r.store, now);
    var after := Logger.FileText(f.store, name);
    assert after == Logger.Pending(r.backend, r.store, now) by {
      Logger.FlushKeepsPending(r.backend, r.store, now);
      assert Logger.TodaysFile(f.backend, now) == name;
      assert Lines(f.backend.cache) == [];
      assert after + [] == after;
    }
    RunKeepsOrder(b, store, calls, now);
    LinesAppend(b.cache, acc);
    ConcatAssoc(before, Lines(b.cache), Lines(acc));
    AppendLines(before, b.cache + acc);
    ConcatAssoc(SplitLines(before), b.cache, acc);
  }

  // ---------------------------------------------------------------------------
  // The module's own test run: two handles, messages of decreasing importance

  /** The message every call of the test run logs: the handle's current threshold. */
  function LevelMessage(h: Handle): Logger.Rendered {
    Logger.Rendered("Logging level set to " + IntText(h.logLevel), true)
  }

  /** One round of the test run: levels 1, 3, 5 and 7 through one handle, at four clock readings. */
  function Round(h: Handle, times: seq<LocalTime>): (r: seq<Call>)
    requires |times| == 4
    ensures |r| == 4
    ensures forall i :: 0 <= i < 4 ==> r[i] == Call(h, 2 * i + 1, LevelMessage(h), times[i])
  {
    [Call(h, 1, LevelMessage(h), times[0]), Call(h, 3, LevelMessage(h), times[1]),
     Call(h, 5, LevelMessage(h), times[2]), Call(h, 7, LevelMessage(h), times[3])]
  }

  /** The line a round buffers for `level`, stamped at `now`. */
  function RoundLine(h: Handle, level: int, timestamp: bool, now: LocalTime): string {
    RenderLine(timestamp, now, Qualifier(h.moduleName, level), LevelMessage(h).text)
  }

  /** With threshold 3 (or 4), of levels 1, 3, 5, 7 exactly the level-1 and level-3 lines are kept. */
  lemma RoundAtThreeOrFour(h: Handle, times: seq<LocalTime>, timestamp: bool)
    requires |times| == 4
    requires 3 <= h.logLevel < 5
    ensures Accepted(Round(h, times), timestamp)
      == [RoundLine(h, 1, timestamp, times[0]), RoundLine(h, 3, timestamp, times[1])]
  {
    AcceptedOfRound(h, times, timestamp);
  }

  /** With threshold 5 (or 6), levels 1, 3 and 5 pass and level 7 is dropped. */
  lemma RoundAtFiveOrSix(h: Handle, times: seq<LocalTime>, timestamp: bool)
    requires |times| == 4
    requires 5 <= h.logLevel < 7
    ensures Accepted(Round(h, times), timestamp)
      == [RoundLine(h, 1, timestamp, times[0]), RoundLine(h, 3, timestamp, times[1]), RoundLine(h, 5, timestamp, times[2])]
  {
    AcceptedOfRound(h, times, timestamp);
  }

  /** A round keeps, in order, the lines of the levels that pass the threshold. */
  lemma AcceptedOfRound(h: Handle, times: seq<LocalTime>, timestamp: bool)
    requires |times| == 4
    ensures var c := Round(h, times);
      Accepted(c, timestamp)
        == AcceptedLine(c[0], timestamp) + AcceptedLine(c[1], timestamp)
         + AcceptedLine(c[2], timestamp) + AcceptedLine(c[3], timestamp)
  {
    var c := Round(h, times);
    var a0, a1, a2, a3 :=
      AcceptedLine(c[0], timestamp), AcceptedLine(c[1], timestamp),
      AcceptedLine(c[2], timestamp), AcceptedLine(c[3], timestamp);
    assert c[3..][1..] == [];
    assert Accepted(c[3..], timestamp) == a3 + [];
    assert c[2..][1..] == c[3..];
    assert c[1..][1..] == c[2..];
    assert Accepted(c[2..], timestamp) == a2 + a3;
    assert Accepted(c[1..], timestamp) == a1 + (a2 + a3);
    assert Accepted(c, timestamp) == a0 + (a1 + (a2 + a3));
  }

  /**
   The calls of the test run, the k-th at clock reading `times[k]`: handle
   `log` at threshold 3 and `bob` at 6 each log levels 1, 3, 5, 7; then
   `log` is set to 5 and `bob` to 4 and both log the same levels again.
   */
  function TestRunCalls(log: Handle, bob: Handle, times: seq<LocalTime>): (r: seq<Call>)
    requires |times| == 16
    ensures |r| == 16
  {
    Round(log, times[0..4]) + Round(bob, times[4..8])
      + Round(SetLogLevel(log, 5), times[8..12]) + Round(SetLogLevel(bob, 4), times[12..16])
  }

  /**
   The lines the test run accepts, in call order, each stamped at its own
   call's time: ten of its sixteen calls.
   */
  lemma TestRunAccepted(log: Handle, bob: Handle, times: seq<LocalTime>, timestamp: bool)
    requires |times| == 16
    requires log.logLevel == 3 && bob.logLevel == 6
    ensures var log', bob' := SetLogLevel(log, 5), SetLogLevel(bob, 4);
      Accepted(TestRunCalls(log, bob, times), timestamp) == [
        RoundLine(log, 1, timestamp, times[0]), RoundLine(log, 3, timestamp, times[1]),
        RoundLine(bob, 1, timestamp, times[4]), RoundLine(bob, 3, timestamp, times[5]),
        RoundLine(bob, 5, timestamp, times[6]),
        RoundLine(log', 1, timestamp, times[8]), RoundLine(log', 3, timestamp, times[9]),
        RoundLine(log', 5, timestamp, times[10]),
        RoundLine(bob', 1, timestamp, times[12]), RoundLine(bob', 3, timestamp, times[13])]
  {
    var log', bob' := SetLogLevel(log, 5), SetLogLevel(bob, 4);
    var r0, r1, r2, r3 := Round(log, times[0..4]), Round(bob, times[4..8]), Round(log', times[8..12]), Round(bob', times[12..16]);
    RoundAtThreeOrFour(log, times[0..4], timestamp);
    RoundAtFiveOrSix(bob, times[4..8], timestamp);
    RoundAtFiveOrSix(log', times[8..12], timestamp);
    RoundAtThreeOrFour(bob', times[12..16], timestamp);
    AcceptedAppend(r0, r1, timestamp);
    AcceptedAppend(r0 + r1, r2, timestamp);
    AcceptedAppend(r0 + r1 + r2, r3, timestamp);
  }

  /**
   The test run, from a backend with fewer than six lines counted: the ten
   accepted lines are buffered in call order, no file is written until the
   closing flush, and the second closing flush changes nothing.
   */
  lemma TestRun(fileName: string, b: Logger.Backend, store: Logger.FileStore, times: seq<LocalTime>, now: LocalTime)
    requires |times| == 16
    requires b.error == 0
    requires b.count + 10 < Logger.LINE_COUNT
    ensures var log, bob := Handle(ModuleField(fileName), 3), Handle(ModuleField("Bob"), 6);
      var calls := TestRunCalls(log, bob, times);
      var r := Run(b, store, calls);
      && r.store == store
      && r.backend.cache == b.cache + Accepted(calls, b.timestamp)
      && |r.backend.cache| == |b.cache| + 10
      && var f := Logger.Flush(r.backend, r.store, now);
      Logger.Flush(f.backend, f.store, now) == f
  {
    var log, bob := Handle(ModuleField(fileName), 3), Handle(ModuleField("Bob"), 6);
    var calls := TestRunCalls(log, bob, times);
    TestRunAccepted(log, bob, times, b.timestamp);
    assert AllRender(calls);
    RunBuffersAccepted(b, store, calls);
    var r := Run(b, store, calls);
    Logger.FlushIdempotent(r.backend, r.store, now);
  }
}
