/**
 The shared logging backend (`Logger_c`): a cache of rendered lines, a line
 counter, an error code, the time-stamp switch and the log directory.

 The backend is an immutable value; every operation returns the new value.
 The file system is the value `FileStore`: the text of each file by name,
 and the set of directories that exist, named as the backend spells them.
 What the operating system decides is passed in: the clock reading, the
 outcome of rendering the message (`vsprintf`), and, for a directory that
 does not exist, what `opendir` and `mkdir` report.
 */
module Logger {
  import opened LogText
  import opened TextFile

  /** Number of cached lines at which `log` flushes by itself. */
  const LINE_COUNT: nat := 16

  /** The directory the backend is pointed at when it is first created. */
  const DEFAULT_LOG_PATH: string := "/logs"

  datatype Option<T> = None | Some(value: T)

  datatype Backend = Backend(
    cache: seq<string>,   // rendered lines not yet written, oldest first
    count: nat,           // lines cached since creation; a flush does not reset it
    error: int,           // 0, or the last directory or rendering failure
    timestamp: bool,      // prefix lines with the time of day
    logFilePath: string)  // log directory, without its trailing '/'

  datatype FileStore = FileStore(files: map<string, string>, dirs: set<string>)

  /**
   What the system reports about a directory missing from the store:
   `noEntry` when `opendir` fails with ENOENT (otherwise it failed for
   another reason), and whether the following `mkdir` succeeds.
   */
  datatype DirOracle = DirOracle(noEntry: bool, mkdirOk: bool)

  /** The outcome of rendering the caller's format and arguments. */
  datatype Rendered = Rendered(text: string, ok: bool)

  /** The status an operation returns, with the backend and file store after it. */
  datatype Step = Step(status: int, backend: Backend, store: FileStore)

  datatype PathStep = PathStep(ok: bool, backend: Backend, store: FileStore)

  datatype Cached = Cached(full: bool, backend: Backend)

  /** Current text of a file; a file that does not exist reads as empty. */
  function FileText(store: FileStore, name: string): string {
    if name in store.files then store.files[name] else ""
  }

  /** The file today's lines go to. */
  function TodaysFile(b: Backend, now: LocalTime): string {
    LogFileName(b.logFilePath, now)
  }

  /** A backend as its constructor leaves it, before a directory is set. */
  function NewBackend(): (b: Backend)
    ensures b.error == 0 && b.count == 0 && b.cache == []
    ensures b.timestamp
  {
    Backend([], 0, 0, true, "")
  }

  /**
   `getInstance`: the first call creates the backend and points it at
   `/logs`; later calls return the existing backend untouched.
   */
  function GetInstance(instance: Option<Backend>, store: FileStore, probe: DirOracle): (r: (Backend, FileStore))
    ensures instance.Some? ==> r == (instance.value, store)
    ensures instance.None? ==>
      && r.0.cache == [] && r.0.count == 0 && r.0.timestamp
      && r.0.logFilePath == DEFAULT_LOG_PATH
      && (r.0.error == 0 <==> DEFAULT_LOG_PATH in store.dirs || (probe.noEntry && probe.mkdirOk))
      && r.1.files == store.files
      && (r.0.error == 0 ==> DEFAULT_LOG_PATH in r.1.dirs)
  {
    match instance
    case Some(b) => (b, store)
    case None =>
      var s := SetLogFilePath(NewBackend(), store, DEFAULT_LOG_PATH, probe);
      (s.backend, s.store)
  }

  /**
   `setLogFilePath`: store the path without one trailing '/', then make sure
   the directory exists. An existing directory leaves `error` as it was; a
   missing one sets `error` to `mkdir`'s result (0 or -1); any other
   `opendir` failure sets it to 1. Succeeds exactly when `error` is 0 after.
   The empty name (requested as "" or "/") names no directory: `opendir`
   reports ENOENT and `mkdir` fails, so `error` becomes -1.
   */
  function SetLogFilePath(b: Backend, store: FileStore, path: string, probe: DirOracle): (r: PathStep)
    ensures r.backend.logFilePath == StripTrailingSlash(path)
    ensures r.ok <==> r.backend.error == 0
    ensures r.backend == b.(logFilePath := r.backend.logFilePath, error := r.backend.error)
    ensures r.store.files == store.files
    ensures StripTrailingSlash(path) == "" ==> !r.ok && r.backend.error == -1 && r.store == store
    ensures StripTrailingSlash(path) != "" && StripTrailingSlash(path) in store.dirs ==>
      r.backend.error == b.error && r.store == store
    ensures StripTrailingSlash(path) != "" && StripTrailingSlash(path) !in store.dirs && probe.noEntry ==>
      && r.backend.error == (if probe.mkdirOk then 0 else -1)
      && r.store.dirs == (if probe.mkdirOk then store.dirs + {StripTrailingSlash(path)} else store.dirs)
    ensures StripTrailingSlash(path) != "" && StripTrailingSlash(path) !in store.dirs && !probe.noEntry ==>
      r.backend.error == 1 && r.store == store
  {
    var p := StripTrailingSlash(path);
    var b' := b.(logFilePath := p);
    if p == "" then
      PathStep(false, b'.(error := -1), store)
    else if p in store.dirs then
      PathStep(b'.error == 0, b', store)
    else if probe.noEntry then
      if probe.mkdirOk then
        PathStep(true, b'.(error := 0), store.(dirs := store.dirs + {p}))
      else
        PathStep(false, b'.(error := -1), store)
    else
      PathStep(false, b'.(error := 1), store)
  }

  /** `getLogFilePath`: the stored directory, as normalised when it was set. */
  function GetLogFilePath(b: Backend): (r: string)
    ensures r == b.logFilePath
  {
    b.logFilePath
  }

  /** `enableTimestamp`: switch the time stamp of later lines on or off. */
  function EnableTimestamp(b: Backend, enable: bool): (r: Backend)
    ensures r.timestamp == enable
    ensures r.(timestamp := b.timestamp) == b
  {
    b.(timestamp := enable)
  }

  /**
   `cacheLine`: render the line and append it to the cache, counting it. A
   failed render still caches the line and sets `error` to 1. Reports
   whether the count has just reached `LINE_COUNT`.
   */
  function CacheLine(b: Backend, qualifier: string, msg: Rendered, now: LocalTime): (r: Cached)
    ensures |r.backend.cache| == |b.cache| + 1
    ensures r.backend.cache[..|b.cache|] == b.cache
    ensures r.backend.cache[|b.cache|] == RenderLine(b.timestamp, now, qualifier, msg.text)
    ensures r.backend.count == b.count + 1
    ensures r.backend.error == (if msg.ok then b.error else 1)
    ensures r.backend.timestamp == b.timestamp && r.backend.logFilePath == b.logFilePath
    ensures r.full <==> r.backend.count == LINE_COUNT
  {
    var line := RenderLine(b.timestamp, now, qualifier, msg.text);
    var b' := b.(cache := b.cache + [line], count := b.count + 1, error := if msg.ok then b.error else 1);
    Cached(b'.count == LINE_COUNT, b')
  }

  /**
   `flush`: append every cached line, newline-terminated and in order, to
   `<logFilePath>/log-YYYY-MM-DD.txt`, then empty the cache and return 0.
   The file is created when missing; when the directory does not exist the
   open fails silently and the lines are lost. `count` is not reset.
   */
  function Flush(b: Backend, store: FileStore, now: LocalTime): (r: Step)
    ensures r.status == 0
    ensures r.backend == b.(cache := [])
    ensures r.store.dirs == store.dirs
    ensures b.logFilePath in store.dirs ==>
      r.store.files == store.files[TodaysFile(b, now) := FileText(store, TodaysFile(b, now)) + Lines(b.cache)]
    ensures b.logFilePath !in store.dirs ==> r.store == store
  {
    var name := TodaysFile(b, now);
    var store' :=
      if b.logFilePath in store.dirs then
        store.(files := store.files[name := FileText(store, name) + Lines(b.cache)])
      else
        store;
    Step(0, b.(cache := []), store')
  }

  /**
   `log`: refuse with -2 while `error` is set; otherwise cache the line and,
   when that brings the count to `LINE_COUNT`, flush and return the flush
   status.
   */
  function Log(b: Backend, store: FileStore, qualifier: string, msg: Rendered, now: LocalTime): (r: Step)
    ensures b.error != 0 ==> r == Step(-2, b, store)
    ensures b.error == 0 ==> r.status == 0 && r.backend.count == b.count + 1
    ensures b.error == 0 ==> r.backend.error == (if msg.ok then 0 else 1)
    ensures b.error == 0 ==> r.backend.timestamp == b.timestamp && r.backend.logFilePath == b.logFilePath
    ensures b.error == 0 && b.count + 1 != LINE_COUNT ==>
      r.store == store && r.backend.cache == b.cache + [RenderLine(b.timestamp, now, qualifier, msg.text)]
    ensures b.error == 0 && b.count + 1 == LINE_COUNT ==> r.backend.cache == []
    ensures r.store.dirs == store.dirs
    ensures b.logFilePath !in store.dirs ==> r.store == store
    ensures forall name :: name != TodaysFile(b, now) ==> FileText(r.store, name) == FileText(store, name)
  {
    if b.error != 0 then
      Step(-2, b, store)
    else
      var c := CacheLine(b, qualifier, msg, now);
      assert c.backend.cache == b.cache + [RenderLine(b.timestamp, now, qualifier, msg.text)];
      if c.full then Flush(c.backend, store, now) else Step(0, c.backend, store)
  }

  /** The destructor's flush: whatever is still cached reaches today's file. */
  function Teardown(b: Backend, store: FileStore, now: LocalTime): (r: FileStore)
    ensures r.dirs == store.dirs
    ensures b.logFilePath !in store.dirs ==> r == store
    ensures b.logFilePath in store.dirs ==>
      FileText(r, TodaysFile(b, now)) == FileText(store, TodaysFile(b, now)) + Lines(b.cache)
    ensures forall name :: name != TodaysFile(b, now) ==> FileText(r, name) == FileText(store, name)
  {
    Flush(b, store, now).store
  }

  // ---------------------------------------------------------------------------
  // Properties relating several operations

  /**
   Everything logged so far, in order, as the day's file would read after a
   flush: the file's current text followed by the cached lines.
   */
  function Pending(b: Backend, store: FileStore, now: LocalTime): string {
    FileText(store, TodaysFile(b, now)) + Lines(b.cache)
  }

  /** A flush moves the cache into the file without losing or reordering a line. */
  lemma FlushKeepsPending(b: Backend, store: FileStore, now: LocalTime)
    requires b.logFilePath in store.dirs
    ensures Pending(Flush(b, store, now).backend, Flush(b, store, now).store, now) == Pending(b, store, now)
    ensures Flush(b, store, now).backend.cache == []
  {
    var r := Flush(b, store, now);
    assert FileText(r.store, TodaysFile(b, now)) == Pending(b, store, now);
    assert Lines(r.backend.cache) == "";
  }

  /** An accepted `log` call adds exactly its own line at the end of what is pending. */
  lemma LogAppendsOneLine(b: Backend, store: FileStore, qualifier: string, msg: Rendered, now: LocalTime)
    requires b.error == 0
    requires b.logFilePath in store.dirs
    ensures var r := Log(b, store, qualifier, msg, now);
      Pending(r.backend, r.store, now) == Pending(b, store, now) + Lines([RenderLine(b.timestamp, now, qualifier, msg.text)])
      && r.store.dirs == store.dirs
  {
    var line := RenderLine(b.timestamp, now, qualifier, msg.text);
    var c := CacheLine(b, qualifier, msg, now);
    assert c.backend.cache == b.cache + [line];
    LinesAppend(b.cache, [line]);
    if c.full {
      FlushKeepsPending(c.backend, store, now);
    }
  }

  /** A second flush with nothing logged in between changes nothing. */
  lemma FlushIdempotent(b: Backend, store: FileStore, now: LocalTime)
    ensures var r := Flush(b, store, now);
      Flush(r.backend, r.store, now) == r
  {
    var r := Flush(b, store, now);
    var name := TodaysFile(b, now);
    if b.logFilePath in store.dirs {
      assert TodaysFile(r.backend, now) == name;
      assert name in r.store.files;
      assert Lines(r.backend.cache) == "";
      assert FileText(r.store, name) + "" == r.store.files[name];
      assert r.store.files[name := r.store.files[name]] == r.store.files;
    }
  }

  /**
   `log` flushes by itself only on the call that brings `count` to exactly
   `LINE_COUNT`. Since `count` is never reset, once it has passed
   `LINE_COUNT` no `log` call writes to any file again.
   */
  lemma NoAutoFlushPastLineCount(b: Backend, store: FileStore, qualifier: string, msg: Rendered, now: LocalTime)
    requires b.count >= LINE_COUNT
    ensures var r := Log(b, store, qualifier, msg, now);
      r.store == store && r.backend.count >= LINE_COUNT
      && (b.error == 0 ==> |r.backend.cache| == |b.cache| + 1)
  {
  }

  /** Setting a path and reading it back gives the normalised path. */
  lemma SetThenGetPath(b: Backend, store: FileStore, path: string, probe: DirOracle)
    requires path == "" || path[|path| - 1] != '/'
    ensures GetLogFilePath(SetLogFilePath(b, store, path + "/", probe).backend) == path
    ensures SetLogFilePath(b, store, path + "/", probe) == SetLogFilePath(b, store, path, probe)
  {
    SlashVariantsAgree(path);
  }

  /** Once the fault is set, a path to an existing directory does not clear it. */
  lemma ExistingDirectoryKeepsFault(
    b: Backend, store: FileStore, path: string, probe: DirOracle,
    qualifier: string, msg: Rendered, now: LocalTime)
    requires b.error != 0
    requires StripTrailingSlash(path) in store.dirs
    ensures !SetLogFilePath(b, store, path, probe).ok
    ensures var r := SetLogFilePath(b, store, path, probe);
      Log(r.backend, r.store, qualifier, msg, now) == Step(-2, r.backend, r.store)
  {
  }

  /** "" and "/" both name no directory: the request fails with -1 whatever exists. */
  lemma EmptyPathFails(b: Backend, store: FileStore, probe: DirOracle)
    ensures var r := SetLogFilePath(b, store, "/", probe);
      !r.ok && r.backend.error == -1 && r.backend.logFilePath == "" && r.store == store
    ensures SetLogFilePath(b, store, "", probe) == SetLogFilePath(b, store, "/", probe)
  {
    assert "/"[..0] == "";
  }

  /**
   The backend is created once: a second `getInstance` returns what the
   first one made, with the files the first one left.
   */
  lemma GetInstanceOnce(store: FileStore, probe: DirOracle, probe': DirOracle)
    ensures var (b, s) := GetInstance(None, store, probe);
      GetInstance(Some(b), s, probe') == (b, s) && b.logFilePath == DEFAULT_LOG_PATH
  {
  }

  /** Creating a missing directory clears an earlier fault, and logging resumes. */
  lemma CreatedDirectoryClearsFault(b: Backend, store: FileStore, path: string)
    requires StripTrailingSlash(path) != ""
    requires StripTrailingSlash(path) !in store.dirs
    ensures var r := SetLogFilePath(b, store, path, DirOracle(true, true));
      r.ok && r.backend.error == 0 && StripTrailingSlash(path) in r.store.dirs
  {
  }

  /** Flushed lines read back from the file, after the lines already in it. */
  lemma FlushedLinesReadBack(b: Backend, store: FileStore, now: LocalTime)
    requires b.logFilePath in store.dirs
    requires Complete(FileText(store, TodaysFile(b, now)))
    requires AllSingleLines(b.cache)
    ensures var r := Flush(b, store, now);
      SplitLines(FileText(r.store, TodaysFile(b, now)))
        == SplitLines(FileText(store, TodaysFile(b, now))) + b.cache
  {
    AppendLines(FileText(store, TodaysFile(b, now)), b.cache);
  }
}
