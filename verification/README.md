# A verified model of the Logger backend and its facade

This project models the logging library's core in Dafny.

The **backend** is `Logger_c`. It is a single shared object that holds:
- a cache of rendered lines;
- a line counter;
- an error code;
- a time-stamp switch;
- the log directory.

Backend operations:
- `log` renders a line and caches it. It flushes by itself when the counter reaches 16.
- `flush` appends the cached lines to `<directory>/log-YYYY-MM-DD.txt`.
- `setLogFilePath` normalises the directory and makes sure it exists.

The **facade** is `Log_c`. Each handle holds a module name, padded or cut to 20 characters, and a severity threshold. A call above the threshold is dropped with status -1. An accepted call is forwarded to the backend with the qualifier `"<module> L<level> -"`.

The model is functional. The backend is the immutable value `Logger.Backend`, and every operation returns the new value. The file system is the value `Logger.FileStore`, which holds:
- the text of each file, by name;
- the set of existing directories, spelled as the backend stores them.

What the operating system decides is passed in as a parameter:
- the clock reading, `LogText.LocalTime`, which holds the `struct tm` fields plus microseconds;
- whether `vsprintf` rendered the message, `Logger.Rendered`;
- for a directory that does not exist yet, what `opendir`'s `errno` and `mkdir` report, `Logger.DirOracle`.

Modules:
- `Decimal`: the `%d` and `%0Nd` conversions, with parsers and round trips.
- `LogText`: the directory normalisation, the dated file name, the time stamp, the module field, the qualifier and the layout of one line.
- `TextFile`: newline-terminated lines written to a file and split back out.
- `Logger`: the backend state machine.
- `LogHandle`: the facade, sequences of calls through several handles, and the module's own two-handle test run.

Some behaviour is kept exactly as the code has it, even where the source's own comments say otherwise: Logger_c.h:65 calls `count` the "Current Number of Lines in the Buffer", and Logger_c.cpp:122 says `setLogFilePath` clears `error` when it finds no problem.
- **`count` is never reset.** `flush` does not reset it. So `log` flushes by itself only on the call that brings the count to exactly 16, and never again after that (`Logger.NoAutoFlushPastLineCount`).
- **The error is not sticky.** Pointing the backend at a directory that `mkdir` creates clears an earlier error (`Logger.CreatedDirectoryClearsFault`). Pointing it at a directory that already exists keeps the error (`Logger.ExistingDirectoryKeepsFault`).
- **Only one trailing `/` is removed.** `"logs//"` is stored as `"logs/"`, and `""` stays `""`. The paths `""` and `"/"` both leave `""` stored, which names no directory: `opendir` and `mkdir` both fail on it, so error becomes -1 (`Logger.EmptyPathFails`).
- **Only one directory level is created.** The code makes a single `mkdir` call, not a recursive one.
- **A failed render is still cached.** The line is still appended and counted, and `error` is set to 1.
- **A missing directory loses the lines.** `flush` writes nothing, because the open fails silently. It still empties the cache and returns 0.

## Model

| member | source | states |
|---|---|---|
| Decimal.ParseIntText | Log_c.cpp:61 | the `%d` text of any level, negative ones included, parses back to that level |
| Decimal.ValueOfZeroPad | Logger_c.cpp:104 | a zero-padded `%0Nd` field denotes the number it was made from |
| Decimal.ZeroPadWidth | Logger_c.cpp:185 | a value below 10^N fills exactly N characters of a `%0Nd` field |
| LogText.StripTrailingSlash | Logger_c.cpp:128-137 | the stored directory is the requested one, or the requested one minus one final '/'; it is shorter exactly when the request ends in '/'; the empty path stays empty |
| LogText.SlashVariantsAgree | Logger_c.cpp:128-137 | "p/" and "p" are stored as the same directory |
| LogText.OnlyOneSlashStripped | Logger_c.cpp:128-137 | "p//" is stored as "p/": only one separator is removed |
| LogText.DateStampLayout | Logger_c.cpp:104 | for a four-digit year the date part is `YYYY-MM-DD`; its fields denote tm_year+1900, tm_mon+1 and tm_mday |
| LogText.LogFileNameLayout | Logger_c.cpp:104 | the flush target is the directory, then `/log-`, then the ten-character date, then `.txt` |
| LogText.LogFileNameInjective | Logger_c.cpp:104 | two directories or two dates never share a log file |
| LogText.TimestampLayout | Logger_c.cpp:177-186 | the time stamp is 16 characters `HH:MM:SS.uuuuuu `; each field reads back as hour, minute, second and microseconds |
| LogText.ModuleField | Log_c.cpp:41 | the module field is exactly 20 characters: the name's first min(len, 20), then spaces |
| LogText.ModuleFieldTrim | Log_c.cpp:41 | a name of at most 20 characters, not ending in a blank, is recovered from its field |
| LogText.ModuleFieldIdempotent | Log_c.cpp:41 | padding a padded field again changes nothing |
| LogText.QualifierFields | Log_c.cpp:61 | the qualifier is the 20-character field, " L", the level's digits, " -"; the level reads back from it |
| LogText.RenderLineFields | Logger_c.cpp:176-192 | a line is the optional 16-character time stamp, then the qualifier, one space and the message, each at a known offset |
| TextFile.LinesAppend | Logger_c.cpp:108-111 | writing two batches of lines one after the other writes the text of the joined batch |
| TextFile.SplitLinesOfLines | Logger_c.cpp:108-111 | reading back newline-terminated lines gives the written lines, in order |
| TextFile.AppendLines | Logger_c.cpp:107-111 | appending lines to a file that ends at a line boundary adds exactly those lines after the existing ones |
| Logger.NewBackend | Logger_c.h:51-67 | a new backend has error 0, count 0, an empty cache and time stamping on |
| Logger.GetInstance | Logger_c.cpp:52-62 | the first call creates a backend pointed at `/logs`, writes no file, and has error 0 exactly when `/logs` exists or is created, in which case `/logs` exists afterwards; later calls return the existing backend and touch nothing |
| Logger.GetInstanceOnce | Logger_c.cpp:54-61 | only the first call creates: calling again, whatever the directory probe says, returns the same backend and files |
| Logger.SetLogFilePath | Logger_c.cpp:126-159 | the directory is stored normalised and no file changes; an empty stored path fails with error -1 and no directory is made; for an existing directory error is unchanged; for a missing one error becomes mkdir's 0 or -1 and a created directory exists afterwards; any other opendir failure sets it to 1; success iff error is 0 |
| Logger.GetLogFilePath | Logger_c.h:46 | returns the stored directory and changes nothing |
| Logger.EnableTimestamp | Logger_c.h:47 | sets the time-stamp switch and leaves every other field as it was |
| Logger.CacheLine | Logger_c.cpp:170-202 | appends exactly one rendered line at the end of the cache and counts it, even when rendering fails; a failed render sets error to 1; reports full exactly when the count reaches 16 |
| Logger.Flush | Logger_c.cpp:97-117 | when the directory exists, appends the cache's lines newline-terminated and in order to today's file; otherwise writes nothing; always empties the cache, keeps count and returns 0 |
| Logger.Log | Logger_c.cpp:73-89 | with error set: -2 and nothing changes; otherwise one line is cached and counted, and the cache is flushed exactly when the count reaches 16; the status is 0; no file but today's changes, no directory is made, and nothing is written when the directory is missing |
| Logger.Teardown | Logger_c.h:52 | destroying the backend appends the remaining cached lines to today's file, and no other file changes; with the directory missing, nothing changes |
| Logger.FlushKeepsPending | Logger_c.cpp:107-114 | a flush moves the cache into the file without losing or reordering a line |
| Logger.LogAppendsOneLine | Logger_c.cpp:82-88 | an accepted log call adds exactly its own line after everything already pending, whether or not it triggers a flush |
| Logger.FlushIdempotent | Logger_c.cpp:108-114 | a second flush with nothing logged in between changes nothing |
| Logger.NoAutoFlushPastLineCount | Logger_c.cpp:199-201 | once the count has reached 16, no later log call writes a file |
| Logger.SetThenGetPath | Logger_c.cpp:126-137 | setting "p/" or "p" gives the same backend and files, and getLogFilePath returns "p" |
| Logger.ExistingDirectoryKeepsFault | Logger_c.cpp:140-145 | pointing a faulty backend at an existing directory fails, and the next log is refused with -2 |
| Logger.CreatedDirectoryClearsFault | Logger_c.cpp:146-151 | creating a missing, nonempty directory clears any earlier error, and the directory exists afterwards |
| Logger.EmptyPathFails | Logger_c.cpp:128-151 | `"/"` and `""` are stored as `""`, which fails with error -1 and leaves the files and directories as they were |
| Logger.FlushedLinesReadBack | Logger_c.cpp:104-111 | after a flush, reading today's file back gives its earlier lines followed by the cached lines |
| LogHandle.Create | Log_c.cpp:35-42 | the handle keeps the given level and a 20-character module field; the backend is the shared instance, created on first use |
| LogHandle.CreateDefault | Log_c.h:102 | a handle made without a level has threshold 6 |
| LogHandle.IsLogLevelValid | Log_c.h:99-104 | a level is valid iff it lies in 0..9 |
| LogHandle.GetLogLevel | Log_c.h:109 | returns the handle's threshold |
| LogHandle.SetLogLevel | Log_c.h:110 | stores any int as the threshold and keeps the module field |
| LogHandle.Logf | Log_c.cpp:52-71 | a level above the threshold returns -1 and leaves backend and files untouched; otherwise the backend's log gets the qualifier of the module and level, and its status is returned |
| LogHandle.Flush | Log_c.h:107 | a handle's flush is the shared backend's flush |
| LogHandle.GetLogFilePath | Log_c.h:113 | a handle reads the shared backend's directory |
| LogHandle.SetLogFilePath | Log_c.h:114 | a handle sets the shared backend's directory |
| LogHandle.EnableTimestamp | Log_c.h:115 | a handle switches the shared backend's time stamp |
| LogHandle.LogfBuffersLine | Log_c.cpp:58-63 | an accepted call below the flush point buffers "<module20> L<level> - <msg>" after the optional time stamp, returns 0 and writes no file |
| LogHandle.FilteredCallChangesNothing | Log_c.cpp:54-70 | a filtered call returns -1 with backend and files unchanged |
| LogHandle.HandlesShareBackend | Log_c.h:113-115 | a directory set through one handle is what another handle reads; a time-stamp switch through one handle shapes another handle's lines |
| LogHandle.SetThenGetLevel | Log_c.h:109-110 | getLogLevel returns the last stored level, valid or not |
| LogHandle.DefaultHandleIsValid | Log_c.h:99-104 | a handle made without a level has a valid threshold |
| LogHandle.Run | Log_c.cpp:52-71 | a sequence of calls, each at its own clock reading, reports one status per call and keeps the time-stamp switch, the directory and the set of directories |
| LogHandle.AcceptedAppend | Log_c.cpp:52-71 | the accepted lines of two consecutive call sequences are those of the first, then those of the second |
| LogHandle.LogfStep | Log_c.cpp:52-71 | one call on a given day adds its accepted line, stamped with the call's own time, to what is pending for that day, and counts it |
| LogHandle.RunKeepsOrder | Log_c.cpp:103-110 | calls on one day through any mix of handles add exactly the accepted lines, each with its own time stamp, in global call order, to what is pending for that day, and count each of them |
| LogHandle.RunStatuses | Log_c.cpp:103-110 | at any times and whether or not the directory exists, every call of a sequence returns 0 when it passes its threshold and -1 when filtered |
| LogHandle.RunBuffersAccepted | Logger_c.cpp:197-201 | at any times, while the count stays below 16, a sequence writes no file and leaves exactly the accepted lines at the end of the cache |
| LogHandle.RunThenFlushReadBack | Logger_c.cpp:104-114 | after a sequence within one day and a flush on that day, the day's file reads back as its earlier lines, then the lines cached before, then the accepted lines in call order |
| LogHandle.AcceptedOfRound | Log_c.cpp:103-106 | a round at levels 1, 3, 5, 7 keeps, in order, the lines of the levels that pass |
| LogHandle.RoundAtThreeOrFour | Log_c.cpp:103-110 | with threshold 3 or 4, a round keeps exactly the level-1 and level-3 lines |
| LogHandle.RoundAtFiveOrSix | Log_c.cpp:114-125 | with threshold 5 or 6, levels 1, 3 and 5 pass and level 7 is dropped |
| LogHandle.TestRunAccepted | Log_c.cpp:93-125 | the test run accepts ten of its sixteen calls, listed in call order, each stamped at its own call's time and with its handle's current threshold in the message |
| LogHandle.TestRun | Log_c.cpp:93-128 | from a backend with fewer than six lines counted, the test run writes no file before the closing flushes and buffers those ten lines; the second closing flush changes nothing |

## Left out

- File and directory I/O (`ofstream`, `opendir`, `mkdir`, `errno`) is replaced by the `FileStore` value and the `DirOracle` parameter. An `opendir` failure on a directory that exists, such as permission denied, is not modelled: a directory in the store always opens.
- The clock (`time`, `localtime`, `clock_gettime`) is a `LocalTime` parameter, and in a sequence of calls each call carries its own reading. Within one call, one reading serves both the time stamp and the file name of the flush it may trigger, although the source reads the clock separately in `cacheLine` and `flush`. The statements about file contents after several calls (`LogHandle.RunKeepsOrder`, `LogHandle.RunThenFlushReadBack`) are made for calls on one day; calls that span midnight write to two files.
- `vsprintf` and `va_list` are replaced by the `Rendered` parameter: the message text and whether rendering succeeded.
- Fixed C buffers are not modelled, and neither is their overflow: `LINE_LENGTH` 512, the 80-byte qualifier and `FILE_NAME_SIZE` 80. Lines and names have any length, and embedded NUL characters are not treated specially.
- `count` and `error` are unbounded integers. Overflow of the C `int` counter is not modelled.
- `tmYear` is a `nat`, so dates before 1900 are not represented.
- Paths are compared as spelled, not resolved: `"logs/"` and `"logs"` are different directories in `FileStore`, and `"logs//log-D.txt"` and `"logs/log-D.txt"` are different files. Symbolic links, `.` and `..` are not resolved either.
- LogText.ModuleField: names are taken as sequences of single-byte characters. `%-20.20s` counts bytes, so for a name with multi-byte UTF-8 characters the source's field is shorter in characters than 20, and it may cut a character in two; that is not modelled.
- The singleton's allocation and lifetime are not modelled. The one shared backend is threaded through every call explicitly (`Option<Backend>` stands for "not created yet").
- Log_c.h also declares a mutex-guarded `Logger_c`, with `once_flag` and wrappers whose bodies (`_log`, `_flush`, `_getTimestamp`, `_getFullLogFileName`) are not part of this model. Concurrency is therefore left out.
- `getFullLogFileName` (Log_c.h:112) is left out for the same reason: its body is not part of this model. `Logger.TodaysFile` gives the name `flush` writes to.
- `printf` (Log_c.cpp) and `logf` (Log_c.h) are treated as one operation, `LogHandle.Logf`.
- The demonstration drivers `test.cpp`, `test2.cpp` and `mod.cpp` are not modelled. They read command-line arguments and print to the console.
- LogHandle.TestRun: the name `__FILE__` gives the first handle depends on the compiler, so it is a parameter. The run is stated for a backend whose error is 0; at start-up that holds exactly when `/logs` exists or is created (`Logger.GetInstance`).
