# unixcli: program name and diagnostics, modelled in Dafny

This project models the two cores of the `unixcli` Rust crate, a support
library for Unix command-line tools.

- **The program-name store** (`src/progname.rs`). It is a process-wide cell,
  initialised once, that holds an optional byte-string name.
  - `setprogname` stores the last component of its argument. When the argument
    has no last component, it stores the raw argument.
  - `getprogname_arc` returns a snapshot of the stored name.
  - `getprogname` returns the name as text, or `""`.
  - The first access seeds the name from the executable's file name.
- **The diagnostic writer** (`src/err.rs`). `vwarnp` builds the line
  `<name>: [<path>: ]<text>` in one buffer and hands it to stderr in a single
  `write`. If that write fails it panics with the text part of the buffer.
  `verrp` does the same and then exits with the given status. The `warn!`,
  `warnp!`, `err!` and `errp!` macros append one newline to the formatted text
  before calling them.

Files:

- `bytes.dfy`: bytes, `Option` and ASCII literals.
- `utf8.dfy`: well-formed UTF-8. This is the check behind `OsStr::to_str` and
  `str::from_utf8` (Table 3-7 of the Unicode Standard).
- `pathname.dfy`: `Path::file_name` on `/`-separated byte strings.
- `progname.dfy`: the store. It has a value model (`Store`, `Step`, `Replay`,
  `Snapshots`) and the class `NameStore`, whose methods update the fields in
  place and are proved against `Step`.
- `err.dfy`: the writer. `Stderr` is a ghost log of received bytes. A call
  ends in an `Outcome`: `Returned`, `Panicked(message)` or `Exited(status)`.

Inputs from outside the model:

- `NameStore.currentExe` is the path `env::current_exe` reports.
- `WriteResult` is how the OS answers the one `write`.
- `Platform` chooses between the `cfg(unix)` and `cfg(not(unix))` branches.

Assumption about `Path::file_name`, whose code is not part of this model:

- The path is split at every `/`.
- Empty pieces and `.` pieces cannot end a path.
- The last remaining piece is the file name, unless it is `..`.
- If no piece remains, or the last one is `..`, there is no file name.

So `a/b/` and `a/b/.` name `b`. The paths `/`, `""`, `.`, `..` and `a/..` have
no file name.

Two behaviours of the code worth noting:

- A failed write ends in a Rust panic (`panic!`, which unwinds).
- `getprogname` returns `""` both for an absent name and for a name that is
  not UTF-8.

## Model

| member | source | states |
|---|---|---|
| `Utf8.TextOrEmpty` | src/err.rs:135 | The result is always valid UTF-8. It equals the input exactly when the input is valid UTF-8, and is empty otherwise (`from_utf8(..).unwrap_or("")`). |
| `Utf8.AppendValid` | src/err.rs:134-135 | Valid UTF-8 followed by more bytes is valid exactly when the appended bytes are valid. So a buffer built from text pieces is text. |
| `Utf8.Valid` | src/err.rs:134-135 | The UTF-8 check of `str::from_utf8` and `OsStr::to_str`. Valid text never holds the bytes `0xC0`, `0xC1` or `0xF5`..`0xFF`. |
| `Utf8.AsciiIsValid` | src/err.rs:120 | ASCII bytes such as the `": "` separators are valid UTF-8. |
| `PathName.FileName` | src/progname.rs:80 | A file name, when there is one, is non-empty, contains no `/`, is not `.` or `..`, and is one of the path's `/`-separated pieces. |
| `PathName.JoinSegments` | src/progname.rs:80 | Splitting a path at `/` loses nothing: joining the pieces with `/` gives the path back. |
| `PathName.SegmentsJoin` | src/progname.rs:80 | Splitting pieces that contain no `/` after they are joined gives the same pieces back. |
| `PathName.SegmentsAppend` | src/progname.rs:80 | A `/` between two strings separates their pieces: the pieces of `a/b` are those of `a` followed by those of `b`. |
| `PathName.FileNameOfChild` | src/progname.rs:80 | For every directory `dir`, the file name of `dir/name` is `name`. |
| `PathName.FileNameOfBareName` | src/progname.rs:80 | A proper name without separators is its own file name. |
| `PathName.FileNameIgnoresTrailingSlash` | src/progname.rs:80 | A trailing `/` does not change the file name. |
| `PathName.FileNameIgnoresTrailingDot` | src/progname.rs:80 | A trailing `/.` does not change the file name. |
| `PathName.FileNameOfParentRef` | src/progname.rs:80 | A path ending in `/..` has no file name. |
| `PathName.NoFileName` | src/progname.rs:80 | The paths `""`, `/`, `.` and `..` have no file name. |
| `ProgName.ExecName` | src/progname.rs:86-89 | The seed is absent when the OS reports no executable path. A seed that is present is a proper file name and one of the pieces of the executable path. By definition it is `FileName` of that path. |
| `ProgName.StoredName` | src/progname.rs:80 | `setprogname` stores either the raw argument or one of its pieces that is a proper file name. It stores the raw argument whenever the argument has no file name. |
| `ProgName.StoredNameOfPath` | src/progname.rs:80 | `setprogname("dir/name")` stores `name`, so `/path/to/a/command` becomes `command`. |
| `ProgName.StoredNameOfSeparatorFree` | src/progname.rs:80 | An argument without `/` is stored verbatim. This includes `""`, `.` and `..`, which have no file name. |
| `ProgName.CommandPath` | src/progname.rs:128-131 | The test path `/path/to/a/command` is `/path/to/a`, a `/` and the proper, valid name `command`. So `Components` applies to it and the test's name is `command`. |
| `ProgName.ProgNameText` | src/progname.rs:59-62 | `getprogname` is always text. It is the stored name when that name is valid UTF-8. Otherwise it is `""`, and it is `""` when the name is absent. |
| `ProgName.Initialize` | src/progname.rs:46-55 | After initialisation the store is initialised. A store already initialised is left as it is. A name that comes from the seed is a proper file name. |
| `ProgName.Step` | src/progname.rs:70-84 | Every call leaves the store initialised. A `setprogname(path)` leaves `Some(StoredName(path))`. A read of an initialised store changes nothing. |
| `ProgName.Replay` | src/progname.rs:70-84 | The state after calls in lock order. After at least one call the store is initialised, and its name is the seed or a name some `setprogname` stored, never anything else. |
| `ProgName.Snapshots` | src/progname.rs:70-74 | The values the reads of a history return, in lock order. There is at most one per call, and each is the seed or a name some `setprogname` stored. |
| `ProgName.InitializeOnce` | src/progname.rs:46-55 | Initialising an initialised store changes nothing, whatever the executable. The first initialisation seeds the name from the executable. A store already initialised keeps its name. |
| `ProgName.LastWriterWins` | src/progname.rs:78-84 | After any non-empty sequence of calls, the store is initialised. It holds the name of the last `setprogname`, or the seed if there was none. |
| `ProgName.ReadSeesLatestSet` | src/progname.rs:70-74 | A snapshot returns the name of the last `setprogname` before it, or the seed. |
| `ProgName.RepeatedReadsAgree` | src/progname.rs:111-117 | Two reads with no set between them return the same value. |
| `ProgName.SnapshotsSurvive` | src/progname.rs:120-126 | Calls made later leave every snapshot already taken unchanged. The snapshots of a history are a prefix of those of any longer history. |
| `ProgName.SeedUsedOnce` | src/progname.rs:46-55 | Once the store is initialised, no later call depends on the executable path. Initialisation happens at most once. |
| `ProgName.NameStore.constructor` | src/progname.rs:43-44 | At process start the cell is uninitialised and holds no name. |
| `ProgName.NameStore.InitMutex` | src/progname.rs:46-55 | The new state is `Initialize` of the old one: the first call seeds the name and later calls change nothing. |
| `ProgName.NameStore.SetProgName` | src/progname.rs:78-84 | Initialises the store, then replaces the name with `Some(StoredName(path))`. The name is never `None` afterwards. |
| `ProgName.NameStore.GetProgNameArc` | src/progname.rs:70-74 | Initialises the store and returns the current name. Nothing else changes. |
| `ProgName.NameStore.GetProgName` | src/progname.rs:59-65 | Returns `ProgNameText` of the current name, after the same initialisation. |
| `ProgName.Basic` | src/progname.rs:111-118 | For any two separator-free text names: after the first is set, two reads both give it. After the second is set, a read gives the second. |
| `ProgName.OldInUse` | src/progname.rs:120-126 | A snapshot taken after one name is set still holds that name after a second name is set. A fresh read gives the second name. |
| `ProgName.Components` | src/progname.rs:128-131 | After `setprogname("dir/name")`, `getprogname` gives `name`. |
| `Err.Written` | src/err.rs:133 | One `write` puts a prefix of the buffer on the stream. Its length is the count the OS reports, capped at the buffer length. A failed write puts nothing. |
| `Err.Stderr.Write` | src/err.rs:133 | The log grows by exactly what that one write took. |
| `Err.OsBytes` | src/err.rs:112-128 | On Unix a name or path enters the buffer byte for byte. Elsewhere it enters only when it is text and contributes nothing when it is not. |
| `Err.ComposeMessage` | src/err.rs:110-132 | The buffer is the diagnostic line. `msgstart` is where the header ends: `buf[..msgstart]` is the header and `buf[msgstart..]` is exactly the formatted text. |
| `Err.VWarnP` | src/err.rs:109-140 | The log grows by what one write of `<name>: [<path>: ]<text>` took, using the current name. If the write fails, the call panics with `failed to write to stderr: <error>: <text or "">`. Otherwise it returns. The store only undergoes a read. |
| `Err.VErrP` | src/err.rs:102-105 | Emits the same bytes as `vwarnp`. It then ends in `Exited(status)`, or in the same panic if the write failed. It never returns normally. |
| `Err.WarnMacro` | src/err.rs:74-83 | Writes `<name>: <formatted>\n` and returns, unless the write fails. |
| `Err.WarnpMacro` | src/err.rs:89-98 | Writes `<name>: <path>: <formatted>\n` and returns, unless the write fails. |
| `Err.ErrMacro` | src/err.rs:43-52 | Writes `<name>: <formatted>\n`, then exits with the status. If the write fails, it panics instead with `failed to write to stderr: <error>: ` followed by `<formatted>\n` when that is UTF-8. It never returns. |
| `Err.ErrpMacro` | src/err.rs:59-68 | Writes `<name>: <path>: <formatted>\n`, then exits with the status. If the write fails, it panics instead with `failed to write to stderr: <error>: ` followed by `<formatted>\n` when that is UTF-8. It never returns. |
| `Err.TextFollowsSeparator` | src/err.rs:110-132 | The header always ends with `": "`. The line is the header followed by the formatted text, unchanged. |
| `Err.PanicMessageShape` | src/err.rs:135-138 | The panic message starts with `failed to write to stderr: `, the error and `": "`. It ends with the text when that is UTF-8. Otherwise it stops after the separator. |
| `Err.LineWithoutPath` | src/err.rs:110-120 | Without a path, the line on Unix is exactly `name ++ ": " ++ text`. |
| `Err.LineWithPath` | src/err.rs:121-130 | With a path, the line on Unix is exactly `name ++ ": " ++ path ++ ": " ++ text`. |
| `Err.LineWithoutName` | src/err.rs:111-120 | An absent name contributes no bytes, so the line starts with `": "`. Without a path it is `": " ++ text`. |
| `Err.NonTextDropped` | src/err.rs:114-128 | Off Unix, a name that is not text gives the same line as no name. A path that is not text gives the same line as an empty path. |
| `Err.LineDeterminesText` | src/err.rs:131-132 | For a fixed name and path, the line determines the formatted text. |
| `Err.LineIsText` | src/err.rs:134 | If the formatted text is UTF-8, so is the line. On Unix this needs the name and path to be UTF-8 too. Off Unix it always holds. |
| `Err.MacroLineEnds` | src/err.rs:46 | A macro's line ends with the formatted text followed by exactly one `"\n"`. |
| `Err.MacroPanicCarriesText` | src/err.rs:134-138 | If the formatted text is UTF-8, the panic message ends with the formatted text and its newline, unchanged. |
| `Err.FullWriteEmitsLine` | src/err.rs:133 | A write that takes the whole buffer puts exactly the buffer on the stream. |
| `Err.WarnWithoutName` | src/err.rs:111-120 | With no name set and no executable path, `warn!("hi")` writes exactly `": hi\n"`. |
| `Err.WarnpLineEnd` | src/err.rs:215-226 | On Unix, on a stream that takes the whole buffer, `warnp!(path, fmt)` leaves stderr ending in `": " ++ path ++ ": " ++ fmt ++ "\n"`, whatever the name. |
| `Err.WarnpStrSuffix` | src/err.rs:216-217 | The expected tail `": str: warnp 1\n"` of the test is that shape for path `str` and text `warnp 1`. |

## Left out

- Concurrency: the `Mutex`, the `Once`, the `unsafe` global pointer and `Arc` reference counting are not modelled. The store is sequential. `Replay` and `Snapshots` take the calls in the order the lock admits them. The panic of `lock().unwrap()` on a poisoned mutex is not modelled. The threads test only checks that nothing crashes.
- Formatting: `format_args!`, `write_fmt` and named arguments are compiler and library machinery. The formatted text is an input. An error from a user `Display` implementation, which `vwarnp` ignores, is not modelled.
- `env::current_exe` is an OS query. Its answer is the input `NameStore.currentExe`.
- `Path::file_name` is not shown. Its behaviour is the assumption stated above.
- The real stderr handle and `process::exit`: stderr is a ghost log and exit is the outcome `Exited(status)`. How the OS truncates an exit status is not modelled.
- Short writes are not retried. `vwarnp` uses `write`, not `write_all`, and ignores the count, so a short write leaves only a prefix of the line on the stream. `Written` models this as is. The "whole line" results assume a write that takes the whole buffer.
- `Path::file_name` on non-Unix builds also splits at `\` and knows drive prefixes. The model uses the Unix rule on every platform.
- Non-Unix strings: `OsString` is modelled as bytes, and `to_str` as the UTF-8 check. Its internal representation on other platforms is not modelled.
- `getprogname` returns a `String`. The model gives the bytes of that `String`.
- The test harness (the test-only `tester` module with `DummyStderr` and a panicking `exit`) is scaffolding and is not modelled.
- The `initial` test depends on the test binary's file name. It is covered only by `ExecName`.
- `examples/cat.rs` is a thin copy loop over files. It is not part of this model.
