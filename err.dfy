/**
 * The diagnostic writer of `src/err.rs`: `vwarnp` composes one line
 * `<name>: [<path>: ]<text>` into a buffer and hands the whole buffer to
 * stderr in a single `write`; `verrp` does the same and then exits; the
 * `warn!`, `warnp!`, `err!` and `errp!` macros append a newline to the
 * formatted text and call them.
 *
 * Formatting (`format_args!`) is outside the model: the formatted text is an
 * input. Stderr is a ghost log of the bytes it received; how the OS answers
 * the write, and what `env::current_exe` reported, are inputs too.
 */
module Err {
  import opened Bytes
  import opened Utf8
  import opened ProgName

  /** Rust's `i32`, the type of an exit status. */
  newtype int32 = x: int | -0x8000_0000 <= x < 0x8000_0000

  /** The build configuration: `cfg(unix)` or `cfg(not(unix))`. */
  datatype Platform = Unix | NonUnix

  /** How the OS answers one `write` on stderr: the number of bytes taken, or an error and its display text. */
  datatype WriteResult = Wrote(count: nat) | Failed(error: seq<byte>)

  /** How a diagnostic call ends. */
  datatype Outcome = Returned | Panicked(message: seq<byte>) | Exited(status: int32)

  const COLON_SPACE: seq<byte> := [COLON, SPACE]

  /** The fixed start of the panic message when stderr cannot be written. */
  const WRITE_FAILED: seq<byte> := Ascii("failed to write to stderr: ")

  /**
   * The bytes one `write` puts on the stream: a prefix of the buffer as long
   * as the count it reports (never more than the buffer, by the contract of
   * `Write::write`), and nothing when it reports an error.
   */
  function Written(buf: seq<byte>, result: WriteResult): (w: seq<byte>)
    ensures w <= buf
    ensures result.Wrote? ==> |w| == Min(result.count, |buf|)
    ensures result.Failed? ==> w == []
  {
    match result
    case Wrote(n) => buf[..Min(n, |buf|)]
    case Failed(_) => []
  }

  /** The standard error stream, seen as the bytes written to it so far. */
  class Stderr {
    ghost var log: seq<byte>

    constructor ()
      ensures log == []
    {
      log := [];
    }

    /** One `write` call; the OS decides the result. */
    method Write(buf: seq<byte>, result: WriteResult) returns (r: WriteResult)
      modifies this
      ensures r == result
      ensures log == old(log) + Written(buf, result)
    {
      r := result;
      log := log + Written(buf, result);
    }
  }

  /**
   * An `OsStr` as it enters the buffer: its bytes on Unix; elsewhere its text
   * when `to_str` succeeds and nothing when it does not.
   */
  function OsBytes(os: seq<byte>, platform: Platform): (r: seq<byte>)
    ensures platform.Unix? ==> r == os
    ensures platform.NonUnix? ==> Valid(r) && (Valid(os) <==> r == os) && (r == os || r == [])
  {
    match platform
    case Unix => os
    case NonUnix => TextOrEmpty(os)
  }

  /** Everything before the message text: `<name>: ` or `<name>: <path>: `. */
  function Header(name: Option<seq<byte>>, path: Option<seq<byte>>, platform: Platform): seq<byte>
  {
    (if name.Some? then OsBytes(name.value, platform) else [])
      + COLON_SPACE
      + (if path.Some? then OsBytes(path.value, platform) + COLON_SPACE else [])
  }

  /** The line `vwarnp` writes for a name snapshot, an optional path and the formatted text. */
  function DiagnosticLine(name: Option<seq<byte>>, path: Option<seq<byte>>, text: seq<byte>, platform: Platform): seq<byte>
  {
    Header(name, path, platform) + text
  }

  /** The message of the panic raised when the write fails: the error, then the text when it is UTF-8. */
  function PanicMessage(error: seq<byte>, text: seq<byte>): seq<byte>
  {
    WRITE_FAILED + error + COLON_SPACE + TextOrEmpty(text)
  }

  /** The buffer of `vwarnp`, built piece by piece, and `msgstart`, where the text begins. */
  method ComposeMessage(name: Option<seq<byte>>, path: Option<seq<byte>>, text: seq<byte>, platform: Platform)
    returns (buf: seq<byte>, msgstart: nat)
    ensures buf == DiagnosticLine(name, path, text, platform)
    ensures msgstart == |Header(name, path, platform)|
    ensures msgstart <= |buf| && buf[..msgstart] == Header(name, path, platform) && buf[msgstart..] == text
  {
    buf := [];
    if name.Some? {
      buf := buf + OsBytes(name.value, platform);
    }
    buf := buf + COLON_SPACE;
    if path.Some? {
      buf := buf + OsBytes(path.value, platform);
      buf := buf + COLON_SPACE;
    }
    assert buf == Header(name, path, platform);
    msgstart := |buf|;
    buf := buf + text;
    assert buf[..msgstart] == Header(name, path, platform);
  }

  /** `vwarnp`: reads the name, composes the line, writes it once, panics if the write fails. */
  method VWarnP(store: NameStore, stderr: Stderr, path: Option<seq<byte>>, text: seq<byte>,
                platform: Platform, io: WriteResult)
    returns (outcome: Outcome)
    modifies store, stderr
    ensures store.Model() == Step(old(store.Model()), Get, store.currentExe)
    ensures stderr.log == old(stderr.log) + Written(DiagnosticLine(store.name, path, text, platform), io)
    ensures outcome == if io.Failed? then Panicked(PanicMessage(io.error, text)) else Returned
  {
    var snapshot := store.GetProgNameArc();
    var buf, msgstart := ComposeMessage(snapshot, path, text, platform);
    var result := stderr.Write(buf, io);
    if result.Failed? {
      var msg := if Valid(buf[msgstart..]) then buf[msgstart..] else [];
      outcome := Panicked(WRITE_FAILED + result.error + COLON_SPACE + msg);
    } else {
      outcome := Returned;
    }
  }

  /** `verrp`: the same bytes as `vwarnp`, then exit with `status`; it never returns. */
  method VErrP(store: NameStore, stderr: Stderr, status: int32, path: Option<seq<byte>>, text: seq<byte>,
               platform: Platform, io: WriteResult)
    returns (outcome: Outcome)
    modifies store, stderr
    ensures store.Model() == Step(old(store.Model()), Get, store.currentExe)
    ensures stderr.log == old(stderr.log) + Written(DiagnosticLine(store.name, path, text, platform), io)
    ensures outcome == if io.Failed? then Panicked(PanicMessage(io.error, text)) else Exited(status)
    ensures !outcome.Returned?
  {
    outcome := VWarnP(store, stderr, path, text, platform, io);
    if outcome.Returned? {
      outcome := Exited(status);
    }
  }

  /** `warn!(fmt, ...)`: the formatted text and one newline, without a path. */
  method WarnMacro(store: NameStore, stderr: Stderr, formatted: seq<byte>, platform: Platform, io: WriteResult)
    returns (outcome: Outcome)
    modifies store, stderr
    ensures store.Model() == Step(old(store.Model()), Get, store.currentExe)
    ensures stderr.log == old(stderr.log) + Written(Header(store.name, None, platform) + formatted + [NEWLINE], io)
    ensures outcome == if io.Failed? then Panicked(PanicMessage(io.error, formatted + [NEWLINE])) else Returned
  {
    outcome := VWarnP(store, stderr, None, formatted + [NEWLINE], platform, io);
  }

  /** `warnp!(path, fmt, ...)`: the formatted text and one newline, after the path. */
  method WarnpMacro(store: NameStore, stderr: Stderr, path: seq<byte>, formatted: seq<byte>,
                    platform: Platform, io: WriteResult)
    returns (outcome: Outcome)
    modifies store, stderr
    ensures store.Model() == Step(old(store.Model()), Get, store.currentExe)
    ensures stderr.log == old(stderr.log) + Written(Header(store.name, Some(path), platform) + formatted + [NEWLINE], io)
    ensures outcome == if io.Failed? then Panicked(PanicMessage(io.error, formatted + [NEWLINE])) else Returned
  {
    outcome := VWarnP(store, stderr, Some(path), formatted + [NEWLINE], platform, io);
  }

  /** `err!(status, fmt, ...)`: like `warn!`, then exit with `status`. */
  method ErrMacro(store: NameStore, stderr: Stderr, status: int32, formatted: seq<byte>,
                  platform: Platform, io: WriteResult)
    returns (outcome: Outcome)
    modifies store, stderr
    ensures store.Model() == Step(old(store.Model()), Get, store.currentExe)
    ensures stderr.log == old(stderr.log) + Written(Header(store.name, None, platform) + formatted + [NEWLINE], io)
    ensures outcome == if io.Failed? then Panicked(PanicMessage(io.error, formatted + [NEWLINE])) else Exited(status)
    ensures !outcome.Returned?
  {
    outcome := VErrP(store, stderr, status, None, formatted + [NEWLINE], platform, io);
  }

  /** `errp!(status, path, fmt, ...)`: like `warnp!`, then exit with `status`. */
  method ErrpMacro(store: NameStore, stderr: Stderr, status: int32, path: seq<byte>, formatted: seq<byte>,
                   platform: Platform, io: WriteResult)
    returns (outcome: Outcome)
    modifies store, stderr
    ensures store.Model() == Step(old(store.Model()), Get, store.currentExe)
    ensures stderr.log == old(stderr.log) + Written(Header(store.name, Some(path), platform) + formatted + [NEWLINE], io)
    ensures outcome == if io.Failed? then Panicked(PanicMessage(io.error, formatted + [NEWLINE])) else Exited(status)
    ensures !outcome.Returned?
  {
    outcome := VErrP(store, stderr, status, Some(path), formatted + [NEWLINE], platform, io);
  }

  /**
   * The header always ends with the `": "` separator, and the formatted text
   * follows it unchanged to the end of the line.
   */
  lemma TextFollowsSeparator(name: Option<seq<byte>>, path: Option<seq<byte>>, text: seq<byte>, platform: Platform)
    ensures var h := Header(name, path, platform); |h| >= 2 && h[|h| - 2..] == COLON_SPACE
    ensures var line := DiagnosticLine(name, path, text, platform);
      EndsWith(line, text) && line[..|line| - |text|] == Header(name, path, platform)
  {
  }

  /**
   * The panic message starts with the fixed prefix, the error and `": "`; it
   * ends with the text when that is UTF-8 and stops after the separator otherwise.
   */
  lemma PanicMessageShape(error: seq<byte>, text: seq<byte>)
    ensures var m := PanicMessage(error, text);
      |m| >= |WRITE_FAILED| + |error| + 2 && m[..|WRITE_FAILED| + |error| + 2] == WRITE_FAILED + error + COLON_SPACE
    ensures Valid(text) ==> EndsWith(PanicMessage(error, text), text)
    ensures !Valid(text) ==> PanicMessage(error, text) == WRITE_FAILED + error + COLON_SPACE
  {
  }

  /** Without a path, the line is the name, `": "` and the text (on Unix). */
  lemma LineWithoutPath(name: seq<byte>, text: seq<byte>)
    ensures DiagnosticLine(Some(name), None, text, Unix) == name + [COLON, SPACE] + text
  {
  }

  /** With a path, the line is the name, `": "`, the path, `": "` and the text (on Unix). */
  lemma LineWithPath(name: seq<byte>, path: seq<byte>, text: seq<byte>)
    ensures DiagnosticLine(Some(name), Some(path), text, Unix) == name + [COLON, SPACE] + path + [COLON, SPACE] + text
  {
  }

  /** An absent name contributes no bytes: the line starts with `": "`. */
  lemma LineWithoutName(path: Option<seq<byte>>, text: seq<byte>, platform: Platform)
    ensures var line := DiagnosticLine(None, path, text, platform);
      |line| >= 2 && line[..2] == [COLON, SPACE]
    ensures DiagnosticLine(None, None, text, platform) == [COLON, SPACE] + text
  {
    var line := DiagnosticLine(None, path, text, platform);
    assert line == COLON_SPACE + ((if path.Some? then OsBytes(path.value, platform) + COLON_SPACE else []) + text);
  }

  /** Off Unix, a name or a path that is not text contributes no bytes instead of failing. */
  lemma NonTextDropped(name: Option<seq<byte>>, path: Option<seq<byte>>, text: seq<byte>)
    ensures name.Some? && !Valid(name.value) ==>
      DiagnosticLine(name, path, text, NonUnix) == DiagnosticLine(None, path, text, NonUnix)
    ensures path.Some? && !Valid(path.value) ==>
      DiagnosticLine(name, path, text, NonUnix) == DiagnosticLine(name, Some([]), text, NonUnix)
  {
  }

  /** The text is where `msgstart` says: two lines with the same name and path differ only if their texts do. */
  lemma {:induction false} LineDeterminesText(name: Option<seq<byte>>, path: Option<seq<byte>>,
                                              t1: seq<byte>, t2: seq<byte>, platform: Platform)
    requires DiagnosticLine(name, path, t1, platform) == DiagnosticLine(name, path, t2, platform)
    ensures t1 == t2
  {
    var h := Header(name, path, platform);
    assert (h + t1)[|h|..] == t1;
    assert (h + t2)[|h|..] == t2;
  }

  /**
   * The line is text whenever the formatted text is: on Unix provided the
   * name and the path are text too, elsewhere always, because parts that are
   * not text are dropped.
   */
  lemma LineIsText(name: Option<seq<byte>>, path: Option<seq<byte>>, text: seq<byte>, platform: Platform)
    requires Valid(text)
    requires platform.Unix? ==> (name.Some? ==> Valid(name.value)) && (path.Some? ==> Valid(path.value))
    ensures Valid(DiagnosticLine(name, path, text, platform))
  {
    var n := if name.Some? then OsBytes(name.value, platform) else [];
    var p := if path.Some? then OsBytes(path.value, platform) + COLON_SPACE else [];
    AsciiIsValid([]);
    AsciiIsValid(COLON_SPACE);
    assert Valid(n);
    AppendValid(n, COLON_SPACE);
    if path.Some? {
      AppendValid(OsBytes(path.value, platform), COLON_SPACE);
    }
    assert Valid(p);
    AppendValid(n + COLON_SPACE, p);
    AppendValid(n + COLON_SPACE + p, text);
  }

  /** A macro appends exactly one newline: the line ends with the formatted text and then `"\n"`. */
  lemma MacroLineEnds(name: Option<seq<byte>>, path: Option<seq<byte>>, formatted: seq<byte>, platform: Platform)
    ensures var line := DiagnosticLine(name, path, formatted + [NEWLINE], platform);
      EndsWith(line, formatted + [NEWLINE]) && line[|line| - 1] == NEWLINE
  {
    var h := Header(name, path, platform);
    assert h + (formatted + [NEWLINE]) == (h + formatted) + [NEWLINE];
  }

  /** When the write fails, the panic message carries the formatted text and its newline, if it is UTF-8. */
  lemma MacroPanicCarriesText(error: seq<byte>, formatted: seq<byte>)
    requires Valid(formatted)
    ensures PanicMessage(error, formatted + [NEWLINE]) == WRITE_FAILED + error + [COLON, SPACE] + formatted + [NEWLINE]
  {
    AsciiIsValid([NEWLINE]);
    AppendValid(formatted, [NEWLINE]);
    assert TextOrEmpty(formatted + [NEWLINE]) == formatted + [NEWLINE];
  }

  /** A write that takes the whole buffer puts exactly the line on the stream. */
  lemma FullWriteEmitsLine(buf: seq<byte>, count: nat)
    requires count >= |buf|
    ensures Written(buf, Wrote(count)) == buf
  {
  }

  /** With no name at all, `warn!("hi")` writes `": hi\n"`. */
  method WarnWithoutName(store: NameStore, stderr: Stderr, platform: Platform) returns (outcome: Outcome)
    requires store.Model() == Fresh && store.currentExe == None
    requires stderr.log == []
    modifies store, stderr
    ensures stderr.log == Ascii(": hi\n")
    ensures outcome == Returned
  {
    outcome := WarnMacro(store, stderr, Ascii("hi"), platform, Wrote(5));
    assert [COLON, SPACE] + Ascii("hi") + [NEWLINE] == Ascii(": hi\n");
  }

  /** The expected tail of the `warnp!("str", "warnp 1")` line, piece by piece. */
  lemma WarnpStrSuffix()
    ensures Ascii(": str: warnp 1\n") == [COLON, SPACE] + Ascii("str") + [COLON, SPACE] + Ascii("warnp 1") + [NEWLINE]
  {
  }

  /**
   * On a stream that takes the whole buffer, as the tests' stand-in for stderr
   * does, `warnp!(path, fmt)` leaves stderr ending in `": " ++ path ++ ": " ++ fmt ++ "\n"`,
   * whatever the name.
   */
  method WarnpLineEnd(store: NameStore, stderr: Stderr, path: seq<byte>, formatted: seq<byte>) returns (outcome: Outcome)
    modifies store, stderr
    ensures EndsWith(stderr.log, [COLON, SPACE] + path + [COLON, SPACE] + formatted + [NEWLINE])
    ensures outcome == Returned
  {
    ghost var before := stderr.log;
    // Reading the name first only initialises the store, which the macro would do anyway.
    store.InitMutex();
    var count := |Header(store.name, Some(path), Unix)| + |formatted| + 1;
    outcome := WarnpMacro(store, stderr, path, formatted, Unix, Wrote(count));
    ghost var line := Header(store.name, Some(path), Unix) + formatted + [NEWLINE];
    FullWriteEmitsLine(line, count);
    ghost var n := if store.name.Some? then store.name.value else [];
    ghost var suffix := [COLON, SPACE] + path + [COLON, SPACE] + formatted + [NEWLINE];
    assert line == n + suffix;
    assert stderr.log == (before + n) + suffix;
  }
}
