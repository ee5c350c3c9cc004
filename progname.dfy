/**
 * The process-wide program-name store of `src/progname.rs`.
 *
 * The store is a once-initialised cell holding an optional name. The `Store`
 * value and the functions over it say what one operation does; `Replay` and
 * `Snapshots` run a sequential history of operations, which is what the
 * mutex makes of concurrent callers. `NameStore` is the cell itself, with
 * methods that update it in place and are proved against those functions.
 */
module ProgName {
  import opened Bytes
  import opened Utf8
  import opened PathName

  /** `get_exec_name`: the file name of the executable path the OS reported, if any. */
  function ExecName(currentExe: Option<seq<byte>>): (r: Option<seq<byte>>)
    ensures currentExe.None? ==> r.None?
    ensures r.Some? ==> IsFileName(r.value) && r.value in Segments(currentExe.value)
  {
    match currentExe
    case None => None
    case Some(p) => FileName(p)
  }

  /** The name `setprogname(path)` stores: the file name of `path`, or `path` itself when it has none. */
  function StoredName(path: seq<byte>): (name: seq<byte>)
    ensures name == path || (IsFileName(name) && name in Segments(path))
    ensures FileName(path).None? ==> name == path
  {
    match FileName(path)
    case Some(n) => n
    case None => path
  }

  /** `getprogname`: the name as text, or empty when there is none or it is not UTF-8. */
  function ProgNameText(snapshot: Option<seq<byte>>): (text: seq<byte>)
    ensures Valid(text)
    ensures snapshot.Some? && Valid(snapshot.value) ==> text == snapshot.value
    ensures text != [] ==> snapshot == Some(text)
  {
    match snapshot
    case None => []
    case Some(n) => TextOrEmpty(n)
  }

  /** A path with directories stores only its last component. */
  lemma StoredNameOfPath(dir: seq<byte>, name: seq<byte>)
    requires IsFileName(name)
    ensures StoredName(dir + [SLASH] + name) == name
  {
    FileNameOfChild(dir, name);
  }

  /** A separator-free argument is stored verbatim, even `""`, `.` and `..`. */
  lemma StoredNameOfSeparatorFree(name: seq<byte>)
    requires SLASH !in name
    ensures StoredName(name) == name
  {
    SegmentsOfPiece(name);
  }

  /** The abstract state of the store: whether it was initialised, and the name it holds. */
  datatype Store = Store(initialized: bool, name: Option<seq<byte>>)

  /** The state before any access. */
  const Fresh := Store(false, None)

  /** `init_mutex`: the first access seeds the name from the executable; later ones change nothing. */
  function Initialize(s: Store, currentExe: Option<seq<byte>>): (r: Store)
    ensures r.initialized
    ensures s.initialized ==> r == s
    ensures !s.initialized && r.name.Some? ==> IsFileName(r.name.value)
  {
    if s.initialized then s else Store(true, ExecName(currentExe))
  }

  /**
   * Initialisation runs once: after it, initialising again changes nothing,
   * whatever the executable; the first one leaves the seed, or keeps a name
   * already there.
   */
  lemma InitializeOnce(s: Store, e1: Option<seq<byte>>, e2: Option<seq<byte>>)
    ensures Initialize(Initialize(s, e1), e2) == Initialize(s, e1)
    ensures Initialize(s, e1).initialized
    ensures Initialize(s, e1).name == if s.initialized then s.name else ExecName(e1)
  {
  }

  /** One call on the store: `setprogname(path)` or `getprogname_arc()`. */
  datatype Op = Set(path: seq<byte>) | Get

  /** The state after one call, which always initialises first. */
  function Step(s: Store, op: Op, currentExe: Option<seq<byte>>): (r: Store)
    ensures r.initialized
    ensures op.Set? ==> r.name == Some(StoredName(op.path))
    ensures op.Get? && s.initialized ==> r == s
  {
    var t := Initialize(s, currentExe);
    match op
    case Set(p) => t.(name := Some(StoredName(p)))
    case Get => t
  }

  /** The names the `Set` calls of a history store. */
  function SetNames(ops: seq<Op>): set<Option<seq<byte>>>
  {
    set i | 0 <= i < |ops| && ops[i].Set? :: Some(StoredName(ops[i].path))
  }

  /**
   * The state after a sequence of calls, in the order the lock admitted them.
   * The name it ends with is the seed or one that some `Set` stored, never
   * anything else.
   */
  function Replay(s: Store, ops: seq<Op>, currentExe: Option<seq<byte>>): (r: Store)
    decreases |ops|
    ensures ops != [] ==> r.initialized
    ensures ops == [] ==> r == s
    ensures ops != [] ==> r.name == Initialize(s, currentExe).name || r.name in SetNames(ops)
  {
    if ops == [] then s
    else Step(Replay(s, ops[..|ops| - 1], currentExe), ops[|ops| - 1], currentExe)
  }

  /**
   * The snapshots the `Get` calls of a history return, in order: at most one
   * per call, each the seed or a name that some `Set` stored.
   */
  function Snapshots(s: Store, ops: seq<Op>, currentExe: Option<seq<byte>>): (r: seq<Option<seq<byte>>>)
    decreases |ops|
    ensures |r| <= |ops|
    ensures forall i :: 0 <= i < |r| ==> r[i] == Initialize(s, currentExe).name || r[i] in SetNames(ops)
  {
    if ops == [] then []
    else
      var before := Snapshots(s, ops[..|ops| - 1], currentExe);
      if ops[|ops| - 1].Get? then before + [Replay(s, ops, currentExe).name] else before
  }

  /** The argument of the last `Set` of a history. */
  function LastSetPath(ops: seq<Op>): (r: Option<seq<byte>>)
    ensures r.Some? ==> Set(r.value) in ops
    ensures r.None? ==> forall i :: 0 <= i < |ops| ==> ops[i].Get?
    decreases |ops|
  {
    if ops == [] then None
    else if ops[|ops| - 1].Set? then Some(ops[|ops| - 1].path)
    else
      var r := LastSetPath(ops[..|ops| - 1]);
      assert forall i :: 0 <= i < |ops| - 1 ==> ops[..|ops| - 1][i] == ops[i];
      r
  }

  /** The name a history leaves: that of its last `Set`, or the seed when it has none. */
  function Expected(s: Store, ops: seq<Op>, currentExe: Option<seq<byte>>): Option<seq<byte>>
  {
    match LastSetPath(ops)
    case Some(p) => Some(StoredName(p))
    case None => Initialize(s, currentExe).name
  }

  /** Last writer wins: after a non-empty history the store is initialised and holds the last set name. */
  lemma {:induction false} LastWriterWins(s: Store, ops: seq<Op>, currentExe: Option<seq<byte>>)
    requires ops != []
    ensures Replay(s, ops, currentExe) == Store(true, Expected(s, ops, currentExe))
    decreases |ops|
  {
    var init := ops[..|ops| - 1];
    if init != [] && ops[|ops| - 1].Get? {
      LastWriterWins(s, init, currentExe);
    }
  }

  /** Every snapshot is the name of the last `Set` before it (or the seed); a later `Set` does not reach it. */
  lemma ReadSeesLatestSet(s: Store, ops: seq<Op>, currentExe: Option<seq<byte>>)
    ensures var snaps := Snapshots(s, ops + [Get], currentExe);
      |snaps| > 0 && snaps[|snaps| - 1] == Expected(s, ops, currentExe)
  {
    var all := ops + [Get];
    assert all[..|all| - 1] == ops;
    LastWriterWins(s, all, currentExe);
  }

  /** Two reads with no set between them return the same value. */
  lemma RepeatedReadsAgree(s: Store, ops: seq<Op>, currentExe: Option<seq<byte>>)
    ensures var snaps := Snapshots(s, ops + [Get, Get], currentExe);
      |snaps| >= 2 && snaps[|snaps| - 1] == snaps[|snaps| - 2] == Expected(s, ops, currentExe)
  {
    ReadSeesLatestSet(s, ops, currentExe);
    ReadSeesLatestSet(s, ops + [Get], currentExe);
    assert (ops + [Get]) + [Get] == ops + [Get, Get];
    assert LastSetPath(ops + [Get]) == LastSetPath(ops) by {
      assert (ops + [Get])[..|ops|] == ops;
    }
  }

  /** Snapshot isolation: calls made after some snapshots were taken leave those snapshots as they were. */
  lemma {:induction false} SnapshotsSurvive(s: Store, ops: seq<Op>, later: seq<Op>, currentExe: Option<seq<byte>>)
    ensures Snapshots(s, ops, currentExe) <= Snapshots(s, ops + later, currentExe)
    decreases |later|
  {
    if later == [] {
      assert ops + later == ops;
    } else {
      var shorter := later[..|later| - 1];
      SnapshotsSurvive(s, ops, shorter, currentExe);
      assert (ops + later)[..|ops + later| - 1] == ops + shorter;
    }
  }

  /** Initialisation happens at most once: once the store is initialised, the executable no longer matters. */
  lemma {:induction false} SeedUsedOnce(s: Store, ops: seq<Op>, e1: Option<seq<byte>>, e2: Option<seq<byte>>)
    requires s.initialized
    ensures Replay(s, ops, e1) == Replay(s, ops, e2)
    ensures Replay(s, ops, e1).initialized
    decreases |ops|
  {
    if ops != [] {
      SeedUsedOnce(s, ops[..|ops| - 1], e1, e2);
    }
  }

  /** The process-wide cell behind `PROGNAME`, accessed under its mutex. */
  class NameStore {
    /** What `env::current_exe` reports in this process. */
    const currentExe: Option<seq<byte>>
    var initialized: bool
    var name: Option<seq<byte>>

    function Model(): Store
      reads this
    {
      Store(initialized, name)
    }

    /** The cell at process start: `ONCE` not yet run. */
    constructor (currentExe: Option<seq<byte>>)
      ensures this.currentExe == currentExe && Model() == Fresh
    {
      this.currentExe := currentExe;
      initialized := false;
      name := None;
    }

    /** `init_mutex`. */
    method InitMutex()
      modifies this
      ensures Model() == Initialize(old(Model()), currentExe)
    {
      if !initialized {
        name := ExecName(currentExe);
        initialized := true;
      }
    }

    /** `setprogname`. */
    method SetProgName(path: seq<byte>)
      modifies this
      ensures Model() == Step(old(Model()), Set(path), currentExe)
      ensures initialized && name == Some(StoredName(path))
    {
      InitMutex();
      var file := FileName(path);
      var stored := if file.Some? then file.value else path;
      name := Some(stored);
    }

    /** `getprogname_arc`: a snapshot of the current name. */
    method GetProgNameArc() returns (snapshot: Option<seq<byte>>)
      modifies this
      ensures Model() == Step(old(Model()), Get, currentExe)
      ensures snapshot == name
    {
      InitMutex();
      snapshot := name;
    }

    /** `getprogname`: the current name as text, or empty. */
    method GetProgName() returns (text: seq<byte>)
      modifies this
      ensures Model() == Step(old(Model()), Get, currentExe)
      ensures text == ProgNameText(name)
    {
      var snapshot := GetProgNameArc();
      text := if snapshot.Some? && Valid(snapshot.value) then snapshot.value else [];
    }
  }

  /** Two sets in a row of separator-free text names: each read sees the last set, and reading twice gives the same value. */
  method Basic(store: NameStore, first: seq<byte>, second: seq<byte>) returns (r1: seq<byte>, r2: seq<byte>, r3: seq<byte>)
    requires SLASH !in first && Valid(first)
    requires SLASH !in second && Valid(second)
    modifies store
    ensures r1 == r2 == first
    ensures r3 == second
    ensures store.name == Some(second)
  {
    StoredNameOfSeparatorFree(first);
    StoredNameOfSeparatorFree(second);
    store.SetProgName(first);
    r1 := store.GetProgName();
    r2 := store.GetProgName();
    store.SetProgName(second);
    r3 := store.GetProgName();
  }

  /** A snapshot taken before a later set keeps the old name; a fresh read sees the new one. */
  method OldInUse(store: NameStore, old_name: seq<byte>, new_name: seq<byte>) returns (held: Option<seq<byte>>, now: seq<byte>)
    requires SLASH !in old_name
    requires SLASH !in new_name && Valid(new_name)
    modifies store
    ensures held == Some(old_name)
    ensures now == new_name
  {
    StoredNameOfSeparatorFree(old_name);
    StoredNameOfSeparatorFree(new_name);
    store.SetProgName(old_name);
    held := store.GetProgNameArc();
    store.SetProgName(new_name);
    now := store.GetProgName();
  }

  /** Setting `dir/name` makes `getprogname` return `name`. */
  method Components(store: NameStore, dir: seq<byte>, name: seq<byte>) returns (now: seq<byte>)
    requires IsFileName(name) && Valid(name)
    modifies store
    ensures now == name
  {
    StoredNameOfPath(dir, name);
    store.SetProgName(dir + [SLASH] + name);
    now := store.GetProgName();
  }

  /** The path of the `components` test is a directory, a separator and the file name `command`. */
  lemma CommandPath()
    ensures Ascii("/path/to/a/command") == Ascii("/path/to/a") + [SLASH] + Ascii("command")
    ensures IsFileName(Ascii("command")) && Valid(Ascii("command"))
  {
    AsciiText("command");
  }
}
