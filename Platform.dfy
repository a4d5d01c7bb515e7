/**
 * The config writers.  write_config_secure_new_0600 (platform/unix.rs),
 * which every Unix build uses, creates a fresh hidden sibling
 * ".aria_move.config.tmp.<pid>.<nanos>" with mode 0600, flushes it, renames
 * it over the target and flushes the directory.  atomic_write_0600
 * (platform/common_unix.rs, platform/temp.rs) does the same with a sequence
 * number from a process-wide counter at the end of the name, and also
 * removes the temp again when the rename fails.
 */
module Platform {
  import opened Common
  import opened Paths
  import opened Fs

  const CONFIG_TMP_PREFIX := ".aria_move.config.tmp."

  /** 0o600. */
  const CONFIG_MODE: nat := 384

  /** AtomicU64::fetch_add(1): the successor, wrapping to 0 after u64::MAX. */
  function WrappingIncrement(x: u64): (r: u64)
    ensures r != x
    ensures x < U64_MAX ==> r == x + 1
  {
    if x == U64_MAX then 0 else x + 1
  }

  /** ".aria_move.config.tmp.<pid>.<nanos>.<seq>". */
  function ConfigTempName(pid: nat, nanos: nat, count: nat): (name: string)
    ensures StartsWith(name, CONFIG_TMP_PREFIX)
  {
    CONFIG_TMP_PREFIX + Decimal(pid) + "." + Decimal(nanos) + "." + Decimal(count)
  }

  /** The temp name next to `target` (the root stands in for a path without a parent). */
  function ConfigTempPath(target: Path, pid: nat, nanos: nat, count: nat): (r: Path)
    ensures FileName(r) == Some(ConfigTempName(pid, nanos, count))
    ensures target != [] ==> Parent(r) == Parent(target)
  {
    WithFileName(target, ConfigTempName(pid, nanos, count))
  }

  /** Names that differ in the sequence number differ, whatever the pid and the clock. */
  lemma ConfigTempNamesDiffer(pid: nat, nanos: nat, s1: nat, s2: nat)
    requires s1 != s2
    ensures ConfigTempName(pid, nanos, s1) != ConfigTempName(pid, nanos, s2)
  {
    var stem := CONFIG_TMP_PREFIX + Decimal(pid) + "." + Decimal(nanos) + ".";
    DecimalInjective(s1, s2);
    assert ConfigTempName(pid, nanos, s1) == stem + Decimal(s1);
    assert ConfigTempName(pid, nanos, s2) == stem + Decimal(s2);
    assert (stem + Decimal(s1))[|stem|..] == Decimal(s1);
    assert (stem + Decimal(s2))[|stem|..] == Decimal(s2);
  }

  /** The process-wide AtomicU64 COUNTER. */
  class TempCounter {
    var next: u64

    constructor()
      ensures next == 0
    {
      next := 0;
    }

    /**
     * tmp_config_sibling_name: uses the counter's value, then advances it by
     * one, wrapping like fetch_add.
     */
    method TmpConfigSiblingName(target: Path, pid: nat, nanos: nat) returns (p: Path)
      modifies this
      ensures p == ConfigTempPath(target, pid, nanos, old(next))
      ensures next == WrappingIncrement(old(next))
    {
      p := ConfigTempPath(target, pid, nanos, next);
      next := WrappingIncrement(next);
    }
  }

  /** The counter value after a call differs from the value the call used. */
  lemma SuccessiveNamesDiffer(target: Path, pid: nat, nanos: nat, count: u64)
    ensures ConfigTempPath(target, pid, nanos, count) != ConfigTempPath(target, pid, nanos, WrappingIncrement(count))
  {
    var next := WrappingIncrement(count);
    ConfigTempNamesDiffer(pid, nanos, count, next);
    assert FileName(ConfigTempPath(target, pid, nanos, count)) != FileName(ConfigTempPath(target, pid, nanos, next));
  }

  /** Two successive calls return different paths, even with the same target, pid and clock. */
  method TwoSiblingNames(c: TempCounter, target: Path, pid: nat, nanos: nat) returns (p1: Path, p2: Path)
    modifies c
    ensures p1 != p2
    ensures c.next == WrappingIncrement(WrappingIncrement(old(c.next)))
  {
    p1 := c.TmpConfigSiblingName(target, pid, nanos);
    p2 := c.TmpConfigSiblingName(target, pid, nanos);
    SuccessiveNamesDiffer(target, pid, nanos, old(c.next));
  }

  // ---------------------------------------------------------------------
  // atomic_write_0600

  function NoParentError(): IoError { Custom(InvalidInput, "config path has no parent") }

  /** The temp file is named only once the parent directory exists. */
  predicate NamesTemp(e: Entries, f: Faults, path: Path) {
    path != [] && CreateDirAllResult(e, f, path[..|path| - 1]).Ok?
  }

  /** What atomic_write_0600 does, given the temp path it names. */
  function AtomicWrite0600Result(e: Entries, f: Faults, path: Path, contents: seq<byte>, tmp: Path, now: nat): WriteOutcome {
    SecureWriteResult(e, f, path, contents, tmp, now, true)
  }

  /** What write_config_secure_new_0600 does, given the temp path it names. */
  function WriteConfigSecureNew0600Result(e: Entries, f: Faults, path: Path, contents: seq<byte>, tmp: Path, now: nat)
    : WriteOutcome
  {
    SecureWriteResult(e, f, path, contents, tmp, now, false)
  }

  /**
   * The steps both writers share; `cleanup` says whether a failed rename
   * removes the temp again (atomic_write_0600) or leaves it
   * (write_config_secure_new_0600).
   */
  function SecureWriteResult(e: Entries, f: Faults, path: Path, contents: seq<byte>, tmp: Path, now: nat,
                             cleanup: bool): WriteOutcome
  {
    if path == [] then WriteOutcome(e, Some(NoParentError()))
    else
      match CreateDirAllResult(e, f, path[..|path| - 1])
      case Err(x) => WriteOutcome(e, Some(x))
      case Ok(e1) => WriteAndPlace(e1, f, path, contents, tmp, now, cleanup)
  }

  /** The steps once the parent exists: write the temp with create_new, then place it. */
  function WriteAndPlace(e1: Entries, f: Faults, path: Path, contents: seq<byte>, tmp: Path, now: nat,
                         cleanup: bool): WriteOutcome
    requires path != []
  {
    var w := CreateNewWriteResult(e1, f, tmp, contents, CONFIG_MODE, now);
    if w.error.Some? then w else PlaceConfig(w.entries, f, path, tmp, cleanup)
  }

  /** Rename the temp over the target (with `cleanup`, removing it again if that fails), then flush the directory. */
  function PlaceConfig(e2: Entries, f: Faults, path: Path, tmp: Path, cleanup: bool): WriteOutcome
    requires path != []
  {
    var parent := path[..|path| - 1];
    match RenameResult(e2, f, tmp, path)
    case Err(x) =>
      var cleaned := if !cleanup then e2 else match RemoveFileResult(e2, f, tmp) case Ok(e4) => e4 case Err(_) => e2;
      WriteOutcome(cleaned, Some(x))
    case Ok(e3) =>
      match OpenError(e3, f, parent)
      case Some(x) => WriteOutcome(e3, Some(x))
      case None => WriteOutcome(e3, SyncError(f, parent))
  }

  /** atomic_write_0600, drawing the temp name from `counter` and the clock. */
  method AtomicWrite0600(fs: FileSystem, counter: TempCounter, path: Path, contents: seq<byte>, pid: nat)
    returns (r: Result<(), IoError>)
    requires fs.Valid()
    modifies fs, counter
    ensures fs.Valid()
    ensures var tmp := ConfigTempPath(path, pid, fs.now, old(counter.next));
      WriteOutcome(fs.entries, if r.Ok? then None else Some(r.error))
      == AtomicWrite0600Result(old(fs.entries), fs.faults, path, contents, tmp, fs.now)
    ensures counter.next == if NamesTemp(old(fs.entries), fs.faults, path) then WrappingIncrement(old(counter.next))
                            else old(counter.next)
  {
    if path == [] {
      return Err(NoParentError());
    }
    var parent := path[..|path| - 1];
    var c := fs.CreateDirAll(parent);
    if c.Err? {
      return Err(c.error);
    }
    var tmp := counter.TmpConfigSiblingName(path, pid, fs.now);
    var w := fs.CreateNewWrite(tmp, contents, CONFIG_MODE);
    if w.Err? {
      return Err(w.error);
    }
    var m := fs.Rename(tmp, path);
    if m.Err? {
      var _ := fs.RemoveFile(tmp);
      return Err(m.error);
    }
    var o := OpenError(fs.entries, fs.faults, parent);
    if o.Some? {
      return Err(o.value);
    }
    var s := SyncError(fs.faults, parent);
    if s.Some? {
      return Err(s.value);
    }
    r := Ok(());
  }

  // ---------------------------------------------------------------------
  // write_config_secure_new_0600

  /** ".aria_move.config.tmp.<pid>.<nanos>": no sequence number. */
  function SecureTempName(pid: nat, nanos: nat): (name: string)
    ensures StartsWith(name, CONFIG_TMP_PREFIX)
  {
    CONFIG_TMP_PREFIX + Decimal(pid) + "." + Decimal(nanos)
  }

  /** The unix.rs temp path, next to `target`. */
  function SecureTempPath(target: Path, pid: nat, nanos: nat): (r: Path)
    ensures FileName(r) == Some(SecureTempName(pid, nanos))
    ensures target != [] ==> Parent(r) == Parent(target)
  {
    WithFileName(target, SecureTempName(pid, nanos))
  }

  /** write_config_secure_new_0600, naming the temp from the pid and the clock. */
  method WriteConfigSecureNew0600(fs: FileSystem, path: Path, contents: seq<byte>, pid: nat)
    returns (r: Result<(), IoError>)
    requires fs.Valid()
    modifies fs
    ensures fs.Valid()
    ensures WriteOutcome(fs.entries, if r.Ok? then None else Some(r.error))
      == WriteConfigSecureNew0600Result(old(fs.entries), fs.faults, path, contents, SecureTempPath(path, pid, fs.now), fs.now)
  {
    if path == [] {
      return Err(NoParentError());
    }
    var parent := path[..|path| - 1];
    var c := fs.CreateDirAll(parent);
    if c.Err? {
      return Err(c.error);
    }
    var tmp := SecureTempPath(path, pid, fs.now);
    var w := fs.CreateNewWrite(tmp, contents, CONFIG_MODE);
    if w.Err? {
      return Err(w.error);
    }
    var m := fs.Rename(tmp, path);
    if m.Err? {
      return Err(m.error);
    }
    var o := OpenError(fs.entries, fs.faults, parent);
    if o.Some? {
      return Err(o.value);
    }
    var s := SyncError(fs.faults, parent);
    if s.Some? {
      return Err(s.value);
    }
    r := Ok(());
  }

  // ---------------------------------------------------------------------
  // What the writers guarantee (each lemma holds for both unless it names one)

  /** A path without a parent is refused as invalid input before anything happens. */
  lemma NoParentRefused(e: Entries, f: Faults, contents: seq<byte>, tmp: Path, now: nat, cleanup: bool)
    ensures SecureWriteResult(e, f, [], contents, tmp, now, cleanup) == WriteOutcome(e, Some(NoParentError()))
    ensures NoParentError().kind == InvalidInput
  {
  }

  /**
   * On success the target is a regular file holding exactly `contents` with
   * mode 0600, whatever it held before, and the temp name is gone; the only
   * other change is the parent directories create_dir_all made.
   */
  lemma AtomicWriteSuccess(e: Entries, f: Faults, path: Path, contents: seq<byte>, tmp: Path, now: nat, cleanup: bool)
    requires WellFormed(e) && tmp != path
    requires SecureWriteResult(e, f, path, contents, tmp, now, cleanup).error.None?
    ensures NamesTemp(e, f, path)
    ensures SecureWriteResult(e, f, path, contents, tmp, now, cleanup).entries
      == CreateDirAllResult(e, f, path[..|path| - 1]).value[path := File(contents, CONFIG_MODE, now, now)]
    ensures tmp !in CreateDirAllResult(e, f, path[..|path| - 1]).value
    ensures tmp !in SecureWriteResult(e, f, path, contents, tmp, now, cleanup).entries
  {
    var e1 := CreateDirAllResult(e, f, path[..|path| - 1]).value;
    WellFormedCreateDirAll(e, f, path[..|path| - 1]);
    var w := CreateNewWriteResult(e1, f, tmp, contents, CONFIG_MODE, now);
    WellFormedCreateNewWrite(e1, f, tmp, contents, CONFIG_MODE, now);
    PlaceConfigShape(e1, w.entries, f, path, tmp, cleanup);
  }

  /** An existing temp name is never overwritten: create_new fails and nothing past create_dir_all changes. */
  lemma ExistingTempKept(e: Entries, f: Faults, path: Path, contents: seq<byte>, tmp: Path, now: nat, cleanup: bool)
    requires NamesTemp(e, f, path) && tmp in CreateDirAllResult(e, f, path[..|path| - 1]).value
    ensures SecureWriteResult(e, f, path, contents, tmp, now, cleanup)
      == WriteOutcome(CreateDirAllResult(e, f, path[..|path| - 1]).value, Some(OsError(EEXIST)))
  {
  }

  /**
   * atomic_write_0600: a failed rename returns its own error and removes
   * the temp again; the target is as it was.
   */
  lemma RenameFailureRemovesTemp(e: Entries, f: Faults, path: Path, contents: seq<byte>, tmp: Path, now: nat)
    requires NamesTemp(e, f, path) && RemoveFileOp(tmp) !in f
    requires var e1 := CreateDirAllResult(e, f, path[..|path| - 1]).value;
      var w := CreateNewWriteResult(e1, f, tmp, contents, CONFIG_MODE, now);
      w.error.None? && RenameError(w.entries, f, tmp, path).Some?
    ensures var e1 := CreateDirAllResult(e, f, path[..|path| - 1]).value;
      var w := CreateNewWriteResult(e1, f, tmp, contents, CONFIG_MODE, now);
      AtomicWrite0600Result(e, f, path, contents, tmp, now) == WriteOutcome(e1, RenameError(w.entries, f, tmp, path))
  {
    var e1 := CreateDirAllResult(e, f, path[..|path| - 1]).value;
    var w := CreateNewWriteResult(e1, f, tmp, contents, CONFIG_MODE, now);
    assert w.entries - {tmp} == e1;
  }

  /**
   * write_config_secure_new_0600: a failed rename returns its own error and
   * leaves the full temp behind, next to an unchanged target.
   */
  lemma RenameFailureKeepsTemp(e: Entries, f: Faults, path: Path, contents: seq<byte>, tmp: Path, now: nat)
    requires NamesTemp(e, f, path)
    requires var e1 := CreateDirAllResult(e, f, path[..|path| - 1]).value;
      var w := CreateNewWriteResult(e1, f, tmp, contents, CONFIG_MODE, now);
      w.error.None? && RenameError(w.entries, f, tmp, path).Some?
    ensures var e1 := CreateDirAllResult(e, f, path[..|path| - 1]).value;
      var w := CreateNewWriteResult(e1, f, tmp, contents, CONFIG_MODE, now);
      var o := WriteConfigSecureNew0600Result(e, f, path, contents, tmp, now);
      o == WriteOutcome(e1[tmp := File(contents, CONFIG_MODE, now, now)], RenameError(w.entries, f, tmp, path))
  {
  }

  /**
   * A temp left by a failed write_config_secure_new_0600 makes the next
   * call in the same nanosecond fail with EEXIST, since the name has no
   * sequence number.
   */
  lemma LeftTempBlocksRetry(e: Entries, f: Faults, path: Path, data1: seq<byte>, data2: seq<byte>, pid: nat, now: nat)
    requires NamesTemp(e, f, path)
    requires var tmp := SecureTempPath(path, pid, now);
      var e1 := CreateDirAllResult(e, f, path[..|path| - 1]).value;
      var w := CreateNewWriteResult(e1, f, tmp, data1, CONFIG_MODE, now);
      w.error.None? && RenameError(w.entries, f, tmp, path).Some?
    requires NamesTemp(WriteConfigSecureNew0600Result(e, f, path, data1, SecureTempPath(path, pid, now), now).entries, f, path)
    ensures var tmp := SecureTempPath(path, pid, now);
      var o1 := WriteConfigSecureNew0600Result(e, f, path, data1, tmp, now);
      o1.error.Some? && tmp in o1.entries
      && WriteConfigSecureNew0600Result(o1.entries, f, path, data2, tmp, now).error == Some(OsError(EEXIST))
  {
    var tmp := SecureTempPath(path, pid, now);
    RenameFailureKeepsTemp(e, f, path, data1, tmp, now);
    var o1 := WriteConfigSecureNew0600Result(e, f, path, data1, tmp, now);
    ExistingTempKept(o1.entries, f, path, data2, tmp, now, false);
  }

  /**
   * A failed write or flush of the temp returns at once and leaves the
   * temp behind.
   */
  lemma WriteFailureLeavesTemp(e: Entries, f: Faults, path: Path, contents: seq<byte>, tmp: Path, now: nat, cleanup: bool)
    requires NamesTemp(e, f, path)
    requires var e1 := CreateDirAllResult(e, f, path[..|path| - 1]).value;
      tmp !in e1 && ParentIsDir(e1, tmp) && CreateOp(tmp) !in f && (WriteOp(tmp) in f || SyncOp(tmp) in f)
    ensures var o := SecureWriteResult(e, f, path, contents, tmp, now, cleanup);
      o.error.Some? && tmp in o.entries
  {
  }

  /**
   * Past create_dir_all the entries end in one of four states: nothing new,
   * the temp left behind empty or full, or the target replaced.
   */
  lemma AtomicWriteShape(e: Entries, f: Faults, path: Path, contents: seq<byte>, tmp: Path, now: nat, cleanup: bool)
    requires WellFormed(e) && tmp != path && NamesTemp(e, f, path)
    ensures var e1 := CreateDirAllResult(e, f, path[..|path| - 1]).value;
      var o := SecureWriteResult(e, f, path, contents, tmp, now, cleanup);
      o.entries == e1 || (tmp !in e1 && (o.entries == e1[tmp := File([], CONFIG_MODE, now, now)]
                                         || o.entries == e1[tmp := File(contents, CONFIG_MODE, now, now)]))
      || o.entries == e1[path := File(contents, CONFIG_MODE, now, now)]
  {
    WellFormedCreateDirAll(e, f, path[..|path| - 1]);
    WriteAndPlaceShape(CreateDirAllResult(e, f, path[..|path| - 1]).value, f, path, contents, tmp, now, cleanup);
  }

  lemma WriteAndPlaceShape(e1: Entries, f: Faults, path: Path, contents: seq<byte>, tmp: Path, now: nat, cleanup: bool)
    requires WellFormed(e1) && tmp != path && path != []
    ensures var o := WriteAndPlace(e1, f, path, contents, tmp, now, cleanup);
      o.entries == e1 || (tmp !in e1 && (o.entries == e1[tmp := File([], CONFIG_MODE, now, now)]
                                         || o.entries == e1[tmp := File(contents, CONFIG_MODE, now, now)]))
      || o.entries == e1[path := File(contents, CONFIG_MODE, now, now)]
  {
    var w := CreateNewWriteResult(e1, f, tmp, contents, CONFIG_MODE, now);
    if w.error.None? {
      WellFormedCreateNewWrite(e1, f, tmp, contents, CONFIG_MODE, now);
      PlaceConfigShape(e1, w.entries, f, path, tmp, cleanup);
    }
  }

  lemma PlaceConfigShape(e1: Entries, e2: Entries, f: Faults, path: Path, tmp: Path, cleanup: bool)
    requires WellFormed(e2) && tmp != path && path != [] && tmp !in e1 && tmp in e2 && e2 == e1[tmp := e2[tmp]]
    requires e2[tmp].File?
    ensures var o := PlaceConfig(e2, f, path, tmp, cleanup);
      o.entries == e1 || o.entries == e2 || o.entries == e1[path := e2[tmp]]
    ensures var o := PlaceConfig(e2, f, path, tmp, cleanup);
      o.error.None? ==> o.entries == e1[path := e2[tmp]]
  {
    assert e2 - {tmp} == e1;
    if RenameResult(e2, f, tmp, path).Ok? {
      RenameFileInto(e2, f, tmp, path);
    }
  }

  /**
   * Entries other than the target and the temp are never changed or
   * removed, and the target changes only by receiving the new contents.
   */
  lemma AtomicWriteFrame(e: Entries, f: Faults, path: Path, contents: seq<byte>, tmp: Path, now: nat, cleanup: bool)
    requires WellFormed(e) && tmp != path
    ensures var o := SecureWriteResult(e, f, path, contents, tmp, now, cleanup);
      forall k :: k in e && k != path && k != tmp ==> k in o.entries && o.entries[k] == e[k]
    ensures var o := SecureWriteResult(e, f, path, contents, tmp, now, cleanup);
      path in e && (path !in o.entries || o.entries[path] != e[path]) ==>
        o.entries == CreateDirAllResult(e, f, path[..|path| - 1]).value[path := File(contents, CONFIG_MODE, now, now)]
  {
    if NamesTemp(e, f, path) {
      AtomicWriteShape(e, f, path, contents, tmp, now, cleanup);
    }
  }
}
