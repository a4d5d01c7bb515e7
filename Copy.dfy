/**
 * safe_copy_and_rename: the source is copied to a temporary name in the
 * destination's own directory, flushed, and renamed over the destination,
 * so the destination never names a partial copy; then the directory is
 * flushed.  safe_copy_and_rename_with_metadata optionally copies the
 * source's times and permission bits onto the result.
 */
module Copy {
  import opened Common
  import opened Paths
  import opened Fs
  import opened Helpers
  import opened Errors

  const TMP_PREFIX := ".aria_move.tmp."

  /** Duration::as_millis of the clock's nanoseconds since the epoch. */
  function Millis(nanos: nat): nat { nanos / 1_000_000 }

  /** ".aria_move.tmp.<pid>.<millis>". */
  function TempName(pid: nat, millis: nat): (name: string)
    ensures StartsWith(name, TMP_PREFIX)
  {
    TMP_PREFIX + Decimal(pid) + "." + Decimal(millis)
  }

  /** The temporary file lies next to the destination. */
  function TempPath(dest: Path, pid: nat, nanos: nat): (r: Path)
    requires dest != []
    ensures Parent(r) == Parent(dest) && FileName(r) == Some(TempName(pid, Millis(nanos)))
  {
    WithFileName(dest, TempName(pid, Millis(nanos)))
  }

  /**
   * The error of a failed step, given its action through
   * lock::io_error_with_help as written (the OS code appears twice).
   */
  function StepError(action: string, p: Path, x: IoError): MoveError {
    Io(action, LockIoErrorWithHelpAsWritten(action, p, x))
  }

  /** Opening `p` and calling sync_all on it, each failure with its own action. */
  function SyncStep(e: Entries, f: Faults, p: Path, openAction: string, syncAction: string): Option<MoveError> {
    match OpenError(e, f, p)
    case Some(x) => Some(StepError(openAction, p, x))
    case None =>
      match SyncError(f, p)
      case Some(x) => Some(StepError(syncAction, p, x))
      case None => None
  }

  const CREATE_DIR := "create destination directory"
  const COPY_TEMP := "copy to temporary file"
  const OPEN_TEMP := "open temporary file for sync"
  const SYNC_TEMP := "fsync temporary file"
  const RENAME_TEMP := "rename temporary file to destination"
  const OPEN_DIR := "open destination directory for sync"
  const SYNC_DIR := "fsync destination directory"

  /** What safe_copy_and_rename does to the entries, step by step. */
  function SafeCopyAndRenameOutcome(e: Entries, f: Faults, src: Path, dest: Path, pid: nat, now: nat): Outcome<()> {
    if dest == [] then Outcome(e, Err(NoParent(dest)))
    else
      var dir := dest[..|dest| - 1];
      match CreateDirAllResult(e, f, dir)
      case Err(x) => Outcome(e, Err(StepError(CREATE_DIR, dir, x)))
      case Ok(e1) => CopyToTemp(e1, f, src, dest, TempPath(dest, pid, now), now)
  }

  /** The steps after the destination directory exists: copy to `tmp` and flush it. */
  function CopyToTemp(e1: Entries, f: Faults, src: Path, dest: Path, tmp: Path, now: nat): Outcome<()>
    requires dest != []
  {
    var c := CopyNewResult(e1, f, src, tmp, now);
    if c.error.Some? then Outcome(c.entries, Err(StepError(COPY_TEMP, tmp, c.error.value)))
    else
      match SyncStep(c.entries, f, tmp, OPEN_TEMP, SYNC_TEMP)
      case Some(err) => Outcome(c.entries, Err(err))
      case None => PlaceTemp(c.entries, f, tmp, dest)
  }

  /** The last steps: rename `tmp` over `dest` and flush the directory. */
  function PlaceTemp(e2: Entries, f: Faults, tmp: Path, dest: Path): Outcome<()>
    requires dest != []
  {
    match RenameResult(e2, f, tmp, dest)
    case Err(x) => Outcome(e2, Err(StepError(RENAME_TEMP, dest, x)))
    case Ok(e3) =>
      match SyncStep(e3, f, dest[..|dest| - 1], OPEN_DIR, SYNC_DIR)
      case Some(err) => Outcome(e3, Err(err))
      case None => Outcome(e3, Ok(()))
  }

  method SafeCopyAndRename(fs: FileSystem, src: Path, dest: Path, pid: nat) returns (r: Result<(), MoveError>)
    requires fs.Valid()
    modifies fs
    ensures fs.Valid()
    ensures Outcome(fs.entries, r) == SafeCopyAndRenameOutcome(old(fs.entries), fs.faults, src, dest, pid, fs.now)
  {
    if dest == [] {
      return Err(NoParent(dest));
    }
    var dir := dest[..|dest| - 1];
    var c := fs.CreateDirAll(dir);
    if c.Err? {
      return Err(StepError(CREATE_DIR, dir, c.error));
    }
    var tmp := TempPath(dest, pid, fs.now);
    var n := fs.CopyNew(src, tmp);
    if n.Err? {
      return Err(StepError(COPY_TEMP, tmp, n.error));
    }
    var s := SyncStep(fs.entries, fs.faults, tmp, OPEN_TEMP, SYNC_TEMP);
    if s.Some? {
      return Err(s.value);
    }
    var m := fs.Rename(tmp, dest);
    if m.Err? {
      return Err(StepError(RENAME_TEMP, dest, m.error));
    }
    s := SyncStep(fs.entries, fs.faults, dir, OPEN_DIR, SYNC_DIR);
    if s.Some? {
      return Err(s.value);
    }
    r := Ok(());
  }

  /** A successful final step moves the temporary file onto the destination. */
  lemma PlaceTempSuccess(e2: Entries, f: Faults, tmp: Path, dest: Path)
    requires WellFormed(e2) && dest != [] && tmp in e2 && !e2[tmp].Dir?
    ensures var o := PlaceTemp(e2, f, tmp, dest);
      o.result.Ok? ==> o.entries == if tmp == dest then e2 else (e2 - {tmp})[dest := e2[tmp]]
    ensures var o := PlaceTemp(e2, f, tmp, dest);
      o.result.Err? ==> o.entries == e2 || (tmp != dest && o.entries == (e2 - {tmp})[dest := e2[tmp]])
  {
    if tmp != dest && RenameResult(e2, f, tmp, dest).Ok? {
      RenameFileInto(e2, f, tmp, dest);
    }
  }

  /** The copy steps leave either the temporary file or nothing new, and succeed only with the source's bytes. */
  lemma CopyToTempResult(e1: Entries, f: Faults, src: Path, dest: Path, tmp: Path, now: nat)
    requires WellFormed(e1) && dest != []
    ensures var o := CopyToTemp(e1, f, src, dest, tmp, now);
      o.result.Ok? ==>
        IsFile(e1, f, src) && tmp !in e1
        && o.entries == e1[dest := File(Stat(e1, f, src).value.data, FILE_MODE, now, now)]
    ensures var o := CopyToTemp(e1, f, src, dest, tmp, now);
      forall k :: k in e1 && k != dest ==> k in o.entries && o.entries[k] == e1[k]
    ensures var o := CopyToTemp(e1, f, src, dest, tmp, now);
      forall k :: k in o.entries && k !in e1 ==> k == dest || k == tmp
    ensures tmp in e1 ==> CopyToTemp(e1, f, src, dest, tmp, now) == Outcome(e1, Err(StepError(COPY_TEMP, tmp, CopyNewResult(e1, f, src, tmp, now).error.value)))
  {
    var c := CopyNewResult(e1, f, src, tmp, now);
    WellFormedCopyNew(e1, f, src, tmp, now);
    if c.error.None? && SyncStep(c.entries, f, tmp, OPEN_TEMP, SYNC_TEMP).None? {
      PlaceTempSuccess(c.entries, f, tmp, dest);
      assert c.entries - {tmp} == e1;
    } else if c.entries != e1 {
      assert tmp !in e1;
    }
  }

  /**
   * On success the source was a regular file (or a link to one), the
   * destination's directories exist and the destination holds a fresh file
   * with the source's bytes; nothing else changed, and the temporary name is
   * gone unless it is the destination's own name.
   */
  lemma SafeCopySuccess(e: Entries, f: Faults, src: Path, dest: Path, pid: nat, now: nat)
    requires WellFormed(e)
    requires SafeCopyAndRenameOutcome(e, f, src, dest, pid, now).result.Ok?
    ensures dest != [] && CreateDirAllResult(e, f, dest[..|dest| - 1]).Ok? && IsFile(e, f, src)
    ensures SafeCopyAndRenameOutcome(e, f, src, dest, pid, now).entries
      == CreateDirAllResult(e, f, dest[..|dest| - 1]).value[dest := File(Stat(e, f, src).value.data, FILE_MODE, now, now)]
    ensures TempPath(dest, pid, now) != dest ==>
      TempPath(dest, pid, now) !in SafeCopyAndRenameOutcome(e, f, src, dest, pid, now).entries
  {
    var dir := dest[..|dest| - 1];
    var e1 := CreateDirAllResult(e, f, dir).value;
    WellFormedCreateDirAll(e, f, dir);
    StatAddedDirs(e, e1, f, src);
    CopyToTempResult(e1, f, src, dest, TempPath(dest, pid, now), now);
  }

  /**
   * Whatever the outcome, every entry other than the destination is as it
   * was (so the source is never modified or removed), and the only new names
   * are the destination, the temporary file and directories on the way to
   * the destination.
   */
  lemma SafeCopyFrame(e: Entries, f: Faults, src: Path, dest: Path, pid: nat, now: nat)
    requires WellFormed(e) && dest != []
    ensures var o := SafeCopyAndRenameOutcome(e, f, src, dest, pid, now);
      forall k :: k in e && k != dest ==> k in o.entries && o.entries[k] == e[k]
    ensures var o := SafeCopyAndRenameOutcome(e, f, src, dest, pid, now);
      forall k :: k in o.entries && k !in e ==>
        k == dest || k == TempPath(dest, pid, now) || (k <= dest[..|dest| - 1] && o.entries[k].Dir?)
  {
    var dir := dest[..|dest| - 1];
    if CreateDirAllResult(e, f, dir).Ok? {
      var e1 := CreateDirAllResult(e, f, dir).value;
      WellFormedCreateDirAll(e, f, dir);
      CopyToTempResult(e1, f, src, dest, TempPath(dest, pid, now), now);
    }
  }

  /** An existing temporary name is never overwritten: the copy fails and only directories were added. */
  lemma SafeCopyTempTaken(e: Entries, f: Faults, src: Path, dest: Path, pid: nat, now: nat)
    requires dest != [] && TempPath(dest, pid, now) in e
    ensures SafeCopyAndRenameOutcome(e, f, src, dest, pid, now).result.Err?
    ensures AddsOnlyDirs(e, SafeCopyAndRenameOutcome(e, f, src, dest, pid, now).entries)
  {
    var dir := dest[..|dest| - 1];
    if CreateDirAllResult(e, f, dir).Ok? {
      var e1 := CreateDirAllResult(e, f, dir).value;
      assert TempPath(dest, pid, now) in e1;
    }
  }

  // ---------------------------------------------------------------------
  // metadata::preserve_metadata and safe_copy_and_rename_with_metadata

  /** The permission bits metadata reports; the model keeps none for special files. */
  function ModeOf(m: Entry): Option<nat> {
    match m
    case File(_, mode, _, _) => Some(mode)
    case Dir(mode) => Some(mode)
    case _ => None
  }

  /**
   * preserve_metadata: the source's access and modification times, then its
   * permission bits (mode & 0o777), each applied to `dest` at best effort.
   */
  function PreserveMetadata(e: Entries, f: Faults, dest: Path, m: Entry): Entries {
    var e1 :=
      if m.File? then
        match SetTimesResult(e, f, dest, m.atime, m.mtime)
        case Ok(x) => x
        case Err(_) => e
      else e;
    match ModeOf(m)
    case Some(mode) =>
      (match SetPermsResult(e1, f, dest, mode % 512)
       case Ok(x) => x
       case Err(_) => e1)
    case None => e1
  }

  /** A regular destination gets the source's times and permission bits and keeps its bytes. */
  lemma PreserveMetadataOnFile(e: Entries, f: Faults, dest: Path, m: Entry)
    requires dest in e && e[dest].File? && m.File?
    requires SetTimesOp(dest) !in f && SetPermsOp(dest) !in f
    ensures PreserveMetadata(e, f, dest, m) == e[dest := File(e[dest].data, m.mode % 512, m.mtime, m.atime)]
  {
  }

  /**
   * Nothing but the entry `dest` resolves to changes, whichever of the two
   * steps fail; no name appears or disappears.
   */
  lemma PreserveMetadataFrame(e: Entries, f: Faults, dest: Path, m: Entry)
    ensures PreserveMetadata(e, f, dest, m).Keys == e.Keys
    ensures forall k :: k in e && Target(e, dest) != Some(k) ==> PreserveMetadata(e, f, dest, m)[k] == e[k]
  {
    var e1 :=
      if m.File? then
        match SetTimesResult(e, f, dest, m.atime, m.mtime)
        case Ok(x) => x
        case Err(_) => e
      else e;
    if e1 != e {
      var q := Target(e, dest).value;
      FollowReplace(e, q, e1[q], dest, MAX_SYMLINK_HOPS);
    }
  }

  /** Times and permissions never touch a regular file's bytes. */
  lemma PreserveMetadataKeepsBytes(e: Entries, f: Faults, dest: Path, m: Entry)
    requires dest in e && e[dest].File?
    ensures var e2 := PreserveMetadata(e, f, dest, m);
      dest in e2 && e2[dest].File? && e2[dest].data == e[dest].data
  {
  }

  /** preserve_metadata on the filesystem. */
  method PreserveMetadataOn(fs: FileSystem, dest: Path, m: Entry)
    requires fs.Valid()
    modifies fs
    ensures fs.Valid()
    ensures fs.entries == PreserveMetadata(old(fs.entries), fs.faults, dest, m)
  {
    if m.File? {
      var _ := fs.SetTimes(dest, m.atime, m.mtime);
    }
    if ModeOf(m).Some? {
      var _ := fs.SetPerms(dest, ModeOf(m).value % 512);
    }
  }

  function SafeCopyWithMetadataOutcome(e: Entries, f: Faults, src: Path, dest: Path, pid: nat, now: nat, preserve: bool): Outcome<()> {
    var o := SafeCopyAndRenameOutcome(e, f, src, dest, pid, now);
    if o.result.Err? || !preserve then o
    else
      match Stat(o.entries, f, src)
      case Err(x) => Outcome(o.entries, Err(Io("stat " + Display(src), x)))
      case Ok(m) => Outcome(PreserveMetadata(o.entries, f, dest, m), Ok(()))
  }

  method SafeCopyAndRenameWithMetadata(fs: FileSystem, src: Path, dest: Path, pid: nat, preserve: bool)
    returns (r: Result<(), MoveError>)
    requires fs.Valid()
    modifies fs
    ensures fs.Valid()
    ensures Outcome(fs.entries, r)
      == SafeCopyWithMetadataOutcome(old(fs.entries), fs.faults, src, dest, pid, fs.now, preserve)
  {
    r := SafeCopyAndRename(fs, src, dest, pid);
    if r.Ok? && preserve {
      var meta := Stat(fs.entries, fs.faults, src);
      if meta.Err? {
        return Err(Io("stat " + Display(src), meta.error));
      }
      PreserveMetadataOn(fs, dest, meta.value);
    }
  }

  /** preserve_metadata on a regular file changes that file's entry and nothing else. */
  lemma PreserveMetadataOnOneFile(e: Entries, f: Faults, dest: Path, m: Entry)
    requires dest in e && e[dest].File?
    ensures var e2 := PreserveMetadata(e, f, dest, m);
      e2.Keys == e.Keys && e2[dest].File? && forall k :: k in e && k != dest ==> e2[k] == e[k]
  {
    assert Target(e, dest) == Some(dest);
    PreserveMetadataFrame(e, f, dest, m);
    PreserveMetadataKeepsBytes(e, f, dest, m);
  }

  /**
   * The frame of the copy with metadata: every entry but the destination is
   * kept, and the only new names are the destination, the temporary file and
   * directories on the way to the destination.
   */
  lemma SafeCopyWithMetadataFrame(e: Entries, f: Faults, src: Path, dest: Path, pid: nat, now: nat, preserve: bool)
    requires WellFormed(e) && dest != []
    ensures var o := SafeCopyWithMetadataOutcome(e, f, src, dest, pid, now, preserve);
      forall k :: k in e && k != dest ==> k in o.entries && o.entries[k] == e[k]
    ensures var o := SafeCopyWithMetadataOutcome(e, f, src, dest, pid, now, preserve);
      forall k :: k in o.entries && k !in e ==>
        k == dest || k == TempPath(dest, pid, now) || (k <= dest[..|dest| - 1] && o.entries[k].Dir?)
  {
    var c := SafeCopyAndRenameOutcome(e, f, src, dest, pid, now);
    var o := SafeCopyWithMetadataOutcome(e, f, src, dest, pid, now, preserve);
    SafeCopyFrame(e, f, src, dest, pid, now);
    if c.result.Ok? && preserve && Stat(c.entries, f, src).Ok? {
      SafeCopyDestIsFile(e, f, src, dest, pid, now);
      PreserveMetadataOnOneFile(c.entries, f, dest, Stat(c.entries, f, src).value);
      assert o.entries == PreserveMetadata(c.entries, f, dest, Stat(c.entries, f, src).value);
    } else {
      assert o.entries == c.entries;
    }
  }

  /** A successful copy leaves a regular file at the destination. */
  lemma SafeCopyDestIsFile(e: Entries, f: Faults, src: Path, dest: Path, pid: nat, now: nat)
    requires WellFormed(e) && SafeCopyAndRenameOutcome(e, f, src, dest, pid, now).result.Ok?
    ensures var c := SafeCopyAndRenameOutcome(e, f, src, dest, pid, now);
      dest in c.entries && c.entries[dest].File?
  {
    SafeCopySuccess(e, f, src, dest, pid, now);
  }

  /** A successful copy, with or without metadata, leaves the source as it was and its bytes at the destination. */
  lemma SafeCopyWithMetadataSuccess(e: Entries, f: Faults, src: Path, dest: Path, pid: nat, now: nat, preserve: bool)
    requires WellFormed(e) && src in e && e[src].File? && StatOp(src) !in f && src != dest
    requires SafeCopyWithMetadataOutcome(e, f, src, dest, pid, now, preserve).result.Ok?
    ensures var o := SafeCopyWithMetadataOutcome(e, f, src, dest, pid, now, preserve);
      src in o.entries && o.entries[src] == e[src]
      && dest in o.entries && o.entries[dest].File? && o.entries[dest].data == e[src].data
  {
    var c := SafeCopyAndRenameOutcome(e, f, src, dest, pid, now);
    assert Stat(e, f, src) == Ok(e[src]);
    SafeCopySuccess(e, f, src, dest, pid, now);
    SafeCopyFrame(e, f, src, dest, pid, now);
    assert c.entries[dest].data == e[src].data;
    assert c.entries[src] == e[src];
    if preserve {
      assert Stat(c.entries, f, src) == Ok(e[src]);
      PreserveMetadataKeepsBytes(c.entries, f, dest, e[src]);
      PreserveMetadataFrame(c.entries, f, dest, e[src]);
    }
  }

  /**
   * Without `preserve` the outcome is safe_copy_and_rename's; with it, a
   * successful copy of a regular source ends with the source's bytes, times
   * and permission bits on the destination, and a failed stat is reported
   * with the copy already in place.
   */
  lemma SafeCopyWithMetadataResult(e: Entries, f: Faults, src: Path, dest: Path, pid: nat, now: nat, preserve: bool)
    requires WellFormed(e)
    ensures !preserve ==>
      SafeCopyWithMetadataOutcome(e, f, src, dest, pid, now, preserve) == SafeCopyAndRenameOutcome(e, f, src, dest, pid, now)
    ensures (SafeCopyWithMetadataOutcome(e, f, src, dest, pid, now, preserve).result.Err?
      && SafeCopyAndRenameOutcome(e, f, src, dest, pid, now).result.Ok?) ==>
      SafeCopyWithMetadataOutcome(e, f, src, dest, pid, now, preserve).entries
        == SafeCopyAndRenameOutcome(e, f, src, dest, pid, now).entries
    ensures (preserve && src in e && e[src].File? && src != dest
      && SetTimesOp(dest) !in f && SetPermsOp(dest) !in f
      && SafeCopyAndRenameOutcome(e, f, src, dest, pid, now).result.Ok?) ==>
      var o := SafeCopyWithMetadataOutcome(e, f, src, dest, pid, now, preserve);
      o.result.Ok? && dest in o.entries
      && o.entries[dest] == File(e[src].data, e[src].mode % 512, e[src].mtime, e[src].atime)
  {
    var o := SafeCopyAndRenameOutcome(e, f, src, dest, pid, now);
    if preserve && src in e && e[src].File? && src != dest
      && SetTimesOp(dest) !in f && SetPermsOp(dest) !in f && o.result.Ok? {
      SafeCopySuccess(e, f, src, dest, pid, now);
      SafeCopyFrame(e, f, src, dest, pid, now);
      assert StatOp(src) !in f;
      assert Stat(o.entries, f, src) == Ok(e[src]);
      PreserveMetadataOnFile(o.entries, f, dest, e[src]);
    }
  }
}
