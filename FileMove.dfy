/**
 * Moving one regular file into the completed directory (fs_ops/file_move.rs):
 * the destination is named after the source, made unique when taken; a
 * dry run only reports it; a real run renames the file and, when the rename
 * fails for any reason, copies it through a temporary file and removes the
 * original.  move_file_old is the earlier claim-based flow.
 */
module FileMove {
  import opened Common
  import opened Paths
  import opened Fs
  import opened Errors
  import opened Space
  import opened Utils
  import opened Copy
  import opened Claim
  import opened FsUtil
  import opened ConfigTypes

  const DRY_RUN_PARENT := "dry-run parent missing or readonly"
  const REMOVE_ORIGINAL := "remove original file"
  const STAT := "stat "

  /** Permissions::readonly on Unix: no write bit at all (mode & 0o222 == 0). */
  predicate ReadOnly(m: Entry) {
    ModeOf(m).Some? && (ModeOf(m).value / 2) % 2 == 0 && (ModeOf(m).value / 16) % 2 == 0
    && (ModeOf(m).value / 128) % 2 == 0
  }

  /** The dry run's check: dest_dir's parent (if it has one) exists and is not read-only. */
  predicate DryRunParentOk(e: Entries, f: Faults, destDir: Path) {
    |destDir| <= 1
    || (Exists(e, f, destDir[..|destDir| - 1]) && !ReadOnly(Stat(e, f, destDir[..|destDir| - 1]).value))
  }

  /**
   * The destination both runs compute: completed_base joined with the
   * source's file name, replaced by unique_destination's name when it exists.
   */
  function PlannedDest(e: Entries, f: Faults, destDir: Path, src: Path, millis: nat, pid: nat): (r: Result<Path, MoveError>)
    ensures r.Err? <==> src == []
    ensures r.Err? ==> r.error == NoFileName(src)
    ensures r.Ok? && !Exists(e, f, destDir + [src[|src| - 1]]) ==> r.value == destDir + [src[|src| - 1]]
    ensures r.Ok? ==> Parent(r.value) == Some(destDir)
  {
    if src == [] then Err(NoFileName(src))
    else
      var candidate := destDir + [src[|src| - 1]];
      var dest := UniqueName(e, f, candidate, millis, pid);
      assert Parent(dest) == Parent(candidate) by {
        if Exists(e, f, candidate) {
          var j :| 0 <= j <= 5 && dest == TimestampedCandidate(candidate, millis, pid, j);
        }
      }
      Ok(dest)
  }

  /** What a dry run reports once the source passed the checks. */
  function DryRunResult(e: Entries, f: Faults, destDir: Path, src: Path, millis: nat, pid: nat): (r: Result<Path, MoveError>)
    ensures !DryRunParentOk(e, f, destDir) ==> r == Err(MoveError.PermissionDenied(destDir, DRY_RUN_PARENT))
    ensures DryRunParentOk(e, f, destDir) ==> r == PlannedDest(e, f, destDir, src, millis, pid)
  {
    if !DryRunParentOk(e, f, destDir) then Err(MoveError.PermissionDenied(destDir, DRY_RUN_PARENT))
    else PlannedDest(e, f, destDir, src, millis, pid)
  }

  /** The checks before anything is touched: shutdown, the base itself, a size still changing. */
  function Preflight(e: Entries, f: Faults, cfg: Config, src: Path, shutdown: bool, rs: Readings): Result<(), MoveError> {
    if shutdown then Err(Interrupted)
    else if EnsureNotBase(e, cfg.downloadBase, src).Err? then EnsureNotBase(e, cfg.downloadBase, src)
    else ProbeOutcome(rs, CurrentSize(e, f, src), 3, src)
  }

  /**
   * move_file.  `statFirst` selects where the source's metadata is read when
   * preserve_metadata is set: false is the code as written (after the
   * rename, when the source name is already gone), true reads it just before.
   */
  function MoveFileOutcome(e: Entries, f: Faults, cfg: Config, src: Path, shutdown: bool, rs: Readings,
                           q: Result<StatVfs, IoError>, pid: nat, now: nat, statFirst: bool): Outcome<Path>
  {
    match Preflight(e, f, cfg, src, shutdown, rs)
    case Err(x) => Outcome(e, Err(x))
    case Ok(_) =>
      if cfg.dryRun then Outcome(e, DryRunResult(e, f, cfg.completedBase, src, Millis(now), pid))
      else
        match CreateDirAllResult(e, f, cfg.completedBase)
        case Err(x) => Outcome(e, Err(StepError(CREATE_DIR, cfg.completedBase, x)))
        case Ok(e1) => MoveInto(e1, f, cfg, src, q, pid, now, statFirst)
  }

  /** A real run once completed_base exists: the name, the space check, then the move. */
  function MoveInto(e1: Entries, f: Faults, cfg: Config, src: Path, q: Result<StatVfs, IoError>, pid: nat, now: nat,
                    statFirst: bool): (o: Outcome<Path>)
    ensures o.result.Ok? ==> o.result == PlannedDest(e1, f, cfg.completedBase, src, Millis(now), pid)
  {
    match PlannedDest(e1, f, cfg.completedBase, src, Millis(now), pid)
    case Err(x) => Outcome(e1, Err(x))
    case Ok(dest) =>
      match CheckDiskSpace(e1, f, src, cfg.completedBase, q)
      case Err(x) => Outcome(e1, Err(x))
      case Ok(_) => RenameOrCopy(e1, f, src, dest, cfg.preserveMetadata, pid, now, statFirst)
  }

  /** The rename, with the copy fallback for any rename error. */
  function RenameOrCopy(e1: Entries, f: Faults, src: Path, dest: Path, preserve: bool, pid: nat, now: nat,
                        statFirst: bool): (o: Outcome<Path>)
    ensures o.result.Ok? ==> o.result.value == dest
  {
    if preserve && statFirst && Stat(e1, f, src).Err? then Outcome(e1, Err(Io(STAT + Display(src), Stat(e1, f, src).error)))
    else
      match RenameResult(e1, f, src, dest)
      case Ok(e2) => AfterRename(e1, e2, f, src, dest, preserve, statFirst)
      case Err(_) => CopyFallback(e1, f, src, dest, preserve, pid, now)
  }

  /** After a successful rename: the metadata step, which reads the source before or after it. */
  function AfterRename(e1: Entries, e2: Entries, f: Faults, src: Path, dest: Path, preserve: bool, statFirst: bool): (o: Outcome<Path>)
    ensures o.result.Ok? ==> o.result.value == dest
  {
    if !preserve then Outcome(e2, Ok(dest))
    else
      var meta := if statFirst then Stat(e1, f, src) else Stat(e2, f, src);
      match meta
      case Err(x) => Outcome(e2, Err(Io(STAT + Display(src), x)))
      case Ok(m) => Outcome(PreserveMetadata(e2, f, dest, m), Ok(dest))
  }

  /** safe_copy_and_rename_with_metadata onto the same destination, then removal of the source. */
  function CopyFallback(e1: Entries, f: Faults, src: Path, dest: Path, preserve: bool, pid: nat, now: nat): (o: Outcome<Path>)
    ensures o.result.Ok? ==> o.result.value == dest
  {
    var o := SafeCopyWithMetadataOutcome(e1, f, src, dest, pid, now, preserve);
    if o.result.Err? then Outcome(o.entries, Err(o.result.error))
    else
      match RemoveFileResult(o.entries, f, src)
      case Err(x) => Outcome(o.entries, Err(StepError(REMOVE_ORIGINAL, src, x)))
      case Ok(e3) => Outcome(e3, Ok(dest))
  }

  /** move_file as written. */
  method MoveFileAsWritten(fs: FileSystem, cfg: Config, src: Path, shutdown: bool, rs: Readings,
                           q: Result<StatVfs, IoError>, pid: nat) returns (r: Result<Path, MoveError>)
    requires fs.Valid()
    modifies fs
    ensures fs.Valid()
    ensures Outcome(fs.entries, r) == MoveFileOutcome(old(fs.entries), fs.faults, cfg, src, shutdown, rs, q, pid, fs.now, false)
  {
    r := MoveFileSteps(fs, cfg, src, shutdown, rs, q, pid, false);
  }

  /** move_file with the source's metadata read before the rename. */
  method MoveFile(fs: FileSystem, cfg: Config, src: Path, shutdown: bool, rs: Readings,
                  q: Result<StatVfs, IoError>, pid: nat) returns (r: Result<Path, MoveError>)
    requires fs.Valid()
    modifies fs
    ensures fs.Valid()
    ensures Outcome(fs.entries, r) == MoveFileOutcome(old(fs.entries), fs.faults, cfg, src, shutdown, rs, q, pid, fs.now, true)
  {
    r := MoveFileSteps(fs, cfg, src, shutdown, rs, q, pid, true);
  }

  method MoveFileSteps(fs: FileSystem, cfg: Config, src: Path, shutdown: bool, rs: Readings,
                       q: Result<StatVfs, IoError>, pid: nat, statFirst: bool) returns (r: Result<Path, MoveError>)
    requires fs.Valid()
    modifies fs
    ensures fs.Valid()
    ensures Outcome(fs.entries, r) == MoveFileOutcome(old(fs.entries), fs.faults, cfg, src, shutdown, rs, q, pid, fs.now, statFirst)
  {
    if shutdown {
      return Err(Interrupted);
    }
    var notBase := EnsureNotBase(fs.entries, cfg.downloadBase, src);
    if notBase.Err? {
      return Err(notBase.error);
    }
    var probe := StableFileProbe(rs, CurrentSize(fs.entries, fs.faults, src), 3, src);
    if probe.Err? {
      return Err(probe.error);
    }
    var destDir := cfg.completedBase;
    if cfg.dryRun {
      if !DryRunParentOk(fs.entries, fs.faults, destDir) {
        return Err(MoveError.PermissionDenied(destDir, DRY_RUN_PARENT));
      }
      r := ChooseDest(fs, destDir, src, pid);
      return;
    }
    var made := fs.CreateDirAll(destDir);
    if made.Err? {
      return Err(StepError(CREATE_DIR, destDir, made.error));
    }
    var planned := ChooseDest(fs, destDir, src, pid);
    if planned.Err? {
      return planned;
    }
    var dest := planned.value;
    var space := CheckDiskSpace(fs.entries, fs.faults, src, destDir, q);
    if space.Err? {
      return Err(space.error);
    }
    var early := Stat(fs.entries, fs.faults, src);
    if cfg.preserveMetadata && statFirst && early.Err? {
      return Err(Io(STAT + Display(src), early.error));
    }
    ghost var e1 := fs.entries;
    var renamed := fs.Rename(src, dest);
    if renamed.Ok? {
      if cfg.preserveMetadata {
        var meta := if statFirst then early else Stat(fs.entries, fs.faults, src);
        if meta.Err? {
          return Err(Io(STAT + Display(src), meta.error));
        }
        PreserveMetadataOn(fs, dest, meta.value);
      }
      return Ok(dest);
    }
    assert RenameResult(e1, fs.faults, src, dest).Err?;
    var copied := SafeCopyAndRenameWithMetadata(fs, src, dest, pid, cfg.preserveMetadata);
    if copied.Err? {
      return Err(copied.error);
    }
    var removed := fs.RemoveFile(src);
    if removed.Err? {
      return Err(StepError(REMOVE_ORIGINAL, src, removed.error));
    }
    r := Ok(dest);
  }

  /** The file-name check and the unique_destination call both runs share. */
  method ChooseDest(fs: FileSystem, destDir: Path, src: Path, pid: nat) returns (r: Result<Path, MoveError>)
    ensures r == PlannedDest(fs.entries, fs.faults, destDir, src, Millis(fs.now), pid)
  {
    if src == [] {
      return Err(NoFileName(src));
    }
    var dest := destDir + [src[|src| - 1]];
    if Exists(fs.entries, fs.faults, dest) {
      dest := UniqueDestination(fs, dest, Millis(fs.now), pid);
    }
    r := Ok(dest);
  }

  // ---------------------------------------------------------------------
  // What move_file guarantees

  /**
   * A shutdown request, the download base itself and a source whose size
   * keeps changing are refused before anything changes; a dry run changes
   * nothing either.
   */
  lemma MoveFileRefusals(e: Entries, f: Faults, cfg: Config, src: Path, shutdown: bool, rs: Readings,
                         q: Result<StatVfs, IoError>, pid: nat, now: nat, statFirst: bool)
    ensures shutdown ==> MoveFileOutcome(e, f, cfg, src, shutdown, rs, q, pid, now, statFirst) == Outcome(e, Err(Interrupted))
    ensures CanonicalOr(e, cfg.downloadBase) == CanonicalOr(e, src) ==>
      MoveFileOutcome(e, f, cfg, src, shutdown, rs, q, pid, now, statFirst).entries == e
      && MoveFileOutcome(e, f, cfg, src, shutdown, rs, q, pid, now, statFirst).result.Err?
    ensures ProbeOutcome(rs, CurrentSize(e, f, src), 3, src).Err? ==>
      MoveFileOutcome(e, f, cfg, src, shutdown, rs, q, pid, now, statFirst).entries == e
      && MoveFileOutcome(e, f, cfg, src, shutdown, rs, q, pid, now, statFirst).result.Err?
    ensures cfg.dryRun ==> MoveFileOutcome(e, f, cfg, src, shutdown, rs, q, pid, now, statFirst).entries == e
  {
  }

  /**
   * Directories create_dir_all adds for completed_base change no answer
   * about a name directly inside completed_base, so the name a real run
   * chooses after creating them is the one a dry run reports.
   */
  lemma PlannedDestAfterCreate(e: Entries, f: Faults, destDir: Path, src: Path, millis: nat, pid: nat)
    requires WellFormed(e) && CreateDirAllResult(e, f, destDir).Ok?
    ensures PlannedDest(CreateDirAllResult(e, f, destDir).value, f, destDir, src, millis, pid)
      == PlannedDest(e, f, destDir, src, millis, pid)
  {
    var e1 := CreateDirAllResult(e, f, destDir).value;
    if src != [] && e1 != e {
      var candidate := destDir + [src[|src| - 1]];
      assert destDir != [] && destDir !in e && destDir < candidate;
      NothingBelow(e, destDir, candidate);
      assert |candidate| > |destDir|;
    }
  }

  /**
   * A dry run and a real run report the same destination: whichever of
   * them succeeds returns PlannedDest of the entries the run started with.
   */
  lemma DryRunMatchesRealRun(e: Entries, f: Faults, cfg: Config, src: Path, shutdown: bool, rs: Readings,
                             q: Result<StatVfs, IoError>, pid: nat, now: nat, statFirst: bool)
    requires WellFormed(e)
    ensures var o := MoveFileOutcome(e, f, cfg, src, shutdown, rs, q, pid, now, statFirst);
      o.result.Ok? ==> o.result == PlannedDest(e, f, cfg.completedBase, src, Millis(now), pid)
    ensures var dry := MoveFileOutcome(e, f, cfg.(dryRun := true), src, shutdown, rs, q, pid, now, statFirst);
      var run := MoveFileOutcome(e, f, cfg.(dryRun := false), src, shutdown, rs, q, pid, now, statFirst);
      dry.result.Ok? && run.result.Ok? ==> dry.result.value == run.result.value
  {
    RunReportsPlannedDest(e, f, cfg, src, shutdown, rs, q, pid, now, statFirst);
    RunReportsPlannedDest(e, f, cfg.(dryRun := true), src, shutdown, rs, q, pid, now, statFirst);
    RunReportsPlannedDest(e, f, cfg.(dryRun := false), src, shutdown, rs, q, pid, now, statFirst);
  }

  lemma RunReportsPlannedDest(e: Entries, f: Faults, cfg: Config, src: Path, shutdown: bool, rs: Readings,
                              q: Result<StatVfs, IoError>, pid: nat, now: nat, statFirst: bool)
    requires WellFormed(e)
    ensures var o := MoveFileOutcome(e, f, cfg, src, shutdown, rs, q, pid, now, statFirst);
      o.result.Ok? ==> o.result == PlannedDest(e, f, cfg.completedBase, src, Millis(now), pid)
  {
    if !cfg.dryRun && CreateDirAllResult(e, f, cfg.completedBase).Ok? {
      PlannedDestAfterCreate(e, f, cfg.completedBase, src, Millis(now), pid);
    }
  }

  /** The destination is never the source itself, so a move never renames a file onto its own name. */
  lemma PlannedDestNotSource(e: Entries, f: Faults, destDir: Path, src: Path, millis: nat, pid: nat)
    requires Exists(e, f, src)
    ensures PlannedDest(e, f, destDir, src, millis, pid).Ok? ==> PlannedDest(e, f, destDir, src, millis, pid).value != src
  {
    if src != [] {
      UniqueNameNotSource(e, f, src, destDir, millis, pid);
    }
  }

  /**
   * After a successful move of a regular file the source name is gone and
   * the destination holds the source's bytes; with preserve_metadata (and
   * times and permissions that can be set) it also carries the source's
   * times and permission bits.  Holds for the rename and the copy branch,
   * and for move_file as written as well as with the stat moved first.
   */
  lemma MoveFileSuccess(e: Entries, f: Faults, cfg: Config, src: Path, shutdown: bool, rs: Readings,
                        q: Result<StatVfs, IoError>, pid: nat, now: nat, statFirst: bool)
    requires WellFormed(e) && src in e && e[src].File? && StatOp(src) !in f && !cfg.dryRun
    ensures var o := MoveFileOutcome(e, f, cfg, src, shutdown, rs, q, pid, now, statFirst);
      o.result.Ok? ==>
        var d := o.result.value;
        src !in o.entries && d in o.entries && o.entries[d].File? && o.entries[d].data == e[src].data
    ensures var o := MoveFileOutcome(e, f, cfg, src, shutdown, rs, q, pid, now, statFirst);
      (o.result.Ok? && cfg.preserveMetadata
       && SetTimesOp(o.result.value) !in f && SetPermsOp(o.result.value) !in f) ==>
        o.entries[o.result.value] == File(e[src].data, e[src].mode % 512, e[src].mtime, e[src].atime)
  {
    var o := MoveFileOutcome(e, f, cfg, src, shutdown, rs, q, pid, now, statFirst);
    if o.result.Ok? {
      var e1 := CreateDirAllResult(e, f, cfg.completedBase).value;
      WellFormedCreateDirAll(e, f, cfg.completedBase);
      assert e1[src] == e[src];
      var dest := PlannedDest(e1, f, cfg.completedBase, src, Millis(now), pid).value;
      assert Stat(e1, f, src) == Ok(e[src]);
      PlannedDestNotSource(e1, f, cfg.completedBase, src, Millis(now), pid);
      RenameOrCopySuccess(e1, f, src, dest, cfg.preserveMetadata, pid, now, statFirst);
    }
  }

  /** The two branches of a real run, from the entries after create_dir_all. */
  lemma RenameOrCopySuccess(e1: Entries, f: Faults, src: Path, dest: Path, preserve: bool, pid: nat, now: nat,
                            statFirst: bool)
    requires WellFormed(e1) && src in e1 && e1[src].File? && StatOp(src) !in f && src != dest
    ensures var o := RenameOrCopy(e1, f, src, dest, preserve, pid, now, statFirst);
      o.result.Ok? ==>
        o.result.value == dest && src !in o.entries && dest in o.entries && o.entries[dest].File?
        && o.entries[dest].data == e1[src].data
    ensures var o := RenameOrCopy(e1, f, src, dest, preserve, pid, now, statFirst);
      (o.result.Ok? && preserve && SetTimesOp(dest) !in f && SetPermsOp(dest) !in f) ==>
        o.entries[dest] == File(e1[src].data, e1[src].mode % 512, e1[src].mtime, e1[src].atime)
  {
    assert Stat(e1, f, src) == Ok(e1[src]);
    if RenameResult(e1, f, src, dest).Ok? {
      RenameFileInto(e1, f, src, dest);
      var e2 := RenameResult(e1, f, src, dest).value;
      assert e2[dest] == e1[src] && src !in e2;
      if preserve && statFirst {
        PreserveMetadataKeepsBytes(e2, f, dest, e1[src]);
        PreserveMetadataFrame(e2, f, dest, e1[src]);
        if SetTimesOp(dest) !in f && SetPermsOp(dest) !in f {
          PreserveMetadataOnFile(e2, f, dest, e1[src]);
        }
      }
    } else {
      CopyFallbackSuccess(e1, f, src, dest, preserve, pid, now);
    }
  }

  /** The copy branch: the destination gets the bytes (and, asked to, the metadata) and the source goes. */
  lemma CopyFallbackSuccess(e1: Entries, f: Faults, src: Path, dest: Path, preserve: bool, pid: nat, now: nat)
    requires WellFormed(e1) && src in e1 && e1[src].File? && StatOp(src) !in f && src != dest
    ensures var o := CopyFallback(e1, f, src, dest, preserve, pid, now);
      o.result.Ok? ==>
        src !in o.entries && dest in o.entries && o.entries[dest].File? && o.entries[dest].data == e1[src].data
    ensures var o := CopyFallback(e1, f, src, dest, preserve, pid, now);
      (o.result.Ok? && preserve && SetTimesOp(dest) !in f && SetPermsOp(dest) !in f) ==>
        o.entries[dest] == File(e1[src].data, e1[src].mode % 512, e1[src].mtime, e1[src].atime)
  {
    var o := SafeCopyWithMetadataOutcome(e1, f, src, dest, pid, now, preserve);
    if o.result.Ok? {
      SafeCopyWithMetadataSuccess(e1, f, src, dest, pid, now, preserve);
      if preserve && SetTimesOp(dest) !in f && SetPermsOp(dest) !in f {
        SafeCopyWithMetadataResult(e1, f, src, dest, pid, now, preserve);
      }
    }
  }

  /**
   * As written, preserve_metadata turns every successful rename into an
   * error: the file is already at the destination when the source name is
   * looked up for its metadata, and that lookup fails with ENOENT.
   */
  lemma AsWrittenPreserveFailsAfterRename(e1: Entries, f: Faults, src: Path, dest: Path, pid: nat, now: nat)
    requires WellFormed(e1) && src in e1 && e1[src].File? && StatOp(src) !in f && src != dest
    requires RenameResult(e1, f, src, dest).Ok?
    ensures var o := RenameOrCopy(e1, f, src, dest, true, pid, now, false);
      o.result == Err(Io(STAT + Display(src), OsError(ENOENT)))
      && src !in o.entries && dest in o.entries && o.entries[dest] == e1[src]
  {
    RenameFileInto(e1, f, src, dest);
  }

  /** With the metadata read first, the same rename succeeds and carries the times and permission bits over. */
  lemma StatFirstPreservesAfterRename(e1: Entries, f: Faults, src: Path, dest: Path, pid: nat, now: nat)
    requires WellFormed(e1) && src in e1 && e1[src].File? && StatOp(src) !in f && src != dest
    requires RenameResult(e1, f, src, dest).Ok? && SetTimesOp(dest) !in f && SetPermsOp(dest) !in f
    ensures var o := RenameOrCopy(e1, f, src, dest, true, pid, now, true);
      o.result == Ok(dest) && src !in o.entries && dest in o.entries
      && o.entries[dest] == File(e1[src].data, e1[src].mode % 512, e1[src].mtime, e1[src].atime)
  {
    RenameFileInto(e1, f, src, dest);
    var e2 := RenameResult(e1, f, src, dest).value;
    assert Stat(e1, f, src) == Ok(e1[src]);
    PreserveMetadataOnFile(e2, f, dest, e1[src]);
  }

  /** A failed rename of any kind, not only a cross-device one, falls back to copying. */
  lemma AnyRenameErrorCopies(e1: Entries, f: Faults, src: Path, dest: Path, preserve: bool, pid: nat, now: nat)
    requires RenameResult(e1, f, src, dest).Err? && !(preserve && Stat(e1, f, src).Err?)
    ensures RenameOrCopy(e1, f, src, dest, preserve, pid, now, true) == CopyFallback(e1, f, src, dest, preserve, pid, now)
    ensures RenameOrCopy(e1, f, src, dest, preserve, pid, now, false) == CopyFallback(e1, f, src, dest, preserve, pid, now)
    ensures var o := CopyFallback(e1, f, src, dest, preserve, pid, now);
      o.result.Ok? ==>
        SafeCopyWithMetadataOutcome(e1, f, src, dest, pid, now, preserve).result.Ok?
        && o.entries == SafeCopyWithMetadataOutcome(e1, f, src, dest, pid, now, preserve).entries - {src}
  {
  }

  /**
   * A failed move of a regular file leaves the source as it was, with one
   * exception in the code as written: with preserve_metadata a successful
   * rename is reported as a failed stat of the source, and the file is then
   * already at its destination inside completed_base.
   */
  lemma MoveFileFailure(e: Entries, f: Faults, cfg: Config, src: Path, shutdown: bool, rs: Readings,
                        q: Result<StatVfs, IoError>, pid: nat, now: nat)
    requires WellFormed(e) && src in e && e[src].File? && StatOp(src) !in f
    ensures var o := MoveFileOutcome(e, f, cfg, src, shutdown, rs, q, pid, now, true);
      o.result.Err? ==> src in o.entries && o.entries[src] == e[src]
    ensures var o := MoveFileOutcome(e, f, cfg, src, shutdown, rs, q, pid, now, false);
      o.result.Err? ==>
        (src in o.entries && o.entries[src] == e[src])
        || (cfg.preserveMetadata && o.result == Err(Io(STAT + Display(src), OsError(ENOENT))) && src !in o.entries
            && exists d :: Parent(d) == Some(cfg.completedBase) && d in o.entries && o.entries[d] == e[src])
  {
    if Preflight(e, f, cfg, src, shutdown, rs).Ok? && !cfg.dryRun && CreateDirAllResult(e, f, cfg.completedBase).Ok? {
      var e1 := CreateDirAllResult(e, f, cfg.completedBase).value;
      WellFormedCreateDirAll(e, f, cfg.completedBase);
      assert e1[src] == e[src];
      MoveIntoFailure(e1, f, cfg, src, q, pid, now);
      assert MoveFileOutcome(e, f, cfg, src, shutdown, rs, q, pid, now, true) == MoveInto(e1, f, cfg, src, q, pid, now, true);
      assert MoveFileOutcome(e, f, cfg, src, shutdown, rs, q, pid, now, false) == MoveInto(e1, f, cfg, src, q, pid, now, false);
    }
  }

  /** The failure half of a real run once completed_base exists. */
  lemma MoveIntoFailure(e1: Entries, f: Faults, cfg: Config, src: Path, q: Result<StatVfs, IoError>, pid: nat, now: nat)
    requires WellFormed(e1) && src in e1 && e1[src].File? && StatOp(src) !in f
    ensures var o := MoveInto(e1, f, cfg, src, q, pid, now, true);
      o.result.Err? ==> src in o.entries && o.entries[src] == e1[src]
    ensures var o := MoveInto(e1, f, cfg, src, q, pid, now, false);
      o.result.Err? ==>
        (src in o.entries && o.entries[src] == e1[src])
        || (cfg.preserveMetadata && o.result == Err(Io(STAT + Display(src), OsError(ENOENT))) && src !in o.entries
            && exists d :: Parent(d) == Some(cfg.completedBase) && d in o.entries && o.entries[d] == e1[src])
  {
    var planned := PlannedDest(e1, f, cfg.completedBase, src, Millis(now), pid);
    if planned.Ok? && CheckDiskSpace(e1, f, src, cfg.completedBase, q).Ok? {
      var dest := planned.value;
      PlannedDestNotSource(e1, f, cfg.completedBase, src, Millis(now), pid);
      RenameOrCopyFailure(e1, f, src, dest, cfg.preserveMetadata, pid, now, true);
      RenameOrCopyFailure(e1, f, src, dest, cfg.preserveMetadata, pid, now, false);
      var o := RenameOrCopy(e1, f, src, dest, cfg.preserveMetadata, pid, now, false);
      if o.result.Err? && !(src in o.entries && o.entries[src] == e1[src]) {
        assert Parent(dest) == Some(cfg.completedBase) && dest in o.entries && o.entries[dest] == e1[src];
      }
    }
  }

  /** The failure half of RenameOrCopy, from the entries after create_dir_all. */
  lemma RenameOrCopyFailure(e1: Entries, f: Faults, src: Path, dest: Path, preserve: bool, pid: nat, now: nat,
                            statFirst: bool)
    requires WellFormed(e1) && src in e1 && e1[src].File? && StatOp(src) !in f && src != dest && dest != []
    ensures var o := RenameOrCopy(e1, f, src, dest, preserve, pid, now, statFirst);
      o.result.Err? ==>
        (src in o.entries && o.entries[src] == e1[src])
        || (preserve && !statFirst && o.result == Err(Io(STAT + Display(src), OsError(ENOENT)))
            && o.entries == (e1 - {src})[dest := e1[src]])
  {
    assert Stat(e1, f, src) == Ok(e1[src]);
    if RenameResult(e1, f, src, dest).Ok? {
      RenameFileInto(e1, f, src, dest);
    } else {
      var c := SafeCopyAndRenameOutcome(e1, f, src, dest, pid, now);
      SafeCopyFrame(e1, f, src, dest, pid, now);
      assert src in c.entries && c.entries[src] == e1[src];
      if c.result.Ok? {
        SafeCopyWithMetadataResult(e1, f, src, dest, pid, now, preserve);
        if SafeCopyWithMetadataOutcome(e1, f, src, dest, pid, now, preserve).result.Ok? {
          SafeCopyWithMetadataSuccess(e1, f, src, dest, pid, now, preserve);
        }
      }
    }
  }

  /**
   * move_file touches nothing but its own names: every entry other than the
   * source and the planned destination is as it was, and the only new names
   * are the destination, its temporary file and directories on the way to
   * completed_base.  Holds for the code as written and with the stat first.
   */
  lemma MoveFileFrame(e: Entries, f: Faults, cfg: Config, src: Path, shutdown: bool, rs: Readings,
                      q: Result<StatVfs, IoError>, pid: nat, now: nat, statFirst: bool)
    requires WellFormed(e) && src in e && e[src].File?
    ensures var o := MoveFileOutcome(e, f, cfg, src, shutdown, rs, q, pid, now, statFirst);
      var d := PlannedDest(e, f, cfg.completedBase, src, Millis(now), pid);
      forall k :: k in e && k != src && (d.Err? || k != d.value) ==> k in o.entries && o.entries[k] == e[k]
    ensures var o := MoveFileOutcome(e, f, cfg, src, shutdown, rs, q, pid, now, statFirst);
      var d := PlannedDest(e, f, cfg.completedBase, src, Millis(now), pid);
      forall k :: k in o.entries && k !in e ==>
        (d.Ok? && (k == d.value || k == TempPath(d.value, pid, now))) || (k <= cfg.completedBase && o.entries[k].Dir?)
  {
    var o := MoveFileOutcome(e, f, cfg, src, shutdown, rs, q, pid, now, statFirst);
    if Preflight(e, f, cfg, src, shutdown, rs).Ok? && !cfg.dryRun && CreateDirAllResult(e, f, cfg.completedBase).Ok? {
      var e1 := CreateDirAllResult(e, f, cfg.completedBase).value;
      WellFormedCreateDirAll(e, f, cfg.completedBase);
      PlannedDestAfterCreate(e, f, cfg.completedBase, src, Millis(now), pid);
      assert e1[src] == e[src];
      MoveIntoFrame(e1, f, cfg, src, q, pid, now, statFirst);
      assert o == MoveInto(e1, f, cfg, src, q, pid, now, statFirst);
    } else {
      assert o.entries == e;
    }
  }

  /** The frame of a real run once completed_base exists. */
  lemma MoveIntoFrame(e1: Entries, f: Faults, cfg: Config, src: Path, q: Result<StatVfs, IoError>, pid: nat, now: nat,
                      statFirst: bool)
    requires WellFormed(e1) && src in e1 && e1[src].File?
    ensures var o := MoveInto(e1, f, cfg, src, q, pid, now, statFirst);
      var d := PlannedDest(e1, f, cfg.completedBase, src, Millis(now), pid);
      forall k :: k in e1 && k != src && (d.Err? || k != d.value) ==> k in o.entries && o.entries[k] == e1[k]
    ensures var o := MoveInto(e1, f, cfg, src, q, pid, now, statFirst);
      var d := PlannedDest(e1, f, cfg.completedBase, src, Millis(now), pid);
      forall k :: k in o.entries && k !in e1 ==>
        d.Ok? && (k == d.value || k == TempPath(d.value, pid, now) || (k <= cfg.completedBase && o.entries[k].Dir?))
  {
    var planned := PlannedDest(e1, f, cfg.completedBase, src, Millis(now), pid);
    if planned.Ok? && CheckDiskSpace(e1, f, src, cfg.completedBase, q).Ok? {
      var dest := planned.value;
      assert dest[..|dest| - 1] == cfg.completedBase;
      RenameOrCopyFrame(e1, f, src, dest, cfg.preserveMetadata, pid, now, statFirst);
    }
  }

  /** The frame of RenameOrCopy, from the entries after create_dir_all. */
  lemma RenameOrCopyFrame(e1: Entries, f: Faults, src: Path, dest: Path, preserve: bool, pid: nat, now: nat,
                          statFirst: bool)
    requires WellFormed(e1) && src in e1 && e1[src].File? && dest != []
    ensures var o := RenameOrCopy(e1, f, src, dest, preserve, pid, now, statFirst);
      forall k :: k in e1 && k != src && k != dest ==> k in o.entries && o.entries[k] == e1[k]
    ensures var o := RenameOrCopy(e1, f, src, dest, preserve, pid, now, statFirst);
      forall k :: k in o.entries && k !in e1 ==>
        k == dest || k == TempPath(dest, pid, now) || (k <= dest[..|dest| - 1] && o.entries[k].Dir?)
  {
    if preserve && statFirst && Stat(e1, f, src).Err? {
    } else if RenameResult(e1, f, src, dest).Ok? {
      if src == dest {
        assert (e1 - {src})[dest := e1[src]] == e1;
      } else {
        RenameFileInto(e1, f, src, dest);
      }
      AfterRenameFrame(e1, RenameResult(e1, f, src, dest).value, f, src, dest, preserve, statFirst);
    } else {
      CopyFallbackFrame(e1, f, src, dest, preserve, pid, now);
    }
  }

  lemma AfterRenameFrame(e1: Entries, e2: Entries, f: Faults, src: Path, dest: Path, preserve: bool, statFirst: bool)
    requires src in e1 && e1[src].File? && e2 == (e1 - {src})[dest := e1[src]]
    ensures var o := AfterRename(e1, e2, f, src, dest, preserve, statFirst);
      forall k :: k in e1 && k != src && k != dest ==> k in o.entries && o.entries[k] == e1[k]
    ensures var o := AfterRename(e1, e2, f, src, dest, preserve, statFirst);
      forall k :: k in o.entries && k !in e1 ==> k == dest
  {
    var m := if statFirst then Stat(e1, f, src) else Stat(e2, f, src);
    if preserve && m.Ok? {
      PreserveMetadataOnOneFile(e2, f, dest, m.value);
    }
  }

  lemma CopyFallbackFrame(e1: Entries, f: Faults, src: Path, dest: Path, preserve: bool, pid: nat, now: nat)
    requires WellFormed(e1) && dest != []
    ensures var o := CopyFallback(e1, f, src, dest, preserve, pid, now);
      forall k :: k in e1 && k != src && k != dest ==> k in o.entries && o.entries[k] == e1[k]
    ensures var o := CopyFallback(e1, f, src, dest, preserve, pid, now);
      forall k :: k in o.entries && k !in e1 ==>
        k == dest || k == TempPath(dest, pid, now) || (k <= dest[..|dest| - 1] && o.entries[k].Dir?)
  {
    var c := SafeCopyWithMetadataOutcome(e1, f, src, dest, pid, now, preserve);
    SafeCopyWithMetadataFrame(e1, f, src, dest, pid, now, preserve);
    CopyFallbackRemovesOnlySource(e1, f, src, dest, preserve, pid, now);
  }

  /** The copy fallback's last step removes at most the source from the copy's result. */
  lemma CopyFallbackRemovesOnlySource(e1: Entries, f: Faults, src: Path, dest: Path, preserve: bool, pid: nat, now: nat)
    ensures var c := SafeCopyWithMetadataOutcome(e1, f, src, dest, pid, now, preserve);
      var o := CopyFallback(e1, f, src, dest, preserve, pid, now);
      o.entries.Keys <= c.entries.Keys && c.entries.Keys - {src} <= o.entries.Keys
      && forall k :: k in o.entries ==> o.entries[k] == c.entries[k]
  {
    var c := SafeCopyWithMetadataOutcome(e1, f, src, dest, pid, now, preserve);
    var o := CopyFallback(e1, f, src, dest, preserve, pid, now);
    if c.result.Ok? && RemoveFileResult(c.entries, f, src).Ok? {
      assert o.entries == c.entries - {src};
    } else {
      assert o.entries == c.entries;
    }
  }

  // ---------------------------------------------------------------------
  // move_file_old

  const SOURCE_GONE := "source does not exist"
  const CREATE_DEST_DIR := "create dest dir"
  const COPY_FALLBACK := "copy (fallback)"
  const RENAME_FINALIZE := "rename (finalize)"

  /** meta.len() as a u64. */
  function LenOf(m: Entry): u64 {
    if m.File? then Min(|m.data|, U64_MAX) else 0
  }

  /**
   * move_file_old: claim the source under a hidden name (with claim_source
   * as written, so an exhausted retry never reaches ".final"), rename it into
   * place or, across filesystems, copy it through `tmp` (the path
   * util::unique_temp_path would give, which no longer exists in the code).
   */
  function MoveFileOldOutcome(e: Entries, f: Faults, cfg: Config, src: Path, pid: nat, nanos: nat,
                              q: Result<StatVfs, IoError>, tmp: Path, now: nat): Outcome<()>
  {
    if !Exists(e, f, src) then Outcome(e, Err(SourceMissing(src)))
    else if src == [] then Outcome(e, Err(NoFileName(src)))
    else if cfg.dryRun then Outcome(e, Ok(()))
    else
      var made := if Exists(e, f, cfg.completedBase) then Ok(e) else CreateDirAllResult(e, f, cfg.completedBase);
      match made
      case Err(x) => Outcome(e, Err(Io(CREATE_DEST_DIR, x)))
      case Ok(e1) => ClaimThenMove(e1, f, cfg, src, cfg.completedBase + [src[|src| - 1]], pid, nanos, q, tmp, now)
  }

  function ClaimThenMove(e1: Entries, f: Faults, cfg: Config, src: Path, dst: Path, pid: nat, nanos: nat,
                         q: Result<StatVfs, IoError>, tmp: Path, now: nat): Outcome<()>
  {
    match ClaimOutcome(e1, f, src, pid, nanos, false)
    case Err(x) =>
      if x.kind == NotFound then Outcome(e1, if Exists(e1, f, dst) then Ok(()) else Err(ClaimLost(src)))
      else Outcome(e1, Err(ClaimFailed(src, x)))
    case Ok(claimed) => AfterClaim(RenameResult(e1, f, src, claimed).value, f, cfg, src, dst, claimed, q, tmp, now)
  }

  /** With the source claimed: its metadata, the rename into place, the rollback or the copy. */
  function AfterClaim(e2: Entries, f: Faults, cfg: Config, src: Path, dst: Path, claimed: Path,
                      q: Result<StatVfs, IoError>, tmp: Path, now: nat): Outcome<()>
  {
    match Stat(e2, f, claimed)
    case Err(x) => Outcome(e2, Err(Io(STAT + Display(claimed), x)))
    case Ok(meta) =>
      match RenameResult(e2, f, claimed, dst)
      case Ok(e3) => Outcome(if cfg.preserveMetadata then PreserveMetadata(e3, f, dst, meta) else e3, Ok(()))
      case Err(x) =>
        if !IsCrossDevice(x) then
          var back := RenameResult(e2, f, claimed, src);
          Outcome(if back.Ok? then back.value else e2, Err(RenameFailed(claimed, dst, x)))
        else CopyFallbackOld(e2, f, cfg, claimed, dst, meta, q, tmp, now)
  }

  function CopyFallbackOld(e2: Entries, f: Faults, cfg: Config, claimed: Path, dst: Path, meta: Entry,
                           q: Result<StatVfs, IoError>, tmp: Path, now: nat): Outcome<()>
  {
    match EnsureSpaceForCopy(q, cfg.completedBase, LenOf(meta))
    case Err(x) => Outcome(e2, Err(x))
    case Ok(_) =>
      var w := CopyNewResult(e2, f, claimed, tmp, now);
      if w.error.Some? then Outcome(w.entries, Err(Io(COPY_FALLBACK, w.error.value)))
      else if OpenError(w.entries, f, tmp).Some? then Outcome(w.entries, Err(Io("", OpenError(w.entries, f, tmp).value)))
      else if SyncError(f, tmp).Some? then Outcome(w.entries, Err(Io("", SyncError(f, tmp).value)))
      else
        var e4 := if cfg.preserveMetadata then PreserveMetadata(w.entries, f, tmp, meta) else w.entries;
        Finalize(e4, f, claimed, dst, tmp)
  }

  /** Rename the copy into place; a source that cannot be removed afterwards is only warned about. */
  function Finalize(e4: Entries, f: Faults, claimed: Path, dst: Path, tmp: Path): (o: Outcome<()>)
    ensures o.result.Ok? <==> RenameResult(e4, f, tmp, dst).Ok?
  {
    match RenameResult(e4, f, tmp, dst)
    case Err(x) => Outcome(e4, Err(Io(RENAME_FINALIZE, x)))
    case Ok(e5) =>
      match RemoveFileResult(e5, f, claimed)
      case Ok(e6) => Outcome(e6, Ok(()))
      case Err(_) => Outcome(e5, Ok(()))
  }

  method MoveFileOld(fs: FileSystem, cfg: Config, src: Path, pid: nat, nanos: nat, q: Result<StatVfs, IoError>, tmp: Path)
    returns (r: Result<(), MoveError>)
    requires fs.Valid()
    modifies fs
    ensures fs.Valid()
    ensures Outcome(fs.entries, r) == MoveFileOldOutcome(old(fs.entries), fs.faults, cfg, src, pid, nanos, q, tmp, fs.now)
  {
    if !Exists(fs.entries, fs.faults, src) {
      return Err(SourceMissing(src));
    }
    if src == [] {
      return Err(NoFileName(src));
    }
    var dstDir := cfg.completedBase;
    var dst := dstDir + [src[|src| - 1]];
    if cfg.dryRun {
      return Ok(());
    }
    if !Exists(fs.entries, fs.faults, dstDir) {
      var made := fs.CreateDirAll(dstDir);
      if made.Err? {
        return Err(Io(CREATE_DEST_DIR, made.error));
      }
    }
    r := ClaimAndMove(fs, cfg, src, dst, pid, nanos, q, tmp);
  }

  method ClaimAndMove(fs: FileSystem, cfg: Config, src: Path, dst: Path, pid: nat, nanos: nat,
                      q: Result<StatVfs, IoError>, tmp: Path) returns (r: Result<(), MoveError>)
    requires fs.Valid()
    modifies fs
    ensures fs.Valid()
    ensures Outcome(fs.entries, r) == ClaimThenMove(old(fs.entries), fs.faults, cfg, src, dst, pid, nanos, q, tmp, fs.now)
  {
    var claim := ClaimSourceAsWritten(fs, src, pid, nanos);
    if claim.Err? {
      if claim.error.kind == NotFound {
        if Exists(fs.entries, fs.faults, dst) {
          return Ok(());
        }
        return Err(ClaimLost(src));
      }
      return Err(ClaimFailed(src, claim.error));
    }
    var claimed := claim.value;
    var metaBefore := Stat(fs.entries, fs.faults, claimed);
    if metaBefore.Err? {
      return Err(Io(STAT + Display(claimed), metaBefore.error));
    }
    var meta := metaBefore.value;
    var renamed := fs.Rename(claimed, dst);
    if renamed.Ok? {
      if cfg.preserveMetadata {
        PreserveMetadataOn(fs, dst, meta);
      }
      return Ok(());
    }
    if !IsCrossDevice(renamed.error) {
      var _ := fs.Rename(claimed, src);
      return Err(RenameFailed(claimed, dst, renamed.error));
    }
    r := CopyAcross(fs, cfg, claimed, dst, meta, q, tmp);
  }

  method CopyAcross(fs: FileSystem, cfg: Config, claimed: Path, dst: Path, meta: Entry,
                    q: Result<StatVfs, IoError>, tmp: Path) returns (r: Result<(), MoveError>)
    requires fs.Valid()
    modifies fs
    ensures fs.Valid()
    ensures Outcome(fs.entries, r) == CopyFallbackOld(old(fs.entries), fs.faults, cfg, claimed, dst, meta, q, tmp, fs.now)
  {
    var space := EnsureSpaceForCopy(q, cfg.completedBase, LenOf(meta));
    if space.Err? {
      return space;
    }
    var copied := fs.CopyNew(claimed, tmp);
    if copied.Err? {
      return Err(Io(COPY_FALLBACK, copied.error));
    }
    var openErr := OpenError(fs.entries, fs.faults, tmp);
    if openErr.Some? {
      return Err(Io("", openErr.value));
    }
    var synced := SyncError(fs.faults, tmp);
    if synced.Some? {
      return Err(Io("", synced.value));
    }
    if cfg.preserveMetadata {
      PreserveMetadataOn(fs, tmp, meta);
    }
    var placed := fs.Rename(tmp, dst);
    if placed.Err? {
      return Err(Io(RENAME_FINALIZE, placed.error));
    }
    var _ := fs.RemoveFile(claimed);
    r := Ok(());
  }

  // ---------------------------------------------------------------------
  // What move_file_old guarantees

  /** A claim that finds no source is a success exactly when the destination already exists. */
  lemma LostClaim(e1: Entries, f: Faults, cfg: Config, src: Path, dst: Path, pid: nat, nanos: nat,
                  q: Result<StatVfs, IoError>, tmp: Path, now: nat)
    requires ClaimOutcome(e1, f, src, pid, nanos, false).Err?
    requires ClaimOutcome(e1, f, src, pid, nanos, false).error.kind == NotFound
    ensures var o := ClaimThenMove(e1, f, cfg, src, dst, pid, nanos, q, tmp, now);
      o.entries == e1 && (o.result.Ok? <==> Exists(e1, f, dst))
  {
  }

  /**
   * A rename that fails for a reason other than crossing filesystems is
   * rolled back: when the claimed name was free and the rename back
   * succeeds, the entries are exactly those before the claim.
   */
  lemma RollbackRestores(e1: Entries, f: Faults, cfg: Config, src: Path, dst: Path, claimed: Path,
                         q: Result<StatVfs, IoError>, tmp: Path, now: nat)
    requires WellFormed(e1) && src in e1 && e1[src].File? && claimed !in e1 && StatOp(claimed) !in f
    requires RenameResult(e1, f, src, claimed).Ok?
    requires var e2 := RenameResult(e1, f, src, claimed).value;
      RenameResult(e2, f, claimed, dst).Err? && !IsCrossDevice(RenameResult(e2, f, claimed, dst).error)
      && RenameResult(e2, f, claimed, src).Ok?
    ensures var o := AfterClaim(RenameResult(e1, f, src, claimed).value, f, cfg, src, dst, claimed, q, tmp, now);
      o.entries == e1 && o.result.Err? && o.result.error.RenameFailed?
  {
    RenameFileInto(e1, f, src, claimed);
    assert Stat(RenameResult(e1, f, src, claimed).value, f, claimed) == Ok(e1[src]);
    RenameBack(e1, f, src, claimed);
  }

  /** Once the copy is renamed into place the move succeeds, whether or not the claimed source can be removed. */
  lemma RemovalFailureOnlyWarns(e4: Entries, f: Faults, claimed: Path, dst: Path, tmp: Path)
    requires RenameResult(e4, f, tmp, dst).Ok?
    ensures var o := Finalize(e4, f, claimed, dst, tmp);
      o.result.Ok?
      && (RemoveFileResult(RenameResult(e4, f, tmp, dst).value, f, claimed).Err? ==>
            o.entries == RenameResult(e4, f, tmp, dst).value)
  {
  }
}
