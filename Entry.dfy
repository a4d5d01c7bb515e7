/**
 * The dispatcher (fs_ops/entry.rs): refuse the download base itself, look
 * the source up without following links, refuse a link, and hand a regular
 * file to move_file and a directory to move_dir.
 */
module Entry {
  import opened Common
  import opened Paths
  import opened Fs
  import opened Errors
  import opened Space
  import opened Utils
  import opened ConfigTypes
  import opened FileMove
  import opened DirMove

  /**
   * move_entry, which hands a regular file to move_file as written.  `rs`
   * are the size readings move_file's stability probe sees, `probes` those
   * of each file a directory copy checks; the walk orders are move_dir's.
   */
  ghost function MoveEntryOutcome(e: Entries, f: Faults, cfg: Config, src: Path, shutdown: bool, rs: Readings,
                                  q: Result<StatVfs, IoError>, pid: nat, now: nat, probes: Path -> Readings,
                                  dirWalk: seq<WalkItem>, fileWalk: seq<WalkItem>): Outcome<Path>
  {
    if EnsureNotBase(e, cfg.downloadBase, src).Err? then Outcome(e, Err(EnsureNotBase(e, cfg.downloadBase, src).error))
    else
      match Lstat(e, f, src)
      case Err(x) => Outcome(e, Err(if x.kind == NotFound then SourceMissing(src) else Io("", x)))
      case Ok(m) =>
        match m
        case Symlink(_) => Outcome(e, Err(RefuseSymlink(src)))
        case File(_, _, _, _) => MoveFileOutcome(e, f, cfg, src, shutdown, rs, q, pid, now, false)
        case Dir(_) => MoveDirOutcome(e, f, cfg, src, shutdown, q, probes, dirWalk, fileWalk, now)
        case Special => Outcome(e, Err(NotFileOrDir(src)))
  }

  /** move_entry. */
  method MoveEntry(fs: FileSystem, cfg: Config, src: Path, shutdown: bool, rs: Readings, q: Result<StatVfs, IoError>,
                   pid: nat, probes: Path -> Readings)
    returns (r: Result<Path, MoveError>, ghost dirWalk: seq<WalkItem>, ghost fileWalk: seq<WalkItem>)
    requires fs.Valid()
    modifies fs
    ensures fs.Valid()
    ensures Lstat(old(fs.entries), fs.faults, src).Ok? && Lstat(old(fs.entries), fs.faults, src).value.Dir?
            && WalksSource(old(fs.entries), fs.faults, cfg, src, shutdown, q) ==>
      WalkOrders(old(fs.entries), fs.faults, src, DirTarget(cfg, src), dirWalk, fileWalk)
    ensures Outcome(fs.entries, r) ==
      MoveEntryOutcome(old(fs.entries), fs.faults, cfg, src, shutdown, rs, q, pid, fs.now, probes, dirWalk, fileWalk)
  {
    dirWalk, fileWalk := [], [];
    var notBase := EnsureNotBase(fs.entries, cfg.downloadBase, src);
    if notBase.Err? {
      return Err(notBase.error), dirWalk, fileWalk;
    }
    var lmeta := Lstat(fs.entries, fs.faults, src);
    if lmeta.Err? {
      if lmeta.error.kind == NotFound {
        return Err(SourceMissing(src)), dirWalk, fileWalk;
      }
      return Err(Io("", lmeta.error)), dirWalk, fileWalk;
    }
    match lmeta.value
    case Symlink(_) =>
      r := Err(RefuseSymlink(src));
    case File(_, _, _, _) =>
      r := MoveFileAsWritten(fs, cfg, src, shutdown, rs, q, pid);
    case Dir(_) =>
      r, dirWalk, fileWalk := MoveDir(fs, cfg, src, shutdown, q, probes);
    case Special =>
      r := Err(NotFileOrDir(src));
  }

  // ---------------------------------------------------------------------
  // What move_entry guarantees

  /**
   * Links, missing sources and entries that are neither files nor
   * directories are refused before anything changes.
   */
  lemma EntryRefusals(e: Entries, f: Faults, cfg: Config, src: Path, shutdown: bool, rs: Readings,
                      q: Result<StatVfs, IoError>, pid: nat, now: nat, probes: Path -> Readings,
                      dirWalk: seq<WalkItem>, fileWalk: seq<WalkItem>)
    requires EnsureNotBase(e, cfg.downloadBase, src).Ok?
    ensures src in e && e[src].Symlink? && LstatOp(src) !in f ==>
      MoveEntryOutcome(e, f, cfg, src, shutdown, rs, q, pid, now, probes, dirWalk, fileWalk) == Outcome(e, Err(RefuseSymlink(src)))
    ensures src in e && e[src].Special? && LstatOp(src) !in f ==>
      MoveEntryOutcome(e, f, cfg, src, shutdown, rs, q, pid, now, probes, dirWalk, fileWalk) == Outcome(e, Err(NotFileOrDir(src)))
    ensures src !in e && LstatOp(src) !in f ==>
      MoveEntryOutcome(e, f, cfg, src, shutdown, rs, q, pid, now, probes, dirWalk, fileWalk) == Outcome(e, Err(SourceMissing(src)))
  {
  }

  /** The download base itself is never moved, whatever it is. */
  lemma EntryRefusesBase(e: Entries, f: Faults, cfg: Config, shutdown: bool, rs: Readings,
                         q: Result<StatVfs, IoError>, pid: nat, now: nat, probes: Path -> Readings,
                         dirWalk: seq<WalkItem>, fileWalk: seq<WalkItem>)
    ensures var o := MoveEntryOutcome(e, f, cfg, cfg.downloadBase, shutdown, rs, q, pid, now, probes, dirWalk, fileWalk);
      o == Outcome(e, Err(RefuseBase(cfg.downloadBase)))
  {
  }

  /** Whatever moved, and whether in a dry run or not, it reports a path directly inside completed_base. */
  lemma EntryLandsInCompleted(e: Entries, f: Faults, cfg: Config, src: Path, shutdown: bool, rs: Readings,
                              q: Result<StatVfs, IoError>, pid: nat, now: nat, probes: Path -> Readings,
                              dirWalk: seq<WalkItem>, fileWalk: seq<WalkItem>)
    requires WellFormed(e)
    ensures var o := MoveEntryOutcome(e, f, cfg, src, shutdown, rs, q, pid, now, probes, dirWalk, fileWalk);
      o.result.Ok? ==> Parent(o.result.value) == Some(cfg.completedBase)
  {
    RunReportsPlannedDest(e, f, cfg, src, shutdown, rs, q, pid, now, false);
  }
}
