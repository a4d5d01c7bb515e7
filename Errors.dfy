/**
 * The failures the movers report.  The program's own error enum covers only
 * a few of them; the rest are anyhow messages, one variant per message here.
 */
module Errors {
  import opened Common
  import opened Paths
  import opened Fs

  datatype MoveError =
    /** A shutdown request was seen (AriaMoveError::Interrupted). */
    | Interrupted
    /** move_dir's "shutdown requested". */
    | ShutdownRequested
    | ProvidedNotFile(path: Path)
    | BaseInvalid(path: Path)
    | NoneFound(path: Path)
    | Disappeared(path: Path)
    | PermissionDenied(path: Path, context: string)
    /** "Refusing to move the download base folder itself". */
    | RefuseBase(path: Path)
    /** The source has no final component to name the destination after. */
    | NoFileName(path: Path)
    /** "Source does not exist". */
    | SourceMissing(path: Path)
    | RefuseSymlink(path: Path)
    | NotFileOrDir(path: Path)
    /** A file of a directory being copied looks like it is still written to. */
    | InUse(path: Path)
    /** stable_file_probe: the size kept changing. */
    | Unstable(path: Path)
    | NoParent(path: Path)
    /** ensure_space_for_copy: free space below the requirement plus the cushion. */
    | NotEnoughSpace(dir: Path, required: u64, free: u64)
    /** check_disk_space: statvfs failed. */
    | DiskCheckFailed(dir: Path)
    /** check_disk_space: the source is larger than the available space. */
    | SourceTooLarge(need: nat, have: nat)
    /** move_file_old: the claim found no source, and there is no destination either. */
    | ClaimLost(path: Path)
    | ClaimFailed(path: Path, error: IoError)
    | RenameFailed(from: Path, to: Path, error: IoError)
    /** An io::Error passed on, with the context it was given ("" for none). */
    | Io(context: string, error: IoError)

  /** What a mover leaves behind: the entries afterwards and what it returned. */
  datatype Outcome<T> = Outcome(entries: Entries, result: Result<T, MoveError>)
}
