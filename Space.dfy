/**
 * Free-space arithmetic before a copy: the statvfs product (fs_ops/space.rs)
 * and the plain size test of check_disk_space (fs_ops/disk.rs).
 */
module Space {
  import opened Common
  import opened Paths
  import opened Fs
  import opened Errors

  /** 4 MiB kept free beyond the bytes a copy needs. */
  const CUSHION: u64 := 4 * 1024 * 1024

  /** The statvfs fields the queries read. */
  datatype StatVfs = StatVfs(bavail: u64, frsize: u64, bsize: u64)

  /** f_frsize, or f_bsize where a platform reports a zero fragment size. */
  function BlockSize(s: StatVfs): u64 {
    if s.frsize != 0 then s.frsize else s.bsize
  }

  /** free_space_bytes: available blocks times the block size, saturating at u64::MAX. */
  function FreeSpaceBytes(q: Result<StatVfs, IoError>): (r: Result<u64, IoError>)
    ensures q.Err? ==> r == Err(q.error)
    ensures q.Ok? ==> r.Ok? && r.value == Min(q.value.bavail * BlockSize(q.value), U64_MAX)
  {
    match q
    case Err(x) => Err(x)
    case Ok(s) => Ok(SatMul(s.bavail, BlockSize(s)))
  }

  /** ensure_space_for_copy: the free space must reach the requirement plus the cushion. */
  function EnsureSpaceForCopy(q: Result<StatVfs, IoError>, dstDir: Path, required: u64): (r: Result<(), MoveError>)
    ensures q.Err? ==> r == Err(Io("", q.error))
    ensures q.Ok? ==> (r.Ok? <==> FreeSpaceBytes(q).value >= Min(required + CUSHION, U64_MAX))
    ensures r.Err? && q.Ok? ==> r.error == NotEnoughSpace(dstDir, required, FreeSpaceBytes(q).value)
  {
    match FreeSpaceBytes(q)
    case Err(x) => Err(Io("", x))
    case Ok(free) =>
      var need := SatAdd(required, CUSHION);
      if free < need then Err(NotEnoughSpace(dstDir, required, free)) else Ok(())
  }

  /** The cushion boundary is exact: its last byte decides. */
  lemma SpaceBoundary(q: Result<StatVfs, IoError>, dstDir: Path, required: u64)
    requires q.Ok? && required + CUSHION <= U64_MAX
    ensures FreeSpaceBytes(q).value == required + CUSHION ==> EnsureSpaceForCopy(q, dstDir, required).Ok?
    ensures FreeSpaceBytes(q).value == required + CUSHION - 1 ==> EnsureSpaceForCopy(q, dstDir, required).Err?
  {
  }

  /** Past u64::MAX the requirement clamps, and only a full u64 of free space passes. */
  lemma SpaceSaturates(q: Result<StatVfs, IoError>, dstDir: Path, required: u64)
    requires q.Ok? && required + CUSHION > U64_MAX
    ensures EnsureSpaceForCopy(q, dstDir, required).Ok? <==> FreeSpaceBytes(q).value == U64_MAX
  {
  }

  /** A zero fragment size falls back to the block size. */
  lemma FragmentFallback(bavail: u64, bsize: u64)
    ensures FreeSpaceBytes(Ok(StatVfs(bavail, 0, bsize))) == FreeSpaceBytes(Ok(StatVfs(bavail, bsize, bsize)))
  {
  }

  /**
   * check_disk_space: the source's size (its bytes when it is a regular
   * file) against f_bavail * f_frsize, computed in u128 where it cannot
   * overflow; there is no cushion and no f_bsize fallback.
   */
  function CheckDiskSpace(e: Entries, f: Faults, src: Path, destDir: Path, q: Result<StatVfs, IoError>): (r: Result<(), MoveError>)
    ensures IsFile(e, f, src) && q.Ok? ==>
      (r.Ok? <==> |Stat(e, f, src).value.data| <= q.value.bavail * q.value.frsize)
    ensures q.Err? ==> r.Err?
  {
    var size := if IsFile(e, f, src) then |Stat(e, f, src).value.data| else 0;
    match q
    case Err(_) => Err(DiskCheckFailed(destDir))
    case Ok(s) =>
      var available := s.bavail * s.frsize;
      if size > available then Err(SourceTooLarge(size, available)) else Ok(())
  }
}
