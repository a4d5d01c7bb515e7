/**
 * The filesystem the program acts on, as an abstract map from paths to
 * entries, and the std::fs / walkdir primitives it calls.  Each primitive is
 * a pure function from the current entries to a result (the new entries, or
 * the std::io::Error it fails with); the class FileSystem holds the mutable
 * entries and applies those functions.
 *
 * The map is the whole filesystem: a path is looked up by its key, only a
 * symbolic link named by the final component is followed.  Failures that
 * the kernel reports for the situation the map describes (a missing source,
 * a directory in the way, an existing name under O_EXCL) arise from the map;
 * every other failure (permissions, EXDEV, I/O errors, a full disk) is a
 * fault: `faults` names the operations that fail and the error they return.
 */
module Fs {
  import opened Common
  import opened Paths

  // Linux errno values.
  const EPERM := 1
  const ENOENT := 2
  const EAGAIN := 11
  const EACCES := 13
  const EBUSY := 16
  const EEXIST := 17
  const EXDEV := 18
  const ENOTDIR := 20
  const EISDIR := 21
  const EINVAL := 22
  const ENOSPC := 28
  const ENOTEMPTY := 39
  const ELOOP := 40
  const ETIMEDOUT := 110

  /** Symbolic-link hops the kernel follows before ELOOP. */
  const MAX_SYMLINK_HOPS := 40

  /** Mode bits of new directories and new files (umask 022). */
  const DIR_MODE := 0x1ED   // 0o755
  const FILE_MODE := 0x1A4  // 0o644

  datatype IoKind =
    | NotFound | PermissionDenied | AlreadyExists | WouldBlock | TimedOut
    | InvalidInput | IsADirectory | NotADirectory | DirectoryNotEmpty
    | CrossesDevices | ResourceBusy | FilesystemLoop | StorageFull | Other

  /** std::sys::unix::decode_error_kind for the codes the model uses. */
  function KindOfCode(code: int): IoKind {
    if code == EPERM || code == EACCES then PermissionDenied
    else if code == ENOENT then NotFound
    else if code == EEXIST then AlreadyExists
    else if code == EAGAIN then WouldBlock
    else if code == ETIMEDOUT then TimedOut
    else if code == EINVAL then InvalidInput
    else if code == EISDIR then IsADirectory
    else if code == ENOTDIR then NotADirectory
    else if code == ENOTEMPTY then DirectoryNotEmpty
    else if code == EXDEV then CrossesDevices
    else if code == EBUSY then ResourceBusy
    else if code == ELOOP then FilesystemLoop
    else if code == ENOSPC then StorageFull
    else Other
  }

  /** A std::io::Error: its kind, its raw OS code if any, and its text. */
  datatype IoError = IoError(kind: IoKind, code: Option<int>, detail: string)

  /** io::Error::from_raw_os_error. */
  function OsError(code: int): (e: IoError)
    ensures e.code == Some(code) && e.kind == KindOfCode(code)
  {
    IoError(KindOfCode(code), Some(code), StrError(code))
  }

  /** io::Error::new(kind, text): no raw OS code. */
  function Custom(kind: IoKind, text: string): (e: IoError)
    ensures e.code.None? && e.kind == kind
  {
    IoError(kind, None, text)
  }

  function StrError(code: int): string {
    if code == EPERM then "Operation not permitted"
    else if code == ENOENT then "No such file or directory"
    else if code == EACCES then "Permission denied"
    else if code == EEXIST then "File exists"
    else if code == EXDEV then "Invalid cross-device link"
    else if code == ENOTDIR then "Not a directory"
    else if code == EISDIR then "Is a directory"
    else if code == ENOTEMPTY then "Directory not empty"
    else if code == EBUSY then "Device or resource busy"
    else if code == EINVAL then "Invalid argument"
    else if code == ELOOP then "Too many levels of symbolic links"
    else if code == ENOSPC then "No space left on device"
    else "Unknown error"
  }

  /** How an io::Error displays: an OS error adds " (os error N)". */
  function ErrorText(e: IoError): string {
    match e.code
    case Some(c) => e.detail + " (os error " + (if c >= 0 then Decimal(c) else "-" + Decimal(-c)) + ")"
    case None => e.detail
  }

  /** What a path names: times are nanoseconds since the epoch. */
  datatype Entry =
    | File(data: seq<byte>, mode: nat, mtime: nat, atime: nat)
    | Dir(mode: nat)
    | Symlink(target: Path)
    | Special

  type Entries = map<Path, Entry>

  /** The operations a fault can be attached to. */
  datatype Op =
    | StatOp(p: Path) | LstatOp(p: Path) | OpenOp(p: Path) | CreateOp(p: Path)
    | WriteOp(p: Path) | SyncOp(p: Path) | RenameOp(from: Path, to: Path)
    | RemoveFileOp(p: Path) | RemoveDirAllOp(p: Path) | MkdirOp(p: Path)
    | ReadDirOp(p: Path) | SetTimesOp(p: Path) | SetPermsOp(p: Path)

  type Faults = map<Op, IoError>

  // ---------------------------------------------------------------------
  // Looking paths up

  /** Follows a chain of symbolic links to the entry it ends at. */
  function Follow(e: Entries, p: Path, fuel: nat): (r: Result<Path, IoError>)
    ensures r.Ok? ==> p in e && r.value in e && !e[r.value].Symlink?
    ensures r.Ok? && p in e && !e[p].Symlink? ==> r.value == p
    decreases fuel
  {
    if p !in e then Err(OsError(ENOENT))
    else match e[p]
      case Symlink(t) => if fuel == 0 then Err(OsError(ELOOP)) else Follow(e, t, fuel - 1)
      case _ => Ok(p)
  }

  /** std::fs::metadata: follows symbolic links. */
  function Stat(e: Entries, f: Faults, p: Path): (r: Result<Entry, IoError>)
    ensures r.Ok? ==> p in e && !r.value.Symlink? && StatOp(p) !in f
    ensures p in e && !e[p].Symlink? && StatOp(p) !in f ==> r == Ok(e[p])
  {
    if StatOp(p) in f then Err(f[StatOp(p)])
    else match Follow(e, p, MAX_SYMLINK_HOPS)
      case Ok(q) => Ok(e[q])
      case Err(x) => Err(x)
  }

  /** std::fs::symlink_metadata: the entry the name itself holds. */
  function Lstat(e: Entries, f: Faults, p: Path): (r: Result<Entry, IoError>)
    ensures r.Ok? <==> p in e && LstatOp(p) !in f
    ensures r.Ok? ==> r.value == e[p]
  {
    if LstatOp(p) in f then Err(f[LstatOp(p)])
    else if p !in e then Err(OsError(ENOENT))
    else Ok(e[p])
  }

  /** Path::exists: metadata succeeds (a dangling link does not exist). */
  predicate Exists(e: Entries, f: Faults, p: Path) { Stat(e, f, p).Ok? }

  predicate IsDir(e: Entries, f: Faults, p: Path) { Stat(e, f, p).Ok? && Stat(e, f, p).value.Dir? }

  predicate IsFile(e: Entries, f: Faults, p: Path) { Stat(e, f, p).Ok? && Stat(e, f, p).value.File? }

  /** Path::try_exists: Ok(false) only when the lookup reports NotFound. */
  function TryExists(e: Entries, f: Faults, p: Path): Result<bool, IoError> {
    match Stat(e, f, p)
    case Ok(_) => Ok(true)
    case Err(x) => if x.kind == NotFound then Ok(false) else Err(x)
  }

  /** The parent of `p` is an existing directory (the root always is). */
  predicate ParentIsDir(e: Entries, p: Path) {
    p != [] && (|p| == 1 || (p[..|p| - 1] in e && e[p[..|p| - 1]].Dir?))
  }

  /** The names inside directory `d`. */
  function Children(e: Entries, d: Path): set<string> {
    set k | k in e && |k| == |d| + 1 && d <= k :: k[|d|]
  }

  /** Every path at or below `p`. */
  function Subtree(e: Entries, p: Path): set<Path> {
    set k | k in e && p <= k
  }

  /** std::fs::read_dir (follows a link to a directory): the names it lists. */
  function ReadDir(e: Entries, f: Faults, p: Path): Result<set<string>, IoError> {
    if ReadDirOp(p) in f then Err(f[ReadDirOp(p)])
    else match Follow(e, p, MAX_SYMLINK_HOPS)
      case Err(x) => Err(x)
      case Ok(q) => if e[q].Dir? then Ok(Children(e, q)) else Err(OsError(ENOTDIR))
  }

  // ---------------------------------------------------------------------
  // Changing the filesystem

  /** Where the entries at or below `from` land when it is renamed to `to`. */
  function MovedKeys(e: Entries, from: Path, to: Path): (r: set<Path>)
    ensures forall k' :: k' in r ==> to <= k' && from + k'[|to|..] in e
  {
    var r := set k | k in e && from <= k :: to + k[|from|..];
    assert forall k' :: k' in r ==> to <= k' && from + k'[|to|..] in e by {
      forall k' | k' in r ensures to <= k' && from + k'[|to|..] in e {
        var k :| k in e && from <= k && k' == to + k[|from|..];
        assert k'[|to|..] == k[|from|..];
        assert from + k[|from|..] == k;
      }
    }
    r
  }

  /** The entries after a successful rename of `from` (and all below it) to `to`. */
  function RenameTree(e: Entries, from: Path, to: Path): Entries {
    var kept := map k | k in e && !(from <= k) && !(to <= k) :: e[k];
    var moved := map k' | k' in MovedKeys(e, from, to) :: e[from + k'[|to|..]];
    kept + moved
  }

  /**
   * std::fs::rename as rename(2) behaves on Linux: a file replaces a
   * non-directory, a directory replaces an empty directory, and the
   * mismatched cases fail with EISDIR, ENOTDIR or ENOTEMPTY.
   */
  function RenameResult(e: Entries, f: Faults, from: Path, to: Path): Result<Entries, IoError> {
    match RenameError(e, f, from, to)
    case Some(x) => Err(x)
    case None => Ok(if from == to then e else RenameTree(e, from, to))
  }

  /** Why a rename fails, if it does. */
  function RenameError(e: Entries, f: Faults, from: Path, to: Path): Option<IoError> {
    if RenameOp(from, to) in f then Some(f[RenameOp(from, to)])
    else if from !in e then Some(OsError(ENOENT))
    else if from == to then None
    else if !ParentIsDir(e, to) then Some(OsError(ENOENT))
    else if e[from].Dir? && from <= to then Some(OsError(EINVAL))
    else if to in e && e[from].Dir? && !e[to].Dir? then Some(OsError(ENOTDIR))
    else if to in e && !e[from].Dir? && e[to].Dir? then Some(OsError(EISDIR))
    else if to in e && e[to].Dir? && Children(e, to) != {} then Some(OsError(ENOTEMPTY))
    else None
  }

  /** std::fs::remove_file: unlinks a non-directory. */
  function RemoveFileResult(e: Entries, f: Faults, p: Path): Result<Entries, IoError> {
    if RemoveFileOp(p) in f then Err(f[RemoveFileOp(p)])
    else if p !in e then Err(OsError(ENOENT))
    else if e[p].Dir? then Err(OsError(EISDIR))
    else Ok(e - {p})
  }

  /** std::fs::remove_dir_all: a directory and all below it (a link: the link only). */
  function RemoveDirAllResult(e: Entries, f: Faults, p: Path): Result<Entries, IoError> {
    if RemoveDirAllOp(p) in f then Err(f[RemoveDirAllOp(p)])
    else if p !in e then Err(OsError(ENOENT))
    else match e[p]
      case Dir(_) => Ok(e - Subtree(e, p))
      case Symlink(_) => Ok(e - {p})
      case _ => Err(OsError(ENOTDIR))
  }

  /** std::fs::create_dir_all: creates each missing directory of `p`, outermost first. */
  function CreateDirAllResult(e: Entries, f: Faults, p: Path): (r: Result<Entries, IoError>)
    ensures r.Ok? ==> e.Keys <= r.value.Keys && forall k :: k in e ==> r.value[k] == e[k]
    ensures r.Ok? ==> forall k :: k in r.value && k !in e ==> k <= p && r.value[k] == Dir(DIR_MODE)
    ensures r.Ok? && p != [] ==> p in r.value
    decreases |p|
  {
    if p == [] then Ok(e)
    else if p in e then (if IsDir(e, f, p) then Ok(e) else Err(OsError(EEXIST)))
    else
      var q := p[..|p| - 1];
      if q != [] && q in e && !e[q].Dir? then Err(OsError(ENOTDIR))
      else
        var base := if q == [] || q in e then Ok(e) else CreateDirAllResult(e, f, q);
        match base
        case Err(x) => Err(x)
        case Ok(e1) => if MkdirOp(p) in f then Err(f[MkdirOp(p)]) else Ok(e1[p := Dir(DIR_MODE)])
  }

  /** The outcome of writing a new file: the entries afterwards, and the error if any. */
  datatype WriteOutcome = WriteOutcome(entries: Entries, error: Option<IoError>)

  /**
   * Opening `src` for reading and `dst` with create_new, then copying the
   * bytes (io_copy::copy_streaming): an existing `dst` of any kind fails with
   * EEXIST and nothing is created; a failure after `dst` was created leaves it
   * behind, empty.
   */
  function CopyNewResult(e: Entries, f: Faults, src: Path, dst: Path, now: nat): (r: WriteOutcome)
    ensures r.error.None? ==> IsFile(e, f, src) && dst !in e
    ensures r.error.None? ==> r.entries == e[dst := File(Stat(e, f, src).value.data, FILE_MODE, now, now)]
    ensures r.error.Some? ==> r.entries == e || r.entries == e[dst := File([], FILE_MODE, now, now)]
    ensures r.entries != e ==> dst !in e && ParentIsDir(e, dst)
  {
    if OpenOp(src) in f then WriteOutcome(e, Some(f[OpenOp(src)]))
    else if Stat(e, f, src).Err? then WriteOutcome(e, Some(Stat(e, f, src).error))
    else if dst in e then WriteOutcome(e, Some(OsError(EEXIST)))
    else if !ParentIsDir(e, dst) then WriteOutcome(e, Some(OsError(ENOENT)))
    else if CreateOp(dst) in f then WriteOutcome(e, Some(f[CreateOp(dst)]))
    else
      var created := e[dst := File([], FILE_MODE, now, now)];
      match Stat(e, f, src).value
      case File(data, _, _, _) =>
        if WriteOp(dst) in f then WriteOutcome(created, Some(f[WriteOp(dst)]))
        else WriteOutcome(e[dst := File(data, FILE_MODE, now, now)], None)
      case _ => WriteOutcome(created, Some(OsError(EISDIR)))
  }

  /**
   * std::fs::copy: the source must be a regular file; `dst` is created or
   * truncated and gets the source's content and permission bits.
   */
  function CopyResult(e: Entries, f: Faults, src: Path, dst: Path, now: nat): (r: WriteOutcome)
    ensures r.error.None? ==> IsFile(e, f, src)
    ensures r.error.None? ==>
      r.entries == e[dst := File(Stat(e, f, src).value.data, Stat(e, f, src).value.mode, now, now)]
    ensures forall p :: p != dst ==> (p in r.entries <==> p in e) && (p in e ==> r.entries[p] == e[p])
  {
    if OpenOp(src) in f then WriteOutcome(e, Some(f[OpenOp(src)]))
    else if Stat(e, f, src).Err? then WriteOutcome(e, Some(Stat(e, f, src).error))
    else match Stat(e, f, src).value
      case File(data, mode, _, _) =>
        if !ParentIsDir(e, dst) then WriteOutcome(e, Some(OsError(ENOENT)))
        else if dst in e && e[dst].Dir? then WriteOutcome(e, Some(OsError(EISDIR)))
        else if CreateOp(dst) in f then WriteOutcome(e, Some(f[CreateOp(dst)]))
        else if WriteOp(dst) in f then WriteOutcome(e[dst := File([], mode, now, now)], Some(f[WriteOp(dst)]))
        else WriteOutcome(e[dst := File(data, mode, now, now)], None)
      case _ => WriteOutcome(e, Some(Custom(InvalidInput, "the source path is not a file")))
  }

  /** Path of the entry at (or linked from) `p` that is not itself a link. */
  function Target(e: Entries, p: Path): Option<Path> {
    match Follow(e, p, MAX_SYMLINK_HOPS)
    case Ok(q) => Some(q)
    case Err(_) => None
  }

  /** filetime::set_file_times (follows links); directories keep no times here. */
  function SetTimesResult(e: Entries, f: Faults, p: Path, atime: nat, mtime: nat): Result<Entries, IoError> {
    if SetTimesOp(p) in f then Err(f[SetTimesOp(p)])
    else match Target(e, p)
      case None => Err(OsError(ENOENT))
      case Some(q) =>
        match e[q]
        case File(data, mode, _, _) => Ok(e[q := File(data, mode, mtime, atime)])
        case _ => Ok(e)
  }

  /** std::fs::set_permissions (follows links). */
  function SetPermsResult(e: Entries, f: Faults, p: Path, mode: nat): Result<Entries, IoError> {
    if SetPermsOp(p) in f then Err(f[SetPermsOp(p)])
    else match Target(e, p)
      case None => Err(OsError(ENOENT))
      case Some(q) =>
        match e[q]
        case File(data, _, mt, at) => Ok(e[q := File(data, mode, mt, at)])
        case Dir(_) => Ok(e[q := Dir(mode)])
        case _ => Ok(e)
  }

  /** Why opening `p` (following links) fails, if it does; the root always opens. */
  function OpenError(e: Entries, f: Faults, p: Path): Option<IoError> {
    if OpenOp(p) in f then Some(f[OpenOp(p)])
    else if p == [] then None
    else if Stat(e, f, p).Err? then Some(Stat(e, f, p).error)
    else None
  }

  /** Why sync_all on an opened `p` fails, if it does. */
  function SyncError(f: Faults, p: Path): Option<IoError> {
    if SyncOp(p) in f then Some(f[SyncOp(p)]) else None
  }

  /**
   * OpenOptions with create_new and a mode, then write_all and sync_all:
   * a failure after the file was created leaves it behind.
   */
  function CreateNewWriteResult(e: Entries, f: Faults, p: Path, data: seq<byte>, mode: nat, now: nat): (r: WriteOutcome)
    ensures r.error.None? ==> p !in e && r.entries == e[p := File(data, mode, now, now)]
    ensures r.error.Some? ==>
      r.entries == e || r.entries == e[p := File([], mode, now, now)] || r.entries == e[p := File(data, mode, now, now)]
    ensures r.entries != e ==> p !in e && ParentIsDir(e, p)
  {
    if p in e then WriteOutcome(e, Some(OsError(EEXIST)))
    else if !ParentIsDir(e, p) then WriteOutcome(e, Some(OsError(ENOENT)))
    else if CreateOp(p) in f then WriteOutcome(e, Some(f[CreateOp(p)]))
    else if WriteOp(p) in f then WriteOutcome(e[p := File([], mode, now, now)], Some(f[WriteOp(p)]))
    else if SyncOp(p) in f then WriteOutcome(e[p := File(data, mode, now, now)], Some(f[SyncOp(p)]))
    else WriteOutcome(e[p := File(data, mode, now, now)], None)
  }

  // ---------------------------------------------------------------------
  // walkdir

  /** One item a WalkDir iterator yields: an entry, or the error of reading a directory. */
  datatype WalkItem = Found(path: Path) | Failed(dir: Path)

  /** Every directory from `root` down to (not including) `k` exists and can be read. */
  predicate Reachable(e: Entries, f: Faults, root: Path, k: Path)
    requires root <= k
  {
    forall j :: |root| <= j < |k| ==> k[..j] in e && e[k[..j]].Dir? && ReadDirOp(k[..j]) !in f
  }

  predicate WithinDepth(depth: nat, maxDepth: Option<nat>) {
    maxDepth.None? || depth <= maxDepth.value
  }

  predicate BelowDepth(depth: nat, maxDepth: Option<nat>) {
    maxDepth.None? || depth < maxDepth.value
  }

  /**
   * The items of WalkDir::new(root).follow_links(false) with the given depth
   * bounds: every reachable entry in range, and one error for each reachable
   * directory above the depth limit that cannot be read (or for a missing root).
   */
  function WalkItems(e: Entries, f: Faults, root: Path, minDepth: nat, maxDepth: Option<nat>): set<WalkItem> {
    (set k | k in e && root <= k && minDepth <= |k| - |root| && WithinDepth(|k| - |root|, maxDepth)
        && Reachable(e, f, root, k) :: Found(k))
    + (set k | k in e && root <= k && BelowDepth(|k| - |root|, maxDepth) && Reachable(e, f, root, k)
        && e[k].Dir? && ReadDirOp(k) in f :: Failed(k))
    + (if root in e then {} else {Failed(root)})
  }

  predicate Distinct<T(==)>(xs: seq<T>) {
    forall i, j :: 0 <= i < j < |xs| ==> xs[i] != xs[j]
  }

  /** A sequence without repeats has as many elements as the set of its elements. */
  lemma {:induction false} DistinctCount<T>(xs: seq<T>, s: set<T>)
    requires Distinct(xs) && (set x | x in xs) == s
    ensures |xs| == |s|
  {
    if xs != [] {
      var rest := xs[1..];
      assert Distinct(rest);
      assert xs[0] !in rest;
      assert (set x | x in rest) == s - {xs[0]};
      DistinctCount(rest, s - {xs[0]});
    }
  }

  /** The elements of a finite set in some order. */
  method Enumerate<T(==)>(s: set<T>) returns (xs: seq<T>)
    ensures Distinct(xs) && (set x | x in xs) == s
  {
    xs := [];
    var rest := s;
    while rest != {}
      invariant Distinct(xs)
      invariant (set x | x in xs) + rest == s
      invariant forall x :: x in xs ==> x !in rest
      decreases |rest|
    {
      var x :| x in rest;
      xs := xs + [x];
      rest := rest - {x};
    }
  }

  // ---------------------------------------------------------------------
  // Well-formedness: the map describes a tree

  /** `k` names an entry; the well-formedness quantifier is keyed on this, not on `k in e`. */
  ghost predicate HasEntry(e: Entries, k: Path) { k in e }

  /** Every entry's parent is a directory; the root itself is not an entry. */
  ghost predicate WellFormed(e: Entries) {
    [] !in e && forall k {:trigger HasEntry(e, k)} :: HasEntry(e, k) && |k| > 1 ==> k[..|k| - 1] in e && e[k[..|k| - 1]].Dir?
  }

  /** The parent of an entry below the top level is a directory. */
  lemma ParentOfEntry(e: Entries, k: Path)
    requires WellFormed(e) && k in e && |k| > 1
    ensures k[..|k| - 1] in e && e[k[..|k| - 1]].Dir?
  {
    assert HasEntry(e, k);
  }

  lemma {:induction false} AncestorsAreDirs(e: Entries, k: Path, j: nat)
    requires WellFormed(e) && k in e && 1 <= j < |k|
    ensures k[..j] in e && e[k[..j]].Dir?
    decreases |k| - j
  {
    var q := k[..|k| - 1];
    ParentOfEntry(e, k);
    if j < |k| - 1 {
      AncestorsAreDirs(e, q, j);
      assert q[..j] == k[..j];
    }
  }

  /** Nothing lies below a name that is absent or not a directory. */
  lemma NothingBelow(e: Entries, p: Path, k: Path)
    requires WellFormed(e) && p != [] && p < k
    requires p !in e || !e[p].Dir?
    ensures k !in e
  {
    if k in e {
      assert k[..|p|] == p;
      AncestorsAreDirs(e, k, |p|);
    }
  }

  /** Giving name `p` (whose parent is a directory) an entry that keeps the tree a tree. */
  lemma WellFormedUpdate(e: Entries, p: Path, v: Entry)
    requires WellFormed(e) && ParentIsDir(e, p)
    requires v.Dir? || p !in e || !e[p].Dir?
    ensures WellFormed(e[p := v])
  {
    var e2 := e[p := v];
    forall k | HasEntry(e2, k) && |k| > 1 ensures k[..|k| - 1] in e2 && e2[k[..|k| - 1]].Dir? {
      if k != p {
        ParentOfEntry(e, k);
        var q := k[..|k| - 1];
        if q == p && !v.Dir? {
          NothingBelow(e, p, k);
        }
      }
    }
  }

  lemma WellFormedRemoveFile(e: Entries, f: Faults, p: Path)
    requires WellFormed(e) && RemoveFileResult(e, f, p).Ok?
    ensures WellFormed(RemoveFileResult(e, f, p).value)
  {
    var e2 := e - {p};
    forall k | HasEntry(e2, k) && |k| > 1 ensures k[..|k| - 1] in e2 && e2[k[..|k| - 1]].Dir? {
      ParentOfEntry(e, k);
    }
  }

  lemma WellFormedRemoveDirAll(e: Entries, f: Faults, p: Path)
    requires WellFormed(e) && RemoveDirAllResult(e, f, p).Ok?
    ensures WellFormed(RemoveDirAllResult(e, f, p).value)
  {
    var e2 := RemoveDirAllResult(e, f, p).value;
    forall k | HasEntry(e2, k) && |k| > 1 ensures k[..|k| - 1] in e2 && e2[k[..|k| - 1]].Dir? {
      var q := k[..|k| - 1];
      ParentOfEntry(e, k);
      assert p <= q ==> p <= k;
    }
  }

  lemma {:induction false} WellFormedCreateDirAll(e: Entries, f: Faults, p: Path)
    requires WellFormed(e) && CreateDirAllResult(e, f, p).Ok?
    ensures WellFormed(CreateDirAllResult(e, f, p).value)
    ensures p != [] ==> var e2 := CreateDirAllResult(e, f, p).value; p in e2 && (p !in e ==> e2[p].Dir?)
    decreases |p|
  {
    if p != [] && p !in e {
      var q := p[..|p| - 1];
      var e1 := if q == [] || q in e then e else CreateDirAllResult(e, f, q).value;
      if q != [] && q !in e {
        WellFormedCreateDirAll(e, f, q);
      }
      assert ParentIsDir(e1, p);
      WellFormedUpdate(e1, p, Dir(DIR_MODE));
    }
  }

  /** Where each key of a renamed tree comes from. */
  lemma RenameTreeAt(e: Entries, from: Path, to: Path, k': Path)
    ensures k' in MovedKeys(e, from, to) ==>
      k' in RenameTree(e, from, to) && RenameTree(e, from, to)[k'] == e[from + k'[|to|..]]
    ensures k' !in MovedKeys(e, from, to) && k' in e && !(from <= k') && !(to <= k') ==>
      k' in RenameTree(e, from, to) && RenameTree(e, from, to)[k'] == e[k']
    ensures k' in RenameTree(e, from, to) ==>
      k' in MovedKeys(e, from, to) || (k' in e && !(from <= k') && !(to <= k'))
  {
  }

  /** The rename preconditions rename(2) checks before it moves a tree. */
  predicate RenameAllowed(e: Entries, from: Path, to: Path) {
    from in e && from != to && ParentIsDir(e, to) && !(e[from].Dir? && from <= to)
  }

  /** The parent of the destination itself is a directory that stays where it was. */
  lemma RenameParentOfTarget(e: Entries, from: Path, to: Path)
    requires WellFormed(e) && RenameAllowed(e, from, to) && |to| > 1
    ensures var e2 := RenameTree(e, from, to); to[..|to| - 1] in e2 && e2[to[..|to| - 1]].Dir?
  {
    var pk := to[..|to| - 1];
    if to in e { ParentOfEntry(e, to); }
    assert pk in e && e[pk].Dir?;
    if from <= pk {
      assert from <= to;
      if from != pk { NothingBelow(e, from, pk); }
    }
    assert !(to <= pk);
    assert pk !in MovedKeys(e, from, to);
    RenameTreeAt(e, from, to, pk);
  }

  /** Re-rooting commutes with taking the parent. */
  lemma RerootParent(from: Path, to: Path, k: Path)
    requires from < k
    ensures var k' := to + k[|from|..]; var kp := k[..|k| - 1];
      |k'| > |to| && from <= kp && k'[..|k'| - 1] == to + kp[|from|..]
      && from + k'[..|k'| - 1][|to|..] == kp
  {
    var t := k[|from|..];
    assert k == from + t;
    var u := t[..|t| - 1];
    assert k[..|k| - 1] == from + u;
    assert (to + t)[..|to + t| - 1] == to + u;
    assert (to + u)[|to|..] == u;
  }

  lemma MovedKeyOf(e: Entries, from: Path, to: Path, k: Path)
    requires k in e && from <= k
    ensures to + k[|from|..] in MovedKeys(e, from, to)
  {
  }

  /** A key moved from strictly below `from` has its moved parent above it. */
  lemma RenameParentOfDeep(e: Entries, from: Path, to: Path, k: Path)
    requires k in e && from < k
    requires k[..|k| - 1] in e && e[k[..|k| - 1]].Dir?
    ensures var k' := to + k[|from|..]; var e2 := RenameTree(e, from, to);
      k'[..|k'| - 1] in e2 && e2[k'[..|k'| - 1]].Dir?
  {
    var k' := to + k[|from|..];
    var pk := k'[..|k'| - 1];
    var kp := k[..|k| - 1];
    RerootParent(from, to, k);
    MovedKeyOf(e, from, to, kp);
    RenameTreeAt(e, from, to, pk);
  }

  lemma RenameParentOfMoved(e: Entries, from: Path, to: Path, k': Path)
    requires WellFormed(e) && RenameAllowed(e, from, to)
    requires k' in MovedKeys(e, from, to) && |k'| > 1
    ensures var e2 := RenameTree(e, from, to); k'[..|k'| - 1] in e2 && e2[k'[..|k'| - 1]].Dir?
  {
    var k :| k in e && from <= k && k' == to + k[|from|..];
    if k == from {
      assert k' == to;
      RenameParentOfTarget(e, from, to);
    } else {
      ParentOfEntry(e, k);
      RenameParentOfDeep(e, from, to, k);
    }
  }

  lemma RenameParentOfKept(e: Entries, from: Path, to: Path, k': Path)
    requires WellFormed(e) && RenameAllowed(e, from, to)
    requires k' !in MovedKeys(e, from, to) && k' in RenameTree(e, from, to) && |k'| > 1
    ensures var e2 := RenameTree(e, from, to); k'[..|k'| - 1] in e2 && e2[k'[..|k'| - 1]].Dir?
  {
    RenameTreeAt(e, from, to, k');
    ParentOfEntry(e, k');
    var pk := k'[..|k'| - 1];
    assert !(from <= pk) && !(to <= pk);
    RenameTreeAt(e, from, to, pk);
  }

  lemma WellFormedRename(e: Entries, f: Faults, from: Path, to: Path)
    requires WellFormed(e) && RenameResult(e, f, from, to).Ok?
    ensures WellFormed(RenameResult(e, f, from, to).value)
  {
    if from != to {
      assert RenameAllowed(e, from, to);
      var e2 := RenameTree(e, from, to);
      forall k' | HasEntry(e2, k') && |k'| > 1 ensures k'[..|k'| - 1] in e2 && e2[k'[..|k'| - 1]].Dir? {
        if k' in MovedKeys(e, from, to) { RenameParentOfMoved(e, from, to, k'); }
        else { RenameParentOfKept(e, from, to, k'); }
      }
      RenameTreeAt(e, from, to, []);
    }
  }

  /** Replacing an entry by one of the same kind keeps the tree a tree. */
  lemma WellFormedReplace(e: Entries, q: Path, v: Entry)
    requires WellFormed(e) && q in e && v.Dir? == e[q].Dir?
    ensures WellFormed(e[q := v])
  {
    assert q != [];
    if |q| > 1 { ParentOfEntry(e, q); }
    WellFormedUpdate(e, q, v);
  }

  lemma WellFormedCopyNew(e: Entries, f: Faults, src: Path, dst: Path, now: nat)
    requires WellFormed(e)
    ensures WellFormed(CopyNewResult(e, f, src, dst, now).entries)
  {
    var o := CopyNewResult(e, f, src, dst, now);
    if o.entries != e {
      assert dst !in e && ParentIsDir(e, dst) && dst in o.entries;
      assert o.entries == e[dst := o.entries[dst]];
      WellFormedUpdate(e, dst, o.entries[dst]);
    }
  }

  lemma WellFormedCopy(e: Entries, f: Faults, src: Path, dst: Path, now: nat)
    requires WellFormed(e)
    ensures WellFormed(CopyResult(e, f, src, dst, now).entries)
  {
    var o := CopyResult(e, f, src, dst, now);
    if o.entries != e {
      assert ParentIsDir(e, dst) && !(dst in e && e[dst].Dir?) && dst in o.entries;
      assert o.entries == e[dst := o.entries[dst]];
      WellFormedUpdate(e, dst, o.entries[dst]);
    }
  }

  lemma WellFormedCreateNewWrite(e: Entries, f: Faults, p: Path, data: seq<byte>, mode: nat, now: nat)
    requires WellFormed(e)
    ensures WellFormed(CreateNewWriteResult(e, f, p, data, mode, now).entries)
  {
    var o := CreateNewWriteResult(e, f, p, data, mode, now);
    if o.entries != e {
      assert p !in e && ParentIsDir(e, p) && p in o.entries;
      assert o.entries == e[p := o.entries[p]];
      WellFormedUpdate(e, p, o.entries[p]);
    }
  }

  lemma WellFormedSetTimes(e: Entries, f: Faults, p: Path, atime: nat, mtime: nat)
    requires WellFormed(e) && SetTimesResult(e, f, p, atime, mtime).Ok?
    ensures WellFormed(SetTimesResult(e, f, p, atime, mtime).value)
  {
    var q := Target(e, p).value;
    if e[q].File? { WellFormedReplace(e, q, File(e[q].data, e[q].mode, mtime, atime)); }
  }

  lemma WellFormedSetPerms(e: Entries, f: Faults, p: Path, mode: nat)
    requires WellFormed(e) && SetPermsResult(e, f, p, mode).Ok?
    ensures WellFormed(SetPermsResult(e, f, p, mode).value)
  {
    var q := Target(e, p).value;
    if e[q].File? { WellFormedReplace(e, q, File(e[q].data, mode, e[q].mtime, e[q].atime)); }
    else if e[q].Dir? { WellFormedReplace(e, q, Dir(mode)); }
  }

  // ---------------------------------------------------------------------

  /** The filesystem, as the running process sees it. */
  class FileSystem {
    var entries: Entries
    /** The operations that fail, and how. */
    const faults: Faults
    /** The wall clock while the program runs (nanoseconds since the epoch). */
    const now: nat

    /** The entries describe a tree of directories. */
    ghost predicate Valid()
      reads this
    {
      WellFormed(entries)
    }

    constructor (entries0: Entries, faults0: Faults, now0: nat)
      requires WellFormed(entries0)
      ensures Valid()
      ensures entries == entries0 && faults == faults0 && now == now0
    {
      entries := entries0;
      faults := faults0;
      now := now0;
    }

    method Rename(from: Path, to: Path) returns (r: Result<(), IoError>)
      requires Valid()
      modifies this
      ensures Valid()
      ensures var err := RenameError(old(entries), faults, from, to);
        (err.None? ==> r.Ok? && entries == RenameResult(old(entries), faults, from, to).value)
        && (err.Some? ==> r == Err(err.value) && entries == old(entries))
    {
      var o := RenameResult(entries, faults, from, to);
      if o.Ok? { WellFormedRename(entries, faults, from, to); entries := o.value; r := Ok(()); } else { r := Err(o.error); }
    }

    method RemoveFile(p: Path) returns (r: Result<(), IoError>)
      requires Valid()
      modifies this
      ensures Valid()
      ensures var o := RemoveFileResult(old(entries), faults, p);
        (o.Ok? ==> r.Ok? && entries == o.value) && (o.Err? ==> r == Err(o.error) && entries == old(entries))
    {
      var o := RemoveFileResult(entries, faults, p);
      if o.Ok? { WellFormedRemoveFile(entries, faults, p); entries := o.value; r := Ok(()); } else { r := Err(o.error); }
    }

    method RemoveDirAll(p: Path) returns (r: Result<(), IoError>)
      requires Valid()
      modifies this
      ensures Valid()
      ensures var o := RemoveDirAllResult(old(entries), faults, p);
        (o.Ok? ==> r.Ok? && entries == o.value) && (o.Err? ==> r == Err(o.error) && entries == old(entries))
    {
      var o := RemoveDirAllResult(entries, faults, p);
      if o.Ok? { WellFormedRemoveDirAll(entries, faults, p); entries := o.value; r := Ok(()); } else { r := Err(o.error); }
    }

    method CreateDirAll(p: Path) returns (r: Result<(), IoError>)
      requires Valid()
      modifies this
      ensures Valid()
      ensures var o := CreateDirAllResult(old(entries), faults, p);
        (o.Ok? ==> r.Ok? && entries == o.value) && (o.Err? ==> r == Err(o.error) && entries == old(entries))
    {
      var o := CreateDirAllResult(entries, faults, p);
      if o.Ok? { WellFormedCreateDirAll(entries, faults, p); entries := o.value; r := Ok(()); } else { r := Err(o.error); }
    }

    /** copy_streaming: returns the number of bytes copied. */
    method CopyNew(src: Path, dst: Path) returns (r: Result<nat, IoError>)
      requires Valid()
      modifies this
      ensures Valid()
      ensures var o := CopyNewResult(old(entries), faults, src, dst, now);
        entries == o.entries && (o.error.Some? ==> r == Err(o.error.value))
        && (o.error.None? ==> r == Ok(|Stat(old(entries), faults, src).value.data|))
    {
      WellFormedCopyNew(entries, faults, src, dst, now);
      var o := CopyNewResult(entries, faults, src, dst, now);
      var n := if IsFile(entries, faults, src) then |Stat(entries, faults, src).value.data| else 0;
      entries := o.entries;
      if o.error.Some? { r := Err(o.error.value); } else { r := Ok(n); }
    }

    /** std::fs::copy: returns the number of bytes copied. */
    method Copy(src: Path, dst: Path) returns (r: Result<nat, IoError>)
      requires Valid()
      modifies this
      ensures Valid()
      ensures var o := CopyResult(old(entries), faults, src, dst, now);
        entries == o.entries && (o.error.Some? ==> r == Err(o.error.value))
        && (o.error.None? ==> r == Ok(|Stat(old(entries), faults, src).value.data|))
    {
      WellFormedCopy(entries, faults, src, dst, now);
      var o := CopyResult(entries, faults, src, dst, now);
      var n := if IsFile(entries, faults, src) then |Stat(entries, faults, src).value.data| else 0;
      entries := o.entries;
      if o.error.Some? { r := Err(o.error.value); } else { r := Ok(n); }
    }

    method CreateNewWrite(p: Path, data: seq<byte>, mode: nat) returns (r: Result<(), IoError>)
      requires Valid()
      modifies this
      ensures Valid()
      ensures var o := CreateNewWriteResult(old(entries), faults, p, data, mode, now);
        entries == o.entries && (o.error.Some? ==> r == Err(o.error.value)) && (o.error.None? ==> r.Ok?)
    {
      WellFormedCreateNewWrite(entries, faults, p, data, mode, now);
      var o := CreateNewWriteResult(entries, faults, p, data, mode, now);
      entries := o.entries;
      if o.error.Some? { r := Err(o.error.value); } else { r := Ok(()); }
    }

    method SetTimes(p: Path, atime: nat, mtime: nat) returns (r: Result<(), IoError>)
      requires Valid()
      modifies this
      ensures Valid()
      ensures var o := SetTimesResult(old(entries), faults, p, atime, mtime);
        (o.Ok? ==> r.Ok? && entries == o.value) && (o.Err? ==> r == Err(o.error) && entries == old(entries))
    {
      var o := SetTimesResult(entries, faults, p, atime, mtime);
      if o.Ok? { WellFormedSetTimes(entries, faults, p, atime, mtime); entries := o.value; r := Ok(()); } else { r := Err(o.error); }
    }

    method SetPerms(p: Path, mode: nat) returns (r: Result<(), IoError>)
      requires Valid()
      modifies this
      ensures Valid()
      ensures var o := SetPermsResult(old(entries), faults, p, mode);
        (o.Ok? ==> r.Ok? && entries == o.value) && (o.Err? ==> r == Err(o.error) && entries == old(entries))
    {
      var o := SetPermsResult(entries, faults, p, mode);
      if o.Ok? { WellFormedSetPerms(entries, faults, p, mode); entries := o.value; r := Ok(()); } else { r := Err(o.error); }
    }

    /** A walk in the order directories happen to list their entries. */
    method Walk(root: Path, minDepth: nat, maxDepth: Option<nat>) returns (items: seq<WalkItem>)
      ensures Distinct(items)
      ensures (set x | x in items) == WalkItems(entries, faults, root, minDepth, maxDepth)
    {
      items := Enumerate(WalkItems(entries, faults, root, minDepth, maxDepth));
    }

    /** read_dir, in the order the directory lists its names. */
    method ReadDirNames(p: Path) returns (r: Result<seq<string>, IoError>)
      ensures ReadDir(entries, faults, p).Err? ==> r == Err(ReadDir(entries, faults, p).error)
      ensures ReadDir(entries, faults, p).Ok? ==>
        r.Ok? && Distinct(r.value) && (set x | x in r.value) == ReadDir(entries, faults, p).value
    {
      var o := ReadDir(entries, faults, p);
      if o.Err? { r := Err(o.error); }
      else { var names := Enumerate(o.value); r := Ok(names); }
    }
  }

  // ---------------------------------------------------------------------
  // Facts about the primitives

  /** A rename of a plain entry onto a free or replaceable name moves exactly that entry. */
  lemma RenameMovesEntry(e: Entries, f: Faults, from: Path, to: Path)
    requires RenameResult(e, f, from, to).Ok? && from != to
    requires Subtree(e, from) == {from} && !(to <= from)
    ensures var e2 := RenameResult(e, f, from, to).value;
      to in e2 && e2[to] == e[from] && from !in e2
      && forall k :: k in e && !(from <= k) && !(to <= k) ==> k in e2 && e2[k] == e[k]
  {
    var e2 := RenameTree(e, from, to);
    assert to + from[|from|..] == to;
    assert from + to[|to|..] == from;
    assert to in MovedKeys(e, from, to);
  }

  /** A rename of a non-directory moves that one entry and replaces whatever `to` named. */
  lemma RenameFileInto(e: Entries, f: Faults, from: Path, to: Path)
    requires WellFormed(e) && from in e && !e[from].Dir? && from != to
    requires RenameResult(e, f, from, to).Ok?
    ensures RenameResult(e, f, from, to).value == (e - {from})[to := e[from]]
  {
    assert RenameError(e, f, from, to).None?;
    assert to != [] && (to in e ==> !e[to].Dir?);
    var e2 := RenameTree(e, from, to);
    var r := (e - {from})[to := e[from]];
    assert to + from[|from|..] == to;
    assert to in MovedKeys(e, from, to);
    forall k | k in e2 ensures k in r && e2[k] == r[k] {
      RenameTreeAt(e, from, to, k);
      if k in MovedKeys(e, from, to) {
        var k0 :| k0 in e && from <= k0 && k == to + k0[|from|..];
        if from < k0 { NothingBelow(e, from, k0); }
        assert k0 == from && k0[|from|..] == [];
        assert k == to && from + k[|to|..] == from;
        assert e2[k] == e[from];
        assert r[k] == e[from];
      } else {
        assert k in e && k != from && k != to;
        assert e2[k] == e[k];
        assert r[k] == e[k];
      }
    }
    forall k | k in r ensures k in e2 {
      RenameTreeAt(e, from, to, k);
      if k != to {
        assert k in e && k != from;
        if from < k { NothingBelow(e, from, k); }
        if to < k { NothingBelow(e, to, k); }
        assert !(from <= k) && !(to <= k);
      }
    }
    assert e2 == r;
  }

  /** Renaming a non-directory to a free name and back restores the entries. */
  lemma RenameBack(e: Entries, f: Faults, from: Path, to: Path)
    requires WellFormed(e) && from in e && !e[from].Dir? && to !in e
    requires RenameResult(e, f, from, to).Ok?
    requires RenameResult(RenameResult(e, f, from, to).value, f, to, from).Ok?
    ensures RenameResult(RenameResult(e, f, from, to).value, f, to, from).value == e
  {
    RenameFileInto(e, f, from, to);
    WellFormedRename(e, f, from, to);
    UndoRename(e, (e - {from})[to := e[from]], f, from, to);
  }

  lemma UndoRename(e: Entries, e2: Entries, f: Faults, from: Path, to: Path)
    requires from in e && to !in e && e2 == (e - {from})[to := e[from]] && !e[from].Dir?
    requires WellFormed(e2) && RenameResult(e2, f, to, from).Ok?
    ensures RenameResult(e2, f, to, from).value == e
  {
    RenameFileInto(e2, f, to, from);
    var e3 := (e2 - {to})[from := e2[to]];
    assert e3 == e by {
      assert e3.Keys == e.Keys;
    }
  }

  /** `e2` keeps every entry of `e` unchanged and adds only directories. */
  predicate AddsOnlyDirs(e: Entries, e2: Entries) {
    (forall k :: k in e ==> k in e2 && e2[k] == e[k]) && (forall k :: k in e2 && k !in e ==> e2[k].Dir?)
  }

  /** Adding directories changes no link chain that ends at an entry other than a new directory. */
  lemma {:induction false} FollowAddedDirs(e: Entries, e2: Entries, p: Path, fuel: nat)
    requires AddsOnlyDirs(e, e2)
    ensures Follow(e, p, fuel).Ok? ==> Follow(e2, p, fuel) == Follow(e, p, fuel)
    ensures Follow(e2, p, fuel).Ok? && !e2[Follow(e2, p, fuel).value].Dir? ==>
      Follow(e, p, fuel) == Follow(e2, p, fuel)
    decreases fuel
  {
    if p in e && e[p].Symlink? && fuel > 0 {
      FollowAddedDirs(e, e2, e[p].target, fuel - 1);
    }
  }

  /** create_dir_all leaves every regular file, and what a link to it resolves to, as it was. */
  lemma StatAddedDirs(e: Entries, e2: Entries, f: Faults, p: Path)
    requires AddsOnlyDirs(e, e2)
    ensures IsFile(e2, f, p) <==> IsFile(e, f, p)
    ensures IsFile(e, f, p) ==> Stat(e2, f, p) == Stat(e, f, p)
  {
    FollowAddedDirs(e, e2, p, MAX_SYMLINK_HOPS);
  }

  /** Replacing a non-link entry by another non-link leaves every link chain where it ends. */
  lemma {:induction false} FollowReplace(e: Entries, q: Path, v: Entry, p: Path, fuel: nat)
    requires q in e && !e[q].Symlink? && !v.Symlink?
    ensures Follow(e[q := v], p, fuel) == Follow(e, p, fuel)
    decreases fuel
  {
    if p in e && p != q && e[p].Symlink? && fuel > 0 {
      FollowReplace(e, q, v, e[p].target, fuel - 1);
    }
  }
}
