/**
 * Moving a directory into the completed directory (fs_ops/dir_move.rs): the
 * target is completed_base joined with the directory's name; a dry run only
 * reports it; a real run renames the whole tree or, when that fails, checks
 * the free space against the tree's size, recreates the directories under
 * the target, copies every regular file and finally removes the source tree.
 *
 * The two walks of the copy fallback are parameters of the specification,
 * in the order the walk yields them; MoveDir hands back the orders it saw.
 */
module DirMove {
  import opened Common
  import opened Paths
  import opened Fs
  import opened Errors
  import opened Space
  import opened Utils
  import opened Copy
  import opened ConfigTypes

  const CREATE_DIRECTORY := "create directory"
  const COPY_FILE := "copy file to destination"
  const REMOVE_SOURCE_DIR := "remove source directory"

  // ---------------------------------------------------------------------
  // total_bytes_in_tree

  /**
   * What one walked item adds to the total: a regular file its length (as a
   * u64), a failed lstat None; directories, links and walk errors nothing.
   */
  function ItemBytes(e: Entries, f: Faults, it: WalkItem): (r: Option<nat>)
    ensures r.None? <==> it.Found? && it.path in e && e[it.path].File? && LstatOp(it.path) in f
    ensures r.Some? && it.Found? && it.path in e && e[it.path].File? ==> r.value == Min(|e[it.path].data|, U64_MAX)
    ensures r.Some? && !(it.Found? && it.path in e && e[it.path].File?) ==> r.value == 0
  {
    match it
    case Failed(_) => Some(0)
    case Found(k) =>
      if k in e && e[k].File? then
        match Lstat(e, f, k)
        case Ok(m) => Some(Min(|m.data|, U64_MAX))
        case Err(_) => None
      else Some(0)
  }

  /** Addition that fails when either side failed. */
  function Plus(a: Option<nat>, b: Option<nat>): (r: Option<nat>)
    ensures r.Some? <==> a.Some? && b.Some?
    ensures r.Some? ==> r.value == a.value + b.value
  {
    if a.Some? && b.Some? then Some(a.value + b.value) else None
  }

  /** The exact sum over items in walk order, None once any file's lstat failed. */
  function SeqBytes(e: Entries, f: Faults, items: seq<WalkItem>): Option<nat>
    decreases |items|
  {
    if items == [] then Some(0)
    else Plus(SeqBytes(e, f, items[..|items| - 1]), ItemBytes(e, f, items[|items| - 1]))
  }

  /** Some element of a non-empty set. */
  ghost function Pick(s: set<WalkItem>): (x: WalkItem)
    requires s != {}
    ensures x in s
  {
    var x :| x in s; x
  }

  /** The same sum over a set of items. */
  ghost function SetBytes(e: Entries, f: Faults, s: set<WalkItem>): Option<nat>
    decreases |s|
  {
    if s == {} then Some(0)
    else Plus(SetBytes(e, f, s - {Pick(s)}), ItemBytes(e, f, Pick(s)))
  }

  /** The exact sum capped at u64::MAX, as saturating additions leave it. */
  function Capped(n: Option<nat>): (r: Option<u64>)
    ensures r.Some? <==> n.Some?
    ensures r.Some? ==> r.value == Min(n.value, U64_MAX)
  {
    match n
    case None => None
    case Some(v) => Some(Min(v, U64_MAX))
  }

  /** What total_bytes_in_tree(root) returns, whatever order the walk takes. */
  ghost function TreeBytes(e: Entries, f: Faults, root: Path): Option<u64> {
    Capped(SetBytes(e, f, WalkItems(e, f, root, 0, None)))
  }

  lemma {:induction false} SetBytesRemove(e: Entries, f: Faults, s: set<WalkItem>, y: WalkItem)
    requires y in s
    ensures SetBytes(e, f, s) == Plus(SetBytes(e, f, s - {y}), ItemBytes(e, f, y))
    decreases |s|
  {
    var x := Pick(s);
    if x != y {
      var rest := s - {x} - {y};
      var r, bx, bY := SetBytes(e, f, rest), ItemBytes(e, f, x), ItemBytes(e, f, y);
      assert SetBytes(e, f, s - {x}) == Plus(r, bY) by {
        SetBytesRemove(e, f, s - {x}, y);
      }
      assert SetBytes(e, f, s - {y}) == Plus(r, bx) by {
        assert s - {y} - {x} == rest;
        SetBytesRemove(e, f, s - {y}, x);
      }
      assert SetBytes(e, f, s) == Plus(Plus(r, bY), bx);
    }
  }

  /** Summing the distinct items of a walk in any order gives the set's sum. */
  lemma {:induction false} SeqBytesIsSetBytes(e: Entries, f: Faults, items: seq<WalkItem>)
    requires Distinct(items)
    ensures SeqBytes(e, f, items) == SetBytes(e, f, set x | x in items)
    decreases |items|
  {
    if items != [] {
      var init := items[..|items| - 1];
      var last := items[|items| - 1];
      SeqBytesIsSetBytes(e, f, init);
      assert (set x | x in items) - {last} == (set x | x in init) by {
        forall x | x in init ensures x != last {
          var i :| 0 <= i < |init| && init[i] == x;
        }
      }
      SetBytesRemove(e, f, (set x | x in items), last);
    }
  }

  /** Once a prefix has failed, the whole walk has. */
  lemma {:induction false} SeqBytesFailureStays(e: Entries, f: Faults, items: seq<WalkItem>, n: nat)
    requires n <= |items| && SeqBytes(e, f, items[..n]).None?
    ensures SeqBytes(e, f, items).None?
    decreases |items|
  {
    if n < |items| {
      assert items[..|items| - 1][..n] == items[..n];
      SeqBytesFailureStays(e, f, items[..|items| - 1], n);
    } else {
      assert items[..n] == items;
    }
  }

  /** The set's sum fails exactly when some walked regular file cannot be lstat'ed. */
  lemma {:induction false} SetBytesFailsIff(e: Entries, f: Faults, s: set<WalkItem>)
    ensures SetBytes(e, f, s).None? <==> exists x :: x in s && ItemBytes(e, f, x).None?
    decreases |s|
  {
    if s != {} {
      var x :| x in s;
      SetBytesRemove(e, f, s, x);
      SetBytesFailsIff(e, f, s - {x});
    }
  }

  /**
   * total_bytes_in_tree gives up (None) exactly when the walk reaches a
   * regular file whose metadata cannot be read; unreadable directories and
   * other walk errors are skipped.
   */
  lemma TreeBytesNoneIff(e: Entries, f: Faults, root: Path)
    ensures TreeBytes(e, f, root).None? <==>
      exists k :: Found(k) in WalkItems(e, f, root, 0, None) && k in e && e[k].File? && LstatOp(k) in f
  {
    var s := WalkItems(e, f, root, 0, None);
    SetBytesFailsIff(e, f, s);
    if TreeBytes(e, f, root).None? {
      var x :| x in s && ItemBytes(e, f, x).None?;
      assert Found(x.path) == x;
    }
  }

  /** With every metadata read succeeding, a lone file's tree counts its length. */
  lemma SingleFileTree(e: Entries, f: Faults, root: Path)
    requires root in e && e[root].File? && LstatOp(root) !in f && Subtree(e, root) == {root}
    ensures TreeBytes(e, f, root) == Some(Min(|e[root].data|, U64_MAX))
  {
    forall k | k in e && root <= k ensures k == root {
      assert k in Subtree(e, root);
    }
    var s := WalkItems(e, f, root, 0, None);
    assert Found(root) in s by { assert Reachable(e, f, root, root); }
    forall x | x in s ensures x == Found(root) {
      assert x.Found?;
    }
    assert s == {Found(root)};
    SetBytesRemove(e, f, s, Found(root));
    assert s - {Found(root)} == {};
  }

  lemma SeqBytesNext(e: Entries, f: Faults, items: seq<WalkItem>, i: nat)
    requires i < |items|
    ensures SeqBytes(e, f, items[..i + 1]) == Plus(SeqBytes(e, f, items[..i]), ItemBytes(e, f, items[i]))
  {
    assert items[..i + 1][..i] == items[..i];
  }

  lemma SatAddCapped(a: nat, b: nat)
    ensures SatAdd(Min(a, U64_MAX), Min(b, U64_MAX)) == Min(a + b, U64_MAX)
  {
  }

  /**
   * total_bytes_in_tree: one walk; a regular file's lstat length is added
   * with saturation, a failed lstat gives up with None, walk errors are
   * skipped.
   */
  method TotalBytesInTree(fs: FileSystem, root: Path) returns (total: Option<u64>)
    ensures total == TreeBytes(fs.entries, fs.faults, root)
  {
    var items := fs.Walk(root, 0, None);
    var sum: u64 := 0;
    var i := 0;
    while i < |items|
      invariant 0 <= i <= |items|
      invariant SeqBytes(fs.entries, fs.faults, items[..i]).Some?
      invariant sum == Min(SeqBytes(fs.entries, fs.faults, items[..i]).value, U64_MAX)
    {
      var it := items[i];
      SeqBytesNext(fs.entries, fs.faults, items, i);
      if it.Found? && it.path in fs.entries && fs.entries[it.path].File? {
        var m := Lstat(fs.entries, fs.faults, it.path);
        if m.Err? {
          SeqBytesFailureStays(fs.entries, fs.faults, items, i + 1);
          SeqBytesIsSetBytes(fs.entries, fs.faults, items);
          return None;
        }
        SatAddCapped(SeqBytes(fs.entries, fs.faults, items[..i]).value, |m.value.data|);
        sum := SatAdd(sum, Min(|m.value.data|, U64_MAX));
      }
      i := i + 1;
    }
    assert items[..|items|] == items;
    SeqBytesIsSetBytes(fs.entries, fs.faults, items);
    total := Some(sum);
  }

  // ---------------------------------------------------------------------
  // The copy fallback, step by step

  /** Where a path below the source lands below the target. */
  function Rebase(k: Path, src: Path, target: Path): (r: Path)
    requires src <= k
    ensures target <= r && |r| == |target| + |k| - |src|
  {
    target + k[|src|..]
  }

  /**
   * Step 1 for one item of the first walk: a directory (as the walk saw it
   * in `w`) is created, with its missing ancestors, below the target.
   */
  function CreateDirFor(e: Entries, f: Faults, w: Entries, src: Path, target: Path, it: WalkItem): (o: Outcome<()>)
    ensures o.result.Ok? ==> e.Keys <= o.entries.Keys
  {
    if it.Found? && it.path in w && w[it.path].Dir? && src <= it.path then
      var d := Rebase(it.path, src, target);
      match CreateDirAllResult(e, f, d)
      case Err(x) => Outcome(e, Err(StepError(CREATE_DIRECTORY, d, x)))
      case Ok(e1) => Outcome(e1, Ok(()))
    else Outcome(e, Ok(()))
  }

  /** Step 1: the directories of the first walk, in walk order, until one fails. */
  function CreateDirs(e: Entries, f: Faults, w: Entries, src: Path, target: Path, items: seq<WalkItem>): Outcome<()>
    decreases |items|
  {
    if items == [] then Outcome(e, Ok(()))
    else
      var o := CreateDirs(e, f, w, src, target, items[..|items| - 1]);
      if o.result.Err? then o else CreateDirFor(o.entries, f, w, src, target, items[|items| - 1])
  }

  /** The regular files of the second walk, in walk order. */
  function FilesOf(w: Entries, src: Path, items: seq<WalkItem>): (files: seq<Path>)
    ensures forall i :: 0 <= i < |files| ==> src <= files[i] && files[i] in w && w[files[i]].File?
    ensures forall it :: it in items && it.Found? && it.path in w && w[it.path].File? && src <= it.path ==>
      it.path in files
    decreases |items|
  {
    if items == [] then []
    else
      var rest := FilesOf(w, src, items[..|items| - 1]);
      var it := items[|items| - 1];
      assert forall x :: x in items ==> x in items[..|items| - 1] || x == it;
      if it.Found? && it.path in w && w[it.path].File? && src <= it.path then rest + [it.path] else rest
  }

  /**
   * Step 2 for one file: refuse a file that looks in use, create the
   * destination's parent, then std::fs::copy it.  `probes` gives the sizes
   * the stability probe of each path reads.
   */
  function CopyOne(e: Entries, f: Faults, src: Path, target: Path, k: Path, probes: Path -> Readings, now: nat): (o: Outcome<()>)
    requires src <= k
  {
    if FileIsMutable(k, probes(k), CurrentSize(e, f, k)) then Outcome(e, Err(InUse(k)))
    else
      var dst := Rebase(k, src, target);
      var made := match Parent(dst) case None => Ok(e) case Some(p) => CreateDirAllResult(e, f, p);
      match made
      case Err(x) => Outcome(e, Err(StepError(CREATE_DIRECTORY, Parent(dst).value, x)))
      case Ok(e1) => CopyStep(e1, f, k, dst, now)
  }

  /** std::fs::copy of one file, once the destination's parent exists. */
  function CopyStep(e1: Entries, f: Faults, k: Path, dst: Path, now: nat): (o: Outcome<()>)
    ensures o.entries == CopyResult(e1, f, k, dst, now).entries
    ensures o.result.Ok? <==> CopyResult(e1, f, k, dst, now).error.None?
  {
    var w := CopyResult(e1, f, k, dst, now);
    match w.error
    case Some(x) => Outcome(w.entries, Err(StepError(COPY_FILE, dst, x)))
    case None => Outcome(w.entries, Ok(()))
  }

  /** Step 2: the files one after another, until one fails. */
  function CopyFiles(e: Entries, f: Faults, src: Path, target: Path, files: seq<Path>, probes: Path -> Readings, now: nat): Outcome<()>
    requires forall i :: 0 <= i < |files| ==> src <= files[i]
    decreases |files|
  {
    if files == [] then Outcome(e, Ok(()))
    else
      var o := CopyFiles(e, f, src, target, files[..|files| - 1], probes, now);
      if o.result.Err? then o else CopyOne(o.entries, f, src, target, files[|files| - 1], probes, now)
  }

  /**
   * The copy fallback: the space check (only when the size is known), the
   * directories, the files, then remove_dir_all of the source.
   */
  ghost function CopyTree(e: Entries, f: Faults, base: Path, src: Path, target: Path, q: Result<StatVfs, IoError>,
                          probes: Path -> Readings, dirWalk: seq<WalkItem>, fileWalk: seq<WalkItem>, now: nat): (o: Outcome<Path>)
    ensures o.result.Ok? ==> o.result.value == target
  {
    var space := SpaceCheck(e, f, base, src, q);
    if space.Err? then Outcome(e, Err(space.error))
    else
      var d := CreateDirs(e, f, e, src, target, dirWalk);
      if d.result.Err? then Outcome(d.entries, Err(d.result.error))
      else CopyAndRemove(d.entries, f, src, target, probes, fileWalk, now)
  }

  /** ensure_space_for_copy on the tree's size, skipped when the size is unknown. */
  ghost function SpaceCheck(e: Entries, f: Faults, base: Path, src: Path, q: Result<StatVfs, IoError>): (r: Result<(), MoveError>)
    ensures TreeBytes(e, f, src).None? ==> r.Ok?
    ensures TreeBytes(e, f, src).Some? ==> r == EnsureSpaceForCopy(q, base, TreeBytes(e, f, src).value)
  {
    match TreeBytes(e, f, src)
    case None => Ok(())
    case Some(n) => EnsureSpaceForCopy(q, base, n)
  }

  /** Steps 2 and 3, once the directory structure exists. */
  function CopyAndRemove(e1: Entries, f: Faults, src: Path, target: Path, probes: Path -> Readings,
                         fileWalk: seq<WalkItem>, now: nat): (o: Outcome<Path>)
    ensures o.result.Ok? ==> o.result.value == target
  {
    var c := CopyFiles(e1, f, src, target, FilesOf(e1, src, fileWalk), probes, now);
    if c.result.Err? then Outcome(c.entries, Err(c.result.error))
    else
      match RemoveDirAllResult(c.entries, f, src)
      case Err(x) => Outcome(c.entries, Err(StepError(REMOVE_SOURCE_DIR, src, x)))
      case Ok(e2) => Outcome(e2, Ok(target))
  }

  /** completed_base joined with the source's name. */
  function DirTarget(cfg: Config, src: Path): (r: Path)
    requires src != []
    ensures Parent(r) == Some(cfg.completedBase) && FileName(r) == FileName(src)
  {
    cfg.completedBase + [src[|src| - 1]]
  }

  /**
   * move_dir.  `shutdown` is whether a shutdown was requested; `q` is what
   * statvfs reports for completed_base.
   */
  ghost function MoveDirOutcome(e: Entries, f: Faults, cfg: Config, src: Path, shutdown: bool, q: Result<StatVfs, IoError>,
                                probes: Path -> Readings, dirWalk: seq<WalkItem>, fileWalk: seq<WalkItem>, now: nat): (o: Outcome<Path>)
    ensures o.result.Ok? ==> src != [] && o.result.value == DirTarget(cfg, src)
  {
    if shutdown then Outcome(e, Err(ShutdownRequested))
    else if EnsureNotBase(e, cfg.downloadBase, src).Err? then Outcome(e, Err(EnsureNotBase(e, cfg.downloadBase, src).error))
    else if src == [] then Outcome(e, Err(NoFileName(src)))
    else if cfg.dryRun then Outcome(e, Ok(DirTarget(cfg, src)))
    else
      match RenameResult(e, f, src, DirTarget(cfg, src))
      case Ok(e2) => Outcome(e2, Ok(DirTarget(cfg, src)))
      case Err(_) => CopyTree(e, f, cfg.completedBase, src, DirTarget(cfg, src), q, probes, dirWalk, fileWalk, now)
  }

  /** A real run walks the source: it falls back to copying and the space check lets it through. */
  ghost predicate WalksSource(e: Entries, f: Faults, cfg: Config, src: Path, shutdown: bool, q: Result<StatVfs, IoError>) {
    FallsBack(e, f, cfg, src, shutdown) && SpaceCheck(e, f, cfg.completedBase, src, q).Ok?
  }

  /**
   * The walk orders are orders of the walks the fallback takes: the first
   * over the entries as they were, the second after step 1 succeeded.
   */
  ghost predicate WalkOrders(e: Entries, f: Faults, src: Path, target: Path, dirWalk: seq<WalkItem>, fileWalk: seq<WalkItem>) {
    Distinct(dirWalk) && (set x | x in dirWalk) == WalkItems(e, f, src, 0, None)
    && (CreateDirs(e, f, e, src, target, dirWalk).result.Ok? ==>
          Distinct(fileWalk)
          && (set x | x in fileWalk) == WalkItems(CreateDirs(e, f, e, src, target, dirWalk).entries, f, src, 0, None))
  }

  // ---------------------------------------------------------------------
  // The imperative mover

  lemma CreateDirsErrorStays(e: Entries, f: Faults, w: Entries, src: Path, target: Path, items: seq<WalkItem>, n: nat)
    requires n <= |items| && CreateDirs(e, f, w, src, target, items[..n]).result.Err?
    ensures CreateDirs(e, f, w, src, target, items) == CreateDirs(e, f, w, src, target, items[..n])
    decreases |items|
  {
    if n < |items| {
      assert items[..|items| - 1][..n] == items[..n];
      CreateDirsErrorStays(e, f, w, src, target, items[..|items| - 1], n);
    } else {
      assert items[..n] == items;
    }
  }

  /** One more item of the walk: the outcome so far, then that item's directory. */
  lemma CreateDirsNext(w: Entries, f: Faults, src: Path, target: Path, items: seq<WalkItem>, i: nat)
    requires i < |items|
    ensures var o := CreateDirs(w, f, w, src, target, items[..i]);
      CreateDirs(w, f, w, src, target, items[..i + 1]) == if o.result.Err? then o else CreateDirFor(o.entries, f, w, src, target, items[i])
  {
    assert items[..i + 1][..i] == items[..i];
  }

  lemma CopyFilesErrorStays(e: Entries, f: Faults, src: Path, target: Path, files: seq<Path>, probes: Path -> Readings,
                            now: nat, n: nat)
    requires forall i :: 0 <= i < |files| ==> src <= files[i]
    requires n <= |files| && CopyFiles(e, f, src, target, files[..n], probes, now).result.Err?
    ensures CopyFiles(e, f, src, target, files, probes, now) == CopyFiles(e, f, src, target, files[..n], probes, now)
    decreases |files|
  {
    if n < |files| {
      assert files[..|files| - 1][..n] == files[..n];
      CopyFilesErrorStays(e, f, src, target, files[..|files| - 1], probes, now, n);
    } else {
      assert files[..n] == files;
    }
  }

  lemma CopyFilesNext(e: Entries, f: Faults, src: Path, target: Path, files: seq<Path>, probes: Path -> Readings,
                      now: nat, i: nat)
    requires forall j :: 0 <= j < |files| ==> src <= files[j]
    requires i < |files| && CopyFiles(e, f, src, target, files[..i], probes, now).result.Ok?
    ensures CopyFiles(e, f, src, target, files[..i + 1], probes, now)
      == CopyOne(CopyFiles(e, f, src, target, files[..i], probes, now).entries, f, src, target, files[i], probes, now)
  {
    assert files[..i + 1][..i] == files[..i];
  }

  /** Step 1 as the source runs it: the first walk, one create_dir_all per directory. */
  method CreateTargetDirs(fs: FileSystem, src: Path, target: Path) returns (r: Result<(), MoveError>, ghost items: seq<WalkItem>)
    requires fs.Valid()
    modifies fs
    ensures fs.Valid()
    ensures Distinct(items) && (set x | x in items) == WalkItems(old(fs.entries), fs.faults, src, 0, None)
    ensures Outcome(fs.entries, r) == CreateDirs(old(fs.entries), fs.faults, old(fs.entries), src, target, items)
  {
    var walk := fs.Walk(src, 0, None);
    items := walk;
    r := CreateDirsInOrder(fs, src, target, walk);
  }

  /** The loop of step 1 over the items of the first walk. */
  method CreateDirsInOrder(fs: FileSystem, src: Path, target: Path, walk: seq<WalkItem>) returns (r: Result<(), MoveError>)
    requires fs.Valid()
    modifies fs
    ensures fs.Valid()
    ensures Outcome(fs.entries, r) == CreateDirs(old(fs.entries), fs.faults, old(fs.entries), src, target, walk)
  {
    var w := fs.entries;
    var i := 0;
    while i < |walk|
      invariant 0 <= i <= |walk| && fs.Valid()
      invariant Outcome(fs.entries, Ok(())) == CreateDirs(w, fs.faults, w, src, target, walk[..i])
    {
      ghost var before := fs.entries;
      var it := walk[i];
      CreateDirsNext(w, fs.faults, src, target, walk, i);
      if it.Found? && it.path in w && w[it.path].Dir? && src <= it.path {
        var d := Rebase(it.path, src, target);
        var made := fs.CreateDirAll(d);
        if made.Err? {
          CreateDirsErrorStays(w, fs.faults, w, src, target, walk, i + 1);
          return Err(StepError(CREATE_DIRECTORY, d, made.error));
        }
        assert CreateDirFor(before, fs.faults, w, src, target, it) == Outcome(fs.entries, Ok(()));
      }
      i := i + 1;
    }
    assert walk[..|walk|] == walk;
    r := Ok(());
  }

  /** Step 2 as the source runs it, one file at a time. */
  method CopyTreeFiles(fs: FileSystem, src: Path, target: Path, files: seq<Path>, probes: Path -> Readings)
    returns (r: Result<(), MoveError>)
    requires fs.Valid() && forall i :: 0 <= i < |files| ==> src <= files[i]
    modifies fs
    ensures fs.Valid()
    ensures Outcome(fs.entries, r) == CopyFiles(old(fs.entries), fs.faults, src, target, files, probes, fs.now)
  {
    ghost var e0 := fs.entries;
    var i := 0;
    while i < |files|
      invariant 0 <= i <= |files| && fs.Valid()
      invariant Outcome(fs.entries, Ok(())) == CopyFiles(e0, fs.faults, src, target, files[..i], probes, fs.now)
    {
      CopyFilesNext(e0, fs.faults, src, target, files, probes, fs.now, i);
      var k := files[i];
      var step := CopyFileStep(fs, src, target, k, probes);
      if step.Err? {
        CopyFilesErrorStays(e0, fs.faults, src, target, files, probes, fs.now, i + 1);
        return step;
      }
      i := i + 1;
    }
    assert files[..|files|] == files;
    r := Ok(());
  }

  /** One file of step 2: the in-use check, its parent directory, the copy. */
  method CopyFileStep(fs: FileSystem, src: Path, target: Path, k: Path, probes: Path -> Readings) returns (r: Result<(), MoveError>)
    requires fs.Valid() && src <= k
    modifies fs
    ensures fs.Valid()
    ensures Outcome(fs.entries, r) == CopyOne(old(fs.entries), fs.faults, src, target, k, probes, fs.now)
  {
    if FileIsMutable(k, probes(k), CurrentSize(fs.entries, fs.faults, k)) {
      return Err(InUse(k));
    }
    var dst := Rebase(k, src, target);
    if dst != [] {
      var parent := dst[..|dst| - 1];
      var made := fs.CreateDirAll(parent);
      if made.Err? {
        return Err(StepError(CREATE_DIRECTORY, parent, made.error));
      }
    }
    var copied := fs.Copy(k, dst);
    if copied.Err? {
      return Err(StepError(COPY_FILE, dst, copied.error));
    }
    r := Ok(());
  }

  /** move_dir. */
  method MoveDir(fs: FileSystem, cfg: Config, src: Path, shutdown: bool, q: Result<StatVfs, IoError>, probes: Path -> Readings)
    returns (r: Result<Path, MoveError>, ghost dirWalk: seq<WalkItem>, ghost fileWalk: seq<WalkItem>)
    requires fs.Valid()
    modifies fs
    ensures fs.Valid()
    ensures WalksSource(old(fs.entries), fs.faults, cfg, src, shutdown, q) ==>
      WalkOrders(old(fs.entries), fs.faults, src, DirTarget(cfg, src), dirWalk, fileWalk)
    ensures Outcome(fs.entries, r) ==
      MoveDirOutcome(old(fs.entries), fs.faults, cfg, src, shutdown, q, probes, dirWalk, fileWalk, fs.now)
  {
    dirWalk, fileWalk := [], [];
    if shutdown {
      return Err(ShutdownRequested), dirWalk, fileWalk;
    }
    var notBase := EnsureNotBase(fs.entries, cfg.downloadBase, src);
    if notBase.Err? {
      return Err(notBase.error), dirWalk, fileWalk;
    }
    if src == [] {
      return Err(NoFileName(src)), dirWalk, fileWalk;
    }
    var target := DirTarget(cfg, src);
    if cfg.dryRun {
      return Ok(target), dirWalk, fileWalk;
    }
    var renamed := fs.Rename(src, target);
    if renamed.Ok? {
      return Ok(target), dirWalk, fileWalk;
    }
    r, dirWalk, fileWalk := CopyTreeSteps(fs, cfg.completedBase, src, target, q, probes);
  }

  /** The copy fallback of move_dir. */
  method CopyTreeSteps(fs: FileSystem, base: Path, src: Path, target: Path, q: Result<StatVfs, IoError>, probes: Path -> Readings)
    returns (r: Result<Path, MoveError>, ghost dirWalk: seq<WalkItem>, ghost fileWalk: seq<WalkItem>)
    requires fs.Valid()
    modifies fs
    ensures fs.Valid()
    ensures SpaceCheck(old(fs.entries), fs.faults, base, src, q).Ok? ==>
      WalkOrders(old(fs.entries), fs.faults, src, target, dirWalk, fileWalk)
    ensures Outcome(fs.entries, r) == CopyTree(old(fs.entries), fs.faults, base, src, target, q, probes, dirWalk, fileWalk, fs.now)
  {
    dirWalk, fileWalk := [], [];
    var total := TotalBytesInTree(fs, src);
    if total.Some? {
      var space := EnsureSpaceForCopy(q, base, total.value);
      if space.Err? {
        return Err(space.error), dirWalk, fileWalk;
      }
    }
    var made;
    made, dirWalk := CreateTargetDirs(fs, src, target);
    if made.Err? {
      return Err(made.error), dirWalk, fileWalk;
    }
    var walk := fs.Walk(src, 0, None);
    fileWalk := walk;
    var files := FilesOf(fs.entries, src, walk);
    var copied := CopyTreeFiles(fs, src, target, files, probes);
    if copied.Err? {
      return Err(copied.error), dirWalk, fileWalk;
    }
    var removed := fs.RemoveDirAll(src);
    if removed.Err? {
      return Err(StepError(REMOVE_SOURCE_DIR, src, removed.error)), dirWalk, fileWalk;
    }
    r := Ok(target);
  }

  // ---------------------------------------------------------------------
  // What move_dir guarantees

  /** Neither tree contains the other. */
  predicate Disjoint(a: Path, b: Path) { !(a <= b) && !(b <= a) }

  /** Every entry at or below `src` is still there, unchanged. */
  ghost predicate SourceIntact(e: Entries, e2: Entries, src: Path) {
    forall k :: k in e && src <= k ==> k in e2 && e2[k] == e[k]
  }

  /** Every entry is still there, unchanged (new ones may have appeared). */
  ghost predicate Grows(e: Entries, e2: Entries) {
    forall k :: k in e ==> k in e2 && e2[k] == e[k]
  }

  /** The file `k` of `e` has a copy below the target, with its bytes and permission bits. */
  ghost predicate Copied(e: Entries, e2: Entries, src: Path, target: Path, k: Path, now: nat) {
    src <= k && k in e && e[k].File? && Rebase(k, src, target) in e2
    && e2[Rebase(k, src, target)] == File(e[k].data, e[k].mode, now, now)
  }

  lemma PrefixesOfOnePath(a: Path, b: Path, c: Path)
    requires b <= c
    ensures a <= c ==> a <= b || b <= a
  {
    if a <= c {
      if |a| <= |b| {
        assert a == c[..|a|] == b[..|a|];
      } else {
        assert b == c[..|b|] == a[..|b|];
      }
    }
  }

  /** What lies on the way to a path below the target is not below the source. */
  lemma OutsideSource(src: Path, target: Path, k: Path, d: Path)
    requires Disjoint(src, target) && target <= d && k <= d
    ensures !(src <= k)
  {
    PrefixesOfOnePath(src, target, d);
    assert src <= k ==> src <= d;
  }

  lemma RebaseInjective(src: Path, target: Path, k1: Path, k2: Path)
    requires src <= k1 && src <= k2 && Rebase(k1, src, target) == Rebase(k2, src, target)
    ensures k1 == k2
  {
    assert k1[|src|..] == Rebase(k1, src, target)[|target|..];
    assert k1 == src + k1[|src|..] && k2 == src + k2[|src|..];
  }

  /** Step 1 only ever adds directories. */
  lemma {:induction false} CreateDirsGrows(e: Entries, f: Faults, w: Entries, src: Path, target: Path, items: seq<WalkItem>)
    ensures Grows(e, CreateDirs(e, f, w, src, target, items).entries)
    decreases |items|
  {
    if items != [] {
      CreateDirsGrows(e, f, w, src, target, items[..|items| - 1]);
    }
  }

  /** The copy step changes only its destination, which on success holds the file. */
  lemma CopyStepFacts(e1: Entries, f: Faults, k: Path, dst: Path, now: nat)
    requires k in e1 && e1[k].File? && k != dst
    ensures var o := CopyStep(e1, f, k, dst, now);
      forall p :: p in e1 && p != dst ==> p in o.entries && o.entries[p] == e1[p]
    ensures var o := CopyStep(e1, f, k, dst, now);
      o.result.Ok? ==> dst in o.entries && o.entries[dst] == File(e1[k].data, e1[k].mode, now, now)
  {
  }

  /**
   * One file of step 2 touches nothing but its parent directories, which it
   * may create, and its copy, which on success holds the file's content.
   */
  lemma CopyOneFacts(e: Entries, f: Faults, src: Path, target: Path, k: Path, probes: Path -> Readings, now: nat)
    requires Disjoint(src, target) && src <= k && k in e && e[k].File?
    ensures var o := CopyOne(e, f, src, target, k, probes, now);
      forall p :: p in e && p != Rebase(k, src, target) ==> p in o.entries && o.entries[p] == e[p]
    ensures SourceIntact(e, CopyOne(e, f, src, target, k, probes, now).entries, src)
    ensures CopyOne(e, f, src, target, k, probes, now).result.Ok? ==>
      Copied(e, CopyOne(e, f, src, target, k, probes, now).entries, src, target, k, now)
  {
    var dst := Rebase(k, src, target);
    OutsideSource(src, target, dst, dst);
    if !FileIsMutable(k, probes(k), CurrentSize(e, f, k)) {
      var made := match Parent(dst) case None => Ok(e) case Some(p) => CreateDirAllResult(e, f, p);
      if made.Ok? {
        assert Grows(e, made.value);
        CopyStepFacts(made.value, f, k, dst, now);
      }
    }
  }

  /** Step 2 keeps the source and, when it succeeds, has copied every file it was given. */
  lemma {:induction false} CopyFilesFacts(e: Entries, f: Faults, src: Path, target: Path, files: seq<Path>,
                                          probes: Path -> Readings, now: nat)
    requires Disjoint(src, target)
    requires forall i :: 0 <= i < |files| ==> src <= files[i] && files[i] in e && e[files[i]].File?
    ensures SourceIntact(e, CopyFiles(e, f, src, target, files, probes, now).entries, src)
    ensures var o := CopyFiles(e, f, src, target, files, probes, now);
      o.result.Ok? ==> forall i :: 0 <= i < |files| ==> Copied(e, o.entries, src, target, files[i], now)
    decreases |files|
  {
    if files != [] {
      var init := files[..|files| - 1];
      var k := files[|files| - 1];
      var o1 := CopyFiles(e, f, src, target, init, probes, now);
      CopyFilesFacts(e, f, src, target, init, probes, now);
      if o1.result.Ok? {
        CopyOneFacts(o1.entries, f, src, target, k, probes, now);
        var o := CopyOne(o1.entries, f, src, target, k, probes, now);
        if o.result.Ok? {
          forall i | 0 <= i < |files| ensures Copied(e, o.entries, src, target, files[i], now) {
            if i < |files| - 1 {
              assert files[i] == init[i];
              if Rebase(files[i], src, target) == Rebase(k, src, target) {
                RebaseInjective(src, target, files[i], k);
              }
            }
          }
        }
      }
    }
  }

  /**
   * Steps 2 and 3: a failure leaves the source as it was; success has
   * removed the source and copied every regular file of the second walk.
   */
  lemma CopyAndRemoveFacts(e1: Entries, f: Faults, src: Path, target: Path, probes: Path -> Readings,
                           fileWalk: seq<WalkItem>, now: nat)
    requires Disjoint(src, target)
    ensures var o := CopyAndRemove(e1, f, src, target, probes, fileWalk, now);
      o.result.Err? ==> SourceIntact(e1, o.entries, src)
    ensures var o := CopyAndRemove(e1, f, src, target, probes, fileWalk, now);
      o.result.Ok? ==>
        src !in o.entries
        && forall k :: Found(k) in fileWalk && k in e1 && e1[k].File? && src <= k ==> Copied(e1, o.entries, src, target, k, now)
  {
    var files := FilesOf(e1, src, fileWalk);
    CopyFilesFacts(e1, f, src, target, files, probes, now);
    var c := CopyFiles(e1, f, src, target, files, probes, now);
    if c.result.Ok? && RemoveDirAllResult(c.entries, f, src).Ok? {
      RemoveKeepsOutside(c.entries, f, src);
      var e2 := RemoveDirAllResult(c.entries, f, src).value;
      forall k | Found(k) in fileWalk && k in e1 && e1[k].File? && src <= k ensures Copied(e1, e2, src, target, k, now) {
        var i :| 0 <= i < |files| && files[i] == k;
        assert Copied(e1, c.entries, src, target, k, now);
        OutsideSource(src, target, Rebase(k, src, target), Rebase(k, src, target));
      }
    }
  }

  /** remove_dir_all removes the source and nothing outside it. */
  lemma RemoveKeepsOutside(e: Entries, f: Faults, src: Path)
    requires RemoveDirAllResult(e, f, src).Ok?
    ensures var e2 := RemoveDirAllResult(e, f, src).value;
      src !in e2 && forall p :: p in e && !(src <= p) ==> p in e2 && e2[p] == e[p]
  {
  }

  /** A dry run reports the target and touches nothing. */
  lemma DryRunDir(e: Entries, f: Faults, cfg: Config, src: Path, shutdown: bool, q: Result<StatVfs, IoError>,
                  probes: Path -> Readings, dirWalk: seq<WalkItem>, fileWalk: seq<WalkItem>, now: nat)
    requires cfg.dryRun
    ensures var o := MoveDirOutcome(e, f, cfg, src, shutdown, q, probes, dirWalk, fileWalk, now);
      o.entries == e && (o.result.Ok? <==> !shutdown && EnsureNotBase(e, cfg.downloadBase, src).Ok? && src != [])
  {
  }

  /**
   * A successful rename is the whole move: the size, the free space, the
   * walks and the probes play no part.
   */
  lemma RenameIsTheWholeMove(e: Entries, f: Faults, cfg: Config, src: Path, shutdown: bool,
                             q1: Result<StatVfs, IoError>, q2: Result<StatVfs, IoError>,
                             probes1: Path -> Readings, probes2: Path -> Readings,
                             dirWalk1: seq<WalkItem>, fileWalk1: seq<WalkItem>,
                             dirWalk2: seq<WalkItem>, fileWalk2: seq<WalkItem>, now: nat)
    requires !shutdown && EnsureNotBase(e, cfg.downloadBase, src).Ok? && src != [] && !cfg.dryRun
    requires RenameResult(e, f, src, DirTarget(cfg, src)).Ok?
    ensures MoveDirOutcome(e, f, cfg, src, shutdown, q1, probes1, dirWalk1, fileWalk1, now)
      == Outcome(RenameResult(e, f, src, DirTarget(cfg, src)).value, Ok(DirTarget(cfg, src)))
      == MoveDirOutcome(e, f, cfg, src, shutdown, q2, probes2, dirWalk2, fileWalk2, now)
  {
  }

  /**
   * The free space is checked only when the tree's size is known: with an
   * unknown size statvfs plays no part, and with a known one a refusal
   * leaves everything as it was.
   */
  lemma SpaceCheckOnlyWhenSized(e: Entries, f: Faults, base: Path, src: Path, target: Path,
                                q1: Result<StatVfs, IoError>, q2: Result<StatVfs, IoError>,
                                probes: Path -> Readings, dirWalk: seq<WalkItem>, fileWalk: seq<WalkItem>, now: nat)
    ensures TreeBytes(e, f, src).None? ==>
      CopyTree(e, f, base, src, target, q1, probes, dirWalk, fileWalk, now)
      == CopyTree(e, f, base, src, target, q2, probes, dirWalk, fileWalk, now)
    ensures TreeBytes(e, f, src).Some? && EnsureSpaceForCopy(q1, base, TreeBytes(e, f, src).value).Err? ==>
      CopyTree(e, f, base, src, target, q1, probes, dirWalk, fileWalk, now)
      == Outcome(e, Err(EnsureSpaceForCopy(q1, base, TreeBytes(e, f, src).value).error))
  {
  }

  /** A failed directory move never loses anything of the source tree. */
  lemma FailedDirMoveKeepsSource(e: Entries, f: Faults, cfg: Config, src: Path, shutdown: bool, q: Result<StatVfs, IoError>,
                                 probes: Path -> Readings, dirWalk: seq<WalkItem>, fileWalk: seq<WalkItem>, now: nat)
    requires src != [] ==> Disjoint(src, DirTarget(cfg, src))
    ensures var o := MoveDirOutcome(e, f, cfg, src, shutdown, q, probes, dirWalk, fileWalk, now);
      o.result.Err? ==> SourceIntact(e, o.entries, src)
  {
    if FallsBack(e, f, cfg, src, shutdown) {
      FallbackIsCopyTree(e, f, cfg, src, shutdown, q, probes, dirWalk, fileWalk, now);
      FailedCopyTreeKeepsSource(e, f, cfg.completedBase, src, DirTarget(cfg, src), q, probes, dirWalk, fileWalk, now);
    }
  }

  lemma FailedCopyTreeKeepsSource(e: Entries, f: Faults, base: Path, src: Path, target: Path, q: Result<StatVfs, IoError>,
                                  probes: Path -> Readings, dirWalk: seq<WalkItem>, fileWalk: seq<WalkItem>, now: nat)
    requires Disjoint(src, target)
    ensures var o := CopyTree(e, f, base, src, target, q, probes, dirWalk, fileWalk, now);
      o.result.Err? ==> SourceIntact(e, o.entries, src)
  {
    CreateDirsGrows(e, f, e, src, target, dirWalk);
    var d := CreateDirs(e, f, e, src, target, dirWalk);
    CopyAndRemoveFacts(d.entries, f, src, target, probes, fileWalk, now);
    var o := CopyTree(e, f, base, src, target, q, probes, dirWalk, fileWalk, now);
    if o.result.Err? && SpaceCheck(e, f, base, src, q).Ok? && d.result.Ok? {
      assert o == CopyAndRemove(d.entries, f, src, target, probes, fileWalk, now);
      forall k | k in e && src <= k ensures k in o.entries && o.entries[k] == e[k] {
        assert k in d.entries && d.entries[k] == e[k];
      }
    }
  }

  /** Every check passed and the rename failed. */
  predicate FallsBack(e: Entries, f: Faults, cfg: Config, src: Path, shutdown: bool) {
    !shutdown && EnsureNotBase(e, cfg.downloadBase, src).Ok? && src != [] && !cfg.dryRun
    && RenameResult(e, f, src, DirTarget(cfg, src)).Err?
  }

  lemma FallbackIsCopyTree(e: Entries, f: Faults, cfg: Config, src: Path, shutdown: bool, q: Result<StatVfs, IoError>,
                           probes: Path -> Readings, dirWalk: seq<WalkItem>, fileWalk: seq<WalkItem>, now: nat)
    requires FallsBack(e, f, cfg, src, shutdown)
    ensures MoveDirOutcome(e, f, cfg, src, shutdown, q, probes, dirWalk, fileWalk, now)
      == CopyTree(e, f, cfg.completedBase, src, DirTarget(cfg, src), q, probes, dirWalk, fileWalk, now)
  {
  }

  /** A successful fallback went through step 1 and then steps 2 and 3. */
  lemma CopyTreeSucceeded(e: Entries, f: Faults, base: Path, src: Path, target: Path, q: Result<StatVfs, IoError>,
                      probes: Path -> Readings, dirWalk: seq<WalkItem>, fileWalk: seq<WalkItem>, now: nat)
    ensures var o := CopyTree(e, f, base, src, target, q, probes, dirWalk, fileWalk, now);
      var d := CreateDirs(e, f, e, src, target, dirWalk);
      o.result.Ok? ==> d.result.Ok? && o == CopyAndRemove(d.entries, f, src, target, probes, fileWalk, now)
  {
  }

  /**
   * The source tree is removed only after every regular file the walk can
   * reach was copied below the target with its content and permission bits.
   */
  lemma DirCopyComplete(e: Entries, f: Faults, cfg: Config, src: Path, shutdown: bool, q: Result<StatVfs, IoError>,
                        probes: Path -> Readings, dirWalk: seq<WalkItem>, fileWalk: seq<WalkItem>, now: nat)
    requires FallsBack(e, f, cfg, src, shutdown) && Disjoint(src, DirTarget(cfg, src))
    requires WalkOrders(e, f, src, DirTarget(cfg, src), dirWalk, fileWalk)
    ensures var o := MoveDirOutcome(e, f, cfg, src, shutdown, q, probes, dirWalk, fileWalk, now);
      o.result.Ok? ==>
        src !in o.entries
        && forall k :: k in e && src <= k && e[k].File? && Reachable(e, f, src, k) ==>
             Copied(e, o.entries, src, DirTarget(cfg, src), k, now)
  {
    var target := DirTarget(cfg, src);
    var o := MoveDirOutcome(e, f, cfg, src, shutdown, q, probes, dirWalk, fileWalk, now);
    var d := CreateDirs(e, f, e, src, target, dirWalk);
    FallbackIsCopyTree(e, f, cfg, src, shutdown, q, probes, dirWalk, fileWalk, now);
    CopyTreeSucceeded(e, f, cfg.completedBase, src, target, q, probes, dirWalk, fileWalk, now);
    if o.result.Ok? {
      CreateDirsGrows(e, f, e, src, target, dirWalk);
      CopyAndRemoveFacts(d.entries, f, src, target, probes, fileWalk, now);
      forall k | k in e && src <= k && e[k].File? && Reachable(e, f, src, k) ensures Copied(e, o.entries, src, target, k, now) {
        assert Reachable(d.entries, f, src, k);
        assert Found(k) in WalkItems(d.entries, f, src, 0, None);
        assert Found(k) in fileWalk;
        assert Copied(d.entries, o.entries, src, target, k, now);
      }
    }
  }
}
