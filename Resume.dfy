/**
 * The startup reconciliation pass (resume.rs): inside completed_base,
 * remove orphaned resume temp files, then remove every destination
 * directory that has fewer top-level entries than the same-named directory
 * in download_base (a partial copy left by a crash).  Both passes ignore a
 * completed_base they cannot list and only log failed removals.
 */
module Resume {
  import opened Common
  import opened Paths
  import opened Fs
  import opened FsUtil
  import opened ConfigTypes

  /** is_resume_temp: the file name starts with ".aria_move.resume." and ends with ".tmp". */
  predicate IsResumeTemp(p: Path) {
    p != [] && StartsWith(p[|p| - 1], RESUME_PREFIX) && EndsWith(p[|p| - 1], RESUME_SUFFIX)
  }

  /** Every path resume_temp_path produces is recognised as a resume temp. */
  lemma ResumeTempPathRecognised(dest: Path, hash: string -> u64)
    ensures IsResumeTemp(ResumeTempPath(dest, hash))
  {
  }

  /** The two affixes may share the dot: ".aria_move.resume.tmp" is a resume temp too. */
  lemma SharedDotRecognised(dir: Path)
    ensures IsResumeTemp(dir + [".aria_move.resume.tmp"])
  {
    var name := ".aria_move.resume.tmp";
    assert name[..|RESUME_PREFIX|] == RESUME_PREFIX;
    assert name[|name| - |RESUME_SUFFIX|..] == RESUME_SUFFIX;
  }

  /** The prefix alone is not enough. */
  lemma PrefixAloneNotRecognised(dir: Path)
    ensures !IsResumeTemp(dir + [".aria_move.resume.part"])
  {
    var name := ".aria_move.resume.part";
    assert name[|name| - |RESUME_SUFFIX|..] != RESUME_SUFFIX by {
      assert name[|name| - |RESUME_SUFFIX|..][0] == 'p';
    }
  }

  // ---------------------------------------------------------------------
  // Leaving only removals behind

  /**
   * `e2` is `e` with some entries strictly below `dir` removed: nothing is
   * added or changed, and nothing outside `dir` disappears.
   */
  ghost predicate RemovesOnlyWithin(e: Entries, e2: Entries, dir: Path) {
    (forall k :: k in e2 ==> k in e && e2[k] == e[k])
    && (forall k :: k in e && !(dir < k) ==> k in e2)
  }

  lemma RemovesOnlyWithinTransitive(e: Entries, e2: Entries, e3: Entries, dir: Path)
    requires RemovesOnlyWithin(e, e2, dir) && RemovesOnlyWithin(e2, e3, dir)
    ensures RemovesOnlyWithin(e, e3, dir)
  {
  }

  // ---------------------------------------------------------------------
  // cleanup_resume_temps

  /** One listed name: a regular file (after links) named like a resume temp is removed. */
  function RemoveTemp(e: Entries, f: Faults, base: Path, name: string): (r: Entries)
    ensures r == e || (IsFile(e, f, base + [name]) && IsResumeTemp(base + [name]) && r == e - {base + [name]})
  {
    var p := base + [name];
    if IsFile(e, f, p) && IsResumeTemp(p) then
      match RemoveFileResult(e, f, p)
      case Ok(e2) => e2
      case Err(_) => e
    else e
  }

  /** The names of completed_base in listing order, one after another. */
  function CleanupTemps(e: Entries, f: Faults, base: Path, names: seq<string>): Entries
    decreases |names|
  {
    if names == [] then e
    else RemoveTemp(CleanupTemps(e, f, base, names[..|names| - 1]), f, base, names[|names| - 1])
  }

  /** cleanup_resume_temps: an unlistable completed_base is left alone. */
  function ResumeTempsPass(e: Entries, f: Faults, base: Path, names: seq<string>): Entries {
    if ReadDir(e, f, base).Err? then e else CleanupTemps(e, f, base, names)
  }

  lemma {:induction false} CleanupTempsRemovesOnlyTemps(e: Entries, f: Faults, base: Path, names: seq<string>)
    ensures RemovesOnlyWithin(e, CleanupTemps(e, f, base, names), base)
    ensures forall k :: k in e && k !in CleanupTemps(e, f, base, names) ==>
      Parent(k) == Some(base) && IsResumeTemp(k) && k[|k| - 1] in names
    decreases |names|
  {
    if names != [] {
      var init := names[..|names| - 1];
      CleanupTempsRemovesOnlyTemps(e, f, base, init);
      var e1 := CleanupTemps(e, f, base, init);
      var p := base + [names[|names| - 1]];
      assert base < p;
      assert forall x :: x in init ==> x in names;
      forall k | k in e && k !in CleanupTemps(e, f, base, names)
        ensures Parent(k) == Some(base) && IsResumeTemp(k) && k[|k| - 1] in names
      {
        if k in e1 {
          assert k == p;
        }
      }
    }
  }

  /**
   * Every listed regular file named like a resume temp is gone afterwards,
   * unless its removal failed; a failed removal is not an error.
   */
  lemma {:induction false} CleanupTempsRemovesEveryTemp(e: Entries, f: Faults, base: Path, names: seq<string>, n: string)
    requires Distinct(names) && n in names
    requires base + [n] in e && e[base + [n]].File? && StatOp(base + [n]) !in f
    requires RemoveFileOp(base + [n]) !in f && IsResumeTemp(base + [n])
    ensures base + [n] !in CleanupTemps(e, f, base, names)
    decreases |names|
  {
    var init := names[..|names| - 1];
    var last := names[|names| - 1];
    var p := base + [n];
    var e1 := CleanupTemps(e, f, base, init);
    CleanupTempsRemovesOnlyTemps(e, f, base, init);
    if n == last {
      assert n !in init by {
        forall i | 0 <= i < |init| ensures init[i] != last {
          assert names[i] != names[|names| - 1];
        }
      }
      assert p[|p| - 1] == n;
      assert p in e1;
      assert Stat(e1, f, p) == Ok(e[p]);
    } else {
      assert n in init by {
        var i :| 0 <= i < |names| && names[i] == n;
        assert init[i] == n;
      }
      assert Distinct(init) by {
        forall i, j | 0 <= i < j < |init| ensures init[i] != init[j] {
          assert names[i] != names[j];
        }
      }
      CleanupTempsRemovesEveryTemp(e, f, base, init, n);
    }
  }

  /**
   * After the temp pass over a listable completed_base, no regular resume
   * temp directly inside it survives unless its removal failed.
   */
  lemma TempsPassRemovesEveryTemp(e: Entries, f: Faults, base: Path, names: seq<string>, p: Path)
    requires base in e && e[base].Dir? && ReadDirOp(base) !in f
    requires Distinct(names) && (set n | n in names) == ReadDir(e, f, base).value
    requires Parent(p) == Some(base) && p in e && e[p].File? && IsResumeTemp(p)
    requires StatOp(p) !in f && RemoveFileOp(p) !in f
    ensures p !in ResumeTempsPass(e, f, base, names)
  {
    var n := p[|p| - 1];
    assert p == base + [n];
    assert n in Children(e, base);
    assert n in (set x | x in names);
    CleanupTempsRemovesEveryTemp(e, f, base, names, n);
  }

  /** cleanup_resume_temps: one pass over read_dir(completed_base), always Ok. */
  method CleanupResumeTemps(fs: FileSystem, base: Path) returns (ghost names: seq<string>)
    requires fs.Valid()
    modifies fs
    ensures fs.Valid()
    ensures ReadDir(old(fs.entries), fs.faults, base).Ok? ==>
      Distinct(names) && (set n | n in names) == ReadDir(old(fs.entries), fs.faults, base).value
    ensures fs.entries == ResumeTempsPass(old(fs.entries), fs.faults, base, names)
  {
    names := [];
    var listing := fs.ReadDirNames(base);
    if listing.Err? {
      return names;
    }
    var all := listing.value;
    names := all;
    ghost var e0 := fs.entries;
    var i := 0;
    while i < |all|
      invariant 0 <= i <= |all| && fs.Valid()
      invariant fs.entries == CleanupTemps(e0, fs.faults, base, all[..i])
    {
      assert all[..i + 1][..i] == all[..i];
      var p := base + [all[i]];
      if IsFile(fs.entries, fs.faults, p) && IsResumeTemp(p) {
        var removed := fs.RemoveFile(p);
      }
      i := i + 1;
    }
    assert all[..|all|] == all;
  }

  // ---------------------------------------------------------------------
  // count_entries

  /** count_entries: the number of names read_dir lists, or its error. */
  function EntryCount(e: Entries, f: Faults, dir: Path): (r: Result<nat, IoError>)
    ensures r.Err? <==> ReadDir(e, f, dir).Err?
    ensures r.Ok? ==> r.value == |ReadDir(e, f, dir).value|
  {
    match ReadDir(e, f, dir)
    case Ok(names) => Ok(|names|)
    case Err(x) => Err(x)
  }

  /** count_entries: counts the entries of one read_dir. */
  method CountEntries(fs: FileSystem, dir: Path) returns (r: Result<nat, IoError>)
    ensures r == EntryCount(fs.entries, fs.faults, dir)
  {
    var listing := fs.ReadDirNames(dir);
    if listing.Err? {
      return Err(listing.error);
    }
    var names := listing.value;
    var c := 0;
    var i := 0;
    while i < |names|
      invariant 0 <= i <= |names| && c == i
    {
      c := c + 1;
      i := i + 1;
    }
    DistinctCount(names, ReadDir(fs.entries, fs.faults, dir).value);
    r := Ok(c);
  }

  // ---------------------------------------------------------------------
  // cleanup_partial_dirs

  /** The source's count, 0 when it cannot be listed. */
  function SourceCount(e: Entries, f: Faults, source: Path): nat {
    match EntryCount(e, f, source)
    case Ok(n) => n
    case Err(_) => 0
  }

  /** The destination's count, u64::MAX when it cannot be listed. */
  function DestCount(e: Entries, f: Faults, target: Path): nat {
    match EntryCount(e, f, target)
    case Ok(n) => n
    case Err(_) => U64_MAX
  }

  /**
   * The partial-copy heuristic: completed_base/name is a directory, the name
   * is not hidden, download_base/name is a non-empty directory, and it has
   * strictly more entries than the destination.
   */
  predicate Partial(e: Entries, f: Faults, download: Path, completed: Path, name: string) {
    IsDir(e, f, completed + [name]) && !StartsWith(name, ".") && IsDir(e, f, download + [name])
    && SourceCount(e, f, download + [name]) > 0
    && DestCount(e, f, completed + [name]) < SourceCount(e, f, download + [name])
  }

  /** One listed name of completed_base: a partial destination is removed with remove_dir_all. */
  function RemovePartial(e: Entries, f: Faults, download: Path, completed: Path, name: string): (r: Entries)
    ensures r != e ==>
      (Partial(e, f, download, completed, name) && RemoveDirAllResult(e, f, completed + [name]).Ok?
       && r == RemoveDirAllResult(e, f, completed + [name]).value)
  {
    if Partial(e, f, download, completed, name) then
      match RemoveDirAllResult(e, f, completed + [name])
      case Ok(e2) => e2
      case Err(_) => e
    else e
  }

  function CleanupPartials(e: Entries, f: Faults, download: Path, completed: Path, names: seq<string>): Entries
    decreases |names|
  {
    if names == [] then e
    else RemovePartial(CleanupPartials(e, f, download, completed, names[..|names| - 1]), f, download, completed, names[|names| - 1])
  }

  /** cleanup_partial_dirs: an unlistable completed_base is left alone. */
  function PartialDirsPass(e: Entries, f: Faults, download: Path, completed: Path, names: seq<string>): Entries {
    if ReadDir(e, f, completed).Err? then e else CleanupPartials(e, f, download, completed, names)
  }

  /**
   * A hidden name, a source that is empty or cannot be listed, or a
   * destination that cannot be listed, all keep the destination.
   */
  lemma PartialNeedsEveryCondition(e: Entries, f: Faults, download: Path, completed: Path, name: string)
    requires ReadDir(e, f, download + [name]).Err? || |ReadDir(e, f, download + [name]).value| <= U64_MAX
    ensures StartsWith(name, ".") ==> !Partial(e, f, download, completed, name)
    ensures ReadDir(e, f, download + [name]).Err? ==> !Partial(e, f, download, completed, name)
    ensures ReadDir(e, f, completed + [name]).Err? ==> !Partial(e, f, download, completed, name)
    ensures Partial(e, f, download, completed, name) ==>
      |ReadDir(e, f, completed + [name]).value| < |ReadDir(e, f, download + [name]).value|
  {
  }

  /** A removal by remove_dir_all of `completed`/name only removes entries strictly inside `completed`. */
  lemma RemovePartialWithin(e: Entries, f: Faults, download: Path, completed: Path, name: string)
    ensures RemovesOnlyWithin(e, RemovePartial(e, f, download, completed, name), completed)
  {
    var t := completed + [name];
    if RemovePartial(e, f, download, completed, name) != e {
      assert forall k :: k in Subtree(e, t) ==> completed < k;
    }
  }

  lemma {:induction false} CleanupPartialsWithin(e: Entries, f: Faults, download: Path, completed: Path, names: seq<string>)
    ensures RemovesOnlyWithin(e, CleanupPartials(e, f, download, completed, names), completed)
    decreases |names|
  {
    if names != [] {
      var init := names[..|names| - 1];
      CleanupPartialsWithin(e, f, download, completed, init);
      var e1 := CleanupPartials(e, f, download, completed, init);
      RemovePartialWithin(e1, f, download, completed, names[|names| - 1]);
      RemovesOnlyWithinTransitive(e, e1, CleanupPartials(e, f, download, completed, names), completed);
    }
  }

  /** The body of cleanup_partial_dirs' loop for one listed name. */
  method RemoveIfPartial(fs: FileSystem, download: Path, completed: Path, name: string)
    requires fs.Valid()
    modifies fs
    ensures fs.Valid()
    ensures fs.entries == RemovePartial(old(fs.entries), fs.faults, download, completed, name)
  {
    var target := completed + [name];
    if IsDir(fs.entries, fs.faults, target) && !StartsWith(name, ".") {
      var source := download + [name];
      if IsDir(fs.entries, fs.faults, source) {
        var srcCount := CountEntries(fs, source);
        var dstCount := CountEntries(fs, target);
        var s := if srcCount.Ok? then srcCount.value else 0;
        var d := if dstCount.Ok? then dstCount.value else U64_MAX;
        if s > 0 && d < s {
          var removed := fs.RemoveDirAll(target);
        }
      }
    }
  }

  /** cleanup_partial_dirs: one pass over read_dir(completed_base), always Ok. */
  method CleanupPartialDirs(fs: FileSystem, download: Path, completed: Path) returns (ghost names: seq<string>)
    requires fs.Valid()
    modifies fs
    ensures fs.Valid()
    ensures ReadDir(old(fs.entries), fs.faults, completed).Ok? ==>
      Distinct(names) && (set n | n in names) == ReadDir(old(fs.entries), fs.faults, completed).value
    ensures fs.entries == PartialDirsPass(old(fs.entries), fs.faults, download, completed, names)
  {
    names := [];
    var listing := fs.ReadDirNames(completed);
    if listing.Err? {
      return names;
    }
    var all := listing.value;
    names := all;
    ghost var e0 := fs.entries;
    var i := 0;
    while i < |all|
      invariant 0 <= i <= |all| && fs.Valid()
      invariant fs.entries == CleanupPartials(e0, fs.faults, download, completed, all[..i])
    {
      assert all[..i + 1][..i] == all[..i];
      RemoveIfPartial(fs, download, completed, all[i]);
      i := i + 1;
    }
    assert all[..|all|] == all;
  }

  // ---------------------------------------------------------------------
  // reconcile

  /** reconcile: the temp pass, then the partial-directory pass over what it left. */
  function ReconcileResult(e: Entries, f: Faults, cfg: Config, tempNames: seq<string>, dirNames: seq<string>): Entries {
    var e1 := ResumeTempsPass(e, f, cfg.completedBase, tempNames);
    PartialDirsPass(e1, f, cfg.downloadBase, cfg.completedBase, dirNames)
  }

  /** reconcile. */
  method Reconcile(fs: FileSystem, cfg: Config) returns (ghost tempNames: seq<string>, ghost dirNames: seq<string>)
    requires fs.Valid()
    modifies fs
    ensures fs.Valid()
    ensures fs.entries == ReconcileResult(old(fs.entries), fs.faults, cfg, tempNames, dirNames)
  {
    tempNames := CleanupResumeTemps(fs, cfg.completedBase);
    dirNames := CleanupPartialDirs(fs, cfg.downloadBase, cfg.completedBase);
  }

  /**
   * reconcile only removes, and only entries strictly inside completed_base:
   * whatever the listing orders, everything else (download_base included,
   * unless it lies inside completed_base) is untouched.
   */
  lemma ReconcileStaysInside(e: Entries, f: Faults, cfg: Config, tempNames: seq<string>, dirNames: seq<string>)
    ensures RemovesOnlyWithin(e, ReconcileResult(e, f, cfg, tempNames, dirNames), cfg.completedBase)
  {
    var e1 := ResumeTempsPass(e, f, cfg.completedBase, tempNames);
    CleanupTempsRemovesOnlyTemps(e, f, cfg.completedBase, tempNames);
    CleanupPartialsWithin(e1, f, cfg.downloadBase, cfg.completedBase, dirNames);
    RemovesOnlyWithinTransitive(e, e1, ReconcileResult(e, f, cfg, tempNames, dirNames), cfg.completedBase);
  }

  /** An unlistable completed_base makes reconcile change nothing. */
  lemma UnlistableCompletedUntouched(e: Entries, f: Faults, cfg: Config, tempNames: seq<string>, dirNames: seq<string>)
    requires ReadDir(e, f, cfg.completedBase).Err?
    ensures ReconcileResult(e, f, cfg, tempNames, dirNames) == e
  {
  }
}
