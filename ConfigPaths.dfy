/**
 * Where the configuration and the log live (config/paths.rs), and the
 * check that no existing ancestor of a path is a symbolic link.
 */
module ConfigPaths {
  import opened Common
  import opened Paths
  import opened Fs

  /**
   * The process environment the path helpers consult: ARIA_MOVE_CONFIG,
   * the platform's config and data directories (dirs::config_dir and
   * dirs::data_dir) and HOME.
   */
  datatype Env = Env(configOverride: Option<Path>, configDir: Option<Path>, dataDir: Option<Path>, home: Option<Path>)

  const APP_DIR := "aria_move"
  const CONFIG_FILE := "config.xml"
  const LOG_FILE := "aria_move.log"

  /** app_path: "<base>/aria_move/<filename>". */
  function AppPath(base: Path, filename: string): (r: Path)
    ensures |r| == |base| + 2 && base < r
    ensures Parent(r) == Some(base + [APP_DIR]) && FileName(r) == Some(filename)
  {
    var r := base + [APP_DIR, filename];
    assert r[..|r| - 1] == base + [APP_DIR];
    r
  }

  /** default_config_path. */
  function DefaultConfigPath(env: Env): Result<Path, string> {
    match env.configOverride
    case Some(p) => Ok(p)
    case None =>
      match env.configDir
      case Some(base) => Ok(AppPath(base, CONFIG_FILE))
      case None =>
        match env.home
        case Some(h) => Ok(h + [".config", APP_DIR, CONFIG_FILE])
        case None => Err("HOME not set")
  }

  /**
   * ARIA_MOVE_CONFIG wins verbatim; otherwise the path is
   * <dir>/aria_move/config.xml under the config directory or else under
   * $HOME/.config; without either it is an error.
   */
  lemma ConfigPathPrecedence(env: Env)
    ensures env.configOverride.Some? ==> DefaultConfigPath(env) == Ok(env.configOverride.value)
    ensures env.configOverride.None? && env.configDir.Some? ==>
      DefaultConfigPath(env) == Ok(env.configDir.value + [APP_DIR, CONFIG_FILE])
    ensures env.configOverride.None? && env.configDir.None? && env.home.Some? ==>
      DefaultConfigPath(env) == Ok(env.home.value + [".config"] + [APP_DIR, CONFIG_FILE])
    ensures DefaultConfigPath(env).Err? <==> env.configOverride.None? && env.configDir.None? && env.home.None?
    ensures env.configOverride.None? && DefaultConfigPath(env).Ok? ==>
      FileName(DefaultConfigPath(env).value) == Some(CONFIG_FILE)
  {
    if env.configOverride.None? && env.configDir.None? && env.home.Some? {
      assert env.home.value + [".config", APP_DIR, CONFIG_FILE] == env.home.value + [".config"] + [APP_DIR, CONFIG_FILE];
    }
  }

  /** default_log_path: next to the config file, else under the data directory, else under $HOME/.local/share. */
  function DefaultLogPath(env: Env): Result<Path, string> {
    var cfg := DefaultConfigPath(env);
    if cfg.Ok? && Parent(cfg.value).Some? then Ok(Parent(cfg.value).value + [LOG_FILE])
    else
      match env.dataDir
      case Some(base) => Ok(AppPath(base, LOG_FILE))
      case None =>
        match env.home
        case Some(h) => Ok(h + [".local", "share", APP_DIR, LOG_FILE])
        case None => Err("HOME not set")
  }

  /**
   * Whenever the config path has a parent, the log is "aria_move.log" in
   * that same directory; that is every case except an ARIA_MOVE_CONFIG of
   * "/" and a missing config path.
   */
  lemma LogNextToConfig(env: Env)
    ensures DefaultConfigPath(env).Ok? && DefaultConfigPath(env).value != [] ==>
      DefaultLogPath(env).Ok?
      && Parent(DefaultLogPath(env).value) == Parent(DefaultConfigPath(env).value)
      && FileName(DefaultLogPath(env).value) == Some(LOG_FILE)
    ensures env.configOverride.None? && DefaultConfigPath(env).Ok? ==> DefaultConfigPath(env).value != []
  {
  }

  /** Without a usable config path the log falls back to the data directory, then to HOME. */
  lemma LogFallbacks(env: Env)
    requires DefaultConfigPath(env).Err? || DefaultConfigPath(env).value == []
    ensures env.dataDir.Some? ==> DefaultLogPath(env) == Ok(env.dataDir.value + [APP_DIR, LOG_FILE])
    ensures env.dataDir.None? ==> (DefaultLogPath(env).Ok? <==> env.home.Some?)
  {
  }

  // ---------------------------------------------------------------------
  // path_has_symlink_ancestor

  /** An ancestor that is reported: it exists (following links) and is itself a link. */
  predicate LinkAncestor(e: Entries, f: Faults, a: Path) {
    Exists(e, f, a) && a in e && e[a].Symlink?
  }

  /** The loop of path_has_symlink_ancestor from directory `dir` upwards. */
  function ScanFrom(e: Entries, f: Faults, dir: Path): Result<bool, IoError>
    decreases |dir|
  {
    if Exists(e, f, dir) && Lstat(e, f, dir).Err? then Err(Lstat(e, f, dir).error)
    else if Exists(e, f, dir) && Lstat(e, f, dir).value.Symlink? then Ok(true)
    else if dir == [] then Ok(false)
    else ScanFrom(e, f, dir[..|dir| - 1])
  }

  /** path_has_symlink_ancestor: the proper ancestors, nearest first. */
  function HasSymlinkAncestor(e: Entries, f: Faults, path: Path): Result<bool, IoError> {
    if path == [] then Ok(false) else ScanFrom(e, f, path[..|path| - 1])
  }

  /** path_has_symlink_ancestor. */
  method PathHasSymlinkAncestor(fs: FileSystem, path: Path) returns (r: Result<bool, IoError>)
    ensures r == HasSymlinkAncestor(fs.entries, fs.faults, path)
  {
    var cur := Parent(path);
    while cur.Some?
      invariant HasSymlinkAncestor(fs.entries, fs.faults, path) ==
        if cur.Some? then ScanFrom(fs.entries, fs.faults, cur.value) else Ok(false)
      decreases if cur.Some? then |cur.value| + 1 else 0
    {
      var dir := cur.value;
      if Exists(fs.entries, fs.faults, dir) {
        var meta := Lstat(fs.entries, fs.faults, dir);
        if meta.Err? {
          return Err(meta.error);
        }
        if meta.value.Symlink? {
          return Ok(true);
        }
      }
      cur := Parent(dir);
    }
    r := Ok(false);
  }

  /**
   * Without lstat failures the scan from `dir` is true exactly when some
   * prefix of `dir` (itself included) is a reported link.
   */
  lemma {:induction false} ScanFromFinds(e: Entries, f: Faults, dir: Path)
    requires forall i :: 0 <= i <= |dir| ==> LstatOp(dir[..i]) !in f
    ensures ScanFrom(e, f, dir) == Ok(exists i :: 0 <= i <= |dir| && LinkAncestor(e, f, dir[..i]))
    decreases |dir|
  {
    assert dir[..|dir|] == dir;
    if dir != [] && !(Exists(e, f, dir) && e[dir].Symlink?) {
      var up := dir[..|dir| - 1];
      assert forall i :: 0 <= i <= |up| ==> up[..i] == dir[..i];
      ScanFromFinds(e, f, up);
      if exists i :: 0 <= i <= |dir| && LinkAncestor(e, f, dir[..i]) {
        var i :| 0 <= i <= |dir| && LinkAncestor(e, f, dir[..i]);
        assert i <= |up| && up[..i] == dir[..i];
      }
    }
  }

  /**
   * Without lstat failures, the answer is true exactly when some proper
   * ancestor exists and is a link; the path itself is never examined.
   */
  lemma SymlinkAncestorMeans(e: Entries, f: Faults, path: Path)
    requires forall i :: 0 <= i < |path| ==> LstatOp(path[..i]) !in f
    ensures HasSymlinkAncestor(e, f, path) == Ok(exists i :: 0 <= i < |path| && LinkAncestor(e, f, path[..i]))
  {
    if path != [] {
      var dir := path[..|path| - 1];
      assert forall i :: 0 <= i <= |dir| ==> dir[..i] == path[..i];
      ScanFromFinds(e, f, dir);
      if exists i :: 0 <= i < |path| && LinkAncestor(e, f, path[..i]) {
        var i :| 0 <= i < |path| && LinkAncestor(e, f, path[..i]);
        assert dir[..i] == path[..i];
      }
    }
  }

  /**
   * The walk stops at the nearest link: once that ancestor is reached,
   * nothing above it is looked at, so a failure further up is never seen.
   */
  lemma NearestLinkStops(e: Entries, f: Faults, path: Path, j: nat)
    requires j < |path| && LinkAncestor(e, f, path[..j]) && LstatOp(path[..j]) !in f
    requires forall i :: j < i < |path| ==> LstatOp(path[..i]) !in f && !LinkAncestor(e, f, path[..i])
    ensures HasSymlinkAncestor(e, f, path) == Ok(true)
  {
    var dir := path[..|path| - 1];
    assert forall i :: 0 <= i <= |dir| ==> dir[..i] == path[..i];
    NearestLinkStopsFrom(e, f, dir, j);
  }

  lemma {:induction false} NearestLinkStopsFrom(e: Entries, f: Faults, dir: Path, j: nat)
    requires j <= |dir| && LinkAncestor(e, f, dir[..j]) && LstatOp(dir[..j]) !in f
    requires forall i :: j < i <= |dir| ==> LstatOp(dir[..i]) !in f && !LinkAncestor(e, f, dir[..i])
    ensures ScanFrom(e, f, dir) == Ok(true)
    decreases |dir|
  {
    assert dir[..|dir|] == dir;
    if j < |dir| {
      var up := dir[..|dir| - 1];
      assert forall i :: 0 <= i <= |up| ==> up[..i] == dir[..i];
      NearestLinkStopsFrom(e, f, up, j);
    }
  }

  /** A link whose target is missing does not "exist", so it is skipped. */
  lemma DanglingLinkSkipped(e: Entries, f: Faults, a: Path)
    requires a in e && e[a].Symlink? && e[a].target !in e && StatOp(a) !in f
    ensures !LinkAncestor(e, f, a)
  {
  }
}
