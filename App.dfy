/**
 * The application's own decisions (app.rs): merging the defaults, the XML
 * file and the command line into one configuration, and choosing the
 * source, where an explicit directory bypasses the file resolver.
 */
module App {
  import opened Common
  import opened Paths
  import opened Fs
  import opened Errors
  import opened ConfigTypes
  import opened Resolve

  /**
   * The command-line settings the merge and the source choice read.
   * `preservePermissions` is the --preserve-permissions switch app.rs
   * consults (cli.rs declares no such field; it is taken as given).
   */
  datatype Args = Args(
    sourcePath: Option<Path>,
    sourcePathPos: Option<Path>,
    downloadBase: Option<Path>,
    completedBase: Option<Path>,
    debug: bool,
    logLevel: Option<string>,
    dryRun: bool,
    preserveMetadata: bool,
    preservePermissions: bool)

  /** Args::resolved_source: --source-path, else the positional path. */
  function ResolvedSource(args: Args): Option<Path> {
    if args.sourcePath.Some? then args.sourcePath else args.sourcePathPos
  }

  /**
   * The seven values app.rs takes from load_config_from_xml; the seventh,
   * preserve_permissions, is one the loader in config/xml.rs does not
   * produce, so it is taken as given.
   */
  datatype XmlSettings = XmlSettings(
    downloadBase: Path,
    completedBase: Path,
    logLevel: Option<LogLevel>,
    logFile: Option<Path>,
    /** Nanoseconds. */
    recentWindow: nat,
    preserveMetadata: bool,
    preservePermissions: bool)

  // ---------------------------------------------------------------------
  // The merge

  /** The XML step: each field as the XML values leave it, the command line's own bases and level kept back. */
  function ApplyXml(cfg: Config, x: XmlSettings, args: Args): Config {
    Config(
      downloadBase := if args.downloadBase.None? then x.downloadBase else cfg.downloadBase,
      completedBase := if args.completedBase.None? then x.completedBase else cfg.completedBase,
      logLevel := if args.logLevel.None? && x.logLevel.Some? then x.logLevel.value else cfg.logLevel,
      logFile := if cfg.logFile.None? then x.logFile else cfg.logFile,
      dryRun := cfg.dryRun,
      preserveMetadata := x.preserveMetadata,
      preservePermissions := if !x.preserveMetadata then x.preservePermissions else cfg.preservePermissions,
      disableLocks := cfg.disableLocks,
      recentWindow := x.recentWindow)
  }

  /** The level the command line leaves: a parseable --log-level, else Debug for --debug alone. */
  function CliLevel(level: LogLevel, args: Args): LogLevel {
    if args.logLevel.Some? then
      (if ParseLevel(args.logLevel.value).Some? then ParseLevel(args.logLevel.value).value else level)
    else if args.debug then Debug
    else level
  }

  /** The command-line step, which overrides whatever came before. */
  function ApplyCli(cfg: Config, args: Args): Config {
    var metadata := cfg.preserveMetadata || args.preserveMetadata;
    Config(
      downloadBase := if args.downloadBase.Some? then args.downloadBase.value else cfg.downloadBase,
      completedBase := if args.completedBase.Some? then args.completedBase.value else cfg.completedBase,
      logLevel := CliLevel(cfg.logLevel, args),
      logFile := cfg.logFile,
      dryRun := cfg.dryRun || args.dryRun,
      preserveMetadata := metadata,
      preservePermissions := if args.preservePermissions && !metadata then true else cfg.preservePermissions,
      disableLocks := cfg.disableLocks,
      recentWindow := cfg.recentWindow)
  }

  /**
   * The merged configuration: Config::default (whose log file is
   * `defaultLog`, what default_log_path gave), then the XML values when the
   * file yielded any, then the command line.
   */
  function Merge(defaultLog: Option<Path>, xml: Option<XmlSettings>, args: Args): Config {
    var c := DefaultConfig(defaultLog);
    ApplyCli(if xml.Some? then ApplyXml(c, xml.value, args) else c, args)
  }

  /**
   * The merge in run.  The fields of the mutable configuration are local
   * variables here, assigned in the source's order and assembled at the end.
   */
  method MergeConfig(defaultLog: Option<Path>, xml: Option<XmlSettings>, args: Args) returns (cfg: Config)
    ensures cfg == Merge(defaultLog, xml, args)
  {
    var c0 := DefaultConfig(defaultLog);
    var downloadBase, completedBase, logLevel, logFile := c0.downloadBase, c0.completedBase, c0.logLevel, c0.logFile;
    var dryRun, preserveMetadata, preservePermissions := c0.dryRun, c0.preserveMetadata, c0.preservePermissions;
    var recentWindow := c0.recentWindow;
    if xml.Some? {
      var x := xml.value;
      if args.downloadBase.None? {
        downloadBase := x.downloadBase;
      }
      if args.completedBase.None? {
        completedBase := x.completedBase;
      }
      if args.logLevel.None? && x.logLevel.Some? {
        logLevel := x.logLevel.value;
      }
      if logFile.None? {
        logFile := x.logFile;
      }
      recentWindow := x.recentWindow;
      preserveMetadata := x.preserveMetadata;
      if !preserveMetadata {
        preservePermissions := x.preservePermissions;
      }
    }
    if args.downloadBase.Some? {
      downloadBase := args.downloadBase.value;
    }
    if args.completedBase.Some? {
      completedBase := args.completedBase.value;
    }
    if args.logLevel.Some? {
      var parsed := ParseLevel(args.logLevel.value);
      if parsed.Some? {
        logLevel := parsed.value;
      }
    } else if args.debug {
      logLevel := Debug;
    }
    if args.preserveMetadata {
      preserveMetadata := true;
    }
    if args.preservePermissions && !preserveMetadata {
      preservePermissions := true;
    }
    if args.dryRun {
      dryRun := true;
    }
    cfg := Config(downloadBase, completedBase, logLevel, logFile, dryRun, preserveMetadata, preservePermissions,
                  c0.disableLocks, recentWindow);
  }

  // ---------------------------------------------------------------------
  // What the merge guarantees

  /** A base given on the command line always wins; otherwise the XML base, otherwise the default. */
  lemma BasesPrecedence(defaultLog: Option<Path>, xml: Option<XmlSettings>, args: Args)
    ensures var c := Merge(defaultLog, xml, args);
      c.downloadBase == (if args.downloadBase.Some? then args.downloadBase.value
                         else if xml.Some? then xml.value.downloadBase else DOWNLOAD_BASE_DEFAULT)
      && c.completedBase == (if args.completedBase.Some? then args.completedBase.value
                             else if xml.Some? then xml.value.completedBase else COMPLETED_BASE_DEFAULT)
  {
  }

  /**
   * A --log-level that parses sets the level; one that does not parse
   * leaves the default Normal, and also shuts out the XML level; --debug
   * counts only without --log-level; the XML level only without either.
   */
  lemma LevelPrecedence(defaultLog: Option<Path>, xml: Option<XmlSettings>, args: Args)
    ensures var c := Merge(defaultLog, xml, args);
      (args.logLevel.Some? && ParseLevel(args.logLevel.value).Some? ==> c.logLevel == ParseLevel(args.logLevel.value).value)
      && (args.logLevel.Some? && ParseLevel(args.logLevel.value).None? ==> c.logLevel == Normal)
      && (args.logLevel.None? && args.debug ==> c.logLevel == Debug)
      && (args.logLevel.None? && !args.debug ==>
            c.logLevel == (if xml.Some? && xml.value.logLevel.Some? then xml.value.logLevel.value else Normal))
  {
  }

  /**
   * The XML log_file fills the setting only when default_log_path failed:
   * Config::default has already stored the default log path otherwise.
   */
  lemma LogFileFromXmlOnlyWithoutDefault(defaultLog: Option<Path>, xml: Option<XmlSettings>, args: Args)
    ensures var c := Merge(defaultLog, xml, args);
      (defaultLog.Some? ==> c.logFile == defaultLog)
      && (defaultLog.None? ==> c.logFile == (if xml.Some? then xml.value.logFile else None))
  {
  }

  /**
   * preserve_permissions is switched on, from the XML file or the command
   * line, only while preserve_metadata is off at that point; the XML value
   * survives a later --preserve-metadata, so both can end up set.
   */
  lemma PermissionsRule(defaultLog: Option<Path>, xml: Option<XmlSettings>, args: Args)
    ensures var c := Merge(defaultLog, xml, args);
      c.preserveMetadata == (args.preserveMetadata || (xml.Some? && xml.value.preserveMetadata))
      && (c.preservePermissions <==>
            (xml.Some? && !xml.value.preserveMetadata && xml.value.preservePermissions)
            || (args.preservePermissions && !c.preserveMetadata))
    ensures var c := Merge(defaultLog, xml, args);
      xml.Some? && !xml.value.preserveMetadata && xml.value.preservePermissions && args.preserveMetadata ==>
        c.preserveMetadata && c.preservePermissions
  {
  }

  /**
   * The command-line switches only turn settings on: with one set the
   * setting is on, and setting --preserve-metadata never turns it off;
   * dry_run comes from the command line alone and disable_locks stays off.
   */
  lemma CliSwitchesOnlyTurnOn(defaultLog: Option<Path>, xml: Option<XmlSettings>, args: Args)
    ensures var c := Merge(defaultLog, xml, args);
      (args.preserveMetadata ==> c.preserveMetadata)
      && (c.dryRun <==> args.dryRun)
      && !c.disableLocks
    ensures Merge(defaultLog, xml, args).preserveMetadata ==>
      Merge(defaultLog, xml, args.(preserveMetadata := true)).preserveMetadata
  {
  }

  /** --dry-run changes nothing but dry_run. */
  lemma DryRunChangesNothingElse(defaultLog: Option<Path>, xml: Option<XmlSettings>, args: Args)
    ensures Merge(defaultLog, xml, args.(dryRun := true)) == Merge(defaultLog, xml, args).(dryRun := true)
  {
  }

  /** The recency window is the XML file's when it yielded settings, else 300 s. */
  lemma WindowFromXml(defaultLog: Option<Path>, xml: Option<XmlSettings>, args: Args)
    ensures Merge(defaultLog, xml, args).recentWindow ==
      (if xml.Some? then xml.value.recentWindow else DEFAULT_RECENT_SECS * SECOND)
  {
  }

  // ---------------------------------------------------------------------
  // Choosing the source

  /** An explicit source that lstat reports as a directory (a link to one does not count). */
  predicate ExplicitDirectory(e: Entries, f: Faults, p: Option<Path>) {
    p.Some? && Lstat(e, f, p.value).Ok? && Lstat(e, f, p.value).value.Dir?
  }

  /**
   * The source choice in run: an explicit directory is taken as it is;
   * every other case, an explicit file or link included, goes through
   * resolve_source_path with that explicit path (or none).
   */
  method SelectSource(fs: FileSystem, cfg: Config, args: Args, shutdownAt: Option<nat>) returns (r: Result<Path, MoveError>)
    ensures ExplicitDirectory(fs.entries, fs.faults, ResolvedSource(args)) ==> r == Ok(ResolvedSource(args).value)
    ensures !ExplicitDirectory(fs.entries, fs.faults, ResolvedSource(args)) ==>
      ResolvedBy(fs.entries, fs.faults, fs.now, cfg.downloadBase, cfg.recentWindow, ResolvedSource(args), shutdownAt, r)
    ensures var p := ResolvedSource(args);
      p.Some? && p.value in fs.entries && fs.entries[p.value].Symlink? && LstatOp(p.value) !in fs.faults
      && Exists(fs.entries, fs.faults, p.value) && !IsFile(fs.entries, fs.faults, p.value) ==>
        r == Err(ProvidedNotFile(p.value))
  {
    var p := ResolvedSource(args);
    if p.Some? {
      var meta := Lstat(fs.entries, fs.faults, p.value);
      if meta.Ok? && meta.value.Dir? {
        return Ok(p.value);
      }
      r := ResolveSourcePath(fs, cfg.downloadBase, cfg.recentWindow, p, shutdownAt);
    } else {
      r := ResolveSourcePath(fs, cfg.downloadBase, cfg.recentWindow, None, shutdownAt);
    }
  }
}
