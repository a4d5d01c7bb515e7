/**
 * The configuration record and the program's verbosity levels, with the
 * case-insensitive level names LogLevel::parse accepts and the names
 * Display prints.
 */
module ConfigTypes {
  import opened Common
  import opened Paths

  datatype LogLevel = Quiet | Normal | Info | Debug

  const QUIET_NAMES: set<string> := {"quiet", "error", "none"}
  const NORMAL_NAMES: set<string> := {"normal"}
  const INFO_NAMES: set<string> := {"info", "verbose", "detailed"}
  const DEBUG_NAMES: set<string> := {"debug", "trace"}

  /** LogLevel::parse: the ASCII-lower-cased name picks the level. */
  function ParseLevel(s: string): (r: Option<LogLevel>)
    ensures r == Some(Quiet) <==> AsciiLower(s) in QUIET_NAMES
    ensures r == Some(Normal) <==> AsciiLower(s) in NORMAL_NAMES
    ensures r == Some(Info) <==> AsciiLower(s) in INFO_NAMES
    ensures r == Some(Debug) <==> AsciiLower(s) in DEBUG_NAMES
  {
    var l := AsciiLower(s);
    if l in QUIET_NAMES then Some(Quiet)
    else if l in NORMAL_NAMES then Some(Normal)
    else if l in INFO_NAMES then Some(Info)
    else if l in DEBUG_NAMES then Some(Debug)
    else None
  }

  /** The Display form of a level. */
  function LevelName(l: LogLevel): (s: string)
    ensures s == AsciiLower(s)
  {
    match l
    case Quiet => "quiet"
    case Normal => "normal"
    case Info => "info"
    case Debug => "debug"
  }

  /** LogLevel::from_str. */
  function LevelFromStr(s: string): (r: Result<LogLevel, string>)
    ensures r.Ok? <==> ParseLevel(s).Some?
    ensures r.Ok? ==> r.value == ParseLevel(s).value
    ensures r.Err? ==> r.error == "invalid log level: '" + s + "'"
  {
    match ParseLevel(s)
    case Some(l) => Ok(l)
    case None => Err("invalid log level: '" + s + "'")
  }

  lemma {:induction false} AsciiLowerIdempotent(s: string)
    ensures AsciiLower(AsciiLower(s)) == AsciiLower(s)
  {
    var l := AsciiLower(s);
    assert forall i :: 0 <= i < |l| ==> AsciiLower(l)[i] == l[i];
  }

  /** Parsing ignores ASCII case: a name and its lower-case form parse alike. */
  lemma ParseIgnoresCase(s: string)
    ensures ParseLevel(AsciiLower(s)) == ParseLevel(s)
  {
    AsciiLowerIdempotent(s);
  }

  /** Every level's printed name parses back to it, so from_str(to_string(l)) = Ok(l). */
  lemma LevelRoundTrip(l: LogLevel)
    ensures ParseLevel(LevelName(l)) == Some(l)
    ensures LevelFromStr(LevelName(l)) == Ok(l)
  {
    var s := LevelName(l);
    assert AsciiLower(s) == s;
  }

  /** The empty string names no level. */
  lemma EmptyIsNoLevel()
    ensures ParseLevel("") == None
  {
  }

  // ---------------------------------------------------------------------
  // Config

  const DOWNLOAD_BASE_DEFAULT: Path := ["mnt", "World", "incoming"]
  const COMPLETED_BASE_DEFAULT: Path := ["mnt", "World", "completed"]

  /** One second in the nanoseconds the model keeps times in. */
  const SECOND: nat := 1_000_000_000

  /** The recency window a configuration gets unless the XML file sets one (300 s). */
  const DEFAULT_RECENT_SECS: nat := 300

  /**
   * The settings the movers read: the fields of config::types::Config and
   * the recent_window the source resolver and the XML loader use.
   */
  datatype Config = Config(
    downloadBase: Path,
    completedBase: Path,
    logLevel: LogLevel,
    logFile: Option<Path>,
    dryRun: bool,
    preserveMetadata: bool,
    preservePermissions: bool,
    disableLocks: bool,
    /** Nanoseconds. */
    recentWindow: nat)

  /**
   * Config::default: the default bases, Normal verbosity, every switch off;
   * `defaultLog` is what paths::default_log_path returns.
   */
  function DefaultConfig(defaultLog: Option<Path>): (c: Config)
    ensures c.downloadBase == DOWNLOAD_BASE_DEFAULT && c.completedBase == COMPLETED_BASE_DEFAULT
    ensures c.logLevel == Normal && c.logFile == defaultLog
    ensures !c.dryRun && !c.preserveMetadata && !c.preservePermissions && !c.disableLocks
  {
    Config(DOWNLOAD_BASE_DEFAULT, COMPLETED_BASE_DEFAULT, Normal, defaultLog, false, false, false, false,
           DEFAULT_RECENT_SECS * SECOND)
  }

  /** Config::new: the given bases, everything else as in the default. */
  function NewConfig(downloadBase: Path, completedBase: Path, defaultLog: Option<Path>): (c: Config)
    ensures c.downloadBase == downloadBase && c.completedBase == completedBase
    ensures c.(downloadBase := DOWNLOAD_BASE_DEFAULT, completedBase := COMPLETED_BASE_DEFAULT) == DefaultConfig(defaultLog)
  {
    DefaultConfig(defaultLog).(downloadBase := downloadBase, completedBase := completedBase)
  }
}
