/**
 * The XML configuration file (config/xml.rs): choosing the file, mapping
 * and defaulting its fields, and the guards around writing a template.
 * The XML parser itself is outside the model: its result is an input.
 */
module ConfigXml {
  import opened Common
  import opened Paths
  import opened Fs
  import opened ConfigTypes
  import opened ConfigPaths
  import opened Platform

  /** The fields of XmlConfig, each present or absent (paths already converted). */
  datatype XmlConfig = XmlConfig(
    downloadBase: Option<Path>,
    completedBase: Option<Path>,
    logLevel: Option<string>,
    logFile: Option<Path>,
    preserveMetadata: Option<bool>,
    recentWindowSeconds: Option<u64>)

  /** What quick_xml's deserializer returns: the fields, or an error message. */
  datatype Parsed = Parsed(config: XmlConfig) | ParseFailed(message: string)

  /** The tuple load_config_from_xml returns. */
  datatype Loaded = Loaded(
    downloadBase: Path,
    completedBase: Path,
    logLevel: Option<LogLevel>,
    logFile: Option<Path>,
    /** Nanoseconds. */
    recentWindow: nat,
    preserveMetadata: bool)

  /** load_config_from_xml's verdict: no config, a config, or the panic on an unknown field. */
  datatype LoadResult = NoConfig | Settings(loaded: Loaded) | UnknownFieldAbort

  const UNKNOWN_FIELD := "unknown field"

  /** Step 4 of the loader: map the fields, treating a config with nothing meaningful as none. */
  function MapFields(x: XmlConfig, env: Env): (r: Option<Loaded>)
  {
    var level := if x.logLevel.Some? then ParseLevel(x.logLevel.value) else None;
    if x.downloadBase.None? && x.completedBase.None? && level.None? && x.logFile.None? then None
    else
      Some(Loaded(
        if x.downloadBase.Some? then x.downloadBase.value else DOWNLOAD_BASE_DEFAULT,
        if x.completedBase.Some? then x.completedBase.value else COMPLETED_BASE_DEFAULT,
        level,
        if x.logFile.Some? then x.logFile else if DefaultLogPath(env).Ok? then Some(DefaultLogPath(env).value) else None,
        (if x.recentWindowSeconds.Some? then x.recentWindowSeconds.value else DEFAULT_RECENT_SECS) * SECOND,
        x.preserveMetadata == Some(true)))
  }

  /**
   * Only the two bases, a level that parses and the log file count: when
   * all four are absent there is no config, even if the other fields are set.
   */
  lemma MeaningfulFields(x: XmlConfig, env: Env)
    ensures MapFields(x, env).None? <==>
      x.downloadBase.None? && x.completedBase.None? && x.logFile.None?
      && (x.logLevel.None? || ParseLevel(x.logLevel.value).None?)
  {
  }

  /** A log_level that LogLevel::parse rejects counts as absent. */
  lemma BadLevelIsAbsent(x: XmlConfig, env: Env)
    requires x.logLevel.Some? && ParseLevel(x.logLevel.value).None?
    ensures MapFields(x, env) == MapFields(x.(logLevel := None), env)
  {
  }

  /**
   * Each present field is taken as given; missing bases take the defaults,
   * a missing log file takes default_log_path (or none), the window
   * defaults to 300 s and preserve_metadata to false.
   */
  lemma FieldDefaults(x: XmlConfig, env: Env)
    requires MapFields(x, env).Some?
    ensures var c := MapFields(x, env).value;
      (c.downloadBase == if x.downloadBase.Some? then x.downloadBase.value else DOWNLOAD_BASE_DEFAULT)
      && (c.completedBase == if x.completedBase.Some? then x.completedBase.value else COMPLETED_BASE_DEFAULT)
      && (x.logLevel.Some? ==> c.logLevel == ParseLevel(x.logLevel.value))
      && (x.logLevel.None? ==> c.logLevel.None?)
      && (x.logFile.Some? ==> c.logFile == x.logFile)
      && (x.logFile.None? ==> (c.logFile.Some? <==> DefaultLogPath(env).Ok?))
      && (x.logFile.None? && c.logFile.Some? ==> c.logFile.value == DefaultLogPath(env).value)
      && (x.recentWindowSeconds.None? ==> c.recentWindow == 300 * SECOND)
      && (x.recentWindowSeconds.Some? ==> c.recentWindow == x.recentWindowSeconds.value * SECOND)
      && (c.preserveMetadata <==> x.preserveMetadata == Some(true))
  {
  }

  // ---------------------------------------------------------------------
  // create_template_config

  datatype TemplateError = AncestorIsLink(path: Path) | TemplateIo(error: IoError)

  datatype TemplateOutcome = TemplateOutcome(entries: Entries, result: Result<(), TemplateError>)

  /** 0o700. */
  const TEMPLATE_DIR_MODE: nat := 448

  const PLACEHOLDER_LOG := "/path/to/aria_move.log"

  /** The log path the template suggests. */
  function SuggestedLog(env: Env): string {
    if DefaultLogPath(env).Ok? then Display(DefaultLogPath(env).value) else PLACEHOLDER_LOG
  }

  /** The template's text. */
  function TemplateText(suggestedLog: string): string {
    "<config>\n  <download_base>" + Display(DOWNLOAD_BASE_DEFAULT) + "</download_base>\n  <completed_base>"
    + Display(COMPLETED_BASE_DEFAULT) + "</completed_base>\n  <log_level>normal</log_level>\n  <log_file>"
    + suggestedLog + "</log_file>\n"
    + "  <!-- optional: preserve file permissions and mtime when moving (default: false) -->\n"
    + "  <preserve_metadata>false</preserve_metadata>\n"
    + "  <!-- optional: override recent window in seconds (default: 300) -->\n"
    + "  <recent_window_seconds>" + Decimal(DEFAULT_RECENT_SECS) + "</recent_window_seconds>\n</config>\n"
  }

  /**
   * create_template_config.  `encode` turns the text into bytes; `tmp` is
   * the temp path the secure write uses.
   */
  function CreateTemplate(e: Entries, f: Faults, path: Path, env: Env, encode: string -> seq<byte>, tmp: Path, now: nat)
    : TemplateOutcome
  {
    match HasSymlinkAncestor(e, f, path)
    case Err(x) => TemplateOutcome(e, Err(TemplateIo(x)))
    case Ok(true) => TemplateOutcome(e, Err(AncestorIsLink(path)))
    case Ok(false) =>
      match PrepareParent(e, f, path)
      case Err(x) => TemplateOutcome(e, Err(TemplateIo(x)))
      case Ok(e2) => WriteTemplate(e2, f, path, encode(TemplateText(SuggestedLog(env))), tmp, now)
  }

  /** create_dir_all of the parent, then a best-effort chmod 0700 of it. */
  function PrepareParent(e: Entries, f: Faults, path: Path): Result<Entries, IoError> {
    if path == [] then Ok(e)
    else
      match CreateDirAllResult(e, f, path[..|path| - 1])
      case Err(x) => Err(x)
      case Ok(e1) => Ok(match SetPermsResult(e1, f, path[..|path| - 1], TEMPLATE_DIR_MODE) case Ok(e2) => e2 case Err(_) => e1)
  }

  /** The secure write of the template, then a best-effort chmod 0600. */
  function WriteTemplate(e2: Entries, f: Faults, path: Path, data: seq<byte>, tmp: Path, now: nat): TemplateOutcome {
    var w := WriteConfigSecureNew0600Result(e2, f, path, data, tmp, now);
    if w.error.Some? then TemplateOutcome(w.entries, Err(TemplateIo(w.error.value)))
    else TemplateOutcome(match SetPermsResult(w.entries, f, path, CONFIG_MODE) case Ok(e3) => e3 case Err(_) => w.entries, Ok(()))
  }

  /** Under a symlinked ancestor no template is written and nothing changes. */
  lemma TemplateRefusedUnderLink(e: Entries, f: Faults, path: Path, env: Env, encode: string -> seq<byte>, tmp: Path, now: nat)
    requires HasSymlinkAncestor(e, f, path) == Ok(true)
    ensures CreateTemplate(e, f, path, env, encode, tmp, now) == TemplateOutcome(e, Err(AncestorIsLink(path)))
  {
  }

  lemma PrepareParentWellFormed(e: Entries, f: Faults, path: Path)
    requires WellFormed(e) && PrepareParent(e, f, path).Ok?
    ensures WellFormed(PrepareParent(e, f, path).value)
  {
    if path != [] {
      var e1 := CreateDirAllResult(e, f, path[..|path| - 1]).value;
      WellFormedCreateDirAll(e, f, path[..|path| - 1]);
      if SetPermsResult(e1, f, path[..|path| - 1], TEMPLATE_DIR_MODE).Ok? {
        WellFormedSetPerms(e1, f, path[..|path| - 1], TEMPLATE_DIR_MODE);
      }
    }
  }

  lemma WriteTemplateWritten(e2: Entries, f: Faults, path: Path, data: seq<byte>, tmp: Path, now: nat)
    requires WellFormed(e2) && tmp != path && WriteTemplate(e2, f, path, data, tmp, now).result.Ok?
    ensures var o := WriteTemplate(e2, f, path, data, tmp, now);
      path in o.entries && o.entries[path] == File(data, CONFIG_MODE, now, now)
  {
    AtomicWriteSuccess(e2, f, path, data, tmp, now, false);
    var w := WriteConfigSecureNew0600Result(e2, f, path, data, tmp, now);
    assert w.entries[path] == File(data, CONFIG_MODE, now, now);
    assert Follow(w.entries, path, MAX_SYMLINK_HOPS) == Ok(path);
  }

  /** A written template is a regular file holding the template text with mode 0600. */
  lemma TemplateWritten(e: Entries, f: Faults, path: Path, env: Env, encode: string -> seq<byte>, tmp: Path, now: nat)
    requires WellFormed(e) && tmp != path
    requires CreateTemplate(e, f, path, env, encode, tmp, now).result.Ok?
    ensures var o := CreateTemplate(e, f, path, env, encode, tmp, now);
      path in o.entries && o.entries[path] == File(encode(TemplateText(SuggestedLog(env))), CONFIG_MODE, now, now)
  {
    PrepareParentWellFormed(e, f, path);
    WriteTemplateWritten(PrepareParent(e, f, path).value, f, path, encode(TemplateText(SuggestedLog(env))), tmp, now);
  }

  // ---------------------------------------------------------------------
  // load_config_from_xml

  datatype LoadOutcome = LoadOutcome(entries: Entries, result: LoadResult)

  /**
   * load_config_from_xml.  `read` is what reading and parsing the file
   * gives (None: the file could not be read); the template inputs are
   * those of create_template_config.
   */
  function LoadConfigFromXml(e: Entries, f: Faults, env: Env, read: Option<Parsed>,
                             encode: string -> seq<byte>, tmp: Path, now: nat): LoadOutcome
  {
    match DefaultConfigPath(env)
    case Err(_) => LoadOutcome(e, NoConfig)
    case Ok(cfgPath) =>
      if !Exists(e, f, cfgPath) then
        LoadOutcome(if env.configOverride.None? then CreateTemplate(e, f, cfgPath, env, encode, tmp, now).entries else e, NoConfig)
      else
        match read
        case None => LoadOutcome(e, NoConfig)
        case Some(ParseFailed(msg)) => LoadOutcome(e, if Find(msg, UNKNOWN_FIELD).Some? then UnknownFieldAbort else NoConfig)
        case Some(Parsed(x)) =>
          match MapFields(x, env)
          case None => LoadOutcome(e, NoConfig)
          case Some(c) => LoadOutcome(e, Settings(c))
  }

  /**
   * A missing file is no config; a template is attempted only for the
   * default location, never for an ARIA_MOVE_CONFIG path.
   */
  lemma MissingFileIsNoConfig(e: Entries, f: Faults, env: Env, read: Option<Parsed>, encode: string -> seq<byte>, tmp: Path, now: nat)
    requires DefaultConfigPath(env).Ok? && !Exists(e, f, DefaultConfigPath(env).value)
    ensures var o := LoadConfigFromXml(e, f, env, read, encode, tmp, now);
      o.result == NoConfig
      && (env.configOverride.Some? ==> o.entries == e)
      && (env.configOverride.None? ==> o.entries == CreateTemplate(e, f, DefaultConfigPath(env).value, env, encode, tmp, now).entries)
  {
  }

  /**
   * Reading only: an existing file never changes the filesystem.  A parse
   * error is no config, except that an unknown field aborts.
   */
  lemma ParseErrors(e: Entries, f: Faults, env: Env, read: Option<Parsed>, encode: string -> seq<byte>, tmp: Path, now: nat)
    requires DefaultConfigPath(env).Ok? && Exists(e, f, DefaultConfigPath(env).value)
    ensures LoadConfigFromXml(e, f, env, read, encode, tmp, now).entries == e
    ensures read.None? ==> LoadConfigFromXml(e, f, env, read, encode, tmp, now).result == NoConfig
    ensures read.Some? && read.value.ParseFailed? ==>
      (LoadConfigFromXml(e, f, env, read, encode, tmp, now).result == UnknownFieldAbort
       <==> exists j :: OccursAt(read.value.message, UNKNOWN_FIELD, j))
    ensures read.Some? && read.value.Parsed? ==>
      LoadConfigFromXml(e, f, env, read, encode, tmp, now).result
      == (if MapFields(read.value.config, env).Some? then Settings(MapFields(read.value.config, env).value) else NoConfig)
  {
    if read.Some? && read.value.ParseFailed? {
      var msg := read.value.message;
      if exists j :: OccursAt(msg, UNKNOWN_FIELD, j) {
        var j :| OccursAt(msg, UNKNOWN_FIELD, j);
        assert Find(msg, UNKNOWN_FIELD).Some?;
      }
    }
  }

  // ---------------------------------------------------------------------
  // ensure_default_config_exists

  datatype EnsureOutcome = EnsureOutcome(entries: Entries, created: Option<Path>)

  /** ensure_default_config_exists. */
  function EnsureDefaultConfigExists(e: Entries, f: Faults, env: Env, encode: string -> seq<byte>, tmp: Path, now: nat)
    : EnsureOutcome
  {
    if env.configOverride.Some? then EnsureOutcome(e, None)
    else
      match DefaultConfigPath(env)
      case Err(_) => EnsureOutcome(e, None)
      case Ok(cfgPath) =>
        if Exists(e, f, cfgPath) then EnsureOutcome(e, None)
        else if HasSymlinkAncestor(e, f, cfgPath) == Ok(true) then EnsureOutcome(e, None)
        else
          var t := CreateTemplate(e, f, cfgPath, env, encode, tmp, now);
          EnsureOutcome(t.entries, if t.result.Ok? then Some(cfgPath) else None)
  }

  /**
   * Nothing is created when ARIA_MOVE_CONFIG is set, when there is no
   * default path, when the file exists, or under a symlinked ancestor.
   */
  lemma EnsureDefaultGuards(e: Entries, f: Faults, env: Env, encode: string -> seq<byte>, tmp: Path, now: nat)
    requires env.configOverride.Some? || DefaultConfigPath(env).Err? || Exists(e, f, DefaultConfigPath(env).value)
             || HasSymlinkAncestor(e, f, DefaultConfigPath(env).value) == Ok(true)
    ensures EnsureDefaultConfigExists(e, f, env, encode, tmp, now) == EnsureOutcome(e, None)
  {
  }

  /** A reported path is the default config path, and it now holds the template. */
  lemma EnsureDefaultCreated(e: Entries, f: Faults, env: Env, encode: string -> seq<byte>, tmp: Path, now: nat)
    requires WellFormed(e)
    requires EnsureDefaultConfigExists(e, f, env, encode, tmp, now).created.Some?
    requires tmp != DefaultConfigPath(env).value
    ensures var o := EnsureDefaultConfigExists(e, f, env, encode, tmp, now);
      env.configOverride.None? && o.created == Some(DefaultConfigPath(env).value)
      && o.created.value in o.entries
      && o.entries[o.created.value] == File(encode(TemplateText(SuggestedLog(env))), CONFIG_MODE, now, now)
  {
    TemplateWritten(e, f, DefaultConfigPath(env).value, env, encode, tmp, now);
  }
}
