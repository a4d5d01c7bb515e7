/**
 * The decision helpers of utils.rs: a collision-free destination name,
 * the refusal to move the download base, and the "still being written"
 * heuristics.
 */
module Utils {
  import opened Common
  import opened Paths
  import opened Fs
  import opened Errors

  // ---------------------------------------------------------------------
  // unique_destination

  /** The stem of a path's file name, "file" when there is no file name. */
  function StemOf(p: Path): string {
    if p == [] then "file" else Stem(p[|p| - 1])
  }

  function ExtensionOf(p: Path): Option<string> {
    if p == [] then None else Extension(p[|p| - 1])
  }

  function WithExtension(base: string, ext: Option<string>): string {
    match ext
    case Some(x) => base + "." + x
    case None => base
  }

  /** The i-th alternative: "" for the first try, "-2" .. "-5", then "-final". */
  function AttemptTag(i: nat): string
    requires i <= 5
  {
    if i == 0 then "" else if i == 5 then "-final" else "-" + Decimal(i + 1)
  }

  /** "<stem>-<millis>-<pid><tag>[.<ext>]" next to `candidate`. */
  function TimestampedCandidate(candidate: Path, millis: nat, pid: nat, i: nat): (r: Path)
    requires i <= 5
    ensures candidate != [] ==> Parent(r) == Parent(candidate)
  {
    var base := StemOf(candidate) + "-" + Decimal(millis) + "-" + Decimal(pid) + AttemptTag(i);
    WithFileName(candidate, WithExtension(base, ExtensionOf(candidate)))
  }

  /** The first free alternative from the i-th on, or the "-final" name when none is free. */
  function FirstFreeFrom(e: Entries, f: Faults, candidate: Path, millis: nat, pid: nat, i: nat): (r: Path)
    requires i <= 5
    ensures exists j :: i <= j <= 5 && r == TimestampedCandidate(candidate, millis, pid, j) && (j < 5 ==> !Exists(e, f, r))
    decreases 5 - i
  {
    if i == 5 then TimestampedCandidate(candidate, millis, pid, 5)
    else if !Exists(e, f, TimestampedCandidate(candidate, millis, pid, i)) then TimestampedCandidate(candidate, millis, pid, i)
    else FirstFreeFrom(e, f, candidate, millis, pid, i + 1)
  }

  /** The name unique_destination settles on. */
  function UniqueName(e: Entries, f: Faults, candidate: Path, millis: nat, pid: nat): Path {
    if !Exists(e, f, candidate) then candidate else FirstFreeFrom(e, f, candidate, millis, pid, 0)
  }

  /**
   * unique_destination: the candidate itself when it does not exist; else
   * the first free of the timestamped name and its "-2" .. "-5" variants;
   * else the "-final" name, whether or not it exists.
   */
  method UniqueDestination(fs: FileSystem, candidate: Path, millis: nat, pid: nat) returns (dest: Path)
    ensures !Exists(fs.entries, fs.faults, candidate) ==> dest == candidate
    ensures Exists(fs.entries, fs.faults, candidate) ==>
      exists i :: 0 <= i <= 5 && dest == TimestampedCandidate(candidate, millis, pid, i)
        && (i < 5 ==> !Exists(fs.entries, fs.faults, dest))
        && forall j :: 0 <= j < i ==> Exists(fs.entries, fs.faults, TimestampedCandidate(candidate, millis, pid, j))
    ensures dest == UniqueName(fs.entries, fs.faults, candidate, millis, pid)
  {
    if !Exists(fs.entries, fs.faults, candidate) {
      return candidate;
    }
    var i := 0;
    while i < 5
      invariant 0 <= i <= 5
      invariant forall j :: 0 <= j < i ==> Exists(fs.entries, fs.faults, TimestampedCandidate(candidate, millis, pid, j))
      invariant FirstFreeFrom(fs.entries, fs.faults, candidate, millis, pid, i)
        == FirstFreeFrom(fs.entries, fs.faults, candidate, millis, pid, 0)
    {
      dest := TimestampedCandidate(candidate, millis, pid, i);
      if !Exists(fs.entries, fs.faults, dest) {
        return;
      }
      i := i + 1;
    }
    dest := TimestampedCandidate(candidate, millis, pid, 5);
  }

  /** An existing candidate always gets a different file name in the same directory. */
  lemma TimestampedNameDiffers(candidate: Path, millis: nat, pid: nat, i: nat)
    requires candidate != [] && i <= 5
    ensures var r := TimestampedCandidate(candidate, millis, pid, i);
      Parent(r) == Parent(candidate) && FileName(r) != FileName(candidate)
  {
    var name := candidate[|candidate| - 1];
    StemExtensionSplit(name);
    var base := Stem(name) + "-" + Decimal(millis) + "-" + Decimal(pid) + AttemptTag(i);
    assert |WithExtension(base, Extension(name))| > |name|;
  }

  /**
   * The chosen name is never an existing source of the same file name: the
   * candidate is kept only when it does not exist, and every alternative
   * has another file name.
   */
  lemma UniqueNameNotSource(e: Entries, f: Faults, src: Path, dir: Path, millis: nat, pid: nat)
    requires src != [] && Exists(e, f, src)
    ensures UniqueName(e, f, dir + [src[|src| - 1]], millis, pid) != src
  {
    var candidate := dir + [src[|src| - 1]];
    assert FileName(candidate) == FileName(src);
    if Exists(e, f, candidate) {
      var r := FirstFreeFrom(e, f, candidate, millis, pid, 0);
      var j :| 0 <= j <= 5 && r == TimestampedCandidate(candidate, millis, pid, j);
      TimestampedNameDiffers(candidate, millis, pid, j);
    }
  }

  // ---------------------------------------------------------------------
  // ensure_not_base

  /** fs::canonicalize, or the path as given when that fails. */
  function CanonicalOr(e: Entries, p: Path): Path {
    if p == [] then []
    else match Follow(e, p, MAX_SYMLINK_HOPS)
      case Ok(q) => q
      case Err(_) => p
  }

  /** ensure_not_base: refuses exactly the paths that resolve to the download base. */
  function EnsureNotBase(e: Entries, base: Path, candidate: Path): (r: Result<(), MoveError>)
    ensures r.Err? <==> CanonicalOr(e, base) == CanonicalOr(e, candidate)
    ensures r.Err? ==> r.error == RefuseBase(base)
  {
    if CanonicalOr(e, base) == CanonicalOr(e, candidate) then Err(RefuseBase(base)) else Ok(())
  }

  /** The base itself, and a link that resolves to it, are refused. */
  lemma BaseRefused(e: Entries, base: Path, link: Path)
    ensures EnsureNotBase(e, base, base).Err?
    ensures link in e && e[link] == Symlink(base) && base in e && e[base].Dir? && link != [] && base != [] ==>
      EnsureNotBase(e, base, link).Err?
  {
    if link in e && e[link] == Symlink(base) && base in e && e[base].Dir? && link != [] && base != [] {
      assert Follow(e, base, MAX_SYMLINK_HOPS - 1) == Ok(base);
      assert Follow(e, base, MAX_SYMLINK_HOPS) == Ok(base);
    }
  }

  /** An entry directly inside a base that is a real directory is accepted. */
  lemma ChildOfBaseAccepted(e: Entries, base: Path, name: string)
    requires base in e && e[base].Dir?
    requires base + [name] !in e || !e[base + [name]].Symlink?
    ensures EnsureNotBase(e, base, base + [name]).Ok?
  {
  }

  // ---------------------------------------------------------------------
  // stable_file_probe and file_is_mutable

  /** The sizes successive fs::metadata calls report; past the end they report `current`. */
  type Readings = seq<Result<nat, IoError>>

  function Reading(rs: Readings, current: Result<nat, IoError>, i: nat): Result<nat, IoError> {
    if i < |rs| then rs[i] else current
  }

  /** The probe stops at reading i: it failed, or it repeats the previous size. */
  predicate ProbeStops(rs: Readings, current: Result<nat, IoError>, i: nat) {
    Reading(rs, current, i).Err? || (i > 0 && Reading(rs, current, i) == Reading(rs, current, i - 1))
  }

  /** The first stopping reading in k..n. */
  function FirstStop(rs: Readings, current: Result<nat, IoError>, k: nat, n: nat): (r: Option<nat>)
    ensures r.Some? ==> k <= r.value <= n && ProbeStops(rs, current, r.value)
    ensures r.Some? ==> forall j :: k <= j < r.value ==> !ProbeStops(rs, current, j)
    ensures r.None? ==> forall j :: k <= j <= n ==> !ProbeStops(rs, current, j)
    decreases n + 1 - k
  {
    if k > n then None
    else if ProbeStops(rs, current, k) then Some(k)
    else FirstStop(rs, current, k + 1, n)
  }

  /** What a probe of `attempts` re-checks over these readings returns. */
  function ProbeOutcome(rs: Readings, current: Result<nat, IoError>, attempts: nat, path: Path): Result<(), MoveError> {
    match FirstStop(rs, current, 0, attempts)
    case None => Err(Unstable(path))
    case Some(i) =>
      if Reading(rs, current, i).Err? then Err(Io("", Reading(rs, current, i).error)) else Ok(())
  }

  /**
   * stable_file_probe: one reading, then up to `attempts` more; the first
   * size equal to the one before it succeeds, the first failed reading is
   * returned, and running out of attempts is an error.
   */
  method StableFileProbe(rs: Readings, current: Result<nat, IoError>, attempts: nat, path: Path)
    returns (r: Result<(), MoveError>)
    ensures r == ProbeOutcome(rs, current, attempts, path)
  {
    var first := Reading(rs, current, 0);
    if first.Err? {
      return Err(Io("", first.error));
    }
    var last := first.value;
    var k := 0;
    while k < attempts
      invariant 0 <= k <= attempts
      invariant forall j :: 0 <= j <= k ==> !ProbeStops(rs, current, j)
      invariant Reading(rs, current, k) == Ok(last)
    {
      var size := Reading(rs, current, k + 1);
      if size.Err? {
        assert FirstStop(rs, current, 0, attempts) == Some(k + 1) by { FirstStopIs(rs, current, attempts, k + 1); }
        return Err(Io("", size.error));
      }
      if size.value == last {
        assert FirstStop(rs, current, 0, attempts) == Some(k + 1) by { FirstStopIs(rs, current, attempts, k + 1); }
        return Ok(());
      }
      last := size.value;
      k := k + 1;
    }
    assert FirstStop(rs, current, 0, attempts).None?;
    r := Err(Unstable(path));
  }

  lemma FirstStopIs(rs: Readings, current: Result<nat, IoError>, n: nat, i: nat)
    requires i <= n && ProbeStops(rs, current, i)
    requires forall j :: 0 <= j < i ==> !ProbeStops(rs, current, j)
    ensures FirstStop(rs, current, 0, n) == Some(i)
  {
  }

  /**
   * The probe succeeds exactly when two consecutive readings among the
   * first attempts + 1 are equal and every reading up to them succeeded.
   */
  lemma ProbeSucceedsIff(rs: Readings, current: Result<nat, IoError>, attempts: nat, path: Path)
    ensures ProbeOutcome(rs, current, attempts, path).Ok? <==>
      exists i :: 1 <= i <= attempts && StableAt(rs, current, i)
  {
    var stop := FirstStop(rs, current, 0, attempts);
    if ProbeOutcome(rs, current, attempts, path).Ok? {
      var i := stop.value;
      assert i != 0;
      forall j | 0 <= j < i ensures Reading(rs, current, j).Ok? { assert !ProbeStops(rs, current, j); }
      assert StableAt(rs, current, i);
    } else {
      forall i | 1 <= i <= attempts ensures !StableAt(rs, current, i) {
        assert StableAt(rs, current, i) ==> ProbeStops(rs, current, i);
      }
    }
  }

  /** Reading i repeats reading i - 1, and every reading up to i succeeded. */
  predicate StableAt(rs: Readings, current: Result<nat, IoError>, i: nat)
    requires i >= 1
  {
    Reading(rs, current, i).Ok? && Reading(rs, current, i) == Reading(rs, current, i - 1)
    && forall j :: 0 <= j < i ==> Reading(rs, current, j).Ok?
  }

  /** With no re-checks the probe always fails. */
  lemma ProbeWithoutAttemptsFails(rs: Readings, current: Result<nat, IoError>, path: Path)
    ensures ProbeOutcome(rs, current, 0, path).Err?
  {
  }

  /** The size fs::metadata reports now. */
  function CurrentSize(e: Entries, f: Faults, p: Path): Result<nat, IoError> {
    var st := Stat(e, f, p);
    if st.Err? then Err(st.error)
    else if st.value.File? then Ok(|st.value.data|)
    else Ok(0)
  }

  /** Extensions of partial downloads, compared after ASCII lower-casing. */
  const PARTIAL_EXTENSIONS: set<string> := {"part", "aria2", "tmp", "crdownload"}

  /**
   * file_is_mutable: a partial-download extension says yes; otherwise the
   * answer is whether a two-re-check size probe fails.
   */
  function FileIsMutable(path: Path, rs: Readings, current: Result<nat, IoError>): (r: bool)
    ensures ExtensionOf(path).Some? && AsciiLower(ExtensionOf(path).value) in PARTIAL_EXTENSIONS ==> r
    ensures !(ExtensionOf(path).Some? && AsciiLower(ExtensionOf(path).value) in PARTIAL_EXTENSIONS) ==>
      (r <==> ProbeOutcome(rs, current, 2, path).Err?)
  {
    match ExtensionOf(path)
    case Some(x) =>
      if AsciiLower(x) in PARTIAL_EXTENSIONS then true else ProbeOutcome(rs, current, 2, path).Err?
    case None => ProbeOutcome(rs, current, 2, path).Err?
  }

  /** The extension test ignores ASCII case: "movie.PART" is partial. */
  lemma UpperCasePartIsMutable(dir: Path, rs: Readings, current: Result<nat, IoError>)
    ensures FileIsMutable(dir + ["movie.PART"], rs, current)
  {
    StemExtensionRoundTrip("movie", "PART");
    assert "movie.PART" == "movie" + "." + "PART";
    assert AsciiLower("PART") == "part";
  }
}
