/**
 * The older library entry points kept in lib.rs: its tolerant tag
 * extractor and the rule its loader applies to the extracted values, its
 * Config constructors, and its single-shot unique_destination.
 */
module Lib {
  import opened Common
  import opened Paths
  import opened Fs
  import opened ConfigTypes
  import opened Utils

  // ---------------------------------------------------------------------
  // extract_tag

  function OpenTag(tag: string): string { "<" + tag + ">" }
  function CloseTag(tag: string): string { "</" + tag + ">" }

  /**
   * extract_tag: the text between the first "<tag>" and the first
   * "</tag>" after it, trimmed; None when either is missing or the text is
   * blank.
   */
  function ExtractTag(s: string, tag: string): (r: Option<string>)
    ensures r.Some? ==> r.value != [] && !IsWhitespace(r.value[0]) && !IsWhitespace(r.value[|r.value| - 1])
  {
    match RawTag(s, tag)
    case None => None
    case Some(t) => NonBlank(Trim(t))
  }

  /** The untrimmed text between the first "<tag>" and the first "</tag>" after it. */
  function RawTag(s: string, tag: string): Option<string> {
    match Find(s, OpenTag(tag))
    case None => None
    case Some(start) =>
      var after := start + |OpenTag(tag)|;
      match Find(s[after..], CloseTag(tag))
      case None => None
      case Some(rel) => Some(s[after..after + rel])
  }

  /** None for the empty string. */
  function NonBlank(v: string): Option<string> {
    if v == [] then None else Some(v)
  }

  /** The first occurrence is found: nothing earlier matches. */
  lemma FindIs(s: string, pat: string, i: nat)
    requires OccursAt(s, pat, i) && forall j :: 0 <= j < i ==> !OccursAt(s, pat, j)
    ensures Find(s, pat) == Some(i)
  {
  }

  /** An occurrence in a suffix is an occurrence in the whole, shifted. */
  lemma OccursShift(s: string, pat: string, after: nat, i: nat)
    requires after <= |s|
    ensures OccursAt(s[after..], pat, i) <==> OccursAt(s, pat, after + i)
  {
    if i + |pat| <= |s| - after {
      assert s[after..][i..i + |pat|] == s[after + i..after + i + |pat|];
    }
  }

  /** A pattern cannot start where its first character is not. */
  lemma NotAtOtherChar(s: string, pat: string, j: nat)
    requires pat != [] && j < |s| && s[j] != pat[0]
    ensures !OccursAt(s, pat, j)
  {
    if j + |pat| <= |s| {
      assert s[j..j + |pat|][0] == s[j];
    }
  }

  /**
   * Without an opening tag there is no value, and with the first opening
   * tag at `start` but no closing tag after it there is none either.
   */
  lemma ExtractTagMissing(s: string, tag: string, start: nat)
    ensures (forall j :: !OccursAt(s, OpenTag(tag), j)) ==> ExtractTag(s, tag) == None
    ensures OccursAt(s, OpenTag(tag), start) && (forall j :: 0 <= j < start ==> !OccursAt(s, OpenTag(tag), j))
            && (forall k :: start + |OpenTag(tag)| <= k ==> !OccursAt(s, CloseTag(tag), k)) ==>
      ExtractTag(s, tag) == None
  {
    RawTagMissing(s, tag, start);
    TrimmedRaw(s, tag);
  }

  lemma RawTagMissing(s: string, tag: string, start: nat)
    ensures (forall j :: !OccursAt(s, OpenTag(tag), j)) ==> RawTag(s, tag) == None
    ensures OccursAt(s, OpenTag(tag), start) && (forall j :: 0 <= j < start ==> !OccursAt(s, OpenTag(tag), j))
            && (forall k :: start + |OpenTag(tag)| <= k ==> !OccursAt(s, CloseTag(tag), k)) ==>
      RawTag(s, tag) == None
  {
    var open, close := OpenTag(tag), CloseTag(tag);
    if OccursAt(s, open, start) && (forall j :: 0 <= j < start ==> !OccursAt(s, open, j))
       && (forall k :: start + |open| <= k ==> !OccursAt(s, close, k)) {
      FindIs(s, open, start);
      var after := start + |open|;
      forall i ensures !OccursAt(s[after..], close, i) {
        OccursShift(s, close, after, i);
      }
    }
  }

  /** extract_tag trims what lies between the tags. */
  lemma TrimmedRaw(s: string, tag: string)
    ensures RawTag(s, tag).None? ==> ExtractTag(s, tag) == None
    ensures RawTag(s, tag).Some? ==> ExtractTag(s, tag) == NonBlank(Trim(RawTag(s, tag).value))
  {
  }

  /**
   * With the first opening tag at `start` and the first closing tag after
   * it at `k`, the value is the trimmed text between them, or None when
   * that text is blank.
   */
  lemma ExtractTagBetween(s: string, tag: string, start: nat, k: nat)
    requires OccursAt(s, OpenTag(tag), start) && forall j :: 0 <= j < start ==> !OccursAt(s, OpenTag(tag), j)
    requires start + |OpenTag(tag)| <= k && OccursAt(s, CloseTag(tag), k)
    requires forall j :: start + |OpenTag(tag)| <= j < k ==> !OccursAt(s, CloseTag(tag), j)
    ensures ExtractTag(s, tag) == NonBlank(Trim(s[start + |OpenTag(tag)|..k]))
  {
    RawTagBetween(s, tag, start, k);
    TrimmedRaw(s, tag);
  }

  lemma RawTagBetween(s: string, tag: string, start: nat, k: nat)
    requires OccursAt(s, OpenTag(tag), start) && forall j :: 0 <= j < start ==> !OccursAt(s, OpenTag(tag), j)
    requires start + |OpenTag(tag)| <= k && OccursAt(s, CloseTag(tag), k)
    requires forall j :: start + |OpenTag(tag)| <= j < k ==> !OccursAt(s, CloseTag(tag), j)
    ensures RawTag(s, tag) == Some(s[start + |OpenTag(tag)|..k])
  {
    var open, close := OpenTag(tag), CloseTag(tag);
    FindIs(s, open, start);
    var after := start + |open|;
    OccursShift(s, close, after, k - after);
    forall i | 0 <= i < k - after ensures !OccursAt(s[after..], close, i) {
      OccursShift(s, close, after, i);
    }
    FindIs(s[after..], close, k - after);
    RawTagIs(s, tag, start, k - after, s[after..k]);
  }

  /**
   * Writing a value between the tags and extracting it again gives it back
   * trimmed, provided neither the text before the opening tag nor the value
   * holds a '<' (so no other tag can be mistaken for the two).
   */
  lemma ExtractTagRoundTrip(pre: string, v: string, post: string, tag: string)
    requires forall i :: 0 <= i < |pre| ==> pre[i] != '<'
    requires forall i :: 0 <= i < |v| ==> v[i] != '<'
    ensures ExtractTag(pre + OpenTag(tag) + (v + CloseTag(tag) + post), tag) == NonBlank(Trim(v))
  {
    RawTagRoundTrip(pre, v, post, tag);
    TrimmedRaw(pre + OpenTag(tag) + (v + CloseTag(tag) + post), tag);
  }

  lemma RawTagRoundTrip(pre: string, v: string, post: string, tag: string)
    requires forall i :: 0 <= i < |pre| ==> pre[i] != '<'
    requires forall i :: 0 <= i < |v| ==> v[i] != '<'
    ensures RawTag(pre + OpenTag(tag) + (v + CloseTag(tag) + post), tag) == Some(v)
  {
    var open, close := OpenTag(tag), CloseTag(tag);
    var rest := v + close + post;
    var s := pre + open + rest;
    var after := |pre| + |open|;
    assert Find(s, open) == Some(|pre|) by {
      FirstAfterPlain(pre, open, rest);
    }
    assert Find(s[after..], close) == Some(|v|) by {
      assert s[after..] == rest;
      FirstAfterPlain(v, close, post);
    }
    assert s[after..after + |v|] == v by {
      assert s[after..after + |v|] == rest[..|v|];
    }
    RawTagIs(s, tag, |pre|, |v|, v);
  }

  /** The raw text once both searches and the text between them are known. */
  lemma RawTagIs(s: string, tag: string, start: nat, rel: nat, v: string)
    requires Find(s, OpenTag(tag)) == Some(start)
    requires Find(s[start + |OpenTag(tag)|..], CloseTag(tag)) == Some(rel)
    requires start + |OpenTag(tag)| + rel <= |s| && s[start + |OpenTag(tag)|..start + |OpenTag(tag)| + rel] == v
    ensures RawTag(s, tag) == Some(v)
  {
  }

  /** In text without '<', a pattern starting with '<' is first found where it is placed. */
  lemma FirstAfterPlain(pre: string, pat: string, rest: string)
    requires pat != [] && pat[0] == '<'
    requires forall i :: 0 <= i < |pre| ==> pre[i] != '<'
    ensures Find(pre + pat + rest, pat) == Some(|pre|)
  {
    var s := pre + pat + rest;
    assert s[|pre|..|pre| + |pat|] == pat;
    forall j | 0 <= j < |pre| ensures !OccursAt(s, pat, j) {
      assert s[j] == pre[j];
      NotAtOtherChar(s, pat, j);
    }
    FindIs(s, pat, |pre|);
  }

  // ---------------------------------------------------------------------
  // The older loader and Config

  const RECENT_FILE_WINDOW: nat := 5 * 60 * SECOND

  /** What the older load_config_from_xml returns: both bases and the raw level text. */
  datatype OldLoaded = OldLoaded(downloadBase: Path, completedBase: Path, logLevel: Option<string>)

  /**
   * The older loader's rule on a file's text: the three tags are
   * extracted, nothing is loaded when all three are missing, and a missing
   * base takes its default.  `toPath` is PathBuf::from.
   */
  function OldLoadFields(content: string, toPath: string -> Path): (r: Option<OldLoaded>)
    ensures r.None? <==>
      ExtractTag(content, "download_base").None? && ExtractTag(content, "completed_base").None?
      && ExtractTag(content, "log_level").None?
    ensures r.Some? ==>
      r.value.logLevel == ExtractTag(content, "log_level")
      && (ExtractTag(content, "download_base").None? ==> r.value.downloadBase == DOWNLOAD_BASE_DEFAULT)
      && (ExtractTag(content, "download_base").Some? ==> r.value.downloadBase == toPath(ExtractTag(content, "download_base").value))
      && (ExtractTag(content, "completed_base").None? ==> r.value.completedBase == COMPLETED_BASE_DEFAULT)
      && (ExtractTag(content, "completed_base").Some? ==> r.value.completedBase == toPath(ExtractTag(content, "completed_base").value))
  {
    var db := ExtractTag(content, "download_base");
    var cb := ExtractTag(content, "completed_base");
    var level := ExtractTag(content, "log_level");
    if db.None? && cb.None? && level.None? then None
    else Some(OldLoaded(
      if db.Some? then toPath(db.value) else DOWNLOAD_BASE_DEFAULT,
      if cb.Some? then toPath(cb.value) else COMPLETED_BASE_DEFAULT,
      level))
  }

  /** A file whose only setting is a level still loads, with both default bases. */
  lemma LevelAloneLoads(pre: string, level: string, post: string, toPath: string -> Path)
    requires forall i :: 0 <= i < |pre| ==> pre[i] != '<'
    requires forall i :: 0 <= i < |level| ==> level[i] != '<'
    requires Trim(level) != []
    requires ExtractTag(pre + OpenTag("log_level") + (level + CloseTag("log_level") + post), "download_base").None?
    requires ExtractTag(pre + OpenTag("log_level") + (level + CloseTag("log_level") + post), "completed_base").None?
    ensures OldLoadFields(pre + OpenTag("log_level") + (level + CloseTag("log_level") + post), toPath)
      == Some(OldLoaded(DOWNLOAD_BASE_DEFAULT, COMPLETED_BASE_DEFAULT, Some(Trim(level))))
  {
    ExtractTagRoundTrip(pre, level, post, "log_level");
  }

  /** The older Config: both bases, the recency window and the raw level text. */
  datatype OldConfig = OldConfig(downloadBase: Path, completedBase: Path, recentWindow: nat, logLevel: Option<string>)

  /** The older Config::default: the loaded values when there are any, else the defaults; always a 5-minute window. */
  function OldDefaultConfig(loaded: Option<OldLoaded>): (c: OldConfig)
    ensures c.recentWindow == RECENT_FILE_WINDOW
    ensures loaded.None? ==> c.downloadBase == DOWNLOAD_BASE_DEFAULT && c.completedBase == COMPLETED_BASE_DEFAULT && c.logLevel.None?
    ensures loaded.Some? ==>
      c.downloadBase == loaded.value.downloadBase && c.completedBase == loaded.value.completedBase
      && c.logLevel == loaded.value.logLevel
  {
    match loaded
    case Some(l) => OldConfig(l.downloadBase, l.completedBase, RECENT_FILE_WINDOW, l.logLevel)
    case None => OldConfig(DOWNLOAD_BASE_DEFAULT, COMPLETED_BASE_DEFAULT, RECENT_FILE_WINDOW, None)
  }

  /** The older Config::new: exactly the given bases and window, and no level. */
  function OldNewConfig(downloadBase: Path, completedBase: Path, recentWindow: nat): (c: OldConfig)
    ensures c.downloadBase == downloadBase && c.completedBase == completedBase
    ensures c.recentWindow == recentWindow && c.logLevel.None?
  {
    OldConfig(downloadBase, completedBase, recentWindow, None)
  }

  // ---------------------------------------------------------------------
  // The older unique_destination

  /**
   * The older unique_destination: the candidate when it does not exist,
   * else "<stem>-<millis>-<pid>[.<ext>]" beside it, without checking that
   * name in turn.
   */
  function OldUniqueDestination(e: Entries, f: Faults, candidate: Path, millis: nat, pid: nat): (r: Path)
    ensures !Exists(e, f, candidate) ==> r == candidate
    ensures Exists(e, f, candidate) ==> r == TimestampedCandidate(candidate, millis, pid, 0)
    ensures Exists(e, f, candidate) && candidate != [] ==> Parent(r) == Parent(candidate) && r != candidate
  {
    if !Exists(e, f, candidate) then candidate
    else
      var name := StemOf(candidate) + "-" + Decimal(millis) + "-" + Decimal(pid);
      var r := WithFileName(candidate, WithExtension(name, ExtensionOf(candidate)));
      assert name + AttemptTag(0) == name;
      if candidate == [] then r else TimestampedNameDiffers(candidate, millis, pid, 0); r
  }

  /** The plain timestamped name is shorter than every later alternative. */
  lemma FirstAlternativeDiffers(candidate: Path, millis: nat, pid: nat, j: nat)
    requires 1 <= j <= 5
    ensures TimestampedCandidate(candidate, millis, pid, 0) != TimestampedCandidate(candidate, millis, pid, j)
  {
    var base := StemOf(candidate) + "-" + Decimal(millis) + "-" + Decimal(pid);
    var ext := ExtensionOf(candidate);
    var n0, nj := WithExtension(base + AttemptTag(0), ext), WithExtension(base + AttemptTag(j), ext);
    assert |n0| < |nj|;
    assert FileName(TimestampedCandidate(candidate, millis, pid, 0)) == Some(n0);
    assert FileName(TimestampedCandidate(candidate, millis, pid, j)) == Some(nj);
  }

  /**
   * Where the timestamped name is free the older and the newer
   * unique_destination agree; where it is taken, the older one returns it
   * anyway while the newer one moves on.
   */
  lemma OldAgainstNew(e: Entries, f: Faults, candidate: Path, millis: nat, pid: nat)
    ensures !Exists(e, f, TimestampedCandidate(candidate, millis, pid, 0)) ==>
      OldUniqueDestination(e, f, candidate, millis, pid) == UniqueName(e, f, candidate, millis, pid)
    ensures Exists(e, f, candidate) && Exists(e, f, TimestampedCandidate(candidate, millis, pid, 0)) ==>
      Exists(e, f, OldUniqueDestination(e, f, candidate, millis, pid))
      && UniqueName(e, f, candidate, millis, pid) != OldUniqueDestination(e, f, candidate, millis, pid)
  {
    if Exists(e, f, candidate) && Exists(e, f, TimestampedCandidate(candidate, millis, pid, 0)) {
      var r := FirstFreeFrom(e, f, candidate, millis, pid, 1);
      assert UniqueName(e, f, candidate, millis, pid) == r;
      var j :| 1 <= j <= 5 && r == TimestampedCandidate(candidate, millis, pid, j) && (j < 5 ==> !Exists(e, f, r));
      FirstAlternativeDiffers(candidate, millis, pid, j);
    }
  }
}
