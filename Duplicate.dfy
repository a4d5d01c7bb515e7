/**
 * Duplicate-name policy of fs_ops/duplicate.rs: keep the requested name,
 * or find the first free "stem (n).ext".
 */
module Duplicate {
  import opened Common
  import opened Paths
  import opened Fs

  datatype OnDuplicate = Skip | Overwrite | RenameWithSuffix

  /** "stem (n)" followed by ".ext" when the name has an extension. */
  function SuffixedName(name: string, n: nat): string {
    var base := Stem(name) + " (" + Decimal(n) + ")";
    match Extension(name)
    case Some(x) => base + "." + x
    case None => base
  }

  /** Different numbers give different names. */
  lemma SuffixedNameInjective(name: string, a: nat, b: nat)
    requires a != b
    ensures SuffixedName(name, a) != SuffixedName(name, b)
  {
    var s := Stem(name) + " (";
    var tail := match Extension(name) case Some(x) => "." + x case None => "";
    var da, db := Decimal(a), Decimal(b);
    assert SuffixedName(name, a) == s + da + (")" + tail);
    assert SuffixedName(name, b) == s + db + (")" + tail);
    DecimalInjective(a, b);
    var t := SuffixedName(name, a);
    if |da| == |db| {
      if t == SuffixedName(name, b) { SameLengthCancel(s, da, db, ")" + tail); }
    } else if |da| < |db| {
      assert t[|s| + |da|] == ')';
    } else {
      assert SuffixedName(name, b)[|s| + |db|] == ')';
    }
  }

  lemma SameLengthCancel(s: string, x: string, y: string, tail: string)
    requires |x| == |y| && s + x + tail == s + y + tail
    ensures x == y
  {
    assert x == (s + x + tail)[|s|..|s| + |x|];
    assert y == (s + y + tail)[|s|..|s| + |y|];
  }

  /** The suffixed paths from n on that are present now. */
  ghost function TakenFrom(e: Entries, dir: Path, name: string, n: nat): set<Path> {
    set k | k in e && exists m :: n <= m && k == dir + [SuffixedName(name, m)]
  }

  /**
   * unique_with_numeric_suffix: the requested name when it is free, else
   * "stem (n).ext" for the least n >= 2 that is free.
   */
  method UniqueWithNumericSuffix(fs: FileSystem, dir: Path, name: string) returns (r: Path)
    ensures !Exists(fs.entries, fs.faults, dir + [name]) ==> r == dir + [name]
    ensures Exists(fs.entries, fs.faults, dir + [name]) ==>
      exists n :: 2 <= n && r == dir + [SuffixedName(name, n)]
        && forall m :: 2 <= m < n ==> Exists(fs.entries, fs.faults, dir + [SuffixedName(name, m)])
    ensures !Exists(fs.entries, fs.faults, r) && Parent(r) == Some(dir)
  {
    var candidate := dir + [name];
    if !Exists(fs.entries, fs.faults, candidate) {
      return candidate;
    }
    var n := 2;
    while true
      invariant 2 <= n
      invariant forall m :: 2 <= m < n ==> Exists(fs.entries, fs.faults, dir + [SuffixedName(name, m)])
      decreases |TakenFrom(fs.entries, dir, name, n)|
    {
      candidate := dir + [SuffixedName(name, n)];
      if !Exists(fs.entries, fs.faults, candidate) {
        return candidate;
      }
      TakenShrinks(fs.entries, fs.faults, dir, name, n);
      ProperSubsetSmaller(TakenFrom(fs.entries, dir, name, n + 1), TakenFrom(fs.entries, dir, name, n));
      n := n + 1;
    }
  }

  lemma TakenShrinks(e: Entries, f: Faults, dir: Path, name: string, n: nat)
    requires Exists(e, f, dir + [SuffixedName(name, n)])
    ensures TakenFrom(e, dir, name, n + 1) < TakenFrom(e, dir, name, n)
  {
    var k := dir + [SuffixedName(name, n)];
    assert k in TakenFrom(e, dir, name, n);
    if k in TakenFrom(e, dir, name, n + 1) {
      var m :| n + 1 <= m && k == dir + [SuffixedName(name, m)];
      assert k[|dir|] == SuffixedName(name, m);
      SuffixedNameInjective(name, n, m);
    }
  }

  lemma ProperSubsetSmaller<T>(a: set<T>, b: set<T>)
    requires a < b
    ensures |a| < |b|
  {
    assert b == a + (b - a);
    assert b - a != {};
  }

  /** resolve_destination: Skip and Overwrite keep the name; RenameWithSuffix picks a free one. */
  method ResolveDestination(fs: FileSystem, dir: Path, name: string, policy: OnDuplicate) returns (r: Path)
    ensures policy != RenameWithSuffix ==> r == dir + [name]
    ensures policy == RenameWithSuffix ==> !Exists(fs.entries, fs.faults, r) && Parent(r) == Some(dir)
    ensures policy == RenameWithSuffix && !Exists(fs.entries, fs.faults, dir + [name]) ==> r == dir + [name]
  {
    match policy
    case Skip => r := dir + [name];
    case Overwrite => r := dir + [name];
    case RenameWithSuffix => r := UniqueWithNumericSuffix(fs, dir, name);
  }

  lemma DecimalTwo()
    ensures Decimal(2) == "2"
  {
  }

  /** A name with an extension gets the number between its stem and its last dot. */
  lemma SuffixedWithExtension(stem: string, ext: string)
    requires stem != [] && forall j :: 0 <= j < |ext| ==> ext[j] != '.'
    ensures SuffixedName(stem + "." + ext, 2) == stem + " (2)." + ext
  {
    DecimalTwo();
    StemExtensionRoundTrip(stem, ext);
  }

  /** "movie.mkv" becomes "movie (2).mkv". */
  lemma MovieExample()
    ensures SuffixedName("movie.mkv", 2) == "movie (2).mkv"
  {
    SuffixedWithExtension("movie", "mkv");
    assert "movie" + "." + "mkv" == "movie.mkv";
    assert "movie" + " (2)." + "mkv" == "movie (2).mkv";
  }

  /** The split is at the last dot: "archive.tar.gz" becomes "archive.tar (2).gz". */
  lemma ArchiveExample()
    ensures SuffixedName("archive.tar.gz", 2) == "archive.tar (2).gz"
  {
    SuffixedWithExtension("archive.tar", "gz");
    assert "archive.tar" + "." + "gz" == "archive.tar.gz";
    assert "archive.tar" + " (2)." + "gz" == "archive.tar (2).gz";
  }

  /** A leading dot alone is no extension: ".env" becomes ".env (2)". */
  lemma DotFileExample()
    ensures SuffixedName(".env", 2) == ".env (2)"
  {
    DecimalTwo();
    assert LastDot(".env") == Some(0) by {
      assert LastDot(".env"[..3]) == LastDot(".en");
      assert LastDot(".en"[..2]) == LastDot(".e");
    }
  }

  /** Without an extension there is no trailing dot: "name" becomes "name (2)". */
  lemma PlainNameExample()
    ensures SuffixedName("name", 2) == "name (2)"
  {
    DecimalTwo();
    assert LastDot("name") == None by {
      assert "name"[..3] == "nam";
      assert "nam"[..2] == "na";
      assert "na"[..1] == "n";
    }
  }
}
