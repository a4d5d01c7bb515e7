/**
 * Paths as sequences of components, with the std::path operations the
 * program uses: parent, file_name, join, with_file_name, the file_stem /
 * extension split, and the component-wise ordering of `Path as Ord`.
 */
module Paths {
  import opened Common

  /** An absolute path, one string per component; [] is the root. */
  type Path = seq<string>

  function Parent(p: Path): (r: Option<Path>)
    ensures r.None? <==> p == []
    ensures r.Some? ==> r.value + [p[|p| - 1]] == p
  {
    if p == [] then None else Some(p[..|p| - 1])
  }

  function FileName(p: Path): (r: Option<string>)
    ensures r.None? <==> p == []
    ensures r.Some? ==> r.value == p[|p| - 1]
  {
    if p == [] then None else Some(p[|p| - 1])
  }

  /** Path::with_file_name: replaces the last component (or appends to the root). */
  function WithFileName(p: Path, name: string): (r: Path)
    ensures FileName(r) == Some(name)
    ensures p != [] ==> Parent(r) == Parent(p)
    ensures p == [] ==> r == [name]
  {
    if p == [] then [name] else p[..|p| - 1] + [name]
  }

  /** `k` is `root` or lies below it. */
  predicate Under(k: Path, root: Path) { root <= k }

  /** The path of `k` relative to `root` (Path::strip_prefix). */
  function Rel(k: Path, root: Path): (r: Path)
    requires Under(k, root)
    ensures root + r == k
  {
    k[|root|..]
  }

  /** The human-readable form, as Path::display prints it. */
  function Display(p: Path): (s: string)
    ensures |s| >= 1 && s[0] == '/'
  {
    if p == [] then "/" else "/" + JoinSlash(p)
  }

  function JoinSlash(p: Path): string
    requires p != []
    decreases |p|
  {
    if |p| == 1 then p[0] else p[0] + "/" + JoinSlash(p[1..])
  }

  // ---------------------------------------------------------------------
  // file_stem / extension, as std::path splits a file name

  /** The index of the last '.' in `s`. */
  function LastDot(s: string): (r: Option<nat>)
    ensures r.Some? ==>
      r.value < |s| && s[r.value] == '.' && forall j :: r.value < j < |s| ==> s[j] != '.'
    ensures r.None? ==> forall j :: 0 <= j < |s| ==> s[j] != '.'
  {
    if s == [] then None
    else if s[|s| - 1] == '.' then Some(|s| - 1)
    else LastDot(s[..|s| - 1])
  }

  /** Path::file_stem of a file name. */
  function Stem(name: string): string
  {
    var d := LastDot(name);
    if d.Some? && d.value > 0 then name[..d.value] else name
  }

  /** Path::extension of a file name. */
  function Extension(name: string): Option<string>
  {
    var d := LastDot(name);
    if d.Some? && d.value > 0 then Some(name[d.value + 1..]) else None
  }

  /**
   * The split at the last dot: a name with an extension is its stem, a dot
   * and the extension, the extension holds no dot and the stem is not empty;
   * a name without one is its own stem and has no dot past its first
   * character (".env" and "..env" differ here: the latter splits as "." + "env").
   */
  lemma StemExtensionSplit(name: string)
    ensures Extension(name).Some? ==>
      name == Stem(name) + "." + Extension(name).value
      && Stem(name) != []
      && forall j :: 0 <= j < |Extension(name).value| ==> Extension(name).value[j] != '.'
    ensures Extension(name).None? ==>
      Stem(name) == name && forall j :: 0 < j < |name| ==> name[j] != '.'
  {
    var d := LastDot(name);
    if d.Some? && d.value > 0 {
      var i := d.value;
      var ext := name[i + 1..];
      assert name == name[..i] + "." + ext;
      forall j | 0 <= j < |ext| ensures ext[j] != '.' {
        assert ext[j] == name[i + 1 + j];
      }
    }
  }

  /** Splitting and re-assembling a name gives the name back. */
  lemma StemExtensionRoundTrip(stem: string, ext: string)
    requires stem != [] && forall j :: 0 <= j < |ext| ==> ext[j] != '.'
    ensures Stem(stem + "." + ext) == stem
    ensures Extension(stem + "." + ext) == Some(ext)
  {
    var name := stem + "." + ext;
    LastDotAfter(stem, ext);
  }

  lemma {:induction false} LastDotAfter(stem: string, ext: string)
    requires forall j :: 0 <= j < |ext| ==> ext[j] != '.'
    ensures LastDot(stem + "." + ext) == Some(|stem|)
    decreases |ext|
  {
    var name := stem + "." + ext;
    if ext != [] {
      assert name[..|name| - 1] == stem + "." + ext[..|ext| - 1];
      LastDotAfter(stem, ext[..|ext| - 1]);
    }
  }

  // ---------------------------------------------------------------------
  // Ordering: `Path as Ord` compares component by component, each component
  // by its bytes; for UTF-8 text byte order is code-point order.

  predicate StrLess(a: string, b: string)
    decreases |a|
  {
    if a == [] then b != []
    else if b == [] then false
    else if a[0] != b[0] then a[0] < b[0]
    else StrLess(a[1..], b[1..])
  }

  predicate PathLess(a: Path, b: Path)
    decreases |a|
  {
    if a == [] then b != []
    else if b == [] then false
    else if a[0] != b[0] then StrLess(a[0], b[0])
    else PathLess(a[1..], b[1..])
  }

  lemma {:induction false} StrLessIrreflexive(a: string)
    ensures !StrLess(a, a)
    decreases |a|
  {
    if a != [] { StrLessIrreflexive(a[1..]); }
  }

  lemma {:induction false} StrLessTotal(a: string, b: string)
    requires a != b
    ensures StrLess(a, b) || StrLess(b, a)
    decreases |a|
  {
    if a != [] && b != [] && a[0] == b[0] {
      assert a == [a[0]] + a[1..] && b == [b[0]] + b[1..];
      StrLessTotal(a[1..], b[1..]);
    }
  }

  lemma {:induction false} StrLessAsymmetric(a: string, b: string)
    requires StrLess(a, b)
    ensures !StrLess(b, a)
    decreases |a|
  {
    if a != [] && b != [] && a[0] == b[0] { StrLessAsymmetric(a[1..], b[1..]); }
  }

  lemma {:induction false} StrLessTransitive(a: string, b: string, c: string)
    requires StrLess(a, b) && StrLess(b, c)
    ensures StrLess(a, c)
    decreases |a|
  {
    if a != [] && b != [] && c != [] && a[0] == b[0] && b[0] == c[0] {
      StrLessTransitive(a[1..], b[1..], c[1..]);
    }
  }

  lemma {:induction false} PathLessIrreflexive(a: Path)
    ensures !PathLess(a, a)
    decreases |a|
  {
    if a != [] { PathLessIrreflexive(a[1..]); }
  }

  lemma {:induction false} PathLessAsymmetric(a: Path, b: Path)
    requires PathLess(a, b)
    ensures !PathLess(b, a)
    decreases |a|
  {
    if a != [] && b != [] {
      if a[0] == b[0] { PathLessAsymmetric(a[1..], b[1..]); }
      else { StrLessAsymmetric(a[0], b[0]); }
    }
  }

  lemma {:induction false} PathLessTotal(a: Path, b: Path)
    requires a != b
    ensures PathLess(a, b) || PathLess(b, a)
    decreases |a|
  {
    if a != [] && b != [] {
      if a[0] == b[0] {
        assert a == [a[0]] + a[1..] && b == [b[0]] + b[1..];
        PathLessTotal(a[1..], b[1..]);
      } else {
        StrLessTotal(a[0], b[0]);
      }
    }
  }

  lemma {:induction false} PathLessTransitive(a: Path, b: Path, c: Path)
    requires PathLess(a, b) && PathLess(b, c)
    ensures PathLess(a, c)
    decreases |a|
  {
    if a != [] && b != [] && c != [] {
      if a[0] == b[0] && b[0] == c[0] {
        PathLessTransitive(a[1..], b[1..], c[1..]);
      } else if a[0] == b[0] {
        assert StrLess(b[0], c[0]);
      } else if b[0] == c[0] {
        assert StrLess(a[0], b[0]);
      } else {
        StrLessTransitive(a[0], b[0], c[0]);
        if a[0] == c[0] { StrLessAsymmetric(a[0], b[0]); }
      }
    }
  }
}
