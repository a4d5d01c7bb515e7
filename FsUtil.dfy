/**
 * Small helpers of fs_ops/util.rs: recognising a cross-device rename error
 * and the deterministic name of a resume temp file.
 */
module FsUtil {
  import opened Common
  import opened Paths
  import opened Fs

  /** is_cross_device: the raw OS code is EXDEV (on Unix). */
  predicate IsCrossDevice(e: IoError) {
    e.code.Some? && e.code.value == EXDEV
  }

  /** Only an OS error with code EXDEV is cross-device; a kind alone never is. */
  lemma CrossDeviceByCode(c: int, kind: IoKind, text: string)
    ensures IsCrossDevice(OsError(c)) <==> c == EXDEV
    ensures !IsCrossDevice(Custom(kind, text))
  {
  }

  const RESUME_PREFIX := ".aria_move.resume."
  const RESUME_SUFFIX := ".tmp"

  /** ".aria_move.resume.<16 hex digits>.tmp" for a 64-bit hash. */
  function ResumeTempName(h: u64): (name: string)
    ensures |name| == |RESUME_PREFIX| + 16 + |RESUME_SUFFIX|
    ensures StartsWith(name, RESUME_PREFIX) && EndsWith(name, RESUME_SUFFIX)
    ensures forall i :: |RESUME_PREFIX| <= i < |RESUME_PREFIX| + 16 ==> IsLowerHex(name[i])
  {
    RESUME_PREFIX + HexPadded(h, 16) + RESUME_SUFFIX
  }

  /**
   * resume_temp_path: the name goes next to `dest` (a bare name when `dest`
   * has no parent); the hash of dest's display form is an input.
   */
  function ResumeTempPath(dest: Path, hash: string -> u64): (r: Path)
    ensures FileName(r) == Some(ResumeTempName(hash(Display(dest))))
    ensures dest != [] ==> Parent(r) == Parent(dest)
    ensures dest == [] ==> r == [ResumeTempName(hash(Display(dest)))]
  {
    var name := ResumeTempName(hash(Display(dest)));
    match Parent(dest)
    case Some(p) => p + [name]
    case None => [name]
  }

  lemma Pow16Of16()
    ensures Pow16(16) == U64_MAX + 1
  {
    assert Pow16(4) == 0x1_0000;
    assert Pow16(8) == 0x1_0000_0000 by { assert Pow16(8) == 0x1_0000 * Pow16(4) by { Pow16Add(4, 4); } }
    Pow16Add(8, 8);
  }

  lemma {:induction false} Pow16Add(a: nat, b: nat)
    ensures Pow16(a + b) == Pow16(a) * Pow16(b)
    decreases a
  {
    if a > 0 { Pow16Add(a - 1, b); }
  }

  /** The name carries the whole hash: reading its hex digits back gives it. */
  lemma ResumeTempNameEncodesHash(h: u64)
    ensures var name := ResumeTempName(h);
      HexValue(name[|RESUME_PREFIX|..|RESUME_PREFIX| + 16]) == h
  {
    var name := ResumeTempName(h);
    assert name[|RESUME_PREFIX|..|RESUME_PREFIX| + 16] == HexPadded(h, 16);
    Pow16Of16();
    HexPaddedRoundTrip(h, 16);
  }

  /** Distinct hashes give distinct resume temp names. */
  lemma ResumeTempNameInjective(h1: u64, h2: u64)
    requires h1 != h2
    ensures ResumeTempName(h1) != ResumeTempName(h2)
  {
    ResumeTempNameEncodesHash(h1);
    ResumeTempNameEncodesHash(h2);
  }
}
