/**
 * Claiming a source (fs_ops/claim.rs): renaming it in place to a hidden
 * ".aria_move.moving.<pid>.<nanos>[.<attempt>]" name, retrying on a name
 * collision.
 */
module Claim {
  import opened Common
  import opened Paths
  import opened Fs

  const MAX_TRIES: nat := 5
  const CLAIM_PREFIX := ".aria_move.moving."

  /** The attempt's own tail: none for attempt 0, ".<k>" for 1..5, ".final" after that. */
  function AttemptSuffix(attempt: nat): string {
    if attempt == 0 then "" else if attempt <= MAX_TRIES then "." + Decimal(attempt) else ".final"
  }

  function ClaimName(pid: nat, nanos: nat, attempt: nat): (s: string)
    ensures StartsWith(s, CLAIM_PREFIX)
  {
    CLAIM_PREFIX + Decimal(pid) + "." + Decimal(nanos) + AttemptSuffix(attempt)
  }

  /** The claimed path: the claim name in the source's own directory. */
  function ClaimedPath(src: Path, pid: nat, nanos: nat, attempt: nat): (r: Path)
    ensures FileName(r) == Some(ClaimName(pid, nanos, attempt))
    ensures src != [] ==> Parent(r) == Parent(src)
  {
    WithFileName(src, ClaimName(pid, nanos, attempt))
  }

  /** Different attempts, the final one included, use different names. */
  lemma ClaimNamesDistinct(pid: nat, nanos: nat, a: nat, b: nat)
    requires a <= MAX_TRIES + 1 && b <= MAX_TRIES + 1 && a != b
    ensures ClaimName(pid, nanos, a) != ClaimName(pid, nanos, b)
  {
    var x, y := AttemptSuffix(a), AttemptSuffix(b);
    var stem := CLAIM_PREFIX + Decimal(pid) + "." + Decimal(nanos);
    assert x != y by {
      if a == 0 || b == 0 {
        assert |x| != |y|;
      } else if a <= MAX_TRIES && b <= MAX_TRIES {
        DecimalInjective(a, b);
        assert x[1..] != y[1..];
      } else if a <= MAX_TRIES {
        assert '0' <= x[1] <= '9' && y[1] == 'f';
      } else {
        assert '0' <= y[1] <= '9' && x[1] == 'f';
      }
    }
    assert (stem + x)[|stem|..] == x && (stem + y)[|stem|..] == y;
  }

  /** What renaming `src` to each attempt's name would do: None for success, else the error. */
  function Attempts(e: Entries, f: Faults, src: Path, pid: nat, nanos: nat): (outs: seq<Option<IoError>>)
    ensures |outs| == MAX_TRIES + 2
  {
    seq(MAX_TRIES + 2, k requires 0 <= k < MAX_TRIES + 2 => RenameError(e, f, src, ClaimedPath(src, pid, nanos, k)))
  }

  /**
   * The attempts from `attempt` on, given each one's rename outcome: the
   * first rename that succeeds ends the claim with that attempt's index;
   * NotFound is returned at once; AlreadyExists moves on to the next name
   * while attempt < 5, or always when `retryLast`; any other error is
   * returned.  Index 6 is the single ".final" rename after the loop.
   */
  function ClaimStep(outs: seq<Option<IoError>>, attempt: nat, retryLast: bool): (r: Result<nat, IoError>)
    requires |outs| == MAX_TRIES + 2 && attempt <= MAX_TRIES + 1
    ensures r.Ok? ==> attempt <= r.value <= MAX_TRIES + 1 && outs[r.value].None?
    ensures r.Ok? ==> forall k :: attempt <= k < r.value ==> outs[k].Some? && outs[k].value.kind == AlreadyExists
    ensures r.Err? ==> exists k :: attempt <= k <= MAX_TRIES + 1 && outs[k] == Some(r.error)
    ensures outs[attempt].Some? && outs[attempt].value.kind == NotFound ==> r == Err(outs[attempt].value)
    decreases MAX_TRIES + 1 - attempt
  {
    match outs[attempt]
    case None => Ok(attempt)
    case Some(x) =>
      if attempt <= MAX_TRIES && x.kind == AlreadyExists && (attempt < MAX_TRIES || retryLast) then
        ClaimStep(outs, attempt + 1, retryLast)
      else Err(x)
  }

  /** The claim's result: the claimed path, or the error of the attempt that ended it. */
  function ClaimOutcome(e: Entries, f: Faults, src: Path, pid: nat, nanos: nat, retryLast: bool): (r: Result<Path, IoError>)
    ensures r.Ok? ==> RenameError(e, f, src, r.value).None?
    ensures r.Ok? ==> exists k :: 0 <= k <= MAX_TRIES + 1 && r.value == ClaimedPath(src, pid, nanos, k)
  {
    var outs := Attempts(e, f, src, pid, nanos);
    match ClaimStep(outs, 0, retryLast)
    case Ok(k) => Ok(ClaimedPath(src, pid, nanos, k))
    case Err(x) => Err(x)
  }

  /**
   * The claim loop as written: at attempt 5 an AlreadyExists error is
   * returned from inside the loop, so the ".final" rename after it is
   * never reached.
   */
  method ClaimSourceAsWritten(fs: FileSystem, src: Path, pid: nat, nanos: nat) returns (r: Result<Path, IoError>)
    requires fs.Valid()
    modifies fs
    ensures fs.Valid()
    ensures r == ClaimOutcome(old(fs.entries), fs.faults, src, pid, nanos, false)
    ensures r.Ok? ==> fs.entries == RenameResult(old(fs.entries), fs.faults, src, r.value).value
    ensures r.Err? ==> fs.entries == old(fs.entries)
  {
    r := ClaimLoop(fs, src, pid, nanos, false);
  }

  /** The claim with the evident intent: exhausted retries fall through to the ".final" name. */
  method ClaimSource(fs: FileSystem, src: Path, pid: nat, nanos: nat) returns (r: Result<Path, IoError>)
    requires fs.Valid()
    modifies fs
    ensures fs.Valid()
    ensures r == ClaimOutcome(old(fs.entries), fs.faults, src, pid, nanos, true)
    ensures r.Ok? ==> fs.entries == RenameResult(old(fs.entries), fs.faults, src, r.value).value
    ensures r.Err? ==> fs.entries == old(fs.entries)
  {
    r := ClaimLoop(fs, src, pid, nanos, true);
  }

  /** The `for attempt in 0..=5` loop and the rename after it. */
  method ClaimLoop(fs: FileSystem, src: Path, pid: nat, nanos: nat, retryLast: bool) returns (r: Result<Path, IoError>)
    requires fs.Valid()
    modifies fs
    ensures fs.Valid()
    ensures r == ClaimOutcome(old(fs.entries), fs.faults, src, pid, nanos, retryLast)
    ensures r.Ok? ==> fs.entries == RenameResult(old(fs.entries), fs.faults, src, r.value).value
    ensures r.Err? ==> fs.entries == old(fs.entries)
  {
    ghost var outs := Attempts(fs.entries, fs.faults, src, pid, nanos);
    ghost var step := ClaimStep(outs, 0, retryLast);
    assert ClaimOutcome(fs.entries, fs.faults, src, pid, nanos, retryLast)
      == if step.Ok? then Ok(ClaimedPath(src, pid, nanos, step.value)) else Err(step.error);
    var attempt := 0;
    while attempt <= MAX_TRIES
      invariant 0 <= attempt <= MAX_TRIES + 1
      invariant fs.Valid() && fs.entries == old(fs.entries)
      invariant step == ClaimStep(outs, attempt, retryLast)
    {
      var claimed := ClaimedPath(src, pid, nanos, attempt);
      assert outs[attempt] == RenameError(fs.entries, fs.faults, src, claimed);
      var o := fs.Rename(src, claimed);
      if o.Ok? || o.error.kind == NotFound || !(o.error.kind == AlreadyExists && (attempt < MAX_TRIES || retryLast)) {
        r := if o.Ok? then Ok(claimed) else Err(o.error);
        assert step == if o.Ok? then Ok(attempt) else Err(o.error);
        return;
      }
      assert ClaimStep(outs, attempt, retryLast) == ClaimStep(outs, attempt + 1, retryLast);
      attempt := attempt + 1;
    }
    var finalClaimed := ClaimedPath(src, pid, nanos, MAX_TRIES + 1);
    assert outs[MAX_TRIES + 1] == RenameError(fs.entries, fs.faults, src, finalClaimed);
    var o := fs.Rename(src, finalClaimed);
    r := if o.Ok? then Ok(finalClaimed) else Err(o.error);
  }

  // ---------------------------------------------------------------------
  // What a claim guarantees

  /** A successful claim moves the source to a hidden name beside it; the source name is then free. */
  lemma ClaimMovesSource(e: Entries, f: Faults, src: Path, claimed: Path)
    requires RenameResult(e, f, src, claimed).Ok?
    requires src != [] && claimed != [] && Parent(claimed) == Parent(src) && src != claimed
    ensures var e2 := RenameResult(e, f, src, claimed).value;
      claimed in e2 && e2[claimed] == e[src] && src !in e2
  {
    var e2 := RenameTree(e, src, claimed);
    assert claimed + src[|src|..] == claimed;
    assert src + claimed[|claimed|..] == src;
    assert claimed in MovedKeys(e, src, claimed);
  }

  /** The claimed path is never the source when the source is not itself a claim name. */
  lemma ClaimedPathDiffers(src: Path, pid: nat, nanos: nat, attempt: nat)
    requires src != [] && !StartsWith(src[|src| - 1], CLAIM_PREFIX)
    ensures ClaimedPath(src, pid, nanos, attempt) != src
  {
  }

  /** A missing source fails with NotFound at the first attempt, whatever the retry rule. */
  lemma ClaimMissingSource(e: Entries, f: Faults, src: Path, pid: nat, nanos: nat, retryLast: bool)
    requires src !in e && RenameOp(src, ClaimedPath(src, pid, nanos, 0)) !in f
    ensures ClaimOutcome(e, f, src, pid, nanos, retryLast) == Err(OsError(ENOENT))
  {
    assert Attempts(e, f, src, pid, nanos)[0] == Some(OsError(ENOENT));
  }

  /** Every numbered attempt from `from` to 5 collides with an existing name. */
  predicate AllCollide(outs: seq<Option<IoError>>, from: nat)
    requires |outs| == MAX_TRIES + 2
  {
    forall k :: from <= k <= MAX_TRIES ==> outs[k].Some? && outs[k].value.kind == AlreadyExists
  }

  /**
   * When all numbered names collide, the loop as written returns the last
   * collision, while the intended claim goes on to the ".final" name.
   */
  lemma {:induction false} FinalAttemptUnreachable(outs: seq<Option<IoError>>, attempt: nat)
    requires |outs| == MAX_TRIES + 2 && attempt <= MAX_TRIES && AllCollide(outs, attempt)
    ensures ClaimStep(outs, attempt, false) == Err(outs[MAX_TRIES].value)
    ensures ClaimStep(outs, attempt, true) == ClaimStep(outs, MAX_TRIES + 1, true)
    decreases MAX_TRIES - attempt
  {
    if attempt < MAX_TRIES {
      FinalAttemptUnreachable(outs, attempt + 1);
    }
  }

  /** The as-written loop never gets as far as the ".final" rename, whatever the outcomes. */
  lemma {:induction false} AsWrittenNeverFinal(outs: seq<Option<IoError>>, attempt: nat)
    requires |outs| == MAX_TRIES + 2 && attempt <= MAX_TRIES
    ensures ClaimStep(outs, attempt, false).Ok? ==> ClaimStep(outs, attempt, false).value <= MAX_TRIES
    ensures ClaimStep(outs, attempt, false).Err? ==>
      exists k :: attempt <= k <= MAX_TRIES && outs[k] == Some(ClaimStep(outs, attempt, false).error)
    decreases MAX_TRIES - attempt
  {
    if outs[attempt].Some? && outs[attempt].value.kind == AlreadyExists && attempt < MAX_TRIES {
      AsWrittenNeverFinal(outs, attempt + 1);
    }
  }
}
