/**
 * Choosing the file to move (fs_ops/resolve.rs): an explicit path when it
 * names a regular file, otherwise the newest eligible file of a shallow
 * walk of the download base, ties going to the smaller path.
 */
module Resolve {
  import opened Common
  import opened Paths
  import opened Fs
  import opened Errors

  const MAX_DEPTH: nat := 4

  /** Names of partial downloads, matched case-sensitively at the end of the name. */
  predicate Denied(name: string) {
    EndsWith(name, ".part") || EndsWith(name, ".aria2") || EndsWith(name, ".tmp")
  }

  // ---------------------------------------------------------------------
  // The explicit path

  /**
   * What an explicit path decides on its own: Some(answer), or None to fall
   * through to the scan (the path does not exist or cannot be lstat-ed).
   */
  function ExplicitDecision(e: Entries, f: Faults, p: Path): (r: Option<Result<Path, MoveError>>)
    ensures r == Some(Ok(p)) <==> Exists(e, f, p) && Lstat(e, f, p).Ok? && IsFile(e, f, p)
    ensures r == Some(Err(ProvidedNotFile(p))) <==> Exists(e, f, p) && Lstat(e, f, p).Ok? && !IsFile(e, f, p)
    ensures r.None? <==> !Exists(e, f, p) || Lstat(e, f, p).Err?
  {
    if !Exists(e, f, p) then None
    else match Lstat(e, f, p)
      case Err(_) => None
      case Ok(m) =>
        if m.File? then Some(Ok(p))
        else if m.Symlink? then
          if IsFile(e, f, p) then Some(Ok(p)) else Some(Err(ProvidedNotFile(p)))
        else Some(Err(ProvidedNotFile(p)))
  }

  // ---------------------------------------------------------------------
  // Eligibility

  /** The recency cutoff: now - window, clamped to the epoch; the epoch when the window is 0. */
  function Cutoff(now: nat, window: nat): (c: nat)
    ensures window > 0 && window <= now ==> c == now - window
    ensures window == 0 || window > now ==> c == 0
  {
    if window > 0 then (if now >= window then now - window else 0) else 0
  }

  /**
   * A walk item worth considering: a regular file (not a symbolic link) the
   * walk yielded, not a partial download, whose lstat works and whose
   * modification time is at or after the cutoff.
   */
  predicate Eligible(e: Entries, f: Faults, walked: set<WalkItem>, cutoff: nat, k: Path) {
    k in e && Found(k) in walked && e[k].File? && k != [] && !Denied(k[|k| - 1])
    && LstatOp(k) !in f && e[k].mtime >= cutoff
  }

  /** The walk of the base: entries at depth 1..4 below it. */
  function BaseWalk(e: Entries, f: Faults, base: Path): set<WalkItem> {
    WalkItems(e, f, base, 1, Some(MAX_DEPTH))
  }

  /** A file is eligible exactly when it lies 1..4 levels below the base, reachable, and passes the filters. */
  lemma EligibleShape(e: Entries, f: Faults, base: Path, cutoff: nat, k: Path)
    requires k in e && e[k].File? && k != [] && !Denied(k[|k| - 1]) && LstatOp(k) !in f
    ensures Eligible(e, f, BaseWalk(e, f, base), cutoff, k) <==>
      base <= k && 1 <= |k| - |base| <= MAX_DEPTH && Reachable(e, f, base, k) && e[k].mtime >= cutoff
  {
    if Eligible(e, f, BaseWalk(e, f, base), cutoff, k) {
      assert Found(k) in WalkItems(e, f, base, 1, Some(MAX_DEPTH));
    }
  }

  /** With a window, eligibility is mtime >= now - window (inclusive); without one the time plays no part. */
  lemma CutoffBoundary(e: Entries, f: Faults, walked: set<WalkItem>, now: nat, window: nat, k: Path)
    requires k in e && Found(k) in walked && e[k].File? && k != [] && !Denied(k[|k| - 1]) && LstatOp(k) !in f
    ensures window == 0 ==> Eligible(e, f, walked, Cutoff(now, window), k)
    ensures 0 < window <= now ==>
      (Eligible(e, f, walked, Cutoff(now, window), k) <==> e[k].mtime >= now - window)
    ensures window > now ==> Eligible(e, f, walked, Cutoff(now, window), k)
  {
  }

  /** Partial downloads are never chosen, however recent. */
  lemma DeniedNeverEligible(e: Entries, f: Faults, walked: set<WalkItem>, cutoff: nat, k: Path)
    requires k != [] && EndsWith(k[|k| - 1], ".part")
    ensures !Eligible(e, f, walked, cutoff, k)
  {
  }

  // ---------------------------------------------------------------------
  // update_newest

  /** (mtime, path) pairs: a later time wins, an equal time goes to the smaller path. */
  predicate Better(a: (nat, Path), b: (nat, Path)) {
    a.0 > b.0 || (a.0 == b.0 && PathLess(a.1, b.1))
  }

  predicate Beats(a: (nat, Path), b: (nat, Path)) { a == b || Better(a, b) }

  lemma BetterAsymmetric(a: (nat, Path), b: (nat, Path))
    requires Better(a, b)
    ensures !Better(b, a) && a != b
  {
    if a.0 == b.0 {
      PathLessAsymmetric(a.1, b.1);
      PathLessIrreflexive(a.1);
    }
  }

  lemma BetterTotal(a: (nat, Path), b: (nat, Path))
    requires a != b
    ensures Better(a, b) || Better(b, a)
  {
    if a.0 == b.0 { PathLessTotal(a.1, b.1); }
  }

  lemma BeatsTransitive(a: (nat, Path), b: (nat, Path), c: (nat, Path))
    requires Beats(a, b) && Beats(b, c)
    ensures Beats(a, c)
  {
    if a != b && b != c && a.0 == b.0 && b.0 == c.0 {
      PathLessTransitive(a.1, b.1, c.1);
    }
  }

  /** update_newest: the slot afterwards holds the better of its old value and the new pair. */
  function UpdateNewest(slot: Option<(nat, Path)>, t: nat, p: Path): (r: Option<(nat, Path)>)
    ensures r.Some? && (r.value == (t, p) || r == slot)
    ensures Beats(r.value, (t, p)) && (slot.Some? ==> Beats(r.value, slot.value))
  {
    match slot
    case None => Some((t, p))
    case Some(best) =>
      if t > best.0 then Some((t, p))
      else if t == best.0 && PathLess(p, best.1) then Some((t, p))
      else if t == best.0 && p != best.1 then PathLessTotal(p, best.1); slot
      else slot
  }

  /** Folding update_newest over a sequence of pairs. */
  function FoldNewest(slot: Option<(nat, Path)>, s: seq<(nat, Path)>): Option<(nat, Path)>
    decreases |s|
  {
    if s == [] then slot else FoldNewest(UpdateNewest(slot, s[0].0, s[0].1), s[1..])
  }

  /** The fold ends with an element that beats the starting slot and every element. */
  lemma {:induction false} FoldNewestIsBest(slot: Option<(nat, Path)>, s: seq<(nat, Path)>)
    ensures var r := FoldNewest(slot, s); (s == [] ==> r == slot)
    ensures s != [] ==> var r := FoldNewest(slot, s);
      r.Some? && (r == slot || r.value in s)
      && (slot.Some? ==> Beats(r.value, slot.value))
      && forall x :: x in s ==> Beats(r.value, x)
    decreases |s|
  {
    if s != [] {
      var slot1 := UpdateNewest(slot, s[0].0, s[0].1);
      FoldNewestIsBest(slot1, s[1..]);
      var r := FoldNewest(slot, s);
      if s[1..] != [] {
        forall x | x in s ensures Beats(r.value, x) {
          if x == s[0] { BeatsTransitive(r.value, slot1.value, x); } else { assert x in s[1..]; }
        }
        if slot.Some? { BeatsTransitive(r.value, slot1.value, slot.value); }
        if r != slot1 { assert r.value in s; }
      }
    }
  }

  /** An element that beats every element is unique. */
  lemma BestUnique(s: seq<(nat, Path)>, a: (nat, Path), b: (nat, Path))
    requires a in s && b in s
    requires forall x :: x in s ==> Beats(a, x)
    requires forall x :: x in s ==> Beats(b, x)
    ensures a == b
  {
    if a != b {
      assert Better(a, b) && Better(b, a);
      BetterAsymmetric(a, b);
    }
  }

  /** The newest pair does not depend on the order: any permutation folds to it. */
  lemma FoldNewestOrderIndependent(s1: seq<(nat, Path)>, s2: seq<(nat, Path)>)
    requires multiset(s1) == multiset(s2)
    ensures FoldNewest(None, s1) == FoldNewest(None, s2)
  {
    if s1 != [] {
      assert s2 != [] by { assert |s2| == |multiset(s2)| == |multiset(s1)| == |s1|; }
      FoldNewestIsBest(None, s1);
      FoldNewestIsBest(None, s2);
      var a, b := FoldNewest(None, s1).value, FoldNewest(None, s2).value;
      forall x ensures x in s1 <==> x in s2 {
        assert x in s1 <==> x in multiset(s1);
        assert x in s2 <==> x in multiset(s2);
      }
      BestUnique(s1, a, b);
    } else {
      assert |s2| == |multiset(s2)| == 0;
    }
  }

  // ---------------------------------------------------------------------
  // resolve_source_path

  /** The eligible file the scan settles on: newest, smallest path among equals. */
  ghost predicate IsNewest(e: Entries, f: Faults, walked: set<WalkItem>, cutoff: nat, p: Path) {
    Eligible(e, f, walked, cutoff, p)
    && forall q :: Eligible(e, f, walked, cutoff, q) ==> Beats((e[p].mtime, p), (e[q].mtime, q))
  }

  /** There is at most one newest file. */
  lemma NewestUnique(e: Entries, f: Faults, walked: set<WalkItem>, cutoff: nat, p: Path, q: Path)
    requires IsNewest(e, f, walked, cutoff, p) && IsNewest(e, f, walked, cutoff, q)
    ensures p == q
  {
    var a, b := (e[p].mtime, p), (e[q].mtime, q);
    assert Beats(a, b) && Beats(b, a);
    if a != b { BetterAsymmetric(a, b); }
  }

  /** The final re-check: the chosen path must still exist and be a regular file. */
  function Recheck(e: Entries, f: Faults, p: Path): (r: Result<Path, MoveError>)
    ensures r == Ok(p) || r == Err(Disappeared(p))
    ensures r.Ok? <==> TryExists(e, f, p) == Ok(true) && IsFile(e, f, p)
  {
    if TryExists(e, f, p) == Ok(true) && IsFile(e, f, p) then Ok(p) else Err(Disappeared(p))
  }

  /** The chosen file passes the re-check unless its stat is failing. */
  lemma RecheckOfEligible(e: Entries, f: Faults, walked: set<WalkItem>, cutoff: nat, p: Path)
    requires Eligible(e, f, walked, cutoff, p)
    ensures Recheck(e, f, p) == (if StatOp(p) in f then Err(Disappeared(p)) else Ok(p))
  {
  }

  /** A shutdown request noticed before walk item `items` has been looked at (`None`: never). */
  predicate InterruptedWalk(shutdownAt: Option<nat>, items: nat) {
    shutdownAt.Some? && shutdownAt.value < items
  }

  /**
   * The walk loop: a shutdown check per item, then the filters and
   * update_newest.  Ok(None) when nothing was eligible.
   */
  method ScanNewest(e: Entries, f: Faults, items: seq<WalkItem>, ghost walked: set<WalkItem>, cutoff: nat,
                    shutdownAt: Option<nat>)
    returns (r: Result<Option<Path>, MoveError>)
    requires (set x | x in items) == walked
    ensures InterruptedWalk(shutdownAt, |items|) <==> r == Err(Interrupted)
    ensures r.Err? ==> r == Err(Interrupted)
    ensures r == Ok(None) <==> !InterruptedWalk(shutdownAt, |items|) && forall q :: !Eligible(e, f, walked, cutoff, q)
    ensures r.Ok? && r.value.Some? ==> IsNewest(e, f, walked, cutoff, r.value.value)
  {
    var newest: Option<(nat, Path)> := None;
    var i := 0;
    while i < |items|
      invariant 0 <= i <= |items|
      invariant !InterruptedWalk(shutdownAt, i)
      invariant newest.None? ==>
        forall j :: 0 <= j < i && items[j].Found? ==> !Eligible(e, f, walked, cutoff, items[j].path)
      invariant newest.Some? ==>
        var p := newest.value.1;
        Eligible(e, f, walked, cutoff, p) && newest.value.0 == e[p].mtime
        && forall j :: 0 <= j < i && items[j].Found? && Eligible(e, f, walked, cutoff, items[j].path) ==>
             Beats(newest.value, (e[items[j].path].mtime, items[j].path))
    {
      if shutdownAt == Some(i) {
        return Err(Interrupted);
      }
      var item := items[i];
      if item.Found? {
        var k := item.path;
        assert item in walked;
        if k in e && e[k].File? && k != [] && !Denied(k[|k| - 1]) {
          var meta := Lstat(e, f, k);
          if meta.Ok? && meta.value.mtime >= cutoff {
            var before := newest;
            newest := UpdateNewest(newest, meta.value.mtime, k);
            forall j | 0 <= j < i + 1 && items[j].Found? && Eligible(e, f, walked, cutoff, items[j].path)
              ensures Beats(newest.value, (e[items[j].path].mtime, items[j].path))
            {
              if j < i && before.Some? {
                BeatsTransitive(newest.value, before.value, (e[items[j].path].mtime, items[j].path));
              }
            }
          }
        }
      }
      i := i + 1;
    }
    if newest.Some? {
      var p := newest.value.1;
      forall q | Eligible(e, f, walked, cutoff, q) ensures Beats((e[p].mtime, p), (e[q].mtime, q)) {
        assert Found(q) in items;
      }
      return Ok(Some(p));
    }
    forall q ensures !Eligible(e, f, walked, cutoff, q) {
      if Found(q) in walked { assert Found(q) in items; }
    }
    return Ok(None);
  }

  /**
   * What resolve_source_path answers: an explicit path's own verdict when it
   * has one, otherwise the newest eligible file under the base (re-checked),
   * or the reason there is none.
   */
  ghost predicate ResolvedBy(e: Entries, f: Faults, now: nat, base: Path, window: nat, maybePath: Option<Path>,
                             shutdownAt: Option<nat>, r: Result<Path, MoveError>)
  {
    (maybePath.Some? && ExplicitDecision(e, f, maybePath.value).Some? ==>
      r == ExplicitDecision(e, f, maybePath.value).value)
    && (maybePath.None? || ExplicitDecision(e, f, maybePath.value).None? ==>
      var cutoff := Cutoff(now, window);
      var walked := BaseWalk(e, f, base);
      (!IsDir(e, f, base) ==> r == Err(BaseInvalid(base)))
      && (IsDir(e, f, base) && InterruptedWalk(shutdownAt, |walked|) ==> r == Err(Interrupted))
      && (IsDir(e, f, base) && !InterruptedWalk(shutdownAt, |walked|) ==>
            ((forall q :: !Eligible(e, f, walked, cutoff, q)) ==> r == Err(NoneFound(base)))
            && ((exists q :: Eligible(e, f, walked, cutoff, q)) ==>
                  exists p :: IsNewest(e, f, walked, cutoff, p) && r == Recheck(e, f, p))))
  }

  /**
   * resolve_source_path.  `now` and `window` are nanoseconds; the walk
   * yields its items in whatever order directories list their entries.
   */
  method ResolveSourcePath(fs: FileSystem, base: Path, window: nat, maybePath: Option<Path>, shutdownAt: Option<nat>)
    returns (r: Result<Path, MoveError>)
    ensures ResolvedBy(fs.entries, fs.faults, fs.now, base, window, maybePath, shutdownAt, r)
  {
    if maybePath.Some? {
      var d := ExplicitDecision(fs.entries, fs.faults, maybePath.value);
      if d.Some? { return d.value; }
    }
    var e, f := fs.entries, fs.faults;
    var cutoff := Cutoff(fs.now, window);
    if !IsDir(e, f, base) {
      return Err(BaseInvalid(base));
    }
    var items := fs.Walk(base, 1, Some(MAX_DEPTH));
    ghost var walked := BaseWalk(e, f, base);
    DistinctCount(items, walked);
    var scan := ScanNewest(e, f, items, walked, cutoff, shutdownAt);
    if scan.Err? {
      return Err(scan.error);
    }
    match scan.value
    case None => return Err(NoneFound(base));
    case Some(p) => return Recheck(e, f, p);
  }
}
