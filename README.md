# aria_move, modelled in Dafny

aria_move is a post-download helper for the aria2 download manager. It takes
a finished download out of `download_base` and puts it in `completed_base`,
so that no file ever shows up there half written. It works in four steps:

- it chooses the source: an explicit path, or the newest eligible file in the
  download directory;
- it refuses to move the download base itself, or a symbolic link;
- it tries a rename first; when that fails it copies through a temporary
  name, flushes the copy and renames it into place;
- when the name is already taken, it picks a fresh one of the form
  `stem (n).ext`.

A directory is moved as a whole tree. The copy fallback first checks the
free space, then recreates the directories, copies the regular files and
removes the source. At startup a resume pass removes orphaned temp files,
and any destination directory that is a partial copy. The configuration
comes from built-in defaults, an XML file and the command line.

The model works over an abstract filesystem:

- `Fs.FileSystem` holds a map from paths (sequences of components) to
  entries: files with their bytes, times and mode, directories, and
  symbolic links.
- Each std::fs operation the program calls is a pure function from that map
  to the new map, or to the `std::io::Error` it fails with.
- The class applies those functions in place.
- Failures that the map itself implies arise on their own: a missing source,
  a directory in the way, a name that exists under `create_new`.
- Every other failure (EXDEV, EACCES, a full disk, an I/O error) comes from
  a fixed table of injected faults, keyed by the operation and its arguments.
  So every proof holds for every pattern of failures.

The methods are the program's imperative procedures: the movers, the claim
loop, the resume passes, the walks and the config writer. Their loops and
branches follow the source. Each method is proved equal to a specification
function of the old state, and the lemmas state what the program promises
about those functions:

- the destination never names a partial copy;
- nothing outside the destination and its temp names changes;
- a failed move leaves the source where it was (move_file as written has one
  exception: with preserve_metadata, its stat of the source after a
  successful rename fails, and it reports that failure with the file already
  at its destination);
- a chosen duplicate name is free, and the first free one;
- the newest-file choice does not depend on walk order;
- the configuration follows its precedence rules;
- error messages name the operation and the path.

Each module corresponds to a source file: `Resolve` to fs_ops/resolve.rs,
`FileMove` to fs_ops/file_move.rs, `DirMove` to fs_ops/dir_move.rs, and so
on. The module comments say which.

## Model

| member | source | states |
|---|---|---|
| Common.SatAdd | src/fs_ops/space.rs:41 | saturating addition is the exact sum, or u64::MAX when that overflows |
| Common.SatMul | src/fs_ops/space.rs:69 | saturating multiplication is the exact product, or u64::MAX when that overflows |
| Common.DecimalRoundTrip | src/utils.rs:31 | the decimal text of a number reads back as that number |
| Common.DecimalInjective | src/utils.rs:31 | distinct numbers print differently |
| Common.HexPaddedRoundTrip | src/fs_ops/util.rs:61 | a number below 16^width printed as zero-padded hex reads back as itself |
| Common.AsciiLower | src/config/types.rs:29 | lower-casing keeps the length and maps each character on its own |
| Common.Find | src/lib.rs:60-62 | str::find gives the first occurrence, or None when there is none |
| Common.Trim | src/lib.rs:63 | the trimmed text neither starts nor ends with whitespace |
| Common.TrimEmpty | src/lib.rs:63-64 | a text trims to nothing exactly when it is all whitespace |
| Paths.Parent | src/config/paths.rs:47 | a path without components has no parent; otherwise the parent plus the last component is the path |
| Paths.WithFileName | src/utils.rs:36 | the new name replaces the last component and keeps the parent |
| Paths.StemExtensionSplit | src/utils.rs:22-26 | a name with an extension is its non-empty stem, a dot and a dot-free extension; a name without one is its own stem |
| Paths.StemExtensionRoundTrip | src/utils.rs:22-35 | splitting "stem.ext" gives back that stem and extension |
| Paths.PathLessTotal | src/fs_ops/resolve.rs:153 | of two different paths one is smaller |
| Paths.PathLessTransitive | src/fs_ops/resolve.rs:153 | the path order is transitive |
| Paths.PathLessAsymmetric | src/fs_ops/resolve.rs:153 | the path order is asymmetric |
| Resolve.ExplicitDecision | src/fs_ops/resolve.rs:34-58 | an explicit path is accepted exactly when it exists and is a regular file or a link to one; existing but anything else gives ProvidedNotFile; missing or un-lstat-able falls through to the scan |
| Resolve.Cutoff | src/fs_ops/resolve.rs:62-69 | the cutoff is now minus the window, clamped to the epoch on underflow, and the epoch when the window is zero |
| Resolve.EligibleShape | src/fs_ops/resolve.rs:83-108 | a file is a candidate exactly when it lies 1 to 4 levels below the base, is reached without following links, is not a partial download, and its mtime is at or after the cutoff |
| Resolve.CutoffBoundary | src/fs_ops/resolve.rs:63-106 | with a positive window a file qualifies iff mtime >= now - window (inclusive); with window 0, or a window reaching back before the epoch, every file qualifies |
| Resolve.DeniedNeverEligible | src/fs_ops/resolve.rs:96 | a name ending in ".part" is never a candidate, however recent |
| Resolve.BetterAsymmetric | src/fs_ops/resolve.rs:147-160 | the ordering update_newest applies is strict: a pair never beats itself or one that beats it |
| Resolve.BetterTotal | src/fs_ops/resolve.rs:147-160 | any two different (mtime, path) pairs are ordered one way or the other |
| Resolve.BeatsTransitive | src/fs_ops/resolve.rs:147-160 | the ordering is transitive |
| Resolve.UpdateNewest | src/fs_ops/resolve.rs:147-160 | the slot afterwards holds either its old value or the new pair, whichever is newer (the smaller path on equal mtime) |
| Resolve.FoldNewestIsBest | src/fs_ops/resolve.rs:147-160 | folding update_newest over the candidates ends with one of them that beats every candidate |
| Resolve.BestUnique | src/fs_ops/resolve.rs:147-160 | there is only one pair that beats all the others |
| Resolve.FoldNewestOrderIndependent | src/fs_ops/resolve.rs:147-160 | folding over any permutation of the candidates gives the same result, so the walk order does not matter |
| Resolve.NewestUnique | src/fs_ops/resolve.rs:131-137 | there is at most one newest eligible file |
| Resolve.Recheck | src/fs_ops/resolve.rs:131-140 | the chosen path is returned iff it still exists and is a regular file, else Disappeared with that path |
| Resolve.RecheckOfEligible | src/fs_ops/resolve.rs:131-140 | a chosen file fails the re-check only when its stat fails |
| Resolve.ScanNewest | src/fs_ops/resolve.rs:83-128 | the walk loop returns Interrupted iff a shutdown is seen before the walk ends, nothing iff no file is eligible, and otherwise the unique newest eligible file |
| Resolve.ResolveSourcePath | src/fs_ops/resolve.rs:32-145 | the result is the explicit path's verdict when it has one; otherwise BaseInvalid for a missing or non-directory base, Interrupted, NoneFound, or the re-checked newest eligible file |
| Space.FreeSpaceBytes | src/fs_ops/space.rs:55-70 | a failed statvfs is returned; otherwise the free space is f_bavail times the block size, saturating at u64::MAX |
| Space.EnsureSpaceForCopy | src/fs_ops/space.rs:36-51 | a failed query is returned before any comparison; otherwise it succeeds iff free >= required + 4 MiB, that sum saturating at u64::MAX, and the error names the directory, the requirement and the free space |
| Space.SpaceBoundary | src/fs_ops/space.rs:39-42 | exactly required + cushion free bytes pass and one byte fewer fails |
| Space.SpaceSaturates | src/fs_ops/space.rs:41-42 | past u64::MAX the requirement clamps, so only a full u64 of free space passes |
| Space.FragmentFallback | src/fs_ops/space.rs:67-69 | a zero f_frsize falls back to f_bsize |
| Space.CheckDiskSpace | src/fs_ops/disk.rs:14-48 | for a regular file the check passes iff its size is at most f_bavail times f_frsize, with no cushion; a failed statvfs is an error |
| Utils.TimestampedCandidate | src/utils.rs:22-64 | every alternative name stays in the candidate's directory |
| Utils.FirstFreeFrom | src/utils.rs:42-64 | the result is one of the alternatives from the given one on, and free unless it is the "-final" name |
| Utils.UniqueDestination | src/utils.rs:10-65 | a missing candidate is returned unchanged; otherwise the result is the first free alternative of "<stem>-<millis>-<pid>[-n][.ext]" for n = 2..5, every earlier one taken, or the "-final" name unchecked |
| Utils.TimestampedNameDiffers | src/utils.rs:22-64 | every alternative has the candidate's parent and a different file name |
| Utils.UniqueNameNotSource | src/utils.rs:10-64 | the chosen destination is never the existing source itself |
| Utils.EnsureNotBase | src/utils.rs:69-81 | refuses exactly when the canonical forms of base and candidate (each falling back to the raw path) are equal |
| Utils.BaseRefused | src/utils.rs:69-81 | the base itself and a link resolving to it are refused |
| Utils.ChildOfBaseAccepted | src/utils.rs:67-81 | an entry directly inside the base passes |
| Utils.FirstStop | src/utils.rs:133-146 | finds the first reading that fails or repeats the previous size, with none earlier |
| Utils.StableFileProbe | src/utils.rs:128-151 | the probe loop returns what the readings decide: the first failed reading's error, success on the first repeated size, else "did not stabilize" |
| Utils.FirstStopIs | src/utils.rs:133-146 | the first stopping reading is the one the probe stops at |
| Utils.ProbeSucceedsIff | src/utils.rs:128-151 | the probe succeeds iff two consecutive readings among the first attempts + 1 are equal and all readings up to them succeeded |
| Utils.ProbeWithoutAttemptsFails | src/utils.rs:136-150 | with attempts = 0 the probe fails after one reading |
| Utils.FileIsMutable | src/utils.rs:103-121 | true for the extensions part, aria2, tmp and crdownload in any ASCII case; otherwise true iff a two-re-check probe fails |
| Utils.UpperCasePartIsMutable | src/utils.rs:104-106 | "movie.PART" counts as partial |
| Duplicate.SuffixedNameInjective | src/fs_ops/duplicate.rs:65-79 | different numbers give different " (n)" names, so the search never retries a name |
| Duplicate.UniqueWithNumericSuffix | src/fs_ops/duplicate.rs:48-81 | the requested name when free; otherwise "stem (n)[.ext]" for the least n >= 2 that is free, every smaller n >= 2 being taken; the result lies directly in the directory and does not exist |
| Duplicate.ResolveDestination | src/fs_ops/duplicate.rs:33-40 | Skip and Overwrite return dir/name whatever exists; RenameWithSuffix returns a free name in the directory, dir/name itself when that is free |
| Duplicate.SuffixedWithExtension | src/fs_ops/duplicate.rs:52-73 | a name with an extension gets " (n)" between its stem and its last dot |
| Duplicate.MovieExample | src/fs_ops/duplicate.rs:45 | "movie.mkv" gives "movie (2).mkv" |
| Duplicate.ArchiveExample | src/fs_ops/duplicate.rs:47 | "archive.tar.gz" gives "archive.tar (2).gz" |
| Duplicate.DotFileExample | src/fs_ops/duplicate.rs:46 | ".env" gives ".env (2)": a leading dot alone is not an extension |
| Duplicate.PlainNameExample | src/fs_ops/duplicate.rs:70-73 | a name without an extension gets no trailing dot: "name (2)" |
| Claim.ClaimName | src/fs_ops/claim.rs:32-60 | every claim name starts with ".aria_move.moving." |
| Claim.ClaimedPath | src/fs_ops/claim.rs:26-37 | the claimed path is the claim name in the source's own directory |
| Claim.ClaimNamesDistinct | src/fs_ops/claim.rs:32-60 | the six numbered attempts and the ".final" attempt all use different names |
| Claim.Attempts | src/fs_ops/claim.rs:31-62 | one rename outcome per attempt, seven in all |
| Claim.ClaimStep | src/fs_ops/claim.rs:39-62 | the claim ends at the first attempt whose rename succeeds, every earlier one having collided; NotFound ends it at once; an error it ends with is one of the attempts' errors |
| Claim.ClaimOutcome | src/fs_ops/claim.rs:18-64 | a successful claim returns one of the attempts' names, and renaming the source to it succeeds |
| Claim.ClaimSourceAsWritten | src/fs_ops/claim.rs:18-64 | the claim as written: AlreadyExists at attempt 5 is returned from inside the loop; on success the source has been renamed to the result, on failure nothing changed |
| Claim.ClaimSource | src/fs_ops/claim.rs:18-64 | the claim with exhausted retries falling through to the ".final" rename, whose result or error is returned |
| Claim.ClaimLoop | src/fs_ops/claim.rs:31-63 | the retry loop and the final rename return the claim outcome and change the tree exactly by that one rename |
| Claim.ClaimMovesSource | src/fs_ops/claim.rs:39-40 | after a successful claim the source name is gone and the claimed name holds the source's entry |
| Claim.ClaimedPathDiffers | src/fs_ops/claim.rs:26-37 | the claimed path is never the source unless the source already has a claim name |
| Claim.ClaimMissingSource | src/fs_ops/claim.rs:43-45 | a missing source fails with NotFound at the first attempt, with no retry |
| Claim.FinalAttemptUnreachable | src/fs_ops/claim.rs:47-63 | when every numbered name collides, the loop as written returns the last collision, while the intended claim goes on to the ".final" name |
| Claim.AsWrittenNeverFinal | src/fs_ops/claim.rs:30-63 | the loop as written never reaches the ".final" rename, whatever the outcomes |
| FsUtil.CrossDeviceByCode | src/fs_ops/util.rs:17-36 | an error is cross-device iff its raw OS code is EXDEV; an error without a raw code never is |
| FsUtil.ResumeTempName | src/fs_ops/util.rs:61 | the name is ".aria_move.resume." then 16 lower-case hex digits then ".tmp" |
| FsUtil.ResumeTempPath | src/fs_ops/util.rs:55-66 | the name is placed in dest's parent, or stands alone when dest has none; it depends on dest only through its display form |
| FsUtil.ResumeTempNameEncodesHash | src/fs_ops/util.rs:60-61 | reading the 16 hex digits back gives the hash, so zero padding loses nothing |
| FsUtil.ResumeTempNameInjective | src/fs_ops/util.rs:55-61 | different hashes give different resume temp names |
| Resume.ResumeTempPathRecognised | src/resume.rs:13-19 | every path resume_temp_path produces is recognised as a resume temp |
| Resume.SharedDotRecognised | src/resume.rs:15 | the prefix and suffix may share the dot: ".aria_move.resume.tmp" matches |
| Resume.PrefixAloneNotRecognised | src/resume.rs:15 | a name with the prefix but without ".tmp" at the end does not match |
| Resume.RemovesOnlyWithinTransitive | src/resume.rs:21-25 | removing only entries strictly inside completed_base, twice in a row, still removes only such entries |
| Resume.RemoveTemp | src/resume.rs:33-41 | one listed name changes nothing unless it is a regular file named like a resume temp, which is then removed |
| Resume.CleanupTempsRemovesOnlyTemps | src/resume.rs:32-42 | the temp pass removes only regular resume temps directly inside completed_base and nothing else |
| Resume.CleanupTempsRemovesEveryTemp | src/resume.rs:32-42 | every listed regular resume temp whose removal does not fail is gone afterwards |
| Resume.TempsPassRemovesEveryTemp | src/resume.rs:27-43 | after the pass over a listable completed_base no regular resume temp directly inside it survives, unless its removal failed |
| Resume.CleanupResumeTemps | src/resume.rs:27-44 | the pass visits each listed name once and leaves the tree as the temp pass decides; an unlistable completed_base is left alone and the result is always Ok |
| Resume.EntryCount | src/resume.rs:82-90 | the count is the number of names read_dir lists, or read_dir's error |
| Resume.CountEntries | src/resume.rs:82-90 | the counting loop returns that count |
| Resume.RemovePartial | src/resume.rs:52-77 | one listed name changes the tree only when the destination is a partial copy, and then by remove_dir_all of that destination |
| Resume.PartialNeedsEveryCondition | src/resume.rs:56-67 | a hidden name, an unlistable source (count 0) or an unlistable destination (count u64::MAX) keeps the destination; a removed one had strictly fewer entries than its source |
| Resume.RemovePartialWithin | src/resume.rs:62-76 | a removal only removes entries strictly inside completed_base |
| Resume.CleanupPartialsWithin | src/resume.rs:51-78 | the whole partial-directory pass removes only entries strictly inside completed_base |
| Resume.RemoveIfPartial | src/resume.rs:52-77 | the loop body changes the tree exactly as the partial rule decides for that name |
| Resume.CleanupPartialDirs | src/resume.rs:46-80 | the pass visits each listed name once; an unlistable completed_base is left alone and the result is always Ok |
| Resume.Reconcile | src/resume.rs:21-25 | the temp pass runs first and the partial-directory pass over what it left |
| Resume.ReconcileStaysInside | src/resume.rs:21-80 | whatever the listing orders, reconcile only removes, and only entries strictly inside completed_base |
| Resume.UnlistableCompletedUntouched | src/resume.rs:28-50 | an unlistable completed_base makes reconcile change nothing |
| Platform.WrappingIncrement | src/platform/temp.rs:6-13 | fetch_add changes the counter and adds one below u64::MAX |
| Platform.ConfigTempName | src/platform/temp.rs:14 | the temp name starts with ".aria_move.config.tmp." |
| Platform.ConfigTempPath | src/platform/temp.rs:15 | the temp is a sibling of the target, with that name as its last component |
| Platform.ConfigTempNamesDiffer | src/platform/temp.rs:13-14 | names that differ in the sequence number differ, whatever the pid and the clock |
| Platform.TempCounter.TmpConfigSiblingName | src/platform/temp.rs:10-16 | the call names the path with the counter's current value and advances the counter as fetch_add does |
| Platform.SuccessiveNamesDiffer | src/platform/temp.rs:13-15 | the name a call returns differs from the name the next call returns |
| Platform.TwoSiblingNames | src/platform/temp.rs:10-16 | two successive calls return different paths for the same target, pid and clock |
| Platform.AtomicWrite0600 | src/platform/common_unix.rs:20-48 | the write ends as the atomic-write function says, with the temp named from the counter only once the parent exists |
| Platform.NoParentRefused | src/platform/common_unix.rs:21-23 | for both config writers, a path without a parent is refused with InvalidInput before anything changes |
| Platform.AtomicWriteSuccess | src/platform/common_unix.rs:24-47 | for both config writers, on success the target is a regular file with exactly the contents and mode 0600, and the temp name is gone |
| Platform.ExistingTempKept | src/platform/common_unix.rs:28-33 | for both config writers, an existing temp name is never overwritten: create_new fails and nothing after create_dir_all changes |
| Platform.RenameFailureRemovesTemp | src/platform/common_unix.rs:38-42 | in atomic_write_0600, a failed rename returns its own error, removes the temp as best it can and leaves the target as it was |
| Platform.WriteFailureLeavesTemp | src/platform/common_unix.rs:34-35 | for both config writers, a failed write or fsync of the temp returns at once and leaves the temp behind |
| Platform.AtomicWriteShape | src/platform/common_unix.rs:26-47 | for both config writers, after create_dir_all the tree ends in one of four states: unchanged, temp left empty, temp left full, or target replaced |
| Platform.WriteAndPlaceShape | src/platform/common_unix.rs:28-47 | the same four states, counted from the moment the temp is created |
| Platform.PlaceConfigShape | src/platform/common_unix.rs:38-47 | the rename step either replaces the target and drops the temp, or keeps the target, with the temp removed as best it can by atomic_write_0600 or left by write_config_secure_new_0600 |
| Platform.AtomicWriteFrame | src/platform/common_unix.rs:20-48 | for both config writers, no entry that existed before, other than the target and the temp, is changed or removed; an existing target changes only by receiving the new contents |
| Platform.SecureTempName | src/platform/unix.rs:28-35 | the unix.rs temp name starts with ".aria_move.config.tmp." |
| Platform.SecureTempPath | src/platform/unix.rs:28-35 | the unix.rs temp is a sibling of the target with that name as its last component |
| Platform.WriteConfigSecureNew0600 | src/platform/unix.rs:22-54 | write_config_secure_new_0600 ends as its write function defines, with the temp named from the pid and the clock |
| Platform.RenameFailureKeepsTemp | src/platform/unix.rs:47-49 | in write_config_secure_new_0600, a failed rename returns its own error and leaves the full temp next to an unchanged target |
| Platform.LeftTempBlocksRetry | src/platform/unix.rs:28-43 | a temp left by a failed rename makes the next write with the same pid and clock fail with EEXIST, since the name has no sequence number |
| Helpers.Hint | src/fs_ops/helpers.rs:24-76 | the hint is empty or one of the fixed hint texts |
| Helpers.BuildMessage | src/fs_ops/helpers.rs:21-79 | the message starts with "op 'path': error" and ends with exactly the hint that error gets |
| Helpers.IoErrorWithHelp | src/fs_ops/helpers.rs:83-88 | the message is "op 'path': " and the error's text, followed by exactly the hint for the error, and nothing else |
| Helpers.IoErrorWithHelpIo | src/fs_ops/helpers.rs:93-98 | the kind is kept, the raw code dropped, and the text is build_message's |
| Helpers.CodeDecidesHint | src/fs_ops/helpers.rs:24-46 | two errors with the same raw code get the same hint, whatever their kinds |
| Helpers.UnhandledCodeNoHint | src/fs_ops/helpers.rs:44 | a raw code outside the handled ones adds no hint |
| Helpers.CodeAndKindHints | src/fs_ops/helpers.rs:28-75 | code and kind hints agree for permission and not-found errors, differ in wording for already-exists, and EXDEV and EBUSY have hints only by code |
| Helpers.NotFoundFallbackHint | src/fs_ops/helpers.rs:59-67 | a NotFound error without a raw code gets the not-found hint right after its text |
| Helpers.LockIoErrorWithHelpAsWritten | src/fs_ops/lock.rs:114-125 | the lock helper as written keeps the kind and drops the raw code; its text is "action 'path': " and the error's text, followed by exactly " (os error N)" again for an OS error |
| Helpers.LockIoErrorWithHelp | src/fs_ops/lock.rs:114-125 | the corrected lock helper's text is "action 'path': error" with the error's kind |
| Helpers.LockHelpAgainstBuildMessage | src/fs_ops/lock.rs:120-123 | the corrected text is build_message's without the hint; the as-written text adds " (os error N)" again, so it differs whenever there is a raw code |
| Helpers.AsWrittenRepeatsCode | src/fs_ops/lock.rs:121-122 | with EACCES the message reads "... Permission denied (os error 13) (os error 13)" |
| ConfigTypes.ParseLevel | src/config/types.rs:28-36 | each level is chosen exactly when the ASCII-lower-cased text is one of that level's names |
| ConfigTypes.LevelName | src/config/types.rs:39-49 | the printed name is already in lower case |
| ConfigTypes.LevelFromStr | src/config/types.rs:51-56 | from_str succeeds exactly when parse does, with the same level, and otherwise fails with "invalid log level: '<s>'" |
| ConfigTypes.AsciiLowerIdempotent | src/config/types.rs:29 | lower-casing twice is lower-casing once |
| ConfigTypes.ParseIgnoresCase | src/config/types.rs:28-36 | a name and its lower-case form parse alike |
| ConfigTypes.LevelRoundTrip | src/config/types.rs:28-55 | every level's printed name parses back to that level, through parse and from_str |
| ConfigTypes.EmptyIsNoLevel | src/config/types.rs:34 | the empty string names no level |
| ConfigTypes.DefaultConfig | src/config/types.rs:82-97 | the default bases, Normal verbosity, the default log path if there is one, every switch off |
| ConfigTypes.NewConfig | src/config/types.rs:99-108 | the given bases, with every other field as in the default |
| ConfigPaths.AppPath | src/config/paths.rs:15-19 | the path is the base plus two components, "aria_move" then the file name |
| ConfigPaths.ConfigPathPrecedence | src/config/paths.rs:26-38 | ARIA_MOVE_CONFIG verbatim, else the config directory, else $HOME/.config; an error exactly when all three are missing |
| ConfigPaths.LogNextToConfig | src/config/paths.rs:43-50 | whenever the config path has a parent, the log is "aria_move.log" in that directory |
| ConfigPaths.LogFallbacks | src/config/paths.rs:52-63 | without a config path that has a parent, the log goes under the data directory, else under $HOME/.local/share, else it is an error |
| ConfigPaths.PathHasSymlinkAncestor | src/config/paths.rs:68-80 | the upward loop returns what the ancestor scan defines, the first lstat error included |
| ConfigPaths.ScanFromFinds | src/config/paths.rs:69-79 | without lstat failures the scan from a directory is true exactly when it or one of its ancestors exists and is a link |
| ConfigPaths.SymlinkAncestorMeans | src/config/paths.rs:66-80 | without lstat failures the answer is true exactly when a proper ancestor exists and is a link; the path itself is never looked at |
| ConfigPaths.NearestLinkStops | src/config/paths.rs:73-75 | the scan stops at the nearest link, so a failure further up is never seen |
| ConfigPaths.NearestLinkStopsFrom | src/config/paths.rs:70-78 | the same, for a scan starting at any directory |
| ConfigPaths.DanglingLinkSkipped | src/config/paths.rs:71 | a link whose target is missing does not exist, so it is skipped |
| ConfigXml.MeaningfulFields | src/config/xml.rs:100-118 | the file yields no config exactly when both bases and the log file are absent and the level is absent or does not parse; the other fields do not count |
| ConfigXml.BadLevelIsAbsent | src/config/xml.rs:103 | a log_level that does not parse counts as absent |
| ConfigXml.FieldDefaults | src/config/xml.rs:101-128 | present fields are taken as given; missing bases take the defaults, a missing log file takes default_log_path when it succeeds, the window defaults to 300 s and preserve_metadata to false |
| ConfigXml.TemplateRefusedUnderLink | src/config/xml.rs:134-139 | under a symlinked ancestor no template is written and nothing changes |
| ConfigXml.PrepareParentWellFormed | src/config/xml.rs:141-144 | creating the parent and setting its mode keeps the tree well formed |
| ConfigXml.WriteTemplateWritten | src/config/xml.rs:159-160 | a successful write through write_config_secure_new_0600 leaves the path with exactly the data and mode 0600 |
| ConfigXml.TemplateWritten | src/config/xml.rs:133-164 | a written template is a regular file holding the template text with mode 0600 |
| ConfigXml.MissingFileIsNoConfig | src/config/xml.rs:63-74 | a missing file is no config; a template is attempted only at the default location, never at an ARIA_MOVE_CONFIG path |
| ConfigXml.ParseErrors | src/config/xml.rs:76-128 | loading an existing file changes nothing; an unreadable file is no config; a parse error aborts exactly when its message contains "unknown field"; a parsed file yields the mapped fields |
| ConfigXml.EnsureDefaultGuards | src/config/xml.rs:167-187 | nothing is created with ARIA_MOVE_CONFIG set, without a default path, when the file exists, or under a symlinked ancestor |
| ConfigXml.EnsureDefaultCreated | src/config/xml.rs:189-190 | a reported path is the default config path and now holds the template |
| App.MergeConfig | src/app.rs:54-96 | the field-by-field merge in run yields the merged configuration: defaults, then the XML values, then the command line |
| App.BasesPrecedence | src/app.rs:58-82 | a base given on the command line always wins; otherwise the XML base, otherwise the default |
| App.LevelPrecedence | src/app.rs:64-89 | a --log-level that parses sets the level; one that does not parse leaves Normal and also shuts out the XML level; --debug counts only without --log-level; the XML level only without either |
| App.LogFileFromXmlOnlyWithoutDefault | src/app.rs:54-67 | the XML log file is used only when the default log path could not be computed |
| App.PermissionsRule | src/app.rs:69-93 | preserve_metadata is the disjunction of both sources; preserve_permissions comes on only while preserve_metadata is off at that point, so an XML value survives a later --preserve-metadata |
| App.CliSwitchesOnlyTurnOn | src/app.rs:90-96 | the command-line switches only turn settings on; dry_run comes from the command line alone and locks stay enabled |
| App.DryRunChangesNothingElse | src/app.rs:94-96 | --dry-run changes dry_run and nothing else |
| App.WindowFromXml | src/app.rs:68 | the recency window is the XML file's when it yielded settings, else 300 s |
| App.SelectSource | src/app.rs:129-138 | an explicit path that lstat reports as a directory is taken as it is; every other case goes through the resolver, so an explicit link to a non-file is refused as not a file |
| Lib.ExtractTag | src/lib.rs:57-69 | a value, when there is one, is non-empty and has no surrounding whitespace |
| Lib.FindIs | src/lib.rs:60 | an occurrence with no earlier occurrence is what find returns |
| Lib.OccursShift | src/lib.rs:62 | an occurrence in the text after the opening tag is an occurrence in the whole text, shifted by that offset |
| Lib.NotAtOtherChar | src/lib.rs:60-62 | a pattern cannot start at a character other than its first |
| Lib.ExtractTagMissing | src/lib.rs:60-62 | without an opening tag, or without a closing tag after the first opening tag, there is no value |
| Lib.RawTagMissing | src/lib.rs:60-62 | the same for the untrimmed text between the tags |
| Lib.TrimmedRaw | src/lib.rs:63-68 | the value is the trimmed text between the tags, or none when that text is blank |
| Lib.ExtractTagBetween | src/lib.rs:60-68 | with the first opening tag and the first closing tag after it located, the value is the trimmed text between them |
| Lib.RawTagBetween | src/lib.rs:60-63 | with both tags located, the raw text is the slice between them |
| Lib.ExtractTagRoundTrip | src/lib.rs:57-69 | a value written between the tags is extracted back trimmed, when no '<' precedes the tag or occurs in the value |
| Lib.RawTagRoundTrip | src/lib.rs:57-63 | the same for the untrimmed text |
| Lib.RawTagIs | src/lib.rs:60-63 | once both searches and the slice are known, the raw text is that slice |
| Lib.FirstAfterPlain | src/lib.rs:60 | in text without '<', a pattern starting with '<' is first found where it is placed |
| Lib.OldLoadFields | src/lib.rs:71-83 | nothing is loaded exactly when all three tags are missing; a missing base takes its default and the level is the raw extracted text |
| Lib.LevelAloneLoads | src/lib.rs:71-83 | a file whose only tag is log_level still loads, with both default bases |
| Lib.OldDefaultConfig | src/lib.rs:142-160 | the loaded values when there are any, else the defaults, always with a five-minute window |
| Lib.OldNewConfig | src/lib.rs:162-171 | exactly the given bases and window, and no level |
| Lib.OldUniqueDestination | src/lib.rs:372-393 | the candidate when it does not exist, else one "<stem>-<millis>-<pid>[.<ext>]" sibling, not checked in turn |
| Lib.FirstAlternativeDiffers | src/utils.rs:10-40 | the plain timestamped name differs from every numbered alternative |
| Lib.OldAgainstNew | src/lib.rs:372-393 | where the timestamped name is free the older and newer unique_destination agree; where it is taken the older returns an existing path and the newer one another |
| Copy.TempName | src/fs_ops/copy.rs:27 | the temporary name starts with ".aria_move.tmp." |
| Copy.TempPath | src/fs_ops/copy.rs:15-28 | the temporary file lies next to the destination, under that name |
| Copy.SafeCopyAndRename | src/fs_ops/copy.rs:14-67 | the steps change the tree and report exactly as the copy-and-rename outcome defines, with step errors built by the lock helper as written |
| Copy.PlaceTempSuccess | src/fs_ops/copy.rs:51-64 | a successful rename step moves the temporary file onto the destination; a failed one leaves the tree as it was, or renamed when only the directory flush failed |
| Copy.CopyToTempResult | src/fs_ops/copy.rs:31-64 | the copy steps succeed only for a regular source and a free temporary name, ending with the source's bytes at the destination; no earlier entry but the destination changes; an existing temporary name fails the copy |
| Copy.SafeCopySuccess | src/fs_ops/copy.rs:14-67 | on success the source is a file, the destination's directories exist, the destination holds a fresh file with the source's bytes, nothing else changed and the temporary name is gone |
| Copy.SafeCopyFrame | src/fs_ops/copy.rs:14-67 | whatever the outcome, every entry other than the destination is as it was, so the source is never changed or removed, and the only new names are the destination, the temporary file and directories above the destination |
| Copy.SafeCopyTempTaken | src/fs_ops/copy.rs:27-31 | an existing temporary name is never overwritten: the copy fails having added only directories |
| Copy.PreserveMetadataOnFile | src/fs_ops/metadata.rs:13-50 | a regular destination gets the source's times and its mode masked to 0o777, and keeps its bytes |
| Copy.PreserveMetadataFrame | src/fs_ops/metadata.rs:13-50 | no name appears or disappears and only the entry the destination resolves to changes, whichever step fails |
| Copy.PreserveMetadataKeepsBytes | src/fs_ops/metadata.rs:18-46 | setting times and permissions never changes a file's bytes |
| Copy.PreserveMetadataOn | src/fs_ops/metadata.rs:13-50 | the method leaves the tree as preserve_metadata defines |
| Copy.SafeCopyAndRenameWithMetadata | src/fs_ops/copy.rs:70-78 | the copy, then, when asked, stat of the source and preserve_metadata, ending as the outcome function defines, with step errors built by the lock helper as written |
| Copy.SafeCopyWithMetadataSuccess | src/fs_ops/copy.rs:70-78 | a successful copy, with or without metadata, leaves the source as it was and its bytes at the destination |
| Copy.SafeCopyWithMetadataResult | src/fs_ops/copy.rs:70-78 | without preserve the outcome is the plain copy's; a failed stat is reported with the copy already in place; when the metadata steps succeed the destination has the source's bytes, times and permission bits |
| Copy.SafeCopyWithMetadataFrame | src/fs_ops/copy.rs:70-78 | with or without metadata, no entry other than the destination changes, and the only new names are the destination, its temporary file and directories above it |
| Copy.SafeCopyDestIsFile | src/fs_ops/copy.rs:14-67 | after a successful copy the destination is a regular file |
| Copy.PreserveMetadataOnOneFile | src/fs_ops/metadata.rs:13-50 | on a regular destination no name appears or disappears, the destination stays a regular file and every other entry is unchanged |
| Entry.MoveEntry | src/fs_ops/entry.rs:16-47 | the dispatcher ends as the move-entry outcome defines: base check, lstat without following links, then move_file as written for a file and move_dir for a directory |
| Entry.EntryRefusals | src/fs_ops/entry.rs:20-46 | a link, a missing source and an entry that is neither file nor directory are refused with their own errors before anything changes |
| Entry.EntryRefusesBase | src/fs_ops/entry.rs:17 | the download base itself is refused and nothing changes |
| Entry.EntryLandsInCompleted | src/fs_ops/entry.rs:37-40 | whatever is moved, in a dry run or not, the reported path lies directly inside completed_base |
| FileMove.PlannedDest | src/fs_ops/file_move.rs:51-67 | fails exactly for a source without a file name; a free name is used as it is; the result always lies directly inside completed_base |
| FileMove.DryRunResult | src/fs_ops/file_move.rs:40-58 | a dry run refuses a missing or read-only parent of completed_base with PermissionDenied, and otherwise reports the planned destination |
| FileMove.MoveInto | src/fs_ops/file_move.rs:61-111 | a successful real run returns the planned destination computed after completed_base exists |
| FileMove.RenameOrCopy | src/fs_ops/file_move.rs:76-111 | a successful rename-or-copy returns the destination it was given |
| FileMove.AfterRename | src/fs_ops/file_move.rs:77-84 | a successful metadata step returns the destination |
| FileMove.CopyFallback | src/fs_ops/file_move.rs:106-109 | a successful copy fallback returns the destination |
| FileMove.MoveFileAsWritten | src/fs_ops/file_move.rs:25-112 | move_file as written ends as the outcome function defines, with the source's metadata read after the rename |
| FileMove.MoveFile | src/fs_ops/file_move.rs:25-112 | the corrected move_file ends as the outcome function defines, with the source's metadata read before the rename |
| FileMove.MoveFileSteps | src/fs_ops/file_move.rs:25-112 | the shared steps end as the outcome function defines for either place of the metadata read, with step errors built by the lock helper as written |
| FileMove.ChooseDest | src/fs_ops/file_move.rs:61-67 | the name chosen is the planned destination |
| FileMove.MoveFileRefusals | src/fs_ops/file_move.rs:26-59 | a shutdown request gives Interrupted, and the base itself and a size still changing are refused, all before anything changes; a dry run never changes anything |
| FileMove.PlannedDestAfterCreate | src/fs_ops/file_move.rs:37-67 | the directories create_dir_all adds do not change the name chosen inside completed_base |
| FileMove.DryRunMatchesRealRun | src/fs_ops/file_move.rs:50-67 | a dry run and a real run that both succeed report the same destination |
| FileMove.RunReportsPlannedDest | src/fs_ops/file_move.rs:36-111 | whichever kind of run succeeds reports the destination planned from the entries it started with |
| FileMove.PlannedDestNotSource | src/fs_ops/file_move.rs:61-67 | the destination is never the existing source itself |
| FileMove.MoveFileSuccess | src/fs_ops/file_move.rs:74-111 | for either place of the metadata read, after a successful move the source name is gone and the destination holds the source's bytes, with the source's times and permission bits under preserve_metadata when those steps do not fail |
| FileMove.RenameOrCopySuccess | src/fs_ops/file_move.rs:76-111 | the same for each of the two branches and either place of the metadata read, starting after create_dir_all |
| FileMove.CopyFallbackSuccess | src/fs_ops/file_move.rs:106-109 | the copy branch puts the bytes, and the metadata when asked, at the destination and removes the source |
| FileMove.MoveFileFailure | src/fs_ops/file_move.rs:25-112 | with the metadata read first, a failed move leaves the source file exactly as it was; as written the one other failure is the preserve_metadata stat after a successful rename, which reports NotFound with the source gone and its entry at a name directly inside completed_base |
| FileMove.MoveIntoFailure | src/fs_ops/file_move.rs:61-111 | the same two statements, starting after create_dir_all |
| FileMove.RenameOrCopyFailure | src/fs_ops/file_move.rs:76-111 | a failed rename or copy keeps the source, except as written with preserve_metadata, where the rename has already moved the source onto the destination |
| FileMove.MoveFileFrame | src/fs_ops/file_move.rs:25-112 | for either place of the metadata read, every entry other than the source and the planned destination is unchanged, and the only new names are the destination, its temporary file and directories up to completed_base |
| FileMove.MoveIntoFrame | src/fs_ops/file_move.rs:61-111 | the same frame after create_dir_all; new names appear only once a destination has been planned |
| FileMove.RenameOrCopyFrame | src/fs_ops/file_move.rs:76-111 | the same frame for the rename branch and the copy branch |
| FileMove.AfterRenameFrame | src/fs_ops/file_move.rs:77-84 | after the rename, the metadata step changes nothing but the destination and adds no other name |
| FileMove.CopyFallbackFrame | src/fs_ops/file_move.rs:85-110 | the copy fallback changes nothing but the source and the destination, and adds only the destination, its temporary file and directories above it |
| FileMove.CopyFallbackRemovesOnlySource | src/fs_ops/file_move.rs:106-109 | the removal after the copy takes away at most the source name and changes no other entry |
| FileMove.AsWrittenPreserveFailsAfterRename | src/fs_ops/file_move.rs:76-80 | as written, with preserve_metadata a successful rename reports ENOENT from the stat of the vanished source name, with the file already moved |
| FileMove.StatFirstPreservesAfterRename | src/fs_ops/file_move.rs:76-83 | with the metadata read first the same rename succeeds and carries times and permission bits over |
| FileMove.AnyRenameErrorCopies | src/fs_ops/file_move.rs:85-110 | any rename error, not only a cross-device one, falls back to the copy, which then removes the source |
| FileMove.Finalize | src/fs_ops/file_move.rs:210-227 | move_file_old's last step succeeds exactly when the rename of the copy into place succeeds |
| FileMove.MoveFileOld | src/fs_ops/file_move.rs:115-230 | move_file_old ends as its outcome function defines, with claim_source as written |
| FileMove.ClaimAndMove | src/fs_ops/file_move.rs:141-230 | the claim as written and what follows end as the claim-then-move function defines |
| FileMove.CopyAcross | src/fs_ops/file_move.rs:183-229 | the cross-device branch ends as its outcome function defines |
| FileMove.LostClaim | src/fs_ops/file_move.rs:142-152 | a claim that finds no source changes nothing and succeeds exactly when the destination exists |
| FileMove.RollbackRestores | src/fs_ops/file_move.rs:169-178 | a non-cross-device rename failure is rolled back: with the claimed name free and the rename back succeeding, the tree is as before the claim and the error is reported |
| FileMove.RemovalFailureOnlyWarns | src/fs_ops/file_move.rs:210-229 | once the copy is renamed into place the move succeeds, whether or not the claimed source can be removed |
| DirMove.ItemBytes | src/fs_ops/dir_move.rs:128-134 | a walked regular file adds its length capped to u64, a failed metadata read of one gives up, and every other item adds nothing |
| DirMove.Plus | src/fs_ops/dir_move.rs:131-132 | the sum fails exactly when either side failed |
| DirMove.Capped | src/fs_ops/dir_move.rs:131 | saturating additions leave the exact sum capped at u64::MAX |
| DirMove.SetBytesRemove | src/fs_ops/dir_move.rs:128-136 | the sum over a set of items is the sum without one item plus that item |
| DirMove.SeqBytesIsSetBytes | src/fs_ops/dir_move.rs:128-136 | summing the distinct items of a walk in any order gives the same result |
| DirMove.SeqBytesFailureStays | src/fs_ops/dir_move.rs:132 | once a prefix of the walk gave up, the whole walk does |
| DirMove.SetBytesFailsIff | src/fs_ops/dir_move.rs:129-133 | the sum gives up exactly when some walked regular file's metadata cannot be read |
| DirMove.TreeBytesNoneIff | src/fs_ops/dir_move.rs:124-137 | total_bytes_in_tree is None exactly when the walk reaches a regular file whose metadata cannot be read; walk errors are skipped |
| DirMove.SingleFileTree | src/fs_ops/dir_move.rs:126-137 | a lone regular file counts its length |
| DirMove.SeqBytesNext | src/fs_ops/dir_move.rs:128-135 | one more walked item adds its bytes to the sum so far |
| DirMove.SatAddCapped | src/fs_ops/dir_move.rs:131 | a saturating add of two capped values is the capped exact sum |
| DirMove.TotalBytesInTree | src/fs_ops/dir_move.rs:126-137 | the loop returns the tree's capped size, or None, whatever order the walk takes |
| DirMove.Rebase | src/fs_ops/dir_move.rs:77-103 | a path below the source lands below the target at the same relative position |
| DirMove.CreateDirFor | src/fs_ops/dir_move.rs:76-82 | the directory step for one item only ever adds entries when it succeeds |
| DirMove.FilesOf | src/fs_ops/dir_move.rs:86-91 | the files collected are exactly the regular files of the second walk, in walk order, all below the source |
| DirMove.CopyStep | src/fs_ops/dir_move.rs:109 | std::fs::copy of one file changes the tree as the copy defines and succeeds exactly when it does |
| DirMove.CopyTree | src/fs_ops/dir_move.rs:58-121 | a successful fallback returns the target |
| DirMove.SpaceCheck | src/fs_ops/dir_move.rs:58-69 | the space check passes when the size is unknown, and is ensure_space_for_copy on the size otherwise |
| DirMove.CopyAndRemove | src/fs_ops/dir_move.rs:86-121 | a successful copy-and-remove returns the target |
| DirMove.DirTarget | src/fs_ops/dir_move.rs:36-39 | the target lies directly inside completed_base under the source's own name |
| DirMove.MoveDirOutcome | src/fs_ops/dir_move.rs:26-122 | a successful move_dir had a named source and returns its target |
| DirMove.CreateDirsErrorStays | src/fs_ops/dir_move.rs:76-83 | once a directory step fails, the later items change nothing |
| DirMove.CreateDirsNext | src/fs_ops/dir_move.rs:76-83 | one more walked item: the outcome so far, then that item's directory unless an error already stopped the loop |
| DirMove.CopyFilesErrorStays | src/fs_ops/dir_move.rs:93-111 | once a file fails, the later files change nothing |
| DirMove.CopyFilesNext | src/fs_ops/dir_move.rs:93-111 | one more file: the outcome so far, then that file's copy unless an error already stopped |
| DirMove.CreateTargetDirs | src/fs_ops/dir_move.rs:71-83 | step 1 walks the source once, visiting each item once, and ends as the directory steps define in that order |
| DirMove.CreateDirsInOrder | src/fs_ops/dir_move.rs:76-83 | the loop over the walk creates the directories in order and stops at the first failure |
| DirMove.CopyTreeFiles | src/fs_ops/dir_move.rs:93-111 | step 2 copies the files one after another as the file steps define, stopping at the first failure |
| DirMove.CopyFileStep | src/fs_ops/dir_move.rs:94-110 | one file: the in-use check, its parent directory, then the copy |
| DirMove.MoveDir | src/fs_ops/dir_move.rs:26-122 | move_dir ends as its outcome function defines, with walk orders that are true orders of the walks the fallback takes |
| DirMove.CopyTreeSteps | src/fs_ops/dir_move.rs:58-121 | the fallback ends as the copy-tree function defines, with true walk orders once the space check passes and step errors built by the lock helper as written |
| DirMove.PrefixesOfOnePath | src/fs_ops/dir_move.rs:77-78 | two prefixes of one path are prefixes of each other |
| DirMove.OutsideSource | src/fs_ops/dir_move.rs:102-106 | what lies on the way to a path below the target is not below the source |
| DirMove.RebaseInjective | src/fs_ops/dir_move.rs:102-103 | distinct source files land at distinct destinations |
| DirMove.CreateDirsGrows | src/fs_ops/dir_move.rs:72-83 | step 1 only ever adds entries and changes none |
| DirMove.CopyStepFacts | src/fs_ops/dir_move.rs:109 | the copy changes only its destination, which on success holds the file's bytes and mode |
| DirMove.CopyOneFacts | src/fs_ops/dir_move.rs:94-110 | one file's step touches only its copy and directories above it, keeps the source tree, and on success the copy has the file's bytes and mode |
| DirMove.CopyFilesFacts | src/fs_ops/dir_move.rs:93-111 | step 2 keeps the source tree and on success has copied every file it was given |
| DirMove.CopyAndRemoveFacts | src/fs_ops/dir_move.rs:86-121 | a failure in steps 2 and 3 leaves the source tree as it was; success removed the source after copying every regular file of the second walk |
| DirMove.RemoveKeepsOutside | src/fs_ops/dir_move.rs:114 | remove_dir_all removes the source and nothing outside it |
| DirMove.DryRunDir | src/fs_ops/dir_move.rs:27-44 | a dry run changes nothing and succeeds exactly without a shutdown request, for a source other than the base that has a name |
| DirMove.RenameIsTheWholeMove | src/fs_ops/dir_move.rs:50-54 | a successful rename is the whole move; sizes, free space, walks and probes play no part |
| DirMove.SpaceCheckOnlyWhenSized | src/fs_ops/dir_move.rs:58-69 | with an unknown size statvfs plays no part; with a known one a refusal leaves everything as it was |
| DirMove.FailedDirMoveKeepsSource | src/fs_ops/dir_move.rs:26-122 | a failed directory move never loses or changes anything of the source tree |
| DirMove.FailedCopyTreeKeepsSource | src/fs_ops/dir_move.rs:56-114 | a failed fallback leaves the source tree as it was |
| DirMove.FallbackIsCopyTree | src/fs_ops/dir_move.rs:50-58 | once every check passed and the rename failed, move_dir is the copy fallback |
| DirMove.CopyTreeSucceeded | src/fs_ops/dir_move.rs:71-121 | a successful fallback went through step 1 and then steps 2 and 3 |
| DirMove.DirCopyComplete | src/fs_ops/dir_move.rs:56-121 | the source tree is removed only after every regular file the walk reaches was copied below the target with its bytes and mode |

## Left out

- Copy primitives (src/fs_ops/io_copy.rs): clonefile, copy_file_range, the buffered copy and their fsyncs are one operation here. It fails when the destination exists; otherwise the destination receives the source's bytes.
- Atomic rename (src/fs_ops/atomic.rs): it is a rename followed by a directory flush, so the model uses the primitive rename and a flush that changes no entry.
- Metadata (src/fs_ops/metadata.rs, meta.rs): only the rule that permission bits are `mode & 0o777` is modelled. Copying the times is a best-effort step that records the source's times, and its failures are ignored, as in the source.
- Disk space (src/fs_ops/disk.rs): statvfs is an input, either a result or an error. Only the plain `size > available` test and the space.rs product are modelled; there is no cushion.
- Platform wrappers: of src/platform/unix.rs only write_config_secure_new_0600 is modelled, because platform/mod.rs makes it the config writer of every Unix build; macos.rs, windows.rs and the rest of unix.rs are not part of this model. platform/mod.rs declares no `macos`, `common_unix` or `temp` module, so atomic_write_0600 and its counter are reached by no build; they are modelled as written all the same. Neither are the Windows-only branches, for example the removal of an existing destination before the rename in fs_ops/copy.rs. The model follows the Unix build.
- Probes of the real system (config/validate.rs and `utils::is_writable_probe`) are not part of this model.
- Locks (src/fs_ops/lock.rs, acquire_*) are not modelled, because flock and CreateFileW are foreign calls. Only the message builder of that file is modelled.
- Shutdown (src/shutdown.rs) is a global atomic flag. It appears as a boolean, or as the index of the first check point at which it is seen set.
- The rayon `par_iter` over the files in fs_ops/dir_move.rs is modelled as a sequential loop, so any interleaving between files is not captured.
- The racing claim test (src/fs_ops/claim.rs:114-132) is not modelled, because it needs concurrent processes.
- The walk order of walkdir and read_dir is an input sequence. The resolver is proved independent of that order; for the directory copy, the order used comes back as a ghost output.
- `space::format_bytes` is not modelled, because it is floating-point formatting. Error-message text is opaque except where the builders of helpers.rs and lock.rs assemble it.
- Logging, terminal output, the binary entry point and argument parsing (src/logging.rs, output.rs, main.rs, cli.rs) are left out. Of cli.rs, only `resolved_source` is modelled.
- src/errors.rs is not modelled: it declares an enum that does not match the variants the movers use. `Errors.MoveError` is built from the variants and messages the movers and the resolver actually produce.
- Values that come from the environment are parameters: the `DefaultHasher` digest in `resume_temp_path`, `SystemTime::now`, `process::id`, the platform and home directories, and the size readings that `file_is_mutable` takes around its sleep.
- src/fs_ops.rs and src/config.rs are older copies of fs_ops/ and config/ with different behaviour, and are not part of this model. Of src/lib.rs, only the tag scanner, its value rules, the Config constructors and unique_destination are modelled. Its loader I/O, template writer, default_config_path, validate and move entry points are not.
- The XML parser (quick_xml) is not modelled: its result, a set of optional field values, is an input. `toPath` stands for `PathBuf::from`, and `encode` for `str::as_bytes` of the template text.
- The print_config path of app.rs is left out.
- App.XmlSettings: app.rs takes seven values from the XML loader, but config/xml.rs returns six. The seventh, preserve_permissions, is taken as an input.
- Duplicate.UniqueWithNumericSuffix: the counter n is an unbounded natural. The source's u32 counter saturates at u32::MAX and would then test the same name forever, which needs more than 4·10⁹ taken names; the model does not capture that.
- FileMove.MoveFile: the source calls `platform::check_disk_space`, which is not part of this model; the free-space test follows fs_ops/disk.rs.
- FileMove.MoveFileOld: `util::unique_temp_path`, which move_file_old calls, no longer exists in fs_ops/util.rs. The temporary name is a parameter instead.
- Fs.Follow: path lookup matches whole keys. Only a symbolic link named by the final component is followed, so a link in the middle of a path is not resolved. A chain of links is followed for at most 40 hops, then fails with ELOOP.
- Resume.PartialNeedsEveryCondition: requires that a download directory have at most u64::MAX entries. This is the range of the source's u64 count, so the requirement excludes nothing a real filesystem can hold.
- Several tests in the repository expect behaviour the code does not have. The model follows the code, so they are not stated as properties: tests/duplicate_naming.rs:68-74, duplicate_length.rs, resolve_tests.rs:23-58, helpers_errors.rs:17-65, config_env_directory.rs, cli_tests.rs:26-64, move_dir_basic.rs:82-124, copy_cleanup_failure.rs, atomic_unix.rs and file_resume.rs.
- Copy.SafeCopyAndRename keeps the source's behaviour: a temp file left by a failed copy or rename is not removed.

## Findings

| source | as written | input that shows it | evidently intended | confidence | as-written member | corrected member |
|---|---|---|---|---|---|---|
| src/fs_ops/claim.rs:47-63 | an AlreadyExists error at attempt 5 fails the `attempt < MAX_TRIES` test and is returned from inside the loop, so the ".final" rename after the loop is never reached | the renames of the source to the six numbered claim names all fail with AlreadyExists, and the rename to the ".final" name would succeed: the claim fails with the error of attempt 5. (A regular file already at a numbered claim name does not cause this: rename replaces it silently.) | when the retries run out, try the ".final" name and return its result | not executed | Claim.ClaimSourceAsWritten (Claim.FinalAttemptUnreachable, Claim.AsWrittenNeverFinal) | Claim.ClaimSource |
| src/fs_ops/file_move.rs:80 | with preserve_metadata set, a successful rename is followed by a stat of `src`, which no longer exists | a regular file, a free destination, a rename that succeeds and preserve_metadata on: the move fails with NotFound after the file has already moved | read the source's metadata before the rename, and apply it to the destination | not executed | FileMove.MoveFileAsWritten (FileMove.AsWrittenPreserveFailsAfterRename) | FileMove.MoveFile (FileMove.StatFirstPreservesAfterRename) |
| src/fs_ops/lock.rs:121-122 | the message already carries the io::Error, whose text ends with "(os error N)", and then " (os error N)" is appended again | a lock open that fails with EACCES: the message names the OS code twice | name the OS code once | not executed | Helpers.LockIoErrorWithHelpAsWritten (Helpers.AsWrittenRepeatsCode) | Helpers.LockIoErrorWithHelp (Helpers.LockHelpAgainstBuildMessage) |
