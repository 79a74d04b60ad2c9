# WORLDLINE, modelled and proved

WORLDLINE keeps checkpoints ("worlds") of managed directories, forks and merges them, and publishes one
of them as PRIME. This project models the parts of its runtime that decide whether an operator's data
survives: the tree algebra, registration and publication under faults, relocation, prune, the admission
ledger, the anchor ledger, and the naming of what a command runs. Each module follows one source file or
component; classes and methods with loops stand where the source updates state, functions and lemmas
where it computes.

| modules | component |
|---|---|
| `Trees`, `Delta`, `Merge` | manifests, deltas, three-way merge |
| `Symlinks`, `Containment`, `Filesystem`, `Capturing`, `Verifying`, `Materialize`, `Staging` | trees on disk: capture, check, rebuild, merge down to the disk |
| `RootRows`, `Roots`, `Removal`, `Schedules`, `Publications`, `Worlds`, `Prime` | registering and removing roots under schedules of failing steps, publishing PRIME |
| `Locations`, `Records`, `Relocation`, `Mounts` | moving a store |
| `Prune`, `PruneMeaning`, `PruneSafety`, `PruneClosure` | reclaiming payloads |
| `Admission`, `Headroom` | reservations, and what they promise of the machine |
| `Anchor` | the hash-chained ledger and its exported copy |
| `PosixPath`, `Resolution`, `Executed`, `Bundles`, `FsTree` | paths, argv tokens, staged verifiers and their identity, the walk that follows no link |
| `Text`, `Hexadecimal`, `Wrappers` | strings, digits and results |

How the outside is modelled. SHA-256 is an injective function (a content identity or a group is the
value hashed; the anchor ledger takes its digest as a parameter with that hypothesis); signatures are a
predicate. A filesystem maps paths to inodes, making an entry touches its directory, and every access
needs the directories above. Clocks, fresh ids, the failure of each step, what an outside party does
between two steps, and the answers of callbacks are parameters over which every statement quantifies.
A crash is a number of atomic writes after which a run stops. Python's byte strings are strings.

## Where the code does something else than expected

Each of these is the code's behaviour, kept in the model and stated exactly by the member named.

- A merge reports no conflict for an entry added under a directory the other side removed; it fails
  later, while staging (`Merge.ParentClosureOfMerge`, `Staging.OrphansAreNotStageable`).
- The merge stages directories with their final mode, so an entry in a directory recorded read-only cannot
  be staged, though a manifest with it materializes (`Staging.ReadOnlyDirectoryIsNotStageable`).
- A hard-linked file that is read-only and carries `user.` attributes is captured but not rebuilt: each
  further name sets the attributes again on the finished inode (`Staging.Copy`, `Staging.LinkedReadOnlyFile`).
- `verify_content` passes over directories it may not list, and does not see links between files that the
  manifest keeps apart (`Verifying.AddingUnseen`, `Verifying.AcceptedMeansSame`).
- The anchor ledger refuses tabs and newlines in a field, but reading text also ends a line at a carriage
  return (`Anchor.ReturnBreaksChain`).
- A record's strings are searched as JSON bytes, which spell a name with its escapes. A location can be
  kept unseen exactly if what JSON writes for some directory's name mentions neither
  (`Records.PlansAreFreeExactly`, `Records.ShowsItself`).
- `_map` does not look for mentions in values already new (`Locations.NewValuesAreNotRechecked`).
- A rerun of a relocation excuses no missing payload, also one the first run excused
  (`Relocation.RerunExcusesNothing`): convergence is stated for copies with none missing.
- A prune candidate skipped for having nothing of its own can lose the payload it shares with another
  candidate, and stays unpruned (`PruneClosure.SkippedKeepsPayloadIff`).
- A liveness callback that raises makes `admit` raise, where reconciling keeps the record
  (`Admission.AdmissionAuthority.Admit`).
- Admission rests on an observation made before the lock (`Headroom.StaleObservationBreaksFloor`); and the
  report asks neither the other gates nor liveness (`Admission.ReportAgreesWithAdmit`).
- A publication stopped between moving PRIME and naming the active world is not completed by a replay,
  which is refused (`Prime.ReplayAfterPrimeIsRefused`).
- A registration refused after PRIME moved is undone like any other, and its generation, which PRIME then
  names, is discarded (`Roots.RegisterAndLookAtPrime`, `Roots.RegistrationCanLosePrime`); root removal, by
  contrast, asks first (`Removal.RootRemoval.Remove`). Both leave the manifest hashes of the other roots'
  rows captured anew.
- Removing the last root clears PRIME in four writes, and a failure between them leaves PRIME partly cleared
  while the root is back (`Removal.RemovalCanClearPrime`).
- The rule against climbing after a name also refuses targets that go back along the link's own path and
  cannot leave the root; which ones, exactly, `Containment.CheckIsExact` says.
- A relative token can be the member `.`; an absolute one is "outside" by its text, though it may normalise
  to a member (`Resolution.DotIsAMember`, `Resolution.MemberSpelledOutside`).
- A bundle's member with nothing measured and one whose digest is 32 zero bytes have one identity,
  against the comment at runtime/worldline/executed.py:85-87 (`Bundles.ZerosAreUnmeasured`); and members that
  repeat a root and path are ordered by their contents' spelling (`Bundles.SpellingsDiffer`).

## Model

| member | source | states |
|---|---|---|
| `Trees.SameIsEqualityUpToDirectoryMtime` | runtime/worldline/delta.py:30-69 | two entries count as the same exactly when they are equal once directory mtimes are ignored, and so do two roots; groups and file mtimes count |
| `Merge.MergeIsSymmetric` | runtime/worldline/delta.py:206-265 | conflict does not depend on which side is current; without conflict neither does the merged tree, up to directory mtimes |
| `Merge.MergeOntoUnmovedBase` | runtime/worldline/delta.py:206-265 | onto a PRIME that is the base, a merge has no conflict and gives the candidate |
| `Merge.GroupFromOneSide` | runtime/worldline/delta.py:214-264 | every member of a merged hard-link group comes from one side |
| `Merge.HardLinksSurviveMerge` | runtime/worldline/delta.py:214-264 | groups named by their exact members, which share content and metadata, are so again after any conflict-free merge |
| `Merge.ParentClosureOfMerge` | runtime/worldline/delta.py:214-265 | a conflict-free merge of parent-closed trees is parent-closed if and only if neither side added an entry directly inside a base directory the other deleted or replaced |
| `Merge.MergeOfWellFormed` | runtime/worldline/delta.py:214-265 | the merge of captured trees is again a well-formed tree exactly without such orphans |
| `Merge.RunResult` | runtime/worldline/delta.py:206-265 | what a run of merges leaves at each path: the entry of the one candidate that touched it, otherwise what was there |
| `Merge.EveryOrderMergesTheSame` | runtime/worldline/delta.py:206-265 | candidates forked from one base with pairwise disjoint touched paths (root metadata included) merge one after another without conflict, and every order gives the same tree |
| `Delta.ValidateOperations` | runtime/worldline/delta.py:175-188 | the check for repeats and backward steps accepts exactly the strictly increasing lists |
| `Delta.Compute` | runtime/worldline/delta.py:74-133 | exactly the differing paths, once each, sorted, each with its two states and what happened to it; only a root mismatch refuses, the final validation never does |
| `Delta.ComputeAll` | runtime/worldline/delta.py:136-172 | the deltas of several roots, in root order, are one sorted delta of exactly what differs |
| `Delta.DeltaIsUnique` | runtime/worldline/delta.py:74-133 | there is one delta between two manifests |
| `Delta.DeltaSaysWhatChanged` | runtime/worldline/delta.py:82-121 | an operation stands for each path whose state differs, and only for those, with both states; it adds exactly what was not there and deletes exactly what no longer is |
| `Delta.DeltaDeterminesCandidate` | runtime/worldline/delta.py:74-133 | two candidates with one delta from one base are the same tree, up to directory mtimes |
| `Delta.MergeEntries` | runtime/worldline/delta.py:191-265 | the conflicts are, in byte order, exactly the paths whose state differs from the base on both sides, also where both made the same of it; without one, no path and no root changed on both sides, each staged entry is the one of the side that changed it, read from that side, and the delta is the candidate's |
| `Delta.StagedGroupsAreUnmixed` | runtime/worldline/delta.py:306-315 | files staged as one hard-linked file come from one tree, so `HARDLINK_GROUP_MIXED` cannot be reached |
| `Symlinks.SafeTargetMeaning` | runtime/worldline/manifest.py:76-98 | the check on text accepts exactly the relative targets that first climb, at most to the root, and then only name |
| `Symlinks.LinksNeverEscape` | runtime/worldline/manifest.py:76-98 | where all links pass the check, following one of them (section 4.13 of POSIX.1-2017), through any chain of others and for any number of steps, never leaves the root |
| `Symlinks.PathsNeverEscape` | runtime/worldline/manifest.py:76-98 | nor does any path that climbs no further than its starting directory's depth |
| `Symlinks.UncontainedClimbEscapes` | runtime/worldline/manifest.py:88-98 | a target that climbs too far and never after a name does leave the root |
| `Symlinks.LexicalCheckIsNotEnough` | runtime/worldline/manifest.py:88-98 | without the rule against climbing after a name, a tree with a link to its own directory passes and leads out |
| `Containment.NeverEscapesMeaning` | runtime/worldline/manifest.py:76-98 | for every target: it leads out of no tree whose other links pass the check if and only if it is relative and stays in, followed along the link's own path up to a first name off it, after which nothing climbs |
| `Containment.CheckIsExact` | runtime/worldline/manifest.py:76-98 | what the check accepts leads out of no such tree; of what it refuses, exactly the relative targets that stay in without being climbs followed by names do not lead out either |
| `Containment.OwnPathTargets` | runtime/worldline/manifest.py:88-98 | `a/l -> ../a/..` is refused and never leads out; `a/l -> ../a/../..` is refused and can |
| `Filesystem.Disk.Mkdir` | runtime/worldline/manifest.py:351-355 | a directory is made exactly where one can be; a new entry touches its parent's time |
| `Filesystem.Disk.WriteNew` | runtime/worldline/manifest.py:365-370 | a new file likewise |
| `Filesystem.Disk.Link` | runtime/worldline/manifest.py:362-363 | a further name for a file likewise, given that the first can be reached |
| `Filesystem.Disk.Symlink` | runtime/worldline/manifest.py:380-382 | a link likewise |
| `Filesystem.CreateMeaning` | runtime/worldline/manifest.py:351-382 | a new entry is found with what it was made of, under an inode of its own; every other name finds what it found, its directory changed now |
| `Filesystem.HardLinkMeaning` | runtime/worldline/manifest.py:362-363 | a further name finds the same inode, which counts one name more; nothing else changes but the time of its directory |
| `Filesystem.Disk.ApplyMetadata` | runtime/worldline/manifest.py:414-438 | attributes, mode (not a link's) and times, where the path can be reached and `user.` attributes may be set |
| `Capturing.Walk` | runtime/worldline/manifest.py:202-261 | the explicit-stack walk succeeds exactly when everything can be read and kept, and then has recorded every entry once |
| `Capturing.NameGroups` | runtime/worldline/manifest.py:263-276 | groups are named by all names of an inode, or the capture refuses a link from outside the root |
| `Capturing.Capture` | runtime/worldline/manifest.py:178-292 | a capture succeeds exactly when every entry may be recorded, and records the snapshot of the tree |
| `Capturing.SnapshotIsWellFormed` | runtime/worldline/manifest.py:178-292 | what a capture records is parent-closed, with valid paths and groups named by their exact members |
| `Verifying.VerifyContent` | runtime/worldline/manifest.py:134-176 | accepts exactly the payloads with the manifest's observed paths, types, contents and targets, no group broken up |
| `Verifying.AcceptedMeansSame` | runtime/worldline/manifest.py:153-176 | an accepted payload that can be captured holds what the manifest records but for metadata and added links; its capture is the manifest's entries exactly when those agree |
| `Verifying.CapturedIsAccepted` | runtime/worldline/manifest.py:134-176 | what a capture recorded is accepted of the same tree |
| `Verifying.EverythingIsObserved` | runtime/worldline/manifest.py:143-154 | the walk observes everything exactly when every directory that holds something may be listed |
| `Verifying.AddingUnseen` | runtime/worldline/manifest.py:143-154 | an entry added below a directory that may not be listed goes unseen |
| `Materialize.MakeDirectories` | runtime/worldline/manifest.py:351-355 | directories from the shallowest on, each made open, or a reason why the entries cannot be built |
| `Materialize.MakeFiles` | runtime/worldline/manifest.py:357-373 | files, the first name of a group copied and the others linked to it |
| `Materialize.MakeSymlinks` | runtime/worldline/manifest.py:375-382 | links, each checked again |
| `Materialize.FinishDirectories` | runtime/worldline/manifest.py:384-393 | directory metadata last and deepest first, so that nothing made later disturbs it |
| `Materialize.BuiltIsRecorded` | runtime/worldline/manifest.py:326-411 | the tree so built is captured as exactly the entries it was built from |
| `Materialize.MaterializeManifest` | runtime/worldline/manifest.py:326-411 | into an empty directory from a matching source, a captured manifest is rebuilt so that capturing it gives the manifest itself, metadata and times included, exactly when its hard-linked files fit; the final comparison never refuses |
| `Staging.CapturedTreesMaterialize` | runtime/worldline/manifest.py:178-292 | a captured tree has all the materializer asks for |
| `Staging.Copy` | runtime/worldline/manifest.py:326-411 | capture, materialize, capture: the same manifest, exactly when no hard-linked file is both read-only and marked with `user.` attributes |
| `Staging.MergeOnto` | runtime/worldline/delta.py:191-279 | a merge to disk: what both sides changed is reported in order and nothing is written; otherwise the staged tree, captured from disk, is the merged tree, each entry from the side that changed it, and it is staged exactly when it is stageable |
| `Staging.LinkedReadOnlyFile` | runtime/worldline/manifest.py:357-373 | a captured tree whose manifest is refused: two names of a read-only file with a `user.` attribute |
| `Staging.OrphansAreNotStageable` | runtime/worldline/delta.py:294-322 | an orphan, which no conflict reports, cannot be staged |
| `Staging.ReadOnlyDirectoryIsNotStageable` | runtime/worldline/delta.py:294-339 | nor can an entry in a directory recorded read-only, made there with its final mode, though its own manifest materializes |
| `Resolution.PrefixesAreRoots` | runtime/worldline/resolution.py:37-45 | the prefixes are the roots', longest first |
| `Resolution.InsideByComponents` | runtime/worldline/resolution.py:47-75 | what follows a prefix is a member exactly when its components are some and do not begin with a climb |
| `Resolution.AbsoluteMemberIsClean` | runtime/worldline/resolution.py:47-75 | an absolute token classified a member gives a normalised path, not empty, not `.`, with no `..` in it |
| `Resolution.RespellingsAgree` | runtime/worldline/resolution.py:47-75 | for roots that do not nest, two spellings of the same components after a prefix resolve alike |
| `Resolution.RespelledComponents` | runtime/worldline/resolution.py:47-75 | doubled slashes, `./` and `x/..` leave the components alone |
| `Resolution.RelativeByComponents` | runtime/worldline/resolution.py:47-75 | a relative token is classified by the components of the working directory and its own, for every working directory, and can be the root itself |
| `Resolution.DotIsAMember` | runtime/worldline/resolution.py:47-75 | a relative `.` is the member `.` |
| `Resolution.OutsideMeaning` | runtime/worldline/resolution.py:47-75 | a token is outside exactly if it is empty, an option, relative without a primary root, or absolute with no prefix matching its text |
| `Resolution.MemberSpelledOutside` | runtime/worldline/resolution.py:47-75 | a token whose normalised text is a member is outside exactly if no prefix begins it as it is written |
| `Resolution.RespelledPrefixIsOutside` | runtime/worldline/resolution.py:47-75 | a token `/./root/name` is such a one |
| `Executed.ByMember` | runtime/worldline/executed.py:298-299 | the staged items by root and path |
| `Executed.EachItemIsFound` | runtime/worldline/executed.py:298-299 | where root and path are unique, every staged item is found by its own |
| `Executed.RewriteArgv` | runtime/worldline/executed.py:280-328 | the command keeps its length; exactly the tokens whose member is staged are replaced, each by its staged copy; rewrites, escapes and unbound members are listed |
| `Executed.ListsOfOne` | runtime/worldline/executed.py:306-326 | a token whose member is staged is listed with the staged copy and its digest, any other member as unbound with its root and path, an escape as such, and a token outside nowhere |
| `Executed.ListsConcat` | runtime/worldline/executed.py:306-326 | and the lists are in the order of the tokens: those of a command are those of its first part and then of the rest |
| `Executed.EachTokenOnce` | runtime/worldline/executed.py:306-328 | each token is exactly one of rewritten, escaping, unbound and outside |
| `Executed.SpellingsRunTheSameCopy` | runtime/worldline/executed.py:280-328 | spellings of one path below a root run one staged copy |
| `Bundles.InOrderSorts` | runtime/worldline/executed.py:82-82 | the members are sorted by root, path and spelled content, none lost or added |
| `Bundles.BundleFeed` | runtime/worldline/executed.py:72-92 | the digest's input is the domain prefix and then each sorted member's key and bytes, closed by NULs; it raises exactly for a content that is not hexadecimal |
| `Bundles.ContentReadsBack` | runtime/worldline/executed.py:85-89 | hexadecimal digits, in either case (`Hexadecimal.AlphabetsAre`), with or without `sha256:`, stand for the bytes they spell |
| `Bundles.NothingAfterAlgorithm` | runtime/worldline/executed.py:85-89 | `sha256:` alone is nothing measured, like the empty content |
| `Bundles.FeedIsInjective` | runtime/worldline/executed.py:80-89 | equal inputs come from equal members in equal order |
| `Bundles.IdentityFixesBundle` | runtime/worldline/executed.py:72-92 | two lists of members, repeats included, have one identity if and only if their sorted keys and bytes are equal, and then they hold the same members |
| `Bundles.IdentityOfKeys` | runtime/worldline/executed.py:72-92 | where no root and path is there twice, they have one identity if and only if they hold the same members with the same bytes, in whatever order |
| `Bundles.ZerosAreUnmeasured` | runtime/worldline/executed.py:85-89 | nothing measured is fed as 32 zero bytes, as a digest of zeros is |
| `Bundles.SpellingsDiffer` | runtime/worldline/executed.py:82-89 | a root and path that is there twice is sorted by how its contents are spelled, so the same two digests can have two identities |
| `Locations.CheckDirectories` | runtime/worldline/relocate.py:174-189 | the four directories are accepted exactly when each is one slash or two and names, none of them empty, `.` or `..`, and none contains another's name |
| `Locations.MapMeaning` | runtime/worldline/relocate.py:272-285 | a value is mapped to one that is the new directory and what followed the old one, alone or after a slash, if that mentions no old directory; stays if it is in the new store; and is refused otherwise |
| `Locations.MovesIsInjective` | runtime/worldline/relocate.py:272-285 | going to where it should, no two locations of the old store meet |
| `Locations.MapIsNew` | runtime/worldline/relocate.py:272-285 | a mapped location lies in the new store, under the directory its old one became, and not in the old |
| `Locations.MapIsIdempotent` | runtime/worldline/relocate.py:184-285 | mapping again changes nothing, because no directory's name contains another's |
| `Locations.MapIsInjective` | runtime/worldline/relocate.py:184-285 | two locations of the old store never become one |
| `Locations.NewValuesAreNotRechecked` | runtime/worldline/relocate.py:272-285 | a value already new is accepted even where it still names the old store |
| `Locations.FileMentions` | runtime/worldline/relocate.py:245-270 | the streaming scan finds a prefix exactly when the whole content holds one, however it is cut into chunks |
| `Records.EscapeReadsBack` | runtime/worldline/canonical.py:41-49 | what is written for a string inside quotes stands for that string (section 7 of RFC 8259) |
| `Records.RewriteOfFree` | runtime/worldline/relocate.py:433-440 | a record without mentions in its strings is left as it is |
| `Records.RewriteMeaning` | runtime/worldline/relocate.py:433-440 | a record is rewritten to the one of the same shape, keys, atoms and order whose strings are where they go, and refused exactly where there is none; a string without a mention stays |
| `Records.FollowsAt` | runtime/worldline/relocate.py:433-440 | so at every position a string without a mention is as it was, and any other went where a location goes |
| `Records.StringsStayDistinct` | runtime/worldline/relocate.py:433-440 | two locations of the old store at any positions of any records stay distinct |
| `Records.PlanRecordMeaning` | runtime/worldline/relocate.py:442-462 | a record is planned to what it should become, if the bytes of that mention no old directory, and refused otherwise |
| `Records.FreeBytesFreeStrings` | runtime/worldline/relocate.py:442-462 | bytes that mention no old directory hold no string, value or key, that does, where what JSON writes for each directory's name mentions one of them |
| `Records.PlanRecordAgain` | runtime/worldline/relocate.py:442-462 | a planned record mentions no old directory, and planning it again leaves it alone |
| `Records.PlansAreFreeExactly` | runtime/worldline/relocate.py:442-462 | for rooted directory names: no planned record holds a string that mentions an old directory if and only if what JSON writes for each name mentions one of them |
| `Records.HiddenNameGoesUnseen` | runtime/worldline/relocate.py:442-462 | otherwise there is a record that is left as it is, with a location in the old store |
| `Records.ShowsItself` | runtime/worldline/relocate.py:442-462 | a rooted name occurs in what JSON writes for it if and only if it holds no escaped character but backslashes at its end |
| `Relocation.Relocator.PlanDatabase` | runtime/worldline/relocate.py:407-418 | refuses exactly when a row has nowhere to go; otherwise plans exactly the rows that change |
| `Relocation.Relocator.PlanRecords` | runtime/worldline/relocate.py:442-462 | refuses exactly when a record has nothing to become; otherwise plans exactly those that change, each to what it should become |
| `Relocation.Relocator.PlanLinks` | runtime/worldline/relocate.py:474-481 | likewise the links |
| `Relocation.Relocator.PayloadsLost` | runtime/worldline/relocate.py:353-405 | whether a retained payload is missing from where it goes, and was in the old store or some retained payload is recorded as moved already |
| `Relocation.PlannedMeaning` | runtime/worldline/relocate.py:944-1004 | planning goes through, but for missing payloads, exactly if every row, link and record has somewhere to go, and the relocated copy is where they go |
| `Relocation.Relocator.Run` | runtime/worldline/relocate.py:944-1026 | a run refuses before anything is written, or stops between two atomic writes with each location old or new, or ends with each row, record and link where it should be; a planned run ends if and only if it may write all it planned |
| `Relocation.Relocator.RunToTheEnd` | runtime/worldline/relocate.py:944-1026 | run again after any stops and at last to the end, it leaves what one uninterrupted run would have left: each row, record and link where it should be |
| `Relocation.RestartConverges` | runtime/worldline/relocate.py:1005-1026 | wherever a run with no missing payload stopped, planning succeeds again and leads to the same locations |
| `Relocation.EveryRestartConverges` | runtime/worldline/relocate.py:1005-1026 | however often it was stopped, one uninterrupted run ends where it would have ended |
| `Relocation.RerunExcusesNothing` | runtime/worldline/relocate.py:353-405 | after the database was committed, a rerun is planned exactly when no retained payload is missing, so an excuse holds once |
| `Relocation.RowsStayDistinct` | runtime/worldline/relocate.py:407-418 | rows that hold different old locations still do afterwards |
| `Relocation.RelocatedIsNew` | runtime/worldline/relocate.py:944-1026 | afterwards every row and link lies in the new store, no record's bytes mention the old one, and, where the names show in JSON, no string of a record does |
| `Mounts.HoldingMount` | runtime/worldline/relocate.py:121-143 | in a table the kernel built, walking from the root finds the mount made last among those whose point holds the path |
| `Mounts.MountKeepsBuilt` | runtime/worldline/relocate.py:121-143 | mounting on whatever holds the point keeps such a table |
| `Mounts.UnmountKeepsBuilt` | runtime/worldline/relocate.py:121-143 | and so does unmounting what holds no other mount |
| `Prune.Pruner.MakePlan` | runtime/worldline/prune.py:54-169 | a plan is refused exactly with an open transaction or a root that does not route; otherwise it is the plan of the recorded facts, which `PruneMeaning.PlanMeaning` describes |
| `Prune.Pruner.Apply` | runtime/worldline/prune.py:171-254 | applying a plan, entry by entry (`PruneMeaning.EntryMeaning`), with any outcome of each removal; the worlds it reports are those recorded as pruned, and no other record changes |
| `PruneMeaning.CandidatesMeaning` | runtime/worldline/prune.py:62-89 | the candidates are the unpruned worlds that are archived, dead, degraded or collapsed, neither PRIME nor PRIME's parent, not at work and finished before the cutoff, but for as many of the latest-finished as are to be kept |
| `PruneMeaning.PlanMeaning` | runtime/worldline/prune.py:54-169 | every entry that is no leftover is of such a world; the kept have none; every such world has in the plan its own directories that nobody staying refers to; and each directory is there once |
| `PruneMeaning.EntryMeaning` | runtime/worldline/prune.py:171-235 | an entry with a directory that leads out of the store does nothing and fails; any other removes exactly what its removals remove, fails exactly if one of them or of the log files did, and records its world as pruned unless the world's payload is there whole |
| `PruneSafety.PlanFits` | runtime/worldline/prune.py:91-162 | each directory is offered once, to a candidate it belongs to and nobody else refers to, and nothing reclaimable is left out |
| `PruneSafety.OutsideIsUntouched` | runtime/worldline/prune.py:176-189 | nothing outside the store is touched, whatever the plan and the failures |
| `PruneSafety.ReferencedIsKept` | runtime/worldline/prune.py:91-103 | what a world that stays, or a live root, refers to is kept to the last file |
| `PruneSafety.PruneIsSafe` | runtime/worldline/prune.py:62-235 | an unpruned world that is no candidate keeps its record, payload and base, and live roots their directories, for every pattern of failing removals |
| `PruneSafety.NoPayloadLostUnrecorded` | runtime/worldline/prune.py:190-235 | a candidate whose own entry offers its payload is recorded pruned, or its payload is whole, whatever failed |
| `PruneClosure.CandidatesAfter` | runtime/worldline/prune.py:78-89 | the second plan's candidates are those of the first that were not pruned: the kept stay kept |
| `PruneClosure.PruneIsClosure` | runtime/worldline/prune.py:78-235 | with logs off and nothing failed, a second plan offers nothing, of retained, skipped and earlier pruned worlds alike |
| `PruneClosure.SkippedKeepsPayloadIff` | runtime/worldline/prune.py:125-128 | a candidate skipped for having nothing of its own stays unpruned, and keeps its payload exactly when a world that stays or a live root refers to it |
| `PruneClosure.SkippedCanLosePayload` | runtime/worldline/prune.py:125-128 | two archived worlds over one payload: the second stays unpruned without it |
| `Admission.Ledger.Load` | runtime/worldline/admission.py:393-435 | a file is read exactly when it is absent or its records are credible with unique ids |
| `Admission.Ledger.Add` | runtime/worldline/admission.py:452-454 | a record is added unchecked |
| `Admission.Ledger.Release` | runtime/worldline/admission.py:456-463 | a record leaves by its own id, and nothing is written when there is none |
| `Admission.Ledger.AttachUnit` | runtime/worldline/admission.py:465-474 | the unit of the records with the id changes and nothing else does |
| `Admission.Ledger.Reconcile` | runtime/worldline/admission.py:476-495 | exactly the definitely gone leave; what is kept and what is dropped add up to what was reserved |
| `Admission.StepKeepsSound` | runtime/worldline/admission.py:437-495 | what a step writes can be read |
| `Admission.StepKeepsRecords` | runtime/worldline/admission.py:456-495 | a step keeps exactly the records that neither their own release nor a definite answer removes, with their amounts |
| `Admission.RunStaysSound` | runtime/worldline/admission.py:393-495 | in every interleaving of locked steps with fresh ids, loading never refuses what the code wrote |
| `Admission.ReservationSurvives` | runtime/worldline/admission.py:456-495 | a reservation nobody released and no manager called gone is there at the end, unchanged; an unknown answer or a raising callback removes nothing |
| `Admission.ReservationsAreAdmitted` | runtime/worldline/admission.py:593-659 | every reservation was there before or was admitted in the run |
| `Admission.AddKeepsSound` | runtime/worldline/admission.py:452-454 | `add` keeps the ledger readable exactly when the record is credible and its id new |
| `Admission.AdmissionAuthority.OutstandingWithheld` | runtime/worldline/admission.py:550-560 | the sum of the unused parts of the reservations |
| `Admission.AdmissionAuthority.Admit` | runtime/worldline/admission.py:562-671 | each outcome exactly when, an invalid request being one without a workload or with an amount out of range; admitted exactly when every gate is open and the request, or the policy's ceiling or else watermark, fits above the floor; a liveness callback that raises leaves `admit` and the file; the records of others are never touched |
| `Admission.AdmissionAuthority.WouldAdmit` | runtime/worldline/admission.py:683-713 | the report's answer compares the policy's ceiling, or else its watermark, with the whole ledger's headroom |
| `Admission.ReportAgreesWithAdmit` | runtime/worldline/admission.py:683-713 | report and decision over the same readings agree exactly when no other gate or raising callback refuses after a yes and no memory withheld for the gone is enough after a no |
| `Headroom.AdmissionIsEvent` | runtime/worldline/admission.py:587-659 | what `admit` admits, over what a process observed, is an enabled admission of the machine |
| `Headroom.AdmitOn` | runtime/worldline/admission.py:562-671 | `admit` on the machine's ledger takes exactly that step, or leaves the ledger as it is |
| `Headroom.WithheldCovers` | runtime/worldline/admission.py:550-560 | what is withheld covers what is owed, whatever truthful callbacks do not know |
| `Headroom.AdmissionLeavesFloor` | runtime/worldline/admission.py:587-659 | each admission leaves at least the floor less the fall of free memory since it was observed |
| `Headroom.WithheldIsOwed` | runtime/worldline/admission.py:550-560 | and no more than that, when the callbacks know how much each workload uses and which are gone |
| `Headroom.OtherEventsKeepSlack` | runtime/worldline/admission.py:550-659 | no other event lowers the slack |
| `Headroom.FloorHolds` | runtime/worldline/admission.py:587-659 | if no fall exceeds d, the slack never goes more than d below the floor, in every run; with d zero the floor holds |
| `Headroom.StaleObservationBreaksFloor` | runtime/worldline/admission.py:587-659 | two processes that observe before either is admitted break the floor whenever one request fits and two do not |
| `Worlds.MovesInto` | core/worldline-transitions.adb:3-19 | a world is sealed before it is judged, collapses only when valid, dies only while it is not valid, and is archived from every state it can end in |
| `Worlds.HistoriesEnd` | core/worldline-transitions.adb:3-19 | by the table of allowed moves no history has more than five states, and an archived world stays archived |
| `Prime.PrimeManager.Publish` | runtime/worldline/prime.py:62-137 | one attempt, stopped after any number of its writes: it is what `Prime.AttemptMeaning` describes |
| `Prime.AttemptMeaning` | runtime/worldline/prime.py:62-137 | an attempt publishes exactly if the generation is whole, its name and identity are both new or both of one recorded world, and all its writes happen; then the world PRIME named is archived if it was valid or collapsed and is otherwise as it was, the new world is valid under the alias derived from the generation's id, PRIME names it and that id, and the active world is PRIME; refused, it writes nothing; stopped, PRIME has not moved or only the active world is unnamed |
| `Prime.ReplayReachesTheSame` | runtime/worldline/prime.py:109-137 | interrupted any number of times before PRIME moves and replayed to its end, a publication leaves the store of one uninterrupted run, under the id first inserted |
| `Prime.ReplayAfterPrimeIsRefused` | runtime/worldline/prime.py:115-137 | once PRIME has moved, a replay is refused and writes nothing, also when the active world's name was never written |
| `Prime.PublicationChangesOnly` | runtime/worldline/prime.py:80-137 | a publication adds PRIME's child, archives the old PRIME if it was valid or collapsed, and leaves every other world |
| `RootRows.RowsRestored` | runtime/worldline/roots.py:264-271 | taking the rows out again leaves the rows there were, but for manifests captured anew |
| `RootRows.RecordedIsRegistered` | runtime/worldline/roots.py:241-256 | for candidates with distinct keys, the recorded rows, once captured, hold each candidate's primary flag, this generation and its manifest or the one captured anew; each earlier row keeps its generation and is primary exactly if it was and no candidate is |
| `RootRows.OnePrimaryAfter` | runtime/worldline/roots.py:241-256 | so, with at most one primary candidate, at most one root is primary, and one is exactly if one was or a candidate is |
| `Roots.RootManager.MoveAll` | runtime/worldline/roots.py:212-228 | roots moved one by one, in five steps each; where it stops, what was moved is known; unhindered, it stops exactly at the first step that fails |
| `Roots.RootManager.Rollback` | runtime/worldline/roots.py:305-314 | only registration's own links are removed, and what can be moved back is; without interference it succeeds exactly if none of its steps fails |
| `Roots.RootManager.Discard` | runtime/worldline/roots.py:291-303 | the generation is kept exactly when an original is still in it |
| `Roots.RootManager.Undo` | runtime/worldline/roots.py:291-314 | undone, the live mapping is as before and, without interference, each original is at its own path and the generation gone; otherwise the generation is kept; without interference it is undone exactly if none of its steps fails |
| `Roots.RootManager.Register` | runtime/worldline/roots.py:181-273 | whatever fails and whatever happens at the operators' paths, each original is at exactly one of its own path and the kept generation; unhindered, the first failing step alone decides what is refused and how far the publication got, and without one it is done; without interference a refusal is undone exactly if no step of the undoing fails, and then paths, live links, rows and primary flag are as before; done, every candidate's row and every earlier row is as `RootRows.RecordedIsRegistered` says |
| `Roots.RegisterAndLookAtPrime` | runtime/worldline/roots.py:241-272 | unhindered, PRIME is left naming a generation that is gone if and only if the step after the one that moves PRIME is the first to fail and no step of the undoing does |
| `Roots.RegistrationCanLosePrime` | runtime/worldline/roots.py:241-272 | and there is such a run, for any roots and rows, with a single failing step |
| `Removal.RootRemoval.Remove` | runtime/worldline/roots.py:492-650 | what the operator last wrote at the path is never lost; a root that is as it was copied is removed exactly if no step fails, and otherwise the first failing step decides where it ended and what PRIME is; removed, the row is gone, the others are as they were but captured anew, another root is primary if this one was, and PRIME names the remaining roots or nothing; rolled back without a further failing step, path and rows are as before, the copy is kept exactly if it was written into, and the generation exactly if it was recorded over |
| `Removal.RootRemoval.RowsReinstated` | runtime/worldline/roots.py:587-606 | re-adding the row and making it primary again leaves the rows there were |
| `Removal.RemovalCanClearPrime` | runtime/worldline/roots.py:577-586 | a failure between the four writes that clear PRIME is not undone: path and rows are as before, and PRIME's instance is gone |
| `FsTree.DirectoriesAreReached` | runtime/worldline/fstree.py:35-67 | the directories of a tree are those that paths without a link reach |
| `FsTree.ListingIsComplete` | runtime/worldline/fstree.py:21-32 | a directory's listing leads to all directories below it |
| `FsTree.Kernel.GrantOwnerAccess` | runtime/worldline/fstree.py:35-67 | the walk ends; every descriptor is closed, on success and on any error; only directories reached without a link change, only by owner access; and when no call fails, exactly all of them have it |
| `Anchor.HeadFixesLedger` | runtime/worldline/anchor.py:79-81 | two ledgers without a broken link and with one head are identical line by line |
| `Anchor.TamperingShows` | runtime/worldline/anchor.py:148-159 | any other ledger with the same last line is seen to be broken |
| `Anchor.GoodAppend` | runtime/worldline/anchor.py:86-115 | an appended line without a carriage return is read back as written and leaves both counters as they were |
| `Anchor.NextLineIsEntry` | runtime/worldline/anchor.py:86-112 | the line written holds its place, the time, the action, the receipt's id, a dash, the digest and the length of the receipt's bytes, the digest of the line before, and a signature of all these |
| `Anchor.EntryFixesReceipt` | runtime/worldline/anchor.py:86-112 | so a line fixes its place, time, action and receipt, byte by byte |
| `Anchor.ReturnBreaksChain` | runtime/worldline/anchor.py:102-111 | a carriage return in the action or the receipt's id passes the field check and breaks the ledger |
| `Anchor.LinesConcat` | runtime/worldline/anchor.py:74-77 | what is written after a line's end changes no earlier line |
| `Anchor.AnchorLedger.Append` | runtime/worldline/anchor.py:86-115 | a line of this receipt, by `Anchor.IsEntry`, is written or nothing is; the ledger stays whole exactly when neither field holds a carriage return, and is extended as a prefix |
| `Anchor.AnchorLedger.Export` | runtime/worldline/anchor.py:117-128 | a failed export leaves an earlier copy or the whole ledger |
| `Anchor.AnchorLedger.Verify` | runtime/worldline/anchor.py:132-167 | whole means every line is linked and signed |
| `Anchor.AnchorLedger.CountBad` | runtime/worldline/anchor.py:148-159 | the loop's counters are those of the broken links and the unsigned lines |
| `Anchor.CompareMeaning` | runtime/worldline/anchor.py:201-207 | a mismatch is a line both hold differently, a roll-back exactly a lost tail |
| `Anchor.AnchorLedger.ExternalCheck` | runtime/worldline/anchor.py:190-207 | in runs of this code, whatever exports fail, a readable copy matches or is behind |
| `Anchor.BackfillIsComplete` | runtime/worldline/anchor.py:209-226 | each receipt is anchored once, none that was, and all that can be; a second backfill adds none |
| `Anchor.AnchorLedger.Backfill` | runtime/worldline/anchor.py:209-226 | the loop anchors those in order, fails exactly for an unsafe key or an id with a tab or newline, and, for ids without a carriage return, keeps the chain and leaves nothing to a second call |

## Left out

- Filesystem.Disk.ApplyMetadata: does not model privileged attributes (`security.*`), ACL semantics or attribute support; attributes are one opaque map, of which only the `user.` class asks for owner write.
- Materialize.MaterializeManifest: does not model a umask that takes owner bits away, device boundaries or files changing during the copy; links have the system's mode.
- Delta.MergeEntries: does not model the display names, size totals and line statistics a delta also carries.
- Symlinks.LinksNeverEscape: does not cover worlds given `allow_external_links`.
- Verifying.VerifyContent: does not model which of its errors is raised, an unreadable file among them.
- Roots.RootManager.Register: does not model `validate`, the client-content check's own effects, the copies of other roots made beside the originals, or an empty directory being replaced by the first rename; what is checked and saved between the captures and the record of the world is one step with that record.
- Removal.RootRemoval.Remove: does not model a write into the copy between its last capture and its removal, nor a lookup failure in the discard other than as a kept generation; which remaining root becomes primary is any one; lookups in the store do not fail.
- Roots.RegisterAndLookAtPrime: is stated for a registration nobody interferes with and whose live mapping is empty; with interference the generation is kept exactly if an original is still in it (`Roots.RootManager.Undo`).
- Prime.PrimeManager.Publish: does not model timestamps, missions or workspaces; the components are one value, and a failing statement is a stop.
- Relocation.Relocator.Run: does not model the scans for stray mentions, foreign owners and mounts, whose refusals come before any write; the temporary links an interrupted run leaves; or the second database scan.
- Mounts.HoldingMount: does not model tables with propagated or detached mounts; it is stated for those built by mounting, and by unmounting what holds nothing.
- Prune.Pruner.MakePlan: does not model sizes, aliases or the reading of root links; recorded locations are taken as already resolved.
- Prune.Pruner.Apply: does not model causal events, counts of bytes, or locations that resolve differently than when they were planned.
- Admission.AdmissionAuthority.Admit: does not model the reading of /proc, unit properties, the texts of a decision, or a usage callback that raises; policies are taken as validated.
- Headroom.FloorHolds: covers metered workloads on a machine whose other processes' use appears only as the fall between an observation and an admission.
- Anchor.AnchorLedger.Append: does not model a line torn by a failing write; `attest`'s own check of the ledger is not part of this model.
- FsTree.Kernel.GrantOwnerAccess: does not model `close` failing, nor a tree that changes during the walk beyond entries that are gone when opened; the removal after it (`shutil.rmtree`) is an outcome in `Prune`.
- Executed.RewriteArgv: does not model staging the verifiers or reading them back.
- The SPARK kernel's decisions, transactions, validation, the runner, the daemon and its protocol, status, git, systemd, bubblewrap and overlayfs: foreign calls and predicates over recorded facts.
- Parsing of policies, configuration and canonical JSON: thin use of libraries.
- Release, assurance and install scripts: conjunctions of gates that one reading settles.
