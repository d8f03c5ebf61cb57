# pkgcore merge triggers, incremental settings and package acceptance, in Dafny

This project models the part of pkgcore that decides what a merge or unmerge
does to the live filesystem, together with the configuration logic that feeds
it:

- **Incremental tokens and restriction data** (`pkgcore/ebuild/misc.py`):
  `x` / `-x` / `-*` expansion, and `collapsed_restrict_to_data`, which files
  (restriction, data) pairs by specificity and pulls the data that applies to
  a package.
- **The trigger contract** (`pkgcore/merge/triggers.py`): mode gating, hook
  registration into the merge engine, cset selection and dispatch; the
  `mtime_watcher` snapshot/compare state machine and the `ldconfig` and
  `InfoRegen` phase logic built on it; and the triggers that rewrite one
  content set (`BaseSystemUnmergeProtection`, `fix_uid_perms`,
  `fix_gid_perms`, `fix_set_bits`, `detect_world_writable`, `PruneFiles`,
  `CommonDirectoryModes`).
- **The ebuild triggers** (`pkgcore/ebuild/triggers.py`): env.d collapsing and
  re-stringing, `simple_chksum_compare`, the config-protect and
  collision-ignore filters, `._cfgNNNN_name` renaming and its restore,
  uninstall-side protection, the collision family, `SFPerms`,
  `FixImageSymlinks`, the multilib-strict pattern builder and
  `generate_triggers`.
- **Package acceptance in the domain** (`src/pkgcore/ebuild/domain.py`): mask
  filters and mask stacking, the keyword filter, the ACCEPT_KEYWORDS defaults,
  profile/user stacking of incremental settings, FEATURES-driven USE flags and
  the per-package USE computation.
- **Currying** (`portage/util/currying.py`) and the **sqfs syncer's URI
  parsing** (`src/pkgcore/sync/sqfs.py`).

Code that updates state in place is modelled in place: a content set is the
class `Contents.ContentSet` whose `entries` map the trigger methods rewrite,
the merge engine is `Engine.MergeEngine` with its `hooks` registry,
`mtime_watcher` is `Mtime.MtimeWatcher` and the disk it `utime`s is
`Mtime.Disk`, the shared `renames` dict of the config-protect pair is a field
of `CfgProtect.ConfigProtectInstall`, the domain's `use` list is
`Domain.UseList`, and a curried function is `Currying.Wrapper`. A loop that
updates state is a method proved against a specification function. A loop
that only computes a value, such as the keyword scans of
`_apply_keywords_filter` or the install-mask loops of `generate_triggers`, is
a recursive function. The properties the source promises are lemmas about
these functions.

Conventions used throughout:

- The iteration order of a Python set or dict, where it can matter, is a
  parameter `order` that lists the set exactly once (`Text.Enumerates`).
- Matching a package against an atom, glob or restriction, `fnmatch`,
  `os.path.normpath`, `os.path.isdir`, the checksum probe of a live file and
  `read_bash_dict` (the variables of a fragment, or the error it raises) are
  function parameters.
- A Python exception is an `Err`/`Some(error)` result; the state the source
  leaves behind when it raises half way is stated as well.
- Modes are `bv32`; mtimes and the clock are whole seconds.
- `pkgcore/fs/contents.py` and the merge engine are not part of this model;
  they are collaborators modelled from how the triggers use them: `update` is
  last-wins per location, `remove` and `del` fail on an absent location, and
  `add_trigger` raises `KeyError` for an unknown hook.

## Model

| member | source | states |
|---|---|---|
| Incremental.NativeIncrementalExpansion | pkgcore/ebuild/misc.py:15-30 | the token loop computes `Expand`: tokens applied left to right, stopping at the first bare `-` with the set as it then stands |
| Incremental.IncompleteNegationFails | pkgcore/ebuild/misc.py:17-21 | a bare `-` raises, and the set keeps what the earlier tokens made of it |
| Incremental.StarClears | pkgcore/ebuild/misc.py:22-27 | `-*` empties the set whatever it held; without finalize only the token `-*` remains |
| Incremental.NegationRemovesOnly | pkgcore/ebuild/misc.py:24-27 | `-x` removes x and touches no other member; without finalize it then adds `-x` |
| Incremental.PlainAdds | pkgcore/ebuild/misc.py:28-30 | a plain token leaves itself in the set and its negation out, and changes nothing else |
| Incremental.ExpandAppend | pkgcore/ebuild/misc.py:16-30 | expanding `a + b` is expanding `a` then `b`, unless `a` already raised |
| Incremental.FinalizeAddsNoNegation | pkgcore/ebuild/misc.py:26-30 | with finalize no `-`-prefixed member is ever added |
| Incremental.StepDecides | pkgcore/ebuild/misc.py:17-30 | one token decides a plain flag's membership as `Decides` says, or leaves it as it was |
| Incremental.LastTokenWins | pkgcore/ebuild/misc.py:16-30 | a plain flag ends in the set iff the last of `x`, `-x`, `-*` is `x`, or none occurs and it was there before |
| Incremental.ExpandPlain | pkgcore/ebuild/misc.py:28-30 | plain tokens on a negation-free set just add themselves |
| RestrictData.Negations | pkgcore/ebuild/misc.py:71-72 | exactly the `-`-prefixed flags of the data |
| RestrictData.Collapse | pkgcore/ebuild/misc.py:44-96 | the constructor loop builds what `CollapseSpec` describes, or the `ValueError` |
| RestrictData.FileAllFailsIff | pkgcore/ebuild/misc.py:62-85 | filing fails iff some pair with data is neither AlwaysTrue, an atom, nor a category/package restriction |
| RestrictData.FileAllFiles | pkgcore/ebuild/misc.py:62-80 | every pair with data lands in the bucket of its kind (atoms under their key) and nothing filed earlier is lost |
| RestrictData.FileAllWellFiled | pkgcore/ebuild/misc.py:73-80 | only category restrictions reach `cat`, only package ones `pkg`, only atoms of a key (or appended negations) its list |
| RestrictData.FileAllAlways | pkgcore/ebuild/misc.py:66-70 | `always` collects the data of the AlwaysTrue pairs, in order; pairs with empty data are skipped |
| RestrictData.DefaultsFromAlwaysTrue | pkgcore/ebuild/misc.py:87-94 | a plain flag is a default iff the last AlwaysTrue token deciding it turns it on |
| RestrictData.CollapseFiles | pkgcore/ebuild/misc.py:73-96 | on the built object: every atom pair with data is under its key, every category/package pair is in freeform, and freeform holds nothing else |
| RestrictData.FileAllSubset | pkgcore/ebuild/misc.py:76-79 | whatever reaches `cat` or `pkg` came from the input |
| RestrictData.MatchedData | pkgcore/ebuild/misc.py:102-109 | at most one data list per restriction |
| RestrictData.MatchedDataFrom | pkgcore/ebuild/misc.py:102-109 | a data list is collected iff some restriction carrying it matches |
| RestrictData.CollectMatched | pkgcore/ebuild/misc.py:102-109 | the two loops build the matched freeform data followed by the matched atom data for the package's key |
| RestrictData.PullData | pkgcore/ebuild/misc.py:101-124 | `pull_data` computes `PullSpec`: the defaults themselves (a copy if `force_copy`) when nothing matches and no pre-defaults, else pre-defaults, defaults and matched data expanded in that order |
| RestrictData.IterPullData | pkgcore/ebuild/misc.py:126-139 | yields exactly the pre-defaults, the defaults and every matched token |
| RestrictData.PullIsStreamExpansion | pkgcore/ebuild/misc.py:101-139 | with plain tokens, `pull_data` is the expansion of the stream `iter_pull_data` yields |
| RestrictData.PullLastTokenWins | pkgcore/ebuild/misc.py:118-124 | a plain flag is pulled iff the last matched token deciding it is the flag, or none does and it is a default |
| RestrictData.NonIncrementalPullSpec | pkgcore/ebuild/misc.py:144-159 | the non-incremental pull is defaults ∪ all matched data, and is the defaults object itself iff nothing matched and no copy was asked for |
| RestrictData.NonIncrementalPullData | pkgcore/ebuild/misc.py:144-159 | the loops compute `NonIncrementalPullSpec` |
| RestrictData.NonIncrementalIterPullData | pkgcore/ebuild/misc.py:161-170 | with nothing matched it yields the defaults in their own order |
| RestrictData.NonIncrementalIterMatchesPull | pkgcore/ebuild/misc.py:144-170 | the non-incremental iterator yields exactly the members of the non-incremental pull |
| Engine.BaseTrigger | pkgcore/merge/triggers.py:57-61 | a trigger with the class attributes of `base`: priority 50, no custom label, no hooks, every mode, every cset |
| Engine.Label | pkgcore/merge/triggers.py:63-67 | the explicit label when set, else the class name |
| Engine.GetRequiredCsets | pkgcore/merge/triggers.py:94-100 | None for None, the tuple for a tuple, the mode's entry (or None) for a mapping |
| Engine.GetCsets | pkgcore/merge/triggers.py:109-111 | the named csets in declared order, or a `KeyError` naming an absent one |
| Engine.CallArgs | pkgcore/merge/triggers.py:116-123 | the whole mapping when no csets are required, else exactly the named csets in order |
| Engine.MergeEngine.constructor | pkgcore/merge/triggers.py:87-92 | an engine whose registry has an empty list for each known hook |
| Engine.MergeEngine.AddTrigger | pkgcore/merge/triggers.py:87-92 | appends to a known hook's list, and reports `KeyError` for an unknown hook leaving the registry unchanged |
| Engine.RegisterAll | pkgcore/merge/triggers.py:87-92 | registering never adds or drops a hook |
| Engine.Register | pkgcore/merge/triggers.py:69-92 | `register` updates the engine's registry as `RegisterSpec` says, and fails only with `TypeError` |
| Engine.RegisterSpec | pkgcore/merge/triggers.py:69-92 | a trigger limited to other modes changes nothing; the `TypeError` exactly when the mode is accepted and `_hooks` is not a sequence; registering never adds or drops a hook |
| Engine.RegisterAllAppends | pkgcore/merge/triggers.py:87-92 | each known hook gets the trigger appended once per time it is named; unknown hooks are skipped without stopping the rest |
| Engine.RegisterGated | pkgcore/merge/triggers.py:73-75 | a trigger limited to other modes leaves the registry as it was |
| Engine.RegisterFailsIff | pkgcore/merge/triggers.py:73-83 | `register` fails iff the mode is accepted and `_hooks` is not iterable |
| Mtime.Disk.constructor | pkgcore/merge/triggers.py:174 | the stat table `stat` consults, and the errno `utime` raises where it cannot set an mtime |
| Mtime.Disk.Utime | pkgcore/merge/triggers.py:202 | `utime` sets one location's mtime and nothing else, or raises its errno and changes nothing |
| Mtime.ScanDirs | pkgcore/merge/triggers.py:171-181 | exactly the existing directories among the locations; ENOENT is skipped, any other stat error propagates |
| Mtime.ScanMtimes | pkgcore/merge/triggers.py:171-181 | the scan loop computes `ScanDirs` |
| Mtime.Past | pkgcore/merge/triggers.py:196-198 | past is non-negative and at least `now - forced_past` |
| Mtime.Snapshot | pkgcore/merge/triggers.py:193-204 | one saved mtime per scanned directory, each at most past and either past or the directory's own mtime |
| Mtime.ResetDisk | pkgcore/merge/triggers.py:199-202 | the `utime` calls keep the set of known locations |
| Mtime.ChangesExactly | pkgcore/merge/triggers.py:225-239 | `get_changes` yields a location iff it is a scanned directory missing from the snapshot or with a different mtime |
| Mtime.ChangesExactlyAll | pkgcore/merge/triggers.py:225-239 | the same, for every location at once |
| Mtime.CheckStateAgrees | pkgcore/merge/triggers.py:207-222 | `check_state` is true iff `get_changes` yields anything |
| Mtime.CheckStateAgreesWhenOk | pkgcore/merge/triggers.py:207-222 | the same, whenever the change scan succeeds |
| Mtime.MtimeWatcher.constructor | pkgcore/merge/triggers.py:153-155 | no snapshot and no locations |
| Mtime.MtimeWatcher.SetState | pkgcore/merge/triggers.py:184-204 | remembers the locations first; on a stat error nothing else changes; when a `utime` raises, its error propagates, the snapshot is unchanged and only the directories before it are reset on disk; otherwise saves the clamped snapshot and resets every mtime above past on disk |
| Mtime.FirstBlocked | pkgcore/merge/triggers.py:199-202 | the first scanned directory whose mtime must be reset but whose `utime` raises, or the end when there is none |
| Mtime.ClampMtimes | pkgcore/merge/triggers.py:196-204 | the clamping loop saves one mtime per directory, clamped to past, and lowers every on-disk mtime above past to past; a raising `utime` stops it with exactly the directories before it reset |
| Mtime.MtimeWatcher.GetChanges | pkgcore/merge/triggers.py:225-239 | falls back to the saved locations; yields exactly the changed directories |
| Mtime.MtimeWatcher.CheckState | pkgcore/merge/triggers.py:207-222 | true iff `GetChanges` yields anything |
| Mtime.SnapshotClamped | pkgcore/merge/triggers.py:196-204 | every saved mtime is at most past; one above past is past in the snapshot and on disk, any other is unchanged in both |
| Mtime.NoChangeAfterSetState | pkgcore/merge/triggers.py:196-239 | right after `set_state`, rescanning the same locations reports no change, so a later change is real |
| Mtime.ReadLdSoConf | pkgcore/merge/triggers.py:259-270 | the conf lines joined under the offset; a missing conf means the default list (and creating the file); any other read error propagates |
| Mtime.LdconfigTrigger | pkgcore/merge/triggers.py:283-290 | in a `pre_` phase `set_state` on the library directories: the clamped snapshot is saved and every mtime above past is reset on disk, or the stat error propagates with snapshot and disk untouched, or a `utime` error propagates with the snapshot untouched and the directories before it reset; otherwise regenerate iff `check_state` sees a change; the watcher and disk change only in a `pre_` phase |
| Mtime.InfoRegens | pkgcore/merge/triggers.py:340-342 | the changed directories plus every location lacking a `dir` index |
| Mtime.InfoLocs | pkgcore/merge/triggers.py:329 | each info location joined under the offset |
| Mtime.InfoRegenTrigger | pkgcore/merge/triggers.py:322-342 | nothing without `install-info`; in a `pre_` phase `set_state` on the info directories (clamped snapshot saved and on-disk mtimes reset, or the stat error with both untouched, or a `utime` error with the snapshot untouched and the directories before it reset); nothing for `post_merge` of a replace; otherwise the directories to regenerate |
| FsTriggers.Pick | pkgcore/merge/triggers.py:474-475 | the listed locations whose entries satisfy the predicate, in order |
| FsTriggers.UpdateWhere | pkgcore/merge/triggers.py:440-441 | `cset.update(f(x) for x in cset if p(x))` rewrites exactly the entries satisfying `p`, whatever the iteration order |
| FsTriggers.Blocked | pkgcore/merge/triggers.py:413-419 | each preserved path, leading slashes stripped, joined under the offset |
| FsTriggers.BaseSystemUnmergeProtection | pkgcore/merge/triggers.py:418-420 | removes exactly the blocked locations from the uninstall set and returns true |
| FsTriggers.UnmergeProtectionKeepsBase | pkgcore/merge/triggers.py:409-420 | no blocked location survives, and every other location keeps its entry |
| FsTriggers.FixUidPerms | pkgcore/merge/triggers.py:436-441 | every entry owned by `bad` is handed to `good`; the rest is unchanged |
| FsTriggers.FixGidPerms | pkgcore/merge/triggers.py:457-462 | every entry of group `bad` is handed to `good`; the rest is unchanged |
| FsTriggers.FixUidClears | pkgcore/merge/triggers.py:436-441 | afterwards no entry is owned by `bad`, and only the uid of `bad`'s entries changed |
| FsTriggers.FixGidClears | pkgcore/merge/triggers.py:457-462 | afterwards no entry belongs to group `bad`, and only the gid of those entries changed |
| FsTriggers.ClearSetBits | pkgcore/merge/triggers.py:490 | the cleared entry keeps its location |
| FsTriggers.SetBitsLabelAsWritten | pkgcore/merge/triggers.py:479-486 | the label as written: "SetGID" exactly when the setuid bit is set |
| FsTriggers.SetBitsLabelSwapped | pkgcore/merge/triggers.py:479-486 | a setuid file (04002) is reported as "SetGID" and a setgid one (02002) as "SetUID" |
| FsTriggers.SetBitsLabelNamesTheBit | pkgcore/merge/triggers.py:473-486 | the corrected label names a bit the mode really carries |
| FsTriggers.SetBitsNotices | pkgcore/merge/triggers.py:477-486 | one warning per offending location with an observer, none without; the label is the corrected one of the first Findings row |
| FsTriggers.FixSetBits | pkgcore/merge/triggers.py:471-490 | every non-symlink that is set-id and world writable becomes `mode & ~06002`, one warning each (with the corrected label); the rest is unchanged |
| FsTriggers.FixSetBitsSettles | pkgcore/merge/triggers.py:474-490 | a second run of `fix_set_bits` changes nothing |
| FsTriggers.ClearedIsSafe | pkgcore/merge/triggers.py:490 | the cleared mode has no set-id or world-write bit, and every other bit is kept |
| FsTriggers.ClearWorldWrite | pkgcore/merge/triggers.py:514 | the cleared entry keeps its location |
| FsTriggers.DetectWorldWritable | pkgcore/merge/triggers.py:503-514 | nothing without an observer or `fix_perms`; a warning per world-writable non-symlink with an observer; with `fix_perms` exactly those lose the bit |
| FsTriggers.WorldWritableReported | pkgcore/merge/triggers.py:509-514 | a location is reported iff its entry is a world-writable non-symlink, and with `fix_perms` none stays so |
| FsTriggers.Pruned | pkgcore/merge/triggers.py:532-536 | keeps exactly the entries the sentinel does not flag, unchanged |
| FsTriggers.PruneFiles | pkgcore/merge/triggers.py:531-536 | removes exactly the flagged entries, reporting each with an observer |
| FsTriggers.DirModeNotices | pkgcore/merge/triggers.py:559-564 | one warning per offending directory, carrying its mode |
| FsTriggers.CommonDirectoryModes | pkgcore/merge/triggers.py:545-564 | without an observer nothing; otherwise a warning for exactly the common directories whose mode is not 0755 |
| Contents.Overlay | pkgcore/merge/triggers.py:440-441 | `update` keeps every location and adds those of the new entries |
| Contents.LastAt | pkgcore/merge/triggers.py:440-441 | the last entry given for a location, or none |
| Contents.OverlayLastWins | pkgcore/merge/triggers.py:440-441 | after `update` a location holds the last entry given for it, or what it held before |
| Contents.OverlayAppend | pkgcore/merge/triggers.py:440-441 | updating with `a + b` is updating with `a` then `b` |
| Contents.Select | pkgcore/merge/triggers.py:440-441 | the rewritten entries, at most one per listed location |
| Contents.OverlaySelect | pkgcore/merge/triggers.py:440-441 | updating with the rewritten selected entries rewrites exactly those and leaves the rest |
| Contents.Rewritten | pkgcore/merge/triggers.py:440-441 | the selected listed locations rewritten, every other one kept |
| Contents.RewriteAll | pkgcore/merge/triggers.py:440-441 | entries satisfying the predicate rewritten, the others unchanged, no location added or lost |
| Contents.UpdateFromSelf | pkgcore/merge/triggers.py:440-441 | rewriting a set from itself gives the same result in every iteration order |
| Contents.OfKind | pkgcore/merge/triggers.py:559 | `iterdirs`/`iterfiles`/`iterlinks` yield locations of the set |
| Contents.NonLinks | pkgcore/merge/triggers.py:474 | `iterlinks(True)` is every entry that is not a symlink |
| Contents.ContentSet.constructor | pkgcore/merge/triggers.py:195 | a set built from entries, later ones winning |
| Contents.ContentSet.Get | pkgcore/ebuild/triggers.py:234 | `cset[x]`: the entry at the location, or `KeyError` |
| Contents.ContentSet.Add | pkgcore/ebuild/triggers.py:282 | `add` puts the entry at its location |
| Contents.ContentSet.Update | pkgcore/merge/triggers.py:440-441 | `update` is last-wins per location |
| Contents.ContentSet.Remove | pkgcore/ebuild/triggers.py:276-279 | `remove` drops the location, and reports `KeyError` iff it was absent |
| Contents.ContentSet.DifferenceUpdate | pkgcore/merge/triggers.py:419 | drops each listed location, present or not |
| Envd.Fragments | pkgcore/ebuild/triggers.py:57-60 | exactly the names without `.bak`/`~`/`._cfg`, longer than two and starting with two digits |
| Envd.Gather | pkgcore/ebuild/triggers.py:57-65 | every gathered key has at least one value |
| Envd.GatherValues | pkgcore/ebuild/triggers.py:63-64 | a key is gathered iff some fragment assigns it, with all its values in fragment order |
| Envd.LastValueWins | pkgcore/ebuild/triggers.py:88-90 | the last gathered value of a key is that of the last fragment assigning it |
| Envd.WordsOf | pkgcore/ebuild/triggers.py:96-97 | whitespace words, none empty or containing a space |
| Envd.ColonFieldsOf | pkgcore/ebuild/triggers.py:93-94 | colon fields with empties dropped, none containing `:` |
| Envd.Reinterpreted | pkgcore/ebuild/triggers.py:88-97 | every gathered key but the two list keys, each reinterpreted by its class |
| Envd.GatherFragments | pkgcore/ebuild/triggers.py:57-65 | the reading loop gathers exactly the fragments' values in order, or stops with the error of the first fragment `read_bash_dict` raises on |
| Envd.FirstUnreadableIsFirst | pkgcore/ebuild/triggers.py:57-61 | there is an error iff some fragment is unreadable, and it is that of the first unreadable one, every earlier one having been read |
| Envd.FirstUnreadableSticks | pkgcore/ebuild/triggers.py:57-61 | once a fragment has raised, the fragments after it change nothing |
| Envd.CollapseFailsIff | pkgcore/ebuild/triggers.py:49-61 | `collapse_envd` raises iff the listing fails other than with ENOENT or a fragment it reads is unreadable |
| Envd.AddWords | pkgcore/ebuild/triggers.py:74-85 | the names of the list keys' values, split on whitespace, are added |
| Envd.CollapseEnvd | pkgcore/ebuild/triggers.py:49-99 | `collapse_envd` computes `CollapseSpec`: a missing directory collapses to nothing, any other listing error propagates, and so does the first `read_bash_dict` error |
| Envd.EnvdClassifies | pkgcore/ebuild/triggers.py:67-97 | the list keys never survive; COLON_SEPARATED names are colon-parsed and incremental; a plain key keeps one value, an incremental one clean words or fields |
| Envd.EnvdScalarIsLast | pkgcore/ebuild/triggers.py:52-90 | a non-incremental key holds the value of the last fragment, in sorted order, assigning it |
| Envd.StringCollapsed | pkgcore/ebuild/triggers.py:102-110 | incrementals become strings; other keys are untouched |
| Envd.StringCollapseEnvd | pkgcore/ebuild/triggers.py:102-110 | the loop computes `StringCollapsed` whatever the dict order |
| Envd.RestringRoundTrip | pkgcore/ebuild/triggers.py:93-110 | splitting a re-joined incremental value gives back its word or field list |
| Protect.SimpleChksumCompare | pkgcore/ebuild/triggers.py:152-164 | false if a shared non-size checksum differs; else size equality when both have one; else whether some non-size checksum is shared |
| Protect.ChksumSymmetric | pkgcore/ebuild/triggers.py:152-164 | the comparison is symmetric |
| Protect.ChksumReflexive | pkgcore/ebuild/triggers.py:152-164 | a record is equivalent to itself iff it is not empty |
| Protect.ListSetting | pkgcore/ebuild/triggers.py:169-170 | `setdefault(k, [])`: empty when absent, the words when a list, an `AttributeError` on `.extend` when a string |
| Protect.GlobPrefix | pkgcore/ebuild/triggers.py:172 | a prefix ending in exactly one `/` |
| Protect.ConfigProtectFilter | pkgcore/ebuild/triggers.py:167-189 | an env.d error propagates |
| Protect.ProtectedIff | pkgcore/ebuild/triggers.py:167-189 | a location is protected iff under some CONFIG_PROTECT entry, extra protect or `/etc`, and under no CONFIG_PROTECT_MASK entry or extra disable |
| Protect.IsProtected | pkgcore/ebuild/triggers.py:172-189 | a location under a mask is never protected; a protected one is under some prefix; one under a prefix and no mask is protected |
| Protect.EtcAlwaysProtected | pkgcore/ebuild/triggers.py:173 | `/etc` is always protected unless masked |
| Protect.CollisionIgnoreFilter | pkgcore/ebuild/triggers.py:192-205 | an env.d error propagates |
| Protect.IgnoreFilterShape | pkgcore/ebuild/triggers.py:194-201 | the filter fails iff some pattern not ending in `/*` is a directory (the `.rstrip` on the list); when built it holds the `.keep` patterns |
| Protect.UninstallRemovals | pkgcore/ebuild/triggers.py:320-331 | every removal is a listed file of the uninstall set |
| Protect.CollectRemovals | pkgcore/ebuild/triggers.py:320-331 | the selection loop computes `UninstallRemovals`, stopping at the first `KeyError` or at a checksum read error other than ENOENT or ENOTDIR |
| Protect.UninstallRemovesExactly | pkgcore/ebuild/triggers.py:320-331 | on success, exactly the protected, non-ignored, readable files whose live checksums differ are withdrawn |
| Protect.UninstallNeedsRecords | pkgcore/ebuild/triggers.py:322-323 | a selected file missing from the uninstall set fails the trigger with `KeyError` |
| Protect.Filters | pkgcore/ebuild/triggers.py:317-318 | both filters, built in the source's order |
| Protect.ConfigProtectUninstall | pkgcore/ebuild/triggers.py:316-334 | the uninstall set loses exactly the computed removals, or is untouched when the trigger fails |
| Protect.UninstallErrSticks | pkgcore/ebuild/triggers.py:320-331 | a failure on a prefix of the files is the failure of the whole run |
| Protect.IgnoredFiles | pkgcore/ebuild/triggers.py:353 | exactly the listed files some pattern matches |
| Protect.DeleteEachPresent | pkgcore/ebuild/triggers.py:354-355 | deleting distinct present locations removes exactly them |
| Protect.UninstallIgnore | pkgcore/ebuild/triggers.py:348-355 | deletes each matched file in turn, stopping with `KeyError` at the first absent one |
| Protect.DeleteEachStops | pkgcore/ebuild/triggers.py:354-355 | once a deletion fails, later ones do not happen |
| Protect.UninstallIgnoreRemovesMatches | pkgcore/ebuild/triggers.py:348-355 | when every match is recorded, exactly the matched files are withdrawn |
| Protect.IgnoredFilesDistinct | pkgcore/ebuild/triggers.py:353 | no file is matched twice |
| CfgProtect.CfgOnly | pkgcore/ebuild/triggers.py:245-246 | exactly the names starting with `._cfg` |
| CfgProtect.CfgListing | pkgcore/ebuild/triggers.py:245-246 | the `._cfg` names, sorted |
| CfgProtect.ParseCfgName | pkgcore/ebuild/triggers.py:253-261 | a parsed name has `_` at index 9, the original name after it, and the count `int()` reads from characters 5-8 |
| CfgProtect.CfgName | pkgcore/ebuild/triggers.py:280 | the new name starts with `._cfg` |
| CfgProtect.CfgNameRoundTrip | pkgcore/ebuild/triggers.py:256-280 | a name written for a four-character count parses back to that count and name |
| CfgProtect.NewLocationIsSibling | pkgcore/ebuild/triggers.py:253-280 | a moved entry lands in its directory under a name the next sibling scan recognises |
| CfgProtect.Siblings | pkgcore/ebuild/triggers.py:253-263 | exactly the parsed siblings of the name |
| CfgProtect.Updates | pkgcore/ebuild/triggers.py:243 | one sibling list per protected name |
| CfgProtect.ParseUpdates | pkgcore/ebuild/triggers.py:243-263 | the loop builds the sibling table |
| CfgProtect.NextCount | pkgcore/ebuild/triggers.py:268-274 | the counter loop computes `CountFrom` |
| CfgProtect.CountReusesFirstHit | pkgcore/ebuild/triggers.py:269-273 | the first sibling whose probe holds gives the count |
| CfgProtect.CountFresh | pkgcore/ebuild/triggers.py:268-274 | with no hit the count exceeds every sibling's count and is 0 or one past some count |
| CfgProtect.CounterProbeQuirk | pkgcore/ebuild/triggers.py:263-274 | since the probe asks about the original name, either the first sibling's count is reused or the count is past every sibling |
| CfgProtect.CollectFilesAll | pkgcore/ebuild/triggers.py:232-240 | every protected, non-ignored file whose replacement differs is filed under its directory |
| CfgProtect.CollectFilesOnly | pkgcore/ebuild/triggers.py:232-240 | the table holds nothing else |
| CfgProtect.CollectProtected | pkgcore/ebuild/triggers.py:231-240 | the loop builds the table, or fails with the `KeyError` of a missing replacement or with the `IOError` of reading a live file whose replacement carries checksums |
| CfgProtect.CollectReadsClean | pkgcore/ebuild/triggers.py:231-235 | when collection succeeds, every selected file has a replacement, and every live file compared against a checksummed replacement was read |
| CfgProtect.CollectErrSticks | pkgcore/ebuild/triggers.py:232-234 | a failure on a prefix of the files is the failure of the whole collection |
| CfgProtect.RenameOne | pkgcore/ebuild/triggers.py:275-283 | an absent entry is skipped; otherwise it moves to its `._cfg` location and the move is recorded |
| CfgProtect.RenameGroup | pkgcore/ebuild/triggers.py:266-283 | one directory's renames only add to the table, and leave every entry not at a recorded `._cfg` location as it was |
| CfgProtect.ProcessDir | pkgcore/ebuild/triggers.py:243-283 | the same for one directory; a listing error other than `ENOENT` is raised with nothing changed |
| CfgProtect.ProcessDirs | pkgcore/ebuild/triggers.py:242-284 | the same over the directories in turn |
| CfgProtect.InstallSpec | pkgcore/ebuild/triggers.py:225-284 | the install trigger changes the install set only by renames: the table only grows, every entry not at a recorded `._cfg` location was there before unchanged, and a filter or collection failure changes nothing |
| CfgProtect.ProcessDirsStops | pkgcore/ebuild/triggers.py:244-249 | a listing error stops the remaining directories |
| CfgProtect.NothingMoved | pkgcore/ebuild/triggers.py:216 | before any rename nothing has moved |
| CfgProtect.RenameOneMoves | pkgcore/ebuild/triggers.py:275-283 | a rename to a free location keeps the set equal to the original with the recorded moves applied |
| CfgProtect.OldsAdd | pkgcore/ebuild/triggers.py:283 | recording a move adds its original location |
| CfgProtect.MoveOneMore | pkgcore/ebuild/triggers.py:276-283 | moving one more entry keeps the record sound |
| CfgProtect.RestoreOneMovesBack | pkgcore/ebuild/triggers.py:300-305 | restoring one record moves that entry home |
| CfgProtect.RestorePart | pkgcore/ebuild/triggers.py:300-305 | restoring some records undoes exactly those moves |
| CfgProtect.RestoreUndoesRenames | pkgcore/ebuild/triggers.py:299-306 | restoring every record, in any order, gives back the install set the renames started from |
| CfgProtect.RestoreSpec | pkgcore/ebuild/triggers.py:299-306 | restoring touches only recorded entries and their original locations: every other entry keeps its value, and every location left was in the set or is an original location |
| CfgProtect.RenameGroupMoves | pkgcore/ebuild/triggers.py:266-283 | one directory's renames keep the install set equal to the original with the recorded moves applied and the table sound, adding only that directory's `._cfg` locations, when those are new and distinct |
| CfgProtect.ProcessDirsMoves | pkgcore/ebuild/triggers.py:242-284 | the same over every directory, also when a listing error stops the run |
| CfgProtect.InstallThenRestore | pkgcore/ebuild/triggers.py:225-306 | from an empty table, whatever the install trigger moved is moved back by the restore trigger in any order, giving the original install set, when the `._cfg` locations picked are new and distinct |
| CfgProtect.ConfigProtectInstall.constructor | pkgcore/ebuild/triggers.py:214-218 | an empty renames table |
| CfgProtect.ConfigProtectInstall.Register | pkgcore/ebuild/triggers.py:220-223 | the install trigger on `pre_merge`, then the restore trigger on `post_merge` |
| CfgProtect.ConfigProtectInstall.RenameDir | pkgcore/ebuild/triggers.py:243-283 | one directory's renames, a missing directory skipped |
| CfgProtect.ConfigProtectInstall.Trigger | pkgcore/ebuild/triggers.py:225-284 | the install set and renames table change as `InstallSpec` says, failing with the first error of the filters, the collection (checksum reads included) or a directory listing |
| CfgProtect.ConfigProtectInstall.RenameDirs | pkgcore/ebuild/triggers.py:242-284 | every directory in turn, stopping at the first failure |
| CfgProtect.ConfigProtectInstall.Restore | pkgcore/ebuild/triggers.py:299-306 | every recorded entry still present moves back, then the table is empty |
| CfgProtect.ConfigProtectInstall.RestoreOne | pkgcore/ebuild/triggers.py:300-305 | one record: the renamed entry, if still there, is replaced by the recorded original; otherwise nothing changes |
| Collision.FileCollisionCheck | pkgcore/ebuild/triggers.py:406-434 | computes what `collision` is called with, or a filter failure |
| Collision.CollidingIff | pkgcore/ebuild/triggers.py:406-434 | empty existing set: nothing; otherwise a file collides iff it is live, not an installed directory, not protected or ignored, and not the replaced package's |
| Collision.ProtectedNeverCollides | pkgcore/ebuild/triggers.py:419-431 | protected files and files of the replaced package never collide |
| Collision.CollisionProtect | pkgcore/ebuild/triggers.py:437-442 | any collision blocks the merge, naming only live files |
| Collision.OwnersExactly | pkgcore/ebuild/triggers.py:452-459 | the table names exactly the real packages owning a colliding file, each with a non-empty set of its colliding files |
| Collision.OwnedCollisions | pkgcore/ebuild/triggers.py:452-459 | the loop builds the owners table |
| Collision.ProtectOwned | pkgcore/ebuild/triggers.py:445-467 | the outcome `ProtectOwnedOutcome` describes |
| Collision.ProtectOwnedBlocksIff | pkgcore/ebuild/triggers.py:451-467 | `ProtectOwned` blocks iff a real package owns a colliding file, and only where `CollisionProtect` would |
| Collision.InstallIntoSymdirProtect | pkgcore/ebuild/triggers.py:487-488 | never blocks: the trigger returns first |
| EbuildTriggers.ClearBits | pkgcore/ebuild/triggers.py:556-561 | clearing bits clears them and leaves the others |
| EbuildTriggers.SfResetsOf | pkgcore/ebuild/triggers.py:552-561 | every reset keeps the file's location |
| EbuildTriggers.SfNoticesOf | pkgcore/ebuild/triggers.py:552-561 | one warning per reset, with the corrected reason of the second Findings row |
| EbuildTriggers.SfReasonSwapped | pkgcore/ebuild/triggers.py:552-556 | a setuid, group-readable file (04640) is reported "due to SetGID" |
| EbuildTriggers.SfNoticeNamesTheBit | pkgcore/ebuild/triggers.py:552-561 | each corrected warning names a set-id bit the file carries and the bits dropped for it |
| EbuildTriggers.SfNotices | pkgcore/ebuild/triggers.py:551-561 | one warning per reset over the whole set, with the corrected reason |
| EbuildTriggers.SfFixed | pkgcore/ebuild/triggers.py:552-562 | the fixed entry keeps its location |
| EbuildTriggers.SfStep | pkgcore/ebuild/triggers.py:556-562 | both resets are computed from the original, so updating with them is updating with the last one |
| EbuildTriggers.SfResetsSelect | pkgcore/ebuild/triggers.py:551-562 | the resets act as the fixed entries of the flagged files |
| EbuildTriggers.SfPermsEffect | pkgcore/ebuild/triggers.py:549-562 | exactly the flagged regular files are fixed, in every iteration order |
| EbuildTriggers.SfFixedNotWorldReadable | pkgcore/ebuild/triggers.py:552-562 | a fixed file is not world readable |
| EbuildTriggers.SfFixedOnlyReadBits | pkgcore/ebuild/triggers.py:552-562 | only read bits are taken, and nothing but the mode changes |
| EbuildTriggers.ReadMasks | pkgcore/ebuild/triggers.py:556-561 | the two read masks relate as the resets need |
| EbuildTriggers.SfUnflaggedUnreadable | pkgcore/ebuild/triggers.py:552-558 | a set-id file left alone was not world readable |
| EbuildTriggers.SfPermsNotIdempotent | pkgcore/ebuild/triggers.py:552-562 | a 06644 file becomes 06640, and a second run takes it to 06600 |
| EbuildTriggers.SfPerms | pkgcore/ebuild/triggers.py:549-562 | fixes exactly the flagged files with their warnings (with the corrected reason), or without an observer fails before `update` leaving the set unchanged |
| EbuildTriggers.SfPermsFile | pkgcore/ebuild/triggers.py:552-561 | one file's resets and warnings (with the corrected reason), failing without an observer iff there is any |
| EbuildTriggers.SfResetsGrow | pkgcore/ebuild/triggers.py:551-561 | resets only accumulate |
| EbuildTriggers.ImagePrefix | pkgcore/ebuild/triggers.py:598 | `$D` with exactly one trailing slash |
| EbuildTriggers.Relinked | pkgcore/ebuild/triggers.py:608 | the relinked entry keeps its location |
| EbuildTriggers.RelinkFrom | pkgcore/ebuild/triggers.py:608-609 | relinking keeps every location |
| EbuildTriggers.FixImageSymlinks | pkgcore/ebuild/triggers.py:597-609 | exactly the symlinks into the image are re-pointed, each reported with an observer |
| EbuildTriggers.RelinkedUnderRoot | pkgcore/ebuild/triggers.py:605-608 | the new target is absolute and, under the image, is the old one |
| EbuildTriggers.CollapseSlashes | pkgcore/ebuild/triggers.py:580-581 | no `//` is left |
| EbuildTriggers.CollapsePairsKeepsText | pkgcore/ebuild/triggers.py:581 | one `replace` pass removes slashes only and keeps a leading one |
| EbuildTriggers.CollapseSlashesKeepsText | pkgcore/ebuild/triggers.py:580-581 | the rewrite loop removes slashes only and keeps a leading one |
| EbuildTriggers.MultilibStrictSpec | pkgcore/ebuild/triggers.py:565-584 | a trigger iff both settings are set and the directories not blank; its file type is `.*deny.*` and its limit has no `//` |
| EbuildTriggers.MultilibStrict | pkgcore/ebuild/triggers.py:565-584 | the builder with its `while` loop computes `MultilibStrictSpec` |
| EbuildTriggers.MultilibLimitShape | pkgcore/ebuild/triggers.py:572-581 | the limit pattern is rooted and differs from the one written out only by slashes |
| EbuildTriggers.MaskPatternsShape | pkgcore/ebuild/triggers.py:647-650 | each mask gives its pattern and one for everything under it, trailing slashes stripped |
| EbuildTriggers.When | pkgcore/ebuild/triggers.py:627-658 | a trigger is yielded iff its condition holds |
| EbuildTriggers.GeneratedEnds | pkgcore/ebuild/triggers.py:611-663 | `env_update` comes first; iteration ends with `InfoRegen`, unless a tuple `INSTALL_MASK` meets a feature mask, when it raises right after `install_into_symdir_protect` with no pruning, uninstall-ignore or info trigger yielded |
| EbuildTriggers.GeneratedChecks | pkgcore/ebuild/triggers.py:625-639 | `collision-protect` selects `CollisionProtect`; `protect-owned` selects `ProtectOwned` only without it; `sfperms` selects `SFPerms`; all whether or not the mask step raises |
| EbuildTriggers.ChecksSelect | pkgcore/ebuild/triggers.py:625-639 | the optional checks hold `CollisionProtect` iff `collision-protect`, `ProtectOwned` iff `protect-owned` without it, and `SFPerms` iff `sfperms` |
| EbuildTriggers.GeneratedPrune | pkgcore/ebuild/triggers.py:643-658 | when the masks are built, `PruneFiles` is yielded iff some mask is set, carrying two patterns per mask; never when the append raises |
| EbuildTriggers.NoManMasksManPages | pkgcore/ebuild/triggers.py:643-650 | with `noman` the man pages and everything under them are masked, unless `INSTALL_MASK` is a tuple, which the append cannot extend |
| EbuildTriggers.FeatureMasks | pkgcore/ebuild/triggers.py:643-645 | `/usr/share/man`, `/usr/share/info` and `/usr/share/doc` are added exactly for `noman`, `noinfo` and `nodoc` |
| EbuildTriggers.InstallMask | pkgcore/ebuild/triggers.py:616-645 | the setting's masks followed by the feature masks, or the `AttributeError` exactly when the setting is a tuple and some feature mask is to be appended |
| EbuildTriggers.MaskPatterns | pkgcore/ebuild/triggers.py:646-650 | two patterns per mask |
| EbuildTriggers.Checks | pkgcore/ebuild/triggers.py:625-639 | the optional middle holds only collision, ownership, multilib-strict and `SFPerms` triggers |
| EbuildTriggers.Trailing | pkgcore/ebuild/triggers.py:651-663 | after the mask step only pruning, uninstall-ignore and info triggers follow, and none when it raised |
| EbuildTriggers.LeadingShape | pkgcore/ebuild/triggers.py:611-641 | nothing before the mask step prunes, and an optional check is there exactly when `Checks` holds it |
| EbuildTriggers.GenerateTriggers | pkgcore/ebuild/triggers.py:611-663 | `env_update`, `ConfigProtectInstall` with the protect lists and `ConfigProtectUninstall` come first; the only exception is the tuple append, and then exactly the triggers before the mask step were yielded |
| EbuildTriggers.EndsWhenBuilt | pkgcore/ebuild/triggers.py:651-663 | with the masks built nothing is raised and `InfoRegen` closes a list of at least six |
| EbuildTriggers.EndsWhenRaised | pkgcore/ebuild/triggers.py:641-645 | when the append raises, `install_into_symdir_protect` is the last trigger yielded |
| Domain.GlobsOf | src/pkgcore/ebuild/domain.py:88-89 | exactly the non-atom masks |
| Domain.AtomsOf | src/pkgcore/ebuild/domain.py:86-87 | exactly the atoms of one key |
| Domain.Filed | src/pkgcore/ebuild/domain.py:82-90 | atoms go to their key's bucket in order, everything else to the globs; a key has a bucket iff it has an atom |
| Domain.MakeMaskFilter | src/pkgcore/ebuild/domain.py:82-90 | the loop builds `Filed` |
| Domain.MaskFilterIff | src/pkgcore/ebuild/domain.py:74-90 | a package is hit iff some glob, or some atom of its own key, matches it; atoms of other keys are never tried |
| Domain.ApplyMaskFilter | src/pkgcore/ebuild/domain.py:74-79 | a matching glob always hits, and a hit with no matching atom under the package's own key comes from a glob |
| Domain.StackedIff | src/pkgcore/ebuild/domain.py:590-592 | an entry survives iff some pair adds it and no later pair removes it |
| Domain.StackPairs | src/pkgcore/ebuild/domain.py:589-592 | the stacking loop computes `Stacked` |
| Domain.FilterRepoMasks | src/pkgcore/ebuild/domain.py:586-598 | masks: repo then profile stacks, then `package.mask`; unmasks: profile stack, then `package.unmask` |
| Domain.FilterRepoMasksIff | src/pkgcore/ebuild/domain.py:588-593 | a user mask is always masked; a stacked one iff its last adder is not undone |
| Domain.Scan | src/pkgcore/ebuild/domain.py:426-433 | without empty keywords: whether one has the wanted first character; an error only from an empty keyword |
| Domain.PkgKeywords | src/pkgcore/ebuild/domain.py:419-422 | the package's keywords plus those of every matching profile entry |
| Domain.KeywordsAcceptIff | src/pkgcore/ebuild/domain.py:416-434 | accepted iff `**`, or `*` and a stable keyword, or `~*` and a testing keyword, or an allowed keyword |
| Domain.KeywordsErrorNeedsEmpty | src/pkgcore/ebuild/domain.py:424-433 | the `IndexError` needs an empty keyword and never happens once `**` is allowed |
| Domain.EmptyMeansUnstable | src/pkgcore/ebuild/domain.py:386-393 | each accept entry keeps its restriction; an empty keyword list becomes `~arch`, whole for an atom or package entry and one character per item for an AlwaysTrue entry |
| Domain.UnconfiguredKeywordsContain | src/pkgcore/ebuild/domain.py:380-382 | without accept or profile keywords, a package passes iff it carries a default keyword |
| Domain.IncrementalKeywordsFail | src/pkgcore/ebuild/domain.py:401-402 | with `incremental` any accept or profile keywords raise |
| Domain.StableEmptyEntryMeansUnstable | src/pkgcore/ebuild/domain.py:384-393 | on a stable arch an empty accept entry is filed under its atom's key as accepting `~arch` |
| Domain.UnstableData | src/pkgcore/ebuild/domain.py:386-393 | the testing keyword is kept whole for an atom or package entry, and iterated one character at a time for an AlwaysTrue entry, as `always.extend` does in `collapsed_restrict_to_data` |
| Domain.StableAlwaysEntrySpreads | src/pkgcore/ebuild/domain.py:384-393 | on a stable arch an AlwaysTrue accept entry with no keywords adds the characters of `~arch` to the defaults instead of `~arch`, so a package keyworded only `~arch` is refused |
| Domain.OnlyDefaultsRefuse | src/pkgcore/ebuild/domain.py:416-434 | a delegated filter holding only defaults refuses a package whose single keyword is none of them |
| Domain.MakeKeywordsFilter | src/pkgcore/ebuild/domain.py:377-406 | without accept or profile keywords, a containment filter over the defaults; with `incremental` and either, an error; a delegated filter keeps the profile keywords and pulls non-incrementally exactly on a testing arch |
| Domain.KeywordsFilterMatches | src/pkgcore/ebuild/domain.py:416-434 | a containment filter always decides; the `IndexError` needs an empty keyword among the package's and the matching profile keywords |
| Domain.ApplyKeywordsFilter | src/pkgcore/ebuild/domain.py:416-434 | `**` accepts everything; the `IndexError` needs an empty keyword; a refusal means no keyword is allowed by itself |
| Domain.Stabled | src/pkgcore/ebuild/domain.py:245-247 | exactly the `~`-stripped testing keywords |
| Domain.DefaultKeywords | src/pkgcore/ebuild/domain.py:245-248 | the loop and `unstable_unique` compute `DefaultKeywordsSpec` |
| Domain.DefaultKeywordsMembers | src/pkgcore/ebuild/domain.py:244-248 | a default keyword iff accepted, the stable form of an accepted testing one, or the arch; none occurs twice |
| Domain.Chars | src/pkgcore/ebuild/domain.py:203 | iterating a string yields its characters |
| Domain.SplitIncrementals | src/pkgcore/ebuild/domain.py:192-194 | string incrementals are split on whitespace |
| Domain.StackProfile | src/pkgcore/ebuild/domain.py:198-203 | fails iff some profile string meets a user tuple, naming the first such key in `default_env` iteration order; otherwise profile-only keys are taken and incrementals are profile tokens then user tokens |
| Domain.FinalizeIncrementals | src/pkgcore/ebuild/domain.py:206-218 | fails iff some expansion raises, with the first such key in `incrementals` order and that expansion's error; otherwise every incremental but USE and ACCEPT_LICENSE is replaced by its expansion |
| Domain.FinalizeOne | src/pkgcore/ebuild/domain.py:214-218 | one key: USE, ACCEPT_LICENSE and absent keys are kept; any other is replaced by its expansion, or fails with that expansion's error |
| Domain.SplitRaw | src/pkgcore/ebuild/domain.py:192-194 | splitting keeps values as configuration supplies them |
| Domain.ConfigureSettings | src/pkgcore/ebuild/domain.py:192-218 | the three loops: ok iff no step raises, and then the settings `SettingsSpec` describes |
| Domain.ProfileThenUser | src/pkgcore/ebuild/domain.py:198-218 | an incremental both sides set ends as the expansion of the profile's tokens followed by the user's |
| Domain.UserOverridesProfile | src/pkgcore/ebuild/domain.py:198-218 | a plain flag is on iff the last token deciding it, profile first then user, turns it on |
| Domain.NonIncrementalUserWins | src/pkgcore/ebuild/domain.py:198-201 | a non-incremental key keeps the user's value, or the profile's when the user sets none |
| Domain.FinalizedPlain | src/pkgcore/ebuild/domain.py:214-218 | the finalized expansion holds only plain flags |
| Domain.ReexpandFinalized | src/pkgcore/ebuild/domain.py:214-235 | expanding an expanded setting again, in any order, gives the same set |
| Domain.AcceptKeywords | src/pkgcore/ebuild/domain.py:226-248 | a missing ACCEPT_KEYWORDS or ARCH fails; otherwise ACCEPT_KEYWORDS becomes its expansion and the default keywords are exactly the accepted ones, their stable forms and the arch, without repeats |
| Domain.UseList.constructor | src/pkgcore/ebuild/domain.py:221 | the initial `use` list |
| Domain.UseList.ExtendUseForFeatures | src/pkgcore/ebuild/domain.py:342-348 | appends `test` when FEATURES has `test`, then `prefix` when it has `prefix` or `force-prefix`; nothing else changes |
| Domain.PackageUseUnconfigured | src/pkgcore/ebuild/domain.py:468-493 | the stable disabled/forced sets iff the package is stable-keyworded and `~arch` is not accepted; enabled as `PackageUseSpec` |
| Domain.CollectGlobs | src/pkgcore/ebuild/domain.py:478 | exactly the enabled flags ending in `*` |
| Domain.ExpandGlobs | src/pkgcore/ebuild/domain.py:479-483 | exactly the IUSE flags some glob selects by prefix |
| Domain.PackageUseBounds | src/pkgcore/ebuild/domain.py:487-491 | for metadata the result avoids the disabled flags and holds every forced flag not disabled |
| Domain.GlobsExpand | src/pkgcore/ebuild/domain.py:478-491 | a glob turns on every IUSE flag with its prefix (unless disabled for metadata); the glob itself stays only if it is IUSE or forced |
| Currying.Updated | portage/util/currying.py:8-9 | every key of either dict, the second's value winning |
| Currying.PreCurryOrder | portage/util/currying.py:4-13 | curried positionals first, then call-time ones; call-time keywords override curried ones |
| Currying.PostCurryOrder | portage/util/currying.py:15-24 | call-time positionals first, then curried ones; curried keywords override call-time ones |
| Currying.PostIsSwappedPre | portage/util/currying.py:4-24 | `post_curry` is `pre_curry` with the two argument sets exchanged |
| Currying.PreEqualsPostIff | portage/util/currying.py:4-24 | the two agree iff the positional lists commute and the keyword dicts agree on shared keys |
| Currying.PreCurryNests | portage/util/currying.py:4-13 | currying a curried function nests: inner positionals first, outer keywords override |
| Currying.Wrapper.constructor | portage/util/currying.py:4-24 | stores the original and the curried arguments |
| Currying.Wrapper.Invoke | portage/util/currying.py:7-10 | a call passes both argument lists and every keyword; the stored dicts are not changed |
| Currying.Wrapper.PrettyDocs | portage/util/currying.py:26-33 | copies the module, and the doc from `extradocs` when given, else from the original |
| Sqfs.ParseUri | src/pkgcore/sync/sqfs.py:15-18 | ok iff the URI starts with one of the two prefixes; the result is the input minus `sqfs+`, five characters shorter; otherwise `UriError(raw, "unsupported URI")` |
| Sqfs.ParseHttp | src/pkgcore/sync/sqfs.py:16-17 | `sqfs+http://…` gives `http://…` |
| Sqfs.ParseHttps | src/pkgcore/sync/sqfs.py:16-17 | `sqfs+https://…` gives `https://…` |
| Sqfs.MarkThenParse | src/pkgcore/sync/sqfs.py:15-18 | marking then parsing is the identity exactly for http and https URIs |
| Sqfs.SupportedUrisParse | src/pkgcore/sync/sqfs.py:9-12 | exactly two schemes, each priority 5, and parsing accepts every URI under either |
| Text.ParseFormat04 | pkgcore/ebuild/triggers.py:256-280 | `int()` reads back what `"%04i"` wrote |
| Text.SplitJoinOn | pkgcore/ebuild/triggers.py:108 | joining separator-free fields and splitting again gives them back |
| Text.SplitWsJoin | pkgcore/ebuild/triggers.py:110 | joining space-free words with spaces and splitting gives them back |
| Text.SplitWs | pkgcore/ebuild/triggers.py:75 | every word is non-empty and holds no whitespace |
| Text.PathJoin | pkgcore/ebuild/triggers.py:280 | an absolute second part replaces the first, and the result always ends with the second part |
| Text.ParseInt | pkgcore/ebuild/triggers.py:256 | blank text is a `ValueError`, and a negative value needs a leading minus |
| Text.ParseDigits | pkgcore/ebuild/triggers.py:256 | a run of digits reads as its value |
| Text.ParseNegDigits | pkgcore/ebuild/triggers.py:256 | a minus sign before a run of digits negates its value |
| Text.StableUnique | pkgcore/ebuild/triggers.py:173 | the same members, none twice |

## Left out

- `BinaryDebug`, `BlockFileType` (only the arguments it is built with), `ldconfig.regen`, `_mk_ld_so_conf` (only the flag that it runs), `InfoRegen.regen` and `get_binary_path` (a boolean input), `update_ldso`, `perform_env_update` and the `env_update` trigger's body: they spawn programs, sniff file types or write files.
- The `merge`/`unmerge` triggers, `SavePkg*`, `preinst_contents_reset` and `mtime_watcher.mtime_floats`: repository operations, plugins and a process-global stat setting.
- The ebuild `InfoRegen` subclass: its `register` wiping earlier info triggers and its `locations` read from INFOPATH; `generate_triggers` only names it.
- Float timestamps: mtimes and the clock are integers; `floor(now)` is the given clock.
- `engine.observer` is a boolean: a warning sent is returned as a notice. `SFPerms` without an observer is the `AttributeError` of its first warning.
- Atom, glob, restriction, `StrGlobMatch`, `StrRegex` and `fnmatch` matching, `normpath`, `isdir` and `livefs.gen_obj` are opaque parameters; the `delegate` wrapper's `negate` is taken to invert the verdict.
- `generate_filter`, the license filter and `_incremental_apply_keywords_filter` (unreachable: `_make_keywords_filter` raises before choosing it).
- Domain plumbing: `load_property`, `package_env_splitter`, ROOT/CHOST/CBUILD/MAKEOPTS/fetcher handling, repository wrapping in `_filter_repo`, `RepositoryGroup` properties, `tmpdir`, `bashrcs`, `get_package_domain`, `cpu_count`.
- Domain USE assembly apart from `_extend_use_for_features`: `profile.expand_use`, `optimize_incrementals` and the `USE` environment variable. In `get_package_use_unconfigured` the pulled sets, `pre_defaults` and `_split_use_expand_flags` are inputs.
- Expanded incrementals: an expanded incremental is stored as a set of its members (`TokenSet`) because `tuple(s)` of a Python set has no defined order; `Domain.ReexpandFinalized` shows that every order expands to the same set.
- Domain.AcceptKeywords: an ARCH that is not a string is the error `ArchNotText`, although Python's `%` would accept a one-element tuple.
- `sqfs_syncer._sync`: network and file sync.
- FsTriggers.SetBitsNotices: its warnings carry the corrected label of the first Findings row ("SetUID" for a 04000 mode), not the source's swapped one; `SetBitsLabelAsWritten` is the label as written.
- FsTriggers.FixSetBits: its warnings come from `SetBitsNotices`, so they carry the corrected label as well.
- EbuildTriggers.SfNoticesOf: its warnings carry the corrected reason of the second Findings row ("SetUID" for the 04000 case), not the source's swapped one; `SfReasonAsWritten` is the reason as written.
- EbuildTriggers.SfNotices, EbuildTriggers.SfPermsFile and EbuildTriggers.SfPerms: their warnings come from `SfNoticesOf`, so they carry the corrected reason as well.
- EbuildTriggers.GenerateTriggers and EbuildTriggers.Checks: they require `MULTILIB_STRICT_DIRS`, `MULTILIB_STRICT_EXEMPT` and `MULTILIB_STRICT_DENY` to be strings. In `register_multilib_strict_trigger` a tuple there would raise an `AttributeError` on `split`, be formatted as its `repr`, or raise a `TypeError` from `%`, which the model does not follow.
- CfgProtect.InstallThenRestore: the round trip assumes the `._cfg` locations the counter picks are new in the install set and pairwise distinct; the model does not derive this from the sibling scan, and a clash would make the source overwrite an entry.
- `pkgcore/test/ebuild/test_atom.py`, `portage/test/test_spawn.py` and `pkgcore/repository/errors.py`: they test code not shown, test process spawning, or only define exceptions.

## Findings

| source | as written | input that shows it | evidently intended | confidence | as-written member | corrected member |
|---|---|---|---|---|---|---|
| pkgcore/merge/triggers.py:479-486 | `fix_set_bits` reports a mode with 04000 as "SetGID" and any other as "SetUID" | a setuid, world-writable file, mode 04002 | the label names the set-id bit the file has: "SetUID" for 04000 | not executed | FsTriggers.SetBitsLabelAsWritten, FsTriggers.SetBitsLabelSwapped | FsTriggers.SetBitsLabel, FsTriggers.SetBitsLabelNamesTheBit |
| pkgcore/ebuild/triggers.py:552-561 | `SFPerms` says "due to SetGID" for the 04000 case and "due to SetUID" for the 02000 case | a setuid, group-readable file, mode 04640 | the warning names the bit that caused the reset | not executed | EbuildTriggers.SfReasonAsWritten, EbuildTriggers.SfReasonSwapped | EbuildTriggers.SfNoticesOf, EbuildTriggers.SfNoticeNamesTheBit |
