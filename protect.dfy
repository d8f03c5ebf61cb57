/**
 * Config protection as the ebuild triggers decide it: checksum equivalence
 * of two entries, the `CONFIG_PROTECT` path filter, the `COLLISION_IGNORE`
 * pattern filter, and the two uninstall-side triggers that keep files out of
 * the uninstall set.
 *
 * `os.path.normpath`, `os.path.isdir` and `fnmatch` are not modelled; they
 * come in as functions of the `Host` the triggers run against, together with
 * what `collapse_envd` made of the target's `etc/env.d`.
 */
module Protect {
  import opened Wrappers
  import opened Errno
  import opened Text
  import opened Contents
  import opened Envd
  import opened Engine

  // ---------------------------------------------------------------------
  // simple_chksum_compare
  // ---------------------------------------------------------------------

  /** Some checksum other than `size` is recorded on both sides with different values. */
  predicate CommonDiffers(x: map<string, string>, y: map<string, string>) {
    exists k :: k in x && k in y && k != "size" && x[k] != y[k]
  }

  /** Some checksum other than `size` is recorded on both sides. */
  predicate HasCommon(x: map<string, string>, y: map<string, string>) {
    exists k :: k in x && k in y && k != "size"
  }

  /**
   * Two checksum records describe the same content: no shared checksum
   * disagrees, and then the sizes agree when both record one, otherwise at
   * least one checksum is shared.
   */
  predicate ChksumEquivalent(x: map<string, string>, y: map<string, string>) {
    !CommonDiffers(x, y) &&
    if "size" in x && "size" in y then x["size"] == y["size"] else HasCommon(x, y)
  }

  /** `simple_chksum_compare(x, y)` on the two entries' checksum records. */
  method SimpleChksumCompare(x: map<string, string>, y: map<string, string>) returns (r: bool)
    ensures r == ChksumEquivalent(x, y)
  {
    var found := false;
    var todo := x.Keys;
    while todo != {}
      invariant todo <= x.Keys
      invariant forall k :: k in x.Keys - todo && k in y && k != "size" ==> x[k] == y[k]
      invariant found <==> exists k :: k in x.Keys - todo && k in y && k != "size"
      decreases todo
    {
      var k :| k in todo;
      todo := todo - {k};
      if k != "size" && k in y {
        if y[k] != x[k] {
          return false;
        }
        found := true;
      }
    }
    if "size" in x && "size" in y {
      return x["size"] == y["size"];
    }
    return found;
  }

  /** The comparison does not depend on which side is the recorded entry. */
  lemma ChksumSymmetric(x: map<string, string>, y: map<string, string>)
    ensures ChksumEquivalent(x, y) == ChksumEquivalent(y, x)
  {
  }

  /** A record that holds a size or any other checksum is equivalent to itself; an empty one never is. */
  lemma ChksumReflexive(x: map<string, string>)
    ensures ChksumEquivalent(x, x) <==> x != map[]
  {
    if x != map[] && "size" !in x {
      var k :| k in x;
      assert HasCommon(x, x);
    }
  }

  // ---------------------------------------------------------------------
  // The filters
  // ---------------------------------------------------------------------

  /** What the triggers consult outside the content sets. */
  datatype Host = Host(
    envd: Result<Collapsed, EnvdError>,    // `collapse_envd(pjoin(offset, "etc/env.d"))`
    normpath: string -> string,            // `os.path.normpath`
    isDir: string -> bool,                 // `os.path.isdir`, relative to the working directory
    fnmatch: (string, string) -> bool)     // `StrRegex(fnmatch.translate(pattern)).match(location)`

  datatype FilterError =
    | EnvdFailed(cause: EnvdError)  // `collapse_envd` of `etc/env.d` raised
    | NotAList(key: string)         // the setting collapsed to a string, which has no `extend`
    | ListHasNoRstrip               // the ignore list itself is `rstrip`ped

  /** `collapsed_d.setdefault(k, [])`, as a list that can be extended. */
  function ListSetting(env: map<string, EnvValue>, k: string): (r: Result<seq<string>, FilterError>)
    ensures k !in env ==> r == Ok([])
    ensures k in env && env[k].Words? ==> r == Ok(env[k].ws)
    ensures r.Err? <==> k in env && env[k].Scalar?
  {
    if k !in env then Ok([])
    else match env[k]
      case Words(ws) => Ok(ws)
      case Scalar(_) => Err(NotAList(k))
  }

  /** `normpath(x).rstrip("/") + "/"`, the prefix a `StrGlobMatch` tests for. */
  function GlobPrefix(normpath: string -> string, x: string): (r: string)
    ensures EndsWith(r, "/")
  {
    RStrip(normpath(x), '/') + "/"
  }

  /** The prefixes that protect a location and those that unprotect it again. */
  datatype ProtectFilter = ProtectFilter(prefixes: set<string>, masks: set<string>)

  predicate UnderAny(loc: string, prefixes: set<string>) {
    exists p :: p in prefixes && StartsWith(loc, p)
  }

  /** The filter's `match`: under some protected prefix and under no mask. */
  predicate IsProtected(f: ProtectFilter, loc: string): (r: bool)
    ensures (exists p :: p in f.masks && StartsWith(loc, p)) ==> !r
    ensures r ==> exists p :: p in f.prefixes && StartsWith(loc, p)
    ensures (exists p :: p in f.prefixes && StartsWith(loc, p)) && (forall p :: p in f.masks ==> !StartsWith(loc, p)) ==> r
  {
    UnderAny(loc, f.prefixes) && !UnderAny(loc, f.masks)
  }

  /** `gen_config_protect_filter(offset, extra_protects, extra_disables)`. */
  function ConfigProtectFilter(host: Host, extraProtects: seq<string>, extraDisables: seq<string>): (r: Result<ProtectFilter, FilterError>)
    ensures host.envd.Err? ==> r == Err(EnvdFailed(host.envd.error))
  {
    if host.envd.Err? then Err(EnvdFailed(host.envd.error))
    else
      var env := host.envd.value.env;
      match ListSetting(env, "CONFIG_PROTECT")
      case Err(e) => Err(e)
      case Ok(protect) =>
        match ListSetting(env, "CONFIG_PROTECT_MASK")
        case Err(e) => Err(e)
        case Ok(mask) =>
          Ok(ProtectFilter(set x | x in StableUnique(protect + extraProtects + ["/etc"]) :: GlobPrefix(host.normpath, x),
                           set x | x in StableUnique(mask + extraDisables) :: GlobPrefix(host.normpath, x)))
  }

  /** The `CONFIG_PROTECT` / `CONFIG_PROTECT_MASK` entries the filter is built from. */
  function Setting(host: Host, k: string): seq<string>
    requires host.envd.Ok?
  {
    match ListSetting(host.envd.value.env, k)
    case Ok(ws) => ws
    case Err(_) => []
  }

  /**
   * A location is protected iff it lies under some `CONFIG_PROTECT` entry,
   * an extra protect or `/etc`, and under no `CONFIG_PROTECT_MASK` entry or
   * extra disable, each normalised with one trailing slash.
   */
  lemma ProtectedIff(host: Host, extraProtects: seq<string>, extraDisables: seq<string>, loc: string)
    requires ConfigProtectFilter(host, extraProtects, extraDisables).Ok?
    ensures IsProtected(ConfigProtectFilter(host, extraProtects, extraDisables).value, loc) <==>
      (exists x :: x in Setting(host, "CONFIG_PROTECT") + extraProtects + ["/etc"] && StartsWith(loc, GlobPrefix(host.normpath, x))) &&
      !(exists x :: x in Setting(host, "CONFIG_PROTECT_MASK") + extraDisables && StartsWith(loc, GlobPrefix(host.normpath, x)))
  {
    var f := ConfigProtectFilter(host, extraProtects, extraDisables).value;
    var protect := Setting(host, "CONFIG_PROTECT") + extraProtects + ["/etc"];
    var mask := Setting(host, "CONFIG_PROTECT_MASK") + extraDisables;
    assert f.prefixes == set x | x in StableUnique(protect) :: GlobPrefix(host.normpath, x);
    assert f.masks == set x | x in StableUnique(mask) :: GlobPrefix(host.normpath, x);
    if UnderAny(loc, f.prefixes) {
      var p :| p in f.prefixes && StartsWith(loc, p);
      var x :| x in StableUnique(protect) && p == GlobPrefix(host.normpath, x);
      assert x in protect;
    }
    if exists x :: x in protect && StartsWith(loc, GlobPrefix(host.normpath, x)) {
      var x :| x in protect && StartsWith(loc, GlobPrefix(host.normpath, x));
      assert GlobPrefix(host.normpath, x) in f.prefixes;
    }
    if UnderAny(loc, f.masks) {
      var p :| p in f.masks && StartsWith(loc, p);
      var x :| x in StableUnique(mask) && p == GlobPrefix(host.normpath, x);
      assert x in mask;
    }
    if exists x :: x in mask && StartsWith(loc, GlobPrefix(host.normpath, x)) {
      var x :| x in mask && StartsWith(loc, GlobPrefix(host.normpath, x));
      assert GlobPrefix(host.normpath, x) in f.masks;
    }
  }

  /** `/etc` is always protected, whatever env.d says, unless a mask covers the location. */
  lemma EtcAlwaysProtected(host: Host, extraProtects: seq<string>, extraDisables: seq<string>, loc: string)
    requires ConfigProtectFilter(host, extraProtects, extraDisables).Ok?
    requires StartsWith(loc, GlobPrefix(host.normpath, "/etc"))
    requires !UnderAny(loc, ConfigProtectFilter(host, extraProtects, extraDisables).value.masks)
    ensures IsProtected(ConfigProtectFilter(host, extraProtects, extraDisables).value, loc)
  {
    var protect := Setting(host, "CONFIG_PROTECT") + extraProtects + ["/etc"];
    assert "/etc" in protect;
    ProtectedIff(host, extraProtects, extraDisables, loc);
  }

  /** The collision-ignore patterns, in order. */
  datatype IgnoreFilter = IgnoreFilter(patterns: seq<string>)

  /** The filter's `match`: some pattern matches the location. */
  predicate IsIgnored(f: IgnoreFilter, fnmatch: (string, string) -> bool, loc: string) {
    exists p :: p in f.patterns && fnmatch(loc, p)
  }

  const KeepPatterns: seq<string> := ["*/.keep", "*/.keep_*"]

  /** A pattern that `gen_collision_ignore_filter` would turn into a directory glob. */
  predicate NeedsDirGlob(isDir: string -> bool, x: string) {
    !EndsWith(x, "/*") && isDir(x)
  }

  /**
   * `gen_collision_ignore_filter(offset, extra_ignores)`. A pattern that
   * names an existing directory is meant to become a glob over its contents, but the code
   * calls `rstrip` on the list instead of the pattern, so such a pattern
   * makes the whole filter fail with `AttributeError`.
   */
  function CollisionIgnoreFilter(host: Host, extraIgnores: seq<string>): (r: Result<IgnoreFilter, FilterError>)
    ensures host.envd.Err? ==> r == Err(EnvdFailed(host.envd.error))
  {
    if host.envd.Err? then Err(EnvdFailed(host.envd.error))
    else match ListSetting(host.envd.value.env, "COLLISION_IGNORE")
      case Err(e) => Err(e)
      case Ok(base) =>
        var ignored := StableUnique(base + extraIgnores + KeepPatterns);
        if exists x :: x in ignored && NeedsDirGlob(host.isDir, x) then Err(ListHasNoRstrip)
        else Ok(IgnoreFilter(ignored))
  }

  /**
   * Once env.d is readable and `COLLISION_IGNORE` is a list, the ignore filter
   * fails exactly when some pattern without the trailing slash-star is a directory; when it
   * is built, the `.keep` patterns are always among its patterns.
   */
  lemma IgnoreFilterShape(host: Host, extraIgnores: seq<string>)
    requires host.envd.Ok? && ListSetting(host.envd.value.env, "COLLISION_IGNORE").Ok?
    ensures var all := Setting(host, "COLLISION_IGNORE") + extraIgnores + KeepPatterns;
      CollisionIgnoreFilter(host, extraIgnores).Err? <==> exists x :: x in all && NeedsDirGlob(host.isDir, x)
    ensures CollisionIgnoreFilter(host, extraIgnores).Ok? ==>
      forall p :: p in KeepPatterns ==> p in CollisionIgnoreFilter(host, extraIgnores).value.patterns
  {
    var all := Setting(host, "COLLISION_IGNORE") + extraIgnores + KeepPatterns;
    assert forall x :: x in KeepPatterns ==> x in all;
  }

  /** A location the config-protect triggers handle: protected and not ignored. */
  predicate Selected(pf: ProtectFilter, igf: IgnoreFilter, fnmatch: (string, string) -> bool, loc: string) {
    !IsIgnored(igf, fnmatch, loc) && IsProtected(pf, loc)
  }

  // ---------------------------------------------------------------------
  // ConfigProtectUninstall
  // ---------------------------------------------------------------------

  datatype TriggerError =
    | Filter(e: FilterError)
    | MissingEntry(location: string)          // `KeyError` from `cset[x]`, `remove` or `del`
    | ChksumIo(location: string, errno: nat)  // reading the live file's checksums failed
    | ListingFailed(dir: string, errno: nat)  // `listdir_files` failed other than with ENOENT

  /**
   * The live entry's checksums are read lazily: only when the recorded entry
   * has some checksum to compare. An unreadable file is tolerated for ENOENT
   * and ENOTDIR and propagates otherwise.
   */
  function UninstallRemovals(existing: Cset, uninstall: Cset, order: seq<string>, pf: ProtectFilter, igf: IgnoreFilter,
                             fnmatch: (string, string) -> bool, ioErr: string -> Option<nat>): (r: Result<seq<string>, TriggerError>)
    requires forall l :: l in order ==> l in existing
    ensures r.Ok? ==> forall l :: l in r.value ==> l in order && l in uninstall
    decreases |order|
  {
    if order == [] then Ok([])
    else
      var init := order[..|order| - 1];
      assert forall l :: l in init ==> l in order;
      RemovalStep(existing, uninstall, UninstallRemovals(existing, uninstall, init, pf, igf, fnmatch, ioErr),
                  order[|order| - 1], pf, igf, fnmatch, ioErr)
  }

  /** What one more file does to the removals collected so far. */
  function RemovalStep(existing: Cset, uninstall: Cset, prev: Result<seq<string>, TriggerError>, l: string, pf: ProtectFilter,
                       igf: IgnoreFilter, fnmatch: (string, string) -> bool, ioErr: string -> Option<nat>)
    : (r: Result<seq<string>, TriggerError>)
    requires l in existing
    ensures r.Ok? ==> prev.Ok? && forall x :: x in r.value ==> x in prev.value || (x == l && l in uninstall)
  {
    if prev.Err? || !Selected(pf, igf, fnmatch, l) then prev
    else if l !in uninstall then Err(MissingEntry(l))
    else if uninstall[l].chksums != map[] && ioErr(l).Some? then
      var e := ioErr(l).value;
      if e == ENOENT || e == ENOTDIR then prev else Err(ChksumIo(l, e))
    else if !ChksumEquivalent(uninstall[l].chksums, existing[l].chksums) then Ok(prev.value + [l])
    else prev
  }

  lemma RemovalsSnoc(existing: Cset, uninstall: Cset, order: seq<string>, k: nat, pf: ProtectFilter, igf: IgnoreFilter,
                     fnmatch: (string, string) -> bool, ioErr: string -> Option<nat>)
    requires forall l :: l in order ==> l in existing
    requires k < |order|
    ensures UninstallRemovals(existing, uninstall, order[..k + 1], pf, igf, fnmatch, ioErr) ==
      RemovalStep(existing, uninstall, UninstallRemovals(existing, uninstall, order[..k], pf, igf, fnmatch, ioErr),
                  order[k], pf, igf, fnmatch, ioErr)
  {
    assert order[..k + 1][..k] == order[..k];
  }

  /** The files `ConfigProtectUninstall` keeps on disk: protected, not ignored, and changed since they were recorded. */
  predicate KeptOnDisk(existing: Cset, uninstall: Cset, pf: ProtectFilter, igf: IgnoreFilter,
                       fnmatch: (string, string) -> bool, ioErr: string -> Option<nat>, l: string)
    requires l in existing && l in uninstall
  {
    Selected(pf, igf, fnmatch, l) &&
    (uninstall[l].chksums == map[] || ioErr(l).None?) &&
    !ChksumEquivalent(uninstall[l].chksums, existing[l].chksums)
  }

  /**
   * When it succeeds, `ConfigProtectUninstall` withdraws from the uninstall
   * set exactly the listed files that are protected, not ignored, readable
   * and whose live checksums differ from the record.
   */
  lemma {:induction false} UninstallRemovesExactly(existing: Cset, uninstall: Cset, order: seq<string>, pf: ProtectFilter,
                                                   igf: IgnoreFilter, fnmatch: (string, string) -> bool,
                                                   ioErr: string -> Option<nat>, l: string)
    requires forall l :: l in order ==> l in existing
    requires UninstallRemovals(existing, uninstall, order, pf, igf, fnmatch, ioErr).Ok?
    ensures l in UninstallRemovals(existing, uninstall, order, pf, igf, fnmatch, ioErr).value <==>
      l in order && l in uninstall && KeptOnDisk(existing, uninstall, pf, igf, fnmatch, ioErr, l)
    decreases |order|
  {
    if order != [] {
      var init := order[..|order| - 1];
      assert order == init + [order[|order| - 1]];
      UninstallRemovesExactly(existing, uninstall, init, pf, igf, fnmatch, ioErr, l);
    }
  }

  /** Every selected file must be in the uninstall set, else the trigger fails with `KeyError`. */
  lemma {:induction false} UninstallNeedsRecords(existing: Cset, uninstall: Cset, order: seq<string>, pf: ProtectFilter,
                                                 igf: IgnoreFilter, fnmatch: (string, string) -> bool,
                                                 ioErr: string -> Option<nat>, l: string)
    requires forall l :: l in order ==> l in existing
    requires l in order && Selected(pf, igf, fnmatch, l) && l !in uninstall
    ensures UninstallRemovals(existing, uninstall, order, pf, igf, fnmatch, ioErr).Err?
    decreases |order|
  {
    var init := order[..|order| - 1];
    assert order == init + [order[|order| - 1]];
    if l != order[|order| - 1] {
      UninstallNeedsRecords(existing, uninstall, init, pf, igf, fnmatch, ioErr, l);
    }
  }

  /** The filters every protect trigger builds first, in the order the source builds them. */
  function Filters(host: Host, extraProtects: seq<string>, extraDisables: seq<string>, extraIgnores: seq<string>)
    : (r: Result<(ProtectFilter, IgnoreFilter), TriggerError>)
    ensures r.Ok? ==> ConfigProtectFilter(host, extraProtects, extraDisables) == Ok(r.value.0)
    ensures r.Ok? ==> CollisionIgnoreFilter(host, extraIgnores) == Ok(r.value.1)
  {
    match ConfigProtectFilter(host, extraProtects, extraDisables)
    case Err(e) => Err(Filter(e))
    case Ok(pf) =>
      match CollisionIgnoreFilter(host, extraIgnores)
      case Err(e) => Err(Filter(e))
      case Ok(igf) => Ok((pf, igf))
  }

  const ConfigProtectUninstallTrigger: Trigger :=
    Trigger("ConfigProtectUninstall", None, Some(["pre_unmerge"]), None, Named(["uninstall_existing", "uninstall"]), 50)

  const UninstallIgnoreTrigger: Trigger :=
    Trigger("UninstallIgnore", None, Some(["pre_unmerge"]), None, Named(["uninstall_existing", "uninstall"]), 50)

  /** `ConfigProtectUninstall.trigger`: the whole effect on the uninstall set. */
  function ConfigProtectUninstallSpec(existing: Cset, uninstall: Cset, order: seq<string>, host: Host, ioErr: string -> Option<nat>)
    : Result<Cset, TriggerError>
    requires forall l :: l in order ==> l in existing
  {
    match Filters(host, [], [], [])
    case Err(e) => Err(e)
    case Ok((pf, igf)) =>
      match UninstallRemovals(existing, uninstall, order, pf, igf, host.fnmatch, ioErr)
      case Err(e) => Err(e)
      case Ok(rm) => Ok(uninstall - (set l | l in rm))
  }

  /**
   * The first loop of `ConfigProtectUninstall.trigger`: it looks at every
   * file and collects the ones to withdraw, changing nothing yet.
   */
  method CollectRemovals(existing: Cset, uninstall: ContentSet, order: seq<string>, pf: ProtectFilter, igf: IgnoreFilter,
                         fnmatch: (string, string) -> bool, ioErr: string -> Option<nat>)
    returns (r: Result<seq<string>, TriggerError>)
    requires forall l :: l in order ==> l in existing
    ensures r == UninstallRemovals(existing, uninstall.entries, order, pf, igf, fnmatch, ioErr)
  {
    var remove: seq<string> := [];
    var k := 0;
    while k < |order|
      invariant 0 <= k <= |order|
      invariant UninstallRemovals(existing, uninstall.entries, order[..k], pf, igf, fnmatch, ioErr) == Ok(remove)
    {
      var l := order[k];
      RemovalsSnoc(existing, uninstall.entries, order, k, pf, igf, fnmatch, ioErr);
      if Selected(pf, igf, fnmatch, l) {
        var recorded := uninstall.Get(l);
        if recorded.None? {
          UninstallErrSticks(existing, uninstall.entries, order, k + 1, pf, igf, fnmatch, ioErr);
          return Err(MissingEntry(l));
        }
        var differs := true;
        var readErr := if recorded.value.chksums != map[] then ioErr(l) else None;
        if readErr.Some? {
          if readErr.value != ENOENT && readErr.value != ENOTDIR {
            UninstallErrSticks(existing, uninstall.entries, order, k + 1, pf, igf, fnmatch, ioErr);
            return Err(ChksumIo(l, readErr.value));
          }
          differs := false;
        } else {
          var same := SimpleChksumCompare(recorded.value.chksums, existing[l].chksums);
          differs := !same;
        }
        if differs {
          remove := remove + [l];
        }
      }
      k := k + 1;
    }
    assert order[..k] == order;
    return Ok(remove);
  }

  /**
   * `ConfigProtectUninstall.trigger` over the regular files of the existing
   * set, listed by `order`. The removals happen only after every file was
   * looked at, so a failure leaves the uninstall set untouched.
   */
  method ConfigProtectUninstall(existing: Cset, uninstall: ContentSet, order: seq<string>, host: Host, ioErr: string -> Option<nat>)
    returns (err: Option<TriggerError>)
    requires Enumerates(order, OfKind(existing, Regular))
    requires uninstall.Valid()
    modifies uninstall
    ensures uninstall.Valid()
    ensures forall l :: l in order ==> l in existing
    ensures match ConfigProtectUninstallSpec(existing, old(uninstall.entries), order, host, ioErr)
      case Ok(m) => err.None? && uninstall.entries == m
      case Err(e) => err == Some(e) && uninstall.entries == old(uninstall.entries)
  {
    assert forall l :: l in order ==> l in existing;
    var filters := Filters(host, [], [], []);
    if filters.Err? {
      return Some(filters.error);
    }
    var (pf, igf) := filters.value;
    var removals := CollectRemovals(existing, uninstall, order, pf, igf, host.fnmatch, ioErr);
    if removals.Err? {
      return Some(removals.error);
    }
    // Each `del uninstall_cset[x]` finds its entry: the removals are distinct
    // locations that were just looked up.
    uninstall.DifferenceUpdate(removals.value);
    return None;
  }

  /** A failure on a prefix of the files is the failure of the whole run. */
  lemma {:induction false} UninstallErrSticks(existing: Cset, uninstall: Cset, order: seq<string>, n: nat, pf: ProtectFilter,
                                              igf: IgnoreFilter, fnmatch: (string, string) -> bool, ioErr: string -> Option<nat>)
    requires forall l :: l in order ==> l in existing
    requires n <= |order|
    requires UninstallRemovals(existing, uninstall, order[..n], pf, igf, fnmatch, ioErr).Err?
    ensures UninstallRemovals(existing, uninstall, order, pf, igf, fnmatch, ioErr) ==
            UninstallRemovals(existing, uninstall, order[..n], pf, igf, fnmatch, ioErr)
    decreases |order| - n
  {
    if n < |order| {
      assert order[..n + 1][..n] == order[..n];
      UninstallErrSticks(existing, uninstall, order, n + 1, pf, igf, fnmatch, ioErr);
    } else {
      assert order[..n] == order;
    }
  }

  // ---------------------------------------------------------------------
  // UninstallIgnore
  // ---------------------------------------------------------------------

  /** The regular files, in `order`, that some `UNINSTALL_IGNORE` pattern matches. */
  function IgnoredFiles(order: seq<string>, patterns: seq<string>, fnmatch: (string, string) -> bool): (r: seq<string>)
    ensures forall l :: l in r <==> l in order && exists p :: p in patterns && fnmatch(l, p)
    decreases |order|
  {
    if order == [] then []
    else
      var l := order[|order| - 1];
      assert order == order[..|order| - 1] + [l];
      IgnoredFiles(order[..|order| - 1], patterns, fnmatch) +
        (if exists p :: p in patterns && fnmatch(l, p) then [l] else [])
  }

  /** `del cset[x]` for each location in turn, stopping with `KeyError` at the first absent one. */
  function DeleteEach(m: Cset, ls: seq<string>): (r: (Cset, Option<string>))
    decreases |ls|
  {
    if ls == [] then (m, None)
    else
      var prev := DeleteEach(m, ls[..|ls| - 1]);
      var l := ls[|ls| - 1];
      if prev.1.Some? then prev
      else if l !in prev.0 then (prev.0, Some(l))
      else (prev.0 - {l}, None)
  }

  /** Deleting distinct locations that are all present removes exactly them, and nothing fails. */
  lemma {:induction false} DeleteEachPresent(m: Cset, ls: seq<string>)
    requires forall i, j :: 0 <= i < j < |ls| ==> ls[i] != ls[j]
    requires forall l :: l in ls ==> l in m
    ensures DeleteEach(m, ls) == (m - (set l | l in ls), None)
    decreases |ls|
  {
    if ls != [] {
      var init := ls[..|ls| - 1];
      var l := ls[|ls| - 1];
      assert ls == init + [l];
      assert l !in init;
      DeleteEachPresent(m, init);
      assert ls[..|ls| - 1] == init;
      var before := m - (set x | x in init);
      assert l in before;
      DropOneMore(m, init, l);
    } else {
      assert (set x | x in ls) == {};
      assert m - {} == m;
    }
  }

  lemma DropOneMore(m: Cset, init: seq<string>, l: string)
    ensures (m - (set x | x in init)) - {l} == m - (set x | x in init + [l])
  {
    var a := (m - (set x | x in init)) - {l};
    var b := m - (set x | x in init + [l]);
    forall y ensures y in a <==> y in b {
      assert y in init + [l] <==> y in init || y == l;
    }
    assert a.Keys == b.Keys;
  }

  /**
   * `UninstallIgnore.trigger`: every regular file of the existing set that an
   * ignore pattern matches is deleted from the uninstall set; a match missing
   * from the uninstall set stops the trigger with `KeyError`, the deletions
   * before it having happened.
   */
  method UninstallIgnore(existing: Cset, uninstall: ContentSet, order: seq<string>, patterns: seq<string>,
                         fnmatch: (string, string) -> bool) returns (missing: Option<string>)
    requires Enumerates(order, OfKind(existing, Regular))
    requires uninstall.Valid()
    modifies uninstall
    ensures uninstall.Valid()
    ensures (uninstall.entries, missing) == DeleteEach(old(uninstall.entries), IgnoredFiles(order, patterns, fnmatch))
  {
    var remove := IgnoredFiles(order, patterns, fnmatch);
    var k := 0;
    while k < |remove|
      invariant 0 <= k <= |remove|
      invariant uninstall.Valid()
      invariant (uninstall.entries, None) == DeleteEach(old(uninstall.entries), remove[..k])
    {
      assert remove[..k + 1][..k] == remove[..k];
      ghost var before := uninstall.entries;
      var found := uninstall.Remove(remove[k]);
      if !found {
        assert uninstall.entries == before;
        assert remove[..k + 1][k] == remove[k];
        assert DeleteEach(old(uninstall.entries), remove[..k + 1]) == (uninstall.entries, Some(remove[k]));
        DeleteEachStops(old(uninstall.entries), remove, k + 1);
        return Some(remove[k]);
      }
      k := k + 1;
    }
    assert remove[..k] == remove;
    return None;
  }

  lemma {:induction false} DeleteEachStops(m: Cset, ls: seq<string>, n: nat)
    requires n <= |ls|
    requires DeleteEach(m, ls[..n]).1.Some?
    ensures DeleteEach(m, ls) == DeleteEach(m, ls[..n])
    decreases |ls| - n
  {
    if n < |ls| {
      assert ls[..n + 1][..n] == ls[..n];
      DeleteEachStops(m, ls, n + 1);
    } else {
      assert ls[..n] == ls;
    }
  }

  /** When every matched file is recorded, `UninstallIgnore` withdraws exactly the matched files. */
  lemma UninstallIgnoreRemovesMatches(existing: Cset, uninstall: Cset, order: seq<string>, patterns: seq<string>,
                                      fnmatch: (string, string) -> bool)
    requires Enumerates(order, OfKind(existing, Regular))
    requires forall l :: l in order && (exists p :: p in patterns && fnmatch(l, p)) ==> l in uninstall
    ensures DeleteEach(uninstall, IgnoredFiles(order, patterns, fnmatch)) ==
      (uninstall - (set l | l in existing && existing[l].kind == Regular && exists p :: p in patterns && fnmatch(l, p)), None)
  {
    var rm := IgnoredFiles(order, patterns, fnmatch);
    IgnoredFilesDistinct(order, patterns, fnmatch);
    assert forall i, j :: 0 <= i < j < |rm| ==> rm[i] != rm[j];
    DeleteEachPresent(uninstall, rm);
    assert (set l | l in rm) == set l | l in existing && existing[l].kind == Regular && exists p :: p in patterns && fnmatch(l, p);
  }

  lemma {:induction false} IgnoredFilesDistinct(order: seq<string>, patterns: seq<string>, fnmatch: (string, string) -> bool)
    requires forall i, j :: 0 <= i < j < |order| ==> order[i] != order[j]
    ensures forall i, j :: 0 <= i < j < |IgnoredFiles(order, patterns, fnmatch)| ==>
      IgnoredFiles(order, patterns, fnmatch)[i] != IgnoredFiles(order, patterns, fnmatch)[j]
    decreases |order|
  {
    if order != [] {
      var init := order[..|order| - 1];
      assert order == init + [order[|order| - 1]];
      assert order[|order| - 1] !in init;
      IgnoredFilesDistinct(init, patterns, fnmatch);
      assert order[|order| - 1] !in IgnoredFiles(init, patterns, fnmatch);
    }
  }
}
