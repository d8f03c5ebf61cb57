/**
 * `mtime_watcher` and the two triggers built on it (pkgcore/merge/triggers.py):
 * a snapshot of directory mtimes taken before a merge step and compared
 * after it. `stat` and `utime` act on a `Disk` object; mtimes and the clock
 * are whole seconds.
 */
module Mtime {
  import opened Wrappers
  import opened Errno
  import opened Text
  import Engine


  /** What `stat` reports for a location. */
  datatype Stat = StatFailed(errno: nat) | Found(isDir: bool, mtime: int)

  /**
   * The filesystem as `stat` and `utime` see it; a location it does not list
   * stats as ENOENT, and `denied` gives the errno `utime` raises at a location
   * whose mtime cannot be set.
   */
  class Disk {
    var stats: map<string, Stat>
    const denied: map<string, nat>

    constructor (stats: map<string, Stat>, denied: map<string, nat>)
      ensures this.stats == stats && this.denied == denied
    {
      this.stats := stats;
      this.denied := denied;
    }

    /** `os.utime`: sets one location's mtime, or raises and changes nothing. */
    method Utime(l: string, t: int) returns (err: Option<nat>)
      requires l in stats && stats[l].Found?
      modifies this
      ensures l in denied ==> err == Some(denied[l]) && stats == old(stats)
      ensures l !in denied ==> err.None? && stats == old(stats)[l := Found(old(stats)[l].isDir, t)]
    {
      if l in denied {
        return Some(denied[l]);
      }
      stats := stats[l := Found(stats[l].isDir, t)];
      return None;
    }
  }

  function StatOf(stats: map<string, Stat>, l: string): Stat
  {
    if l in stats then stats[l] else StatFailed(ENOENT)
  }

  /** The mtime `stat` reports, for a location that stats successfully. */
  function MtimeOf(stats: map<string, Stat>, l: string): int
  {
    match StatOf(stats, l)
    case Found(_, m) => m
    case StatFailed(_) => 0
  }

  predicate IsDirIn(stats: map<string, Stat>, l: string) {
    StatOf(stats, l).Found? && StatOf(stats, l).isDir
  }

  /** `_scan_mtimes`: the existing directories among `locations`, in order; a stat error other than ENOENT propagates. */
  function ScanDirs(locations: seq<string>, stats: map<string, Stat>): (r: Result<seq<string>, nat>)
    ensures r.Ok? ==> forall l :: l in r.value <==> l in locations && IsDirIn(stats, l)
    ensures r.Err? <==> exists l :: l in locations && StatOf(stats, l).StatFailed? && StatOf(stats, l).errno != ENOENT
    ensures r.Err? ==> r.error != ENOENT
  {
    if locations == [] then Ok([])
    else
      var l := locations[0];
      assert forall x :: x in locations <==> x == l || x in locations[1..];
      match StatOf(stats, l)
      case StatFailed(e) =>
        if e != ENOENT then Err(e) else ScanDirs(locations[1..], stats)
      case Found(isDir, _) =>
        match ScanDirs(locations[1..], stats)
        case Err(e) => Err(e)
        case Ok(rest) => Ok(if isDir then [l] + rest else rest)
  }

  /** The loop of `_scan_mtimes`, run to the end as `set_state` does. */
  method ScanMtimes(locations: seq<string>, stats: map<string, Stat>) returns (r: Result<seq<string>, nat>)
    ensures r == ScanDirs(locations, stats)
  {
    var dirs: seq<string> := [];
    var k := 0;
    assert locations[0..] == locations;
    assert ScanDirs(locations, stats).Ok? ==> [] + ScanDirs(locations, stats).value == ScanDirs(locations, stats).value;
    while k < |locations|
      invariant 0 <= k <= |locations|
      invariant ScanDirs(locations[k..], stats).Err? ==> ScanDirs(locations, stats) == ScanDirs(locations[k..], stats)
      invariant ScanDirs(locations[k..], stats).Ok? ==>
        ScanDirs(locations, stats) == Ok(dirs + ScanDirs(locations[k..], stats).value)
    {
      assert locations[k..][1..] == locations[k + 1..];
      var l := locations[k];
      var st := StatOf(stats, l);
      if st.StatFailed? {
        if st.errno != ENOENT {
          return Err(st.errno);
        }
      } else if st.isDir {
        var tail := ScanDirs(locations[k + 1..], stats);
        if tail.Ok? {
          assert dirs + ([l] + tail.value) == (dirs + [l]) + tail.value;
        }
        dirs := dirs + [l];
      }
      k := k + 1;
    }
    assert dirs + [] == dirs;
    return Ok(dirs);
  }

  /** `past = max(floor(now) - forced_past, 0)`. */
  function Past(now: int, forcedPast: int): (r: int)
    ensures r >= 0 && r >= now - forcedPast
  {
    if now - forcedPast > 0 then now - forcedPast else 0
  }

  /** The snapshot `set_state` saves: each scanned directory's mtime, clamped to `past`. */
  function Snapshot(dirs: seq<string>, stats: map<string, Stat>, past: int): (r: map<string, int>)
    ensures r.Keys == set l | l in dirs
    ensures forall l :: l in r ==> r[l] <= past && (r[l] == past || r[l] == MtimeOf(stats, l))
  {
    Clamped(stats, dirs, dirs, past)
  }

  /** The snapshot part way through the reset loop: only the mtimes of `done` are clamped so far. */
  function Clamped(stats: map<string, Stat>, dirs: seq<string>, done: seq<string>, past: int): (r: map<string, int>)
    ensures r.Keys == set l | l in dirs
  {
    map l | l in dirs :: if l in done && MtimeOf(stats, l) > past then past else MtimeOf(stats, l)
  }

  lemma ClampStep(stats: map<string, Stat>, dirs: seq<string>, done: seq<string>, x: string, past: int)
    requires x in dirs
    ensures Clamped(stats, dirs, done + [x], past) ==
      if MtimeOf(stats, x) > past then Clamped(stats, dirs, done, past)[x := past] else Clamped(stats, dirs, done, past)
  {
    assert forall l :: l in done + [x] <==> l in done || l == x;
  }

  lemma ResetStep(stats: map<string, Stat>, done: seq<string>, x: string, past: int)
    requires forall l :: l in done + [x] ==> IsDirIn(stats, l)
    ensures forall l :: l in done ==> IsDirIn(stats, l)
    ensures ResetDisk(stats, done + [x], past) ==
      if MtimeOf(stats, x) > past then ResetDisk(stats, done, past)[x := Found(true, past)] else ResetDisk(stats, done, past)
  {
    assert IsDirIn(stats, x);
    assert x in stats;
    var want := ResetDisk(stats, done + [x], past);
    var got := if MtimeOf(stats, x) > past then ResetDisk(stats, done, past)[x := Found(true, past)] else ResetDisk(stats, done, past);
    forall l | l in stats
      ensures want[l] == got[l]
    {
      assert l in done + [x] <==> l in done || l == x;
    }
    assert want == got;
  }

  /** The disk after `set_state`'s `utime` calls. */
  function ResetDisk(stats: map<string, Stat>, dirs: seq<string>, past: int): (r: map<string, Stat>)
    requires forall l :: l in dirs ==> IsDirIn(stats, l)
    ensures r.Keys == stats.Keys
  {
    map l | l in stats :: if l in dirs && MtimeOf(stats, l) > past then Found(true, past) else stats[l]
  }

  datatype ChangeError =
    | ScanFailed(errno: nat)  // a stat error other than ENOENT
    | UtimeFailed(location: string, errno: nat)  // `set_state` could not reset this directory's mtime
    | NoLocations            // iterating `None`: no locations given and none saved
    | NoSnapshot             // `x not in None`: compared before any `set_state`

  /** The directories `get_changes` yields when run to the end. */
  function Changes(saved: Option<map<string, int>>, locations: seq<string>, stats: map<string, Stat>): (r: Result<seq<string>, ChangeError>)
  {
    if locations == [] then Ok([])
    else
      var l := locations[0];
      match StatOf(stats, l)
      case StatFailed(e) =>
        if e != ENOENT then Err(ScanFailed(e)) else Changes(saved, locations[1..], stats)
      case Found(isDir, m) =>
        if !isDir then Changes(saved, locations[1..], stats)
        else if saved.None? then Err(NoSnapshot)
        else
          var changed := l !in saved.value || saved.value[l] != m;
          match Changes(saved, locations[1..], stats)
          case Err(e) => Err(e)
          case Ok(rest) => Ok(if changed then [l] + rest else rest)
  }

  /** A directory counts as changed when it is missing from the snapshot or its mtime differs. */
  predicate ChangedDir(saved: map<string, int>, stats: map<string, Stat>, l: string) {
    IsDirIn(stats, l) && (l !in saved || saved[l] != MtimeOf(stats, l))
  }

  /** `get_changes` yields a location iff it is a scanned directory that changed. */
  lemma {:induction false} ChangesExactly(saved: map<string, int>, locations: seq<string>, stats: map<string, Stat>, l: string)
    requires Changes(Some(saved), locations, stats).Ok?
    ensures l in Changes(Some(saved), locations, stats).value <==> l in locations && ChangedDir(saved, stats, l)
  {
    if locations != [] {
      ChangesExactly(saved, locations[1..], stats, l);
      assert l in locations <==> l == locations[0] || l in locations[1..];
    }
  }

  lemma ChangesExactlyAll(saved: Option<map<string, int>>, locations: seq<string>, stats: map<string, Stat>)
    ensures Changes(saved, locations, stats).Ok? && saved.Some? ==>
      forall l :: l in Changes(saved, locations, stats).value <==> l in locations && ChangedDir(saved.value, stats, l)
  {
    if Changes(saved, locations, stats).Ok? && saved.Some? {
      forall l
        ensures l in Changes(saved, locations, stats).value <==> l in locations && ChangedDir(saved.value, stats, l)
      {
        ChangesExactly(saved.value, locations, stats, l);
      }
    }
  }

  /** The loop of `check_state`: true at the first change, without scanning further. */
  function FirstChange(saved: Option<map<string, int>>, locations: seq<string>, stats: map<string, Stat>): Result<bool, ChangeError>
  {
    if locations == [] then Ok(false)
    else
      var l := locations[0];
      match StatOf(stats, l)
      case StatFailed(e) =>
        if e != ENOENT then Err(ScanFailed(e)) else FirstChange(saved, locations[1..], stats)
      case Found(isDir, m) =>
        if !isDir then FirstChange(saved, locations[1..], stats)
        else if saved.None? then Err(NoSnapshot)
        else if l !in saved.value || saved.value[l] != m then Ok(true)
        else FirstChange(saved, locations[1..], stats)
  }

  /** `check_state` is true iff `get_changes` yields anything. */
  lemma {:induction false} CheckStateAgrees(saved: Option<map<string, int>>, locations: seq<string>, stats: map<string, Stat>)
    requires Changes(saved, locations, stats).Ok?
    ensures FirstChange(saved, locations, stats) == Ok(|Changes(saved, locations, stats).value| > 0)
  {
    if locations != [] {
      var l := locations[0];
      match StatOf(stats, l)
      case StatFailed(e) =>
        CheckStateAgrees(saved, locations[1..], stats);
      case Found(isDir, m) =>
        if !isDir || (l in saved.value && saved.value[l] == m) {
          CheckStateAgrees(saved, locations[1..], stats);
        }
    }
  }

  lemma CheckStateAgreesWhenOk(saved: Option<map<string, int>>, locations: seq<string>, stats: map<string, Stat>)
    ensures Changes(saved, locations, stats).Ok? ==>
      FirstChange(saved, locations, stats) == Ok(|Changes(saved, locations, stats).value| > 0)
  {
    if Changes(saved, locations, stats).Ok? {
      CheckStateAgrees(saved, locations, stats);
    }
  }

  /** A directory whose mtime must be reset but whose `utime` raises. */
  predicate Blocked(stats: map<string, Stat>, denied: map<string, nat>, past: int, l: string) {
    MtimeOf(stats, l) > past && l in denied
  }

  /** The index of the first blocked directory, or `|dirs|` when `utime` succeeds on every reset. */
  function FirstBlocked(stats: map<string, Stat>, denied: map<string, nat>, past: int, dirs: seq<string>): (i: nat)
    ensures i <= |dirs|
    ensures forall j :: 0 <= j < i ==> !Blocked(stats, denied, past, dirs[j])
    ensures i < |dirs| ==> Blocked(stats, denied, past, dirs[i])
  {
    if dirs == [] then 0
    else if Blocked(stats, denied, past, dirs[0]) then 0
    else 1 + FirstBlocked(stats, denied, past, dirs[1..])
  }

  lemma FirstBlockedIs(stats: map<string, Stat>, denied: map<string, nat>, past: int, dirs: seq<string>, k: nat)
    requires k <= |dirs|
    requires forall j :: 0 <= j < k ==> !Blocked(stats, denied, past, dirs[j])
    requires k < |dirs| ==> Blocked(stats, denied, past, dirs[k])
    ensures FirstBlocked(stats, denied, past, dirs) == k
  {
  }

  /** One turn of the `set_state` reset loop, at `dirs[k]`. */
  method ClampOne(disk: Disk, stats0: map<string, Stat>, dirs: seq<string>, k: nat, past: int, cset: map<string, int>)
    returns (next: map<string, int>, err: Option<ChangeError>)
    requires k < |dirs|
    requires forall l :: l in dirs ==> IsDirIn(stats0, l)
    requires cset == Clamped(stats0, dirs, dirs[..k], past)
    requires disk.stats == ResetDisk(stats0, dirs[..k], past)
    modifies disk
    ensures Blocked(stats0, disk.denied, past, dirs[k]) ==>
      err == Some(UtimeFailed(dirs[k], disk.denied[dirs[k]])) && disk.stats == old(disk.stats)
    ensures !Blocked(stats0, disk.denied, past, dirs[k]) ==>
      err.None? && next == Clamped(stats0, dirs, dirs[..k + 1], past) &&
      disk.stats == ResetDisk(stats0, dirs[..k + 1], past)
  {
    var x := dirs[k];
    assert dirs[..k + 1] == dirs[..k] + [x];
    ClampStep(stats0, dirs, dirs[..k], x, past);
    ResetStep(stats0, dirs[..k], x, past);
    assert x in disk.stats && disk.stats[x].Found? && disk.stats[x].isDir;
    next := cset;
    err := None;
    if MtimeOf(stats0, x) > past {
      next := cset[x := past];
      var e := disk.Utime(x, past);
      if e.Some? {
        err := Some(UtimeFailed(x, e.value));
      }
    }
  }

  /**
   * The loop of `set_state` over the scanned directories: every mtime above
   * `past` is saved as `past` and set back to `past` on disk. A `utime` that
   * raises stops the loop with the directories before it already reset.
   */
  method ClampMtimes(disk: Disk, dirs: seq<string>, past: int) returns (cset: map<string, int>, err: Option<ChangeError>)
    requires forall l :: l in dirs ==> IsDirIn(disk.stats, l)
    modifies disk
    ensures FirstBlocked(old(disk.stats), disk.denied, past, dirs) == |dirs| ==>
      err.None? && cset == Snapshot(dirs, old(disk.stats), past) && disk.stats == ResetDisk(old(disk.stats), dirs, past)
    ensures var k := FirstBlocked(old(disk.stats), disk.denied, past, dirs);
      k < |dirs| ==> err == Some(UtimeFailed(dirs[k], disk.denied[dirs[k]])) &&
                     disk.stats == ResetDisk(old(disk.stats), dirs[..k], past)
  {
    var stats0 := disk.stats;
    var denied := disk.denied;
    cset := map l | l in dirs :: MtimeOf(stats0, l);
    var k := 0;
    assert dirs[..0] == [];
    assert cset == Clamped(stats0, dirs, dirs[..0], past);
    assert disk.stats == ResetDisk(stats0, dirs[..0], past);
    while k < |dirs|
      invariant 0 <= k <= |dirs|
      invariant forall j :: 0 <= j < k ==> !Blocked(stats0, denied, past, dirs[j])
      invariant cset == Clamped(stats0, dirs, dirs[..k], past)
      invariant disk.stats == ResetDisk(stats0, dirs[..k], past)
    {
      var next, e := ClampOne(disk, stats0, dirs, k, past, cset);
      if e.Some? {
        FirstBlockedIs(stats0, denied, past, dirs, k);
        return next, e;
      }
      cset := next;
      k := k + 1;
    }
    assert dirs[..k] == dirs;
    FirstBlockedIs(stats0, denied, past, dirs, k);
    err := None;
  }

  class MtimeWatcher {
    var saved: Option<map<string, int>>
    var locations: Option<seq<string>>

    constructor ()
      ensures saved.None? && locations.None?
    {
      saved := None;
      locations := None;
    }

    /** `__nonzero__`: a snapshot with at least one directory. */
    predicate HasSnapshot()
      reads this
    {
      saved.Some? && |saved.value| > 0
    }

    /**
     * `set_state`: remembers the locations, snapshots the directories among
     * them and pulls any mtime above `past` back to `past`, on disk too.
     */
    method SetState(locs: seq<string>, disk: Disk, now: int, forcedPast: int) returns (err: Option<ChangeError>)
      modifies this, disk
      ensures locations == Some(locs)
      ensures ScanDirs(locs, old(disk.stats)).Err? ==>
        err == Some(ScanFailed(ScanDirs(locs, old(disk.stats)).error)) &&
        saved == old(saved) && disk.stats == old(disk.stats)
      ensures ScanDirs(locs, old(disk.stats)).Ok? ==>
        var dirs := ScanDirs(locs, old(disk.stats)).value;
        var past := Past(now, forcedPast);
        var k := FirstBlocked(old(disk.stats), disk.denied, past, dirs);
        (k == |dirs| ==> err.None? &&
                         saved == Some(Snapshot(dirs, old(disk.stats), past)) &&
                         disk.stats == ResetDisk(old(disk.stats), dirs, past)) &&
        (k < |dirs| ==> err == Some(UtimeFailed(dirs[k], disk.denied[dirs[k]])) &&
                        saved == old(saved) && disk.stats == ResetDisk(old(disk.stats), dirs[..k], past))
    {
      locations := Some(locs);
      var scanned := ScanMtimes(locs, disk.stats);
      if scanned.Err? {
        return Some(ScanFailed(scanned.error));
      }
      var cset, e := ClampMtimes(disk, scanned.value, Past(now, forcedPast));
      if e.Some? {
        return e;
      }
      saved := Some(cset);
      return None;
    }

    /** `get_changes`, falling back to the saved locations. */
    function GetChanges(locs: Option<seq<string>>, stats: map<string, Stat>): (r: Result<seq<string>, ChangeError>)
      reads this
      ensures (locs.None? && locations.None?) ==> r == Err(NoLocations)
      ensures r.Ok? && saved.Some? ==>
        forall l :: l in r.value <==>
          l in (if locs.Some? then locs.value else locations.value) && ChangedDir(saved.value, stats, l)
    {
      var ls := if locs.Some? then locs else locations;
      if ls.None? then Err(NoLocations)
      else
        ChangesExactlyAll(saved, ls.value, stats);
        Changes(saved, ls.value, stats)
    }

    /** `check_state`: whether `get_changes` yields anything, stopping at the first change. */
    function CheckState(locs: Option<seq<string>>, stats: map<string, Stat>): (r: Result<bool, ChangeError>)
      reads this
      ensures GetChanges(locs, stats).Ok? ==> r == Ok(|GetChanges(locs, stats).value| > 0)
      ensures (locs.None? && locations.None?) ==> r == Err(NoLocations)
    {
      var ls := if locs.Some? then locs else locations;
      if ls.None? then Err(NoLocations)
      else
        CheckStateAgreesWhenOk(saved, ls.value, stats);
        FirstChange(saved, ls.value, stats)
    }
  }

  /** Every mtime `set_state` saves is at most `past`; one above it was reset to `past` in the snapshot and on disk. */
  lemma SnapshotClamped(locs: seq<string>, stats: map<string, Stat>, now: int, forcedPast: int, l: string)
    requires ScanDirs(locs, stats).Ok?
    requires l in locs && IsDirIn(stats, l)
    ensures var dirs := ScanDirs(locs, stats).value;
      var past := Past(now, forcedPast);
      l in Snapshot(dirs, stats, past) &&
      Snapshot(dirs, stats, past)[l] <= past &&
      (stats[l].mtime > past ==>
        Snapshot(dirs, stats, past)[l] == past && ResetDisk(stats, dirs, past)[l] == Found(true, past)) &&
      (stats[l].mtime <= past ==>
        Snapshot(dirs, stats, past)[l] == stats[l].mtime && ResetDisk(stats, dirs, past)[l] == stats[l])
  {
  }

  /**
   * The race guard: right after `set_state`, a rescan of the same locations
   * on the reset disk reports nothing, so any change seen later is real.
   */
  lemma {:induction false} NoChangeAfterSetState(locs: seq<string>, stats: map<string, Stat>, past: int)
    requires ScanDirs(locs, stats).Ok?
    ensures var dirs := ScanDirs(locs, stats).value;
      Changes(Some(Snapshot(dirs, stats, past)), locs, ResetDisk(stats, dirs, past)) == Ok([])
  {
    var dirs := ScanDirs(locs, stats).value;
    var after := ResetDisk(stats, dirs, past);
    var snap := Snapshot(dirs, stats, past);
    forall l | l in locs
      ensures StatOf(after, l).StatFailed? ==> StatOf(after, l) == StatOf(stats, l)
      ensures StatOf(after, l).Found? && StatOf(after, l).isDir ==> l in snap && snap[l] == StatOf(after, l).mtime
    {
    }
    NoChangeOn(snap, locs, after, stats);
  }

  lemma {:induction false} NoChangeOn(snap: map<string, int>, locs: seq<string>, after: map<string, Stat>, before: map<string, Stat>)
    requires forall l :: l in locs && StatOf(after, l).StatFailed? ==> StatOf(after, l) == StatOf(before, l)
    requires forall l :: l in locs && StatOf(after, l).Found? && StatOf(after, l).isDir ==>
      l in snap && snap[l] == StatOf(after, l).mtime
    requires ScanDirs(locs, before).Ok?
    ensures Changes(Some(snap), locs, after) == Ok([])
  {
    if locs != [] {
      var l := locs[0];
      if StatOf(before, l).Found? {
        assert ScanDirs(locs[1..], before).Ok?;
      }
      NoChangeOn(snap, locs[1..], after, before);
    }
  }

  // ---- ldconfig ----

  const DefaultLdPath: seq<string> := ["usr/lib", "usr/lib64", "usr/lib32", "lib", "lib64", "lib32"]

  /** The library directories `read_ld_so_conf` yields, and whether it had to create the missing conf file. */
  datatype LdConf = LdConf(locations: seq<string>, createdConf: bool)

  /**
   * `read_ld_so_conf`: the conf lines (as read) joined under the offset; a
   * missing file falls back to the default list; any other read error propagates.
   */
  function ReadLdSoConf(offset: string, conf: Result<seq<string>, nat>): (r: Result<LdConf, nat>)
    ensures conf.Err? && conf.error != ENOENT ==> r == Err(conf.error)
    ensures conf.Err? && conf.error == ENOENT ==>
      r.Ok? && r.value.createdConf && |r.value.locations| == |DefaultLdPath| &&
      forall i :: 0 <= i < |DefaultLdPath| ==> r.value.locations[i] == PathJoin(offset, DefaultLdPath[i])
    ensures conf.Ok? ==>
      r.Ok? && !r.value.createdConf && |r.value.locations| == |conf.value| &&
      forall i :: 0 <= i < |conf.value| ==> r.value.locations[i] == PathJoin(offset, LStrip(conf.value[i], '/'))
  {
    match conf
    case Err(e) =>
      if e != ENOENT then Err(e)
      else Ok(LdConf(seq(|DefaultLdPath|, i requires 0 <= i < |DefaultLdPath| => PathJoin(offset, DefaultLdPath[i])), true))
    case Ok(lines) =>
      Ok(LdConf(seq(|lines|, i requires 0 <= i < |lines| => PathJoin(offset, LStrip(lines[i], '/'))), false))
  }

  datatype TriggerError = ConfError(errno: nat) | Watch(e: ChangeError)

  /**
   * `ldconfig.trigger`: in a `pre_` phase, snapshot the library directories;
   * otherwise report whether `ldconfig` must be rerun, which is exactly when
   * `check_state` sees a change.
   */
  method LdconfigTrigger(watcher: MtimeWatcher, disk: Disk, offset: string, phase: string,
                         conf: Result<seq<string>, nat>, now: int) returns (r: Result<bool, TriggerError>)
    modifies watcher, disk
    ensures ReadLdSoConf(offset, conf).Err? ==>
      r == Err(ConfError(conf.error)) &&
      watcher.saved == old(watcher.saved) && watcher.locations == old(watcher.locations) && disk.stats == old(disk.stats)
    ensures ReadLdSoConf(offset, conf).Ok? && StartsWith(phase, "pre_") ==>
      var locs := ReadLdSoConf(offset, conf).value.locations;
      var dirs := ScanDirs(locs, old(disk.stats));
      var past := Past(now, 2);
      watcher.locations == Some(locs) &&
      (dirs.Err? ==> r == Err(Watch(ScanFailed(dirs.error))) &&
                     watcher.saved == old(watcher.saved) && disk.stats == old(disk.stats)) &&
      (dirs.Ok? && FirstBlocked(old(disk.stats), disk.denied, past, dirs.value) == |dirs.value| ==>
                    r == Ok(false) &&
                    watcher.saved == Some(Snapshot(dirs.value, old(disk.stats), past)) &&
                    disk.stats == ResetDisk(old(disk.stats), dirs.value, past)) &&
      (dirs.Ok? && FirstBlocked(old(disk.stats), disk.denied, past, dirs.value) < |dirs.value| ==>
                    var k := FirstBlocked(old(disk.stats), disk.denied, past, dirs.value);
                    r == Err(Watch(UtimeFailed(dirs.value[k], disk.denied[dirs.value[k]]))) &&
                    watcher.saved == old(watcher.saved) &&
                    disk.stats == ResetDisk(old(disk.stats), dirs.value[..k], past))
    ensures !StartsWith(phase, "pre_") ==>
      watcher.saved == old(watcher.saved) && watcher.locations == old(watcher.locations) && disk.stats == old(disk.stats)
    ensures ReadLdSoConf(offset, conf).Ok? && !StartsWith(phase, "pre_") ==>
      var locs := ReadLdSoConf(offset, conf).value.locations;
      match watcher.CheckState(Some(locs), disk.stats)
      case Ok(b) => r == Ok(b)
      case Err(e) => r == Err(Watch(e))
  {
    var ld := ReadLdSoConf(offset, conf);
    if ld.Err? {
      return Err(ConfError(ld.error));
    }
    var locations := ld.value.locations;
    if StartsWith(phase, "pre_") {
      var err := watcher.SetState(locations, disk, now, 2);
      if err.Some? {
        return Err(Watch(err.value));
      }
      return Ok(false);
    }
    var changed := watcher.CheckState(Some(locations), disk.stats);
    if changed.Err? {
      return Err(Watch(changed.error));
    }
    return Ok(changed.value);
  }

  // ---- InfoRegen ----

  const InfoRegenLabel := "gnu info regen"
  const InfoLocations: seq<string> := ["/usr/share/info"]

  /**
   * The directories `InfoRegen.trigger` regenerates after a merge step: the
   * changed ones plus any lacking a `dir` index (`hasIndex` lists the
   * locations that are regular files).
   */
  function InfoRegens(changed: seq<string>, locs: seq<string>, hasIndex: set<string>): (r: set<string>)
    ensures forall l :: l in r <==> l in changed || (l in locs && PathJoin(l, "dir") !in hasIndex)
  {
    (set l | l in changed) + (set l | l in locs && PathJoin(l, "dir") !in hasIndex)
  }

  function InfoLocs(offset: string, locations: seq<string>): (r: seq<string>)
    ensures |r| == |locations|
    ensures forall i :: 0 <= i < |locations| ==> r[i] == PathJoin(offset, LStrip(locations[i], '/'))
  {
    seq(|locations|, i requires 0 <= i < |locations| => PathJoin(offset, LStrip(locations[i], '/')))
  }

  lemma PostMergeIsNotPre()
    ensures !StartsWith("post_merge", "pre_")
  {
    assert "post_merge"[..4][1] == 'o';
  }

  /**
   * `InfoRegen.trigger`: nothing without the `install-info` binary; in a
   * `pre_` phase a snapshot; skipped for `post_merge` of a replace;
   * otherwise the set of directories to regenerate.
   */
  method InfoRegenTrigger(watcher: MtimeWatcher, disk: Disk, offset: string, phase: string, mode: Engine.Mode,
                          binaryFound: bool, locations: seq<string>, hasIndex: set<string>, now: int)
    returns (r: Result<set<string>, ChangeError>)
    modifies watcher, disk
    ensures !binaryFound ==>
      r == Ok({}) &&
      watcher.saved == old(watcher.saved) && watcher.locations == old(watcher.locations) && disk.stats == old(disk.stats)
    ensures binaryFound && StartsWith(phase, "pre_") ==>
      var locs := InfoLocs(offset, locations);
      var dirs := ScanDirs(locs, old(disk.stats));
      var past := Past(now, 2);
      watcher.locations == Some(locs) &&
      (dirs.Err? ==> r == Err(ScanFailed(dirs.error)) &&
                     watcher.saved == old(watcher.saved) && disk.stats == old(disk.stats)) &&
      (dirs.Ok? && FirstBlocked(old(disk.stats), disk.denied, past, dirs.value) == |dirs.value| ==>
                    r == Ok({}) &&
                    watcher.saved == Some(Snapshot(dirs.value, old(disk.stats), past)) &&
                    disk.stats == ResetDisk(old(disk.stats), dirs.value, past)) &&
      (dirs.Ok? && FirstBlocked(old(disk.stats), disk.denied, past, dirs.value) < |dirs.value| ==>
                    var k := FirstBlocked(old(disk.stats), disk.denied, past, dirs.value);
                    r == Err(UtimeFailed(dirs.value[k], disk.denied[dirs.value[k]])) &&
                    watcher.saved == old(watcher.saved) &&
                    disk.stats == ResetDisk(old(disk.stats), dirs.value[..k], past))
    ensures phase == "post_merge" && mode == Engine.ReplaceMode ==> r == Ok({})
    ensures !StartsWith(phase, "pre_") ==>
      watcher.saved == old(watcher.saved) && watcher.locations == old(watcher.locations) && disk.stats == old(disk.stats)
    ensures binaryFound && !StartsWith(phase, "pre_") && !(phase == "post_merge" && mode == Engine.ReplaceMode) ==>
      var locs := InfoLocs(offset, locations);
      match watcher.GetChanges(Some(locs), disk.stats)
      case Ok(changed) => r == Ok(InfoRegens(changed, locs, hasIndex))
      case Err(e) => r == Err(e)
  {
    PostMergeIsNotPre();
    if !binaryFound {
      return Ok({});
    }
    var locs := InfoLocs(offset, locations);
    if StartsWith(phase, "pre_") {
      var err := watcher.SetState(locs, disk, now, 2);
      if err.Some? {
        return Err(err.value);
      }
      return Ok({});
    } else if phase == "post_merge" && mode == Engine.ReplaceMode {
      return Ok({});
    }
    var changes := watcher.GetChanges(Some(locs), disk.stats);
    if changes.Err? {
      return Err(changes.error);
    }
    return Ok(InfoRegens(changes.value, locs, hasIndex));
  }
}
