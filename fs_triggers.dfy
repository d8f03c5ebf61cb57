/**
 * The triggers of pkgcore/merge/triggers.py that inspect or rewrite one
 * content set: base-system unmerge protection, uid/gid fixing, set-bit and
 * world-writable checks, pruning and the common-directory mode check.
 * `order` is the order the set happens to iterate in; `observer` says
 * whether the engine has one. Messages an observer would receive are
 * returned as `Notice`s.
 */
module FsTriggers {
  import opened Wrappers
  import opened Text
  import opened Contents
  import opened Engine

  const S_ISUID: bv32 := 0x800   // 04000
  const S_ISGID: bv32 := 0x400   // 02000
  const S_IWOTH: bv32 := 0x2     // 0002
  const SetBits: bv32 := 0xC00   // 06000
  const Mode0755: bv32 := 0x1ED  // 0755

  datatype Notice =
    | UnsafeSetBits(bitLabel: string, location: string)
    | WorldWritable(location: string)
    | Pruning(location: string)
    | DirMode(location: string, mode: bv32)

  /** The locations of `order`, in order, whose entries satisfy `p`. */
  function Pick(m: Cset, order: seq<string>, p: Entry -> bool): (r: seq<string>)
    requires forall l :: l in order ==> l in m
    ensures forall l :: l in r <==> l in order && p(m[l])
    ensures |r| <= |order|
    decreases |order|
  {
    if order == [] then []
    else
      var l := order[|order| - 1];
      assert forall x :: x in order <==> x in order[..|order| - 1] || x == l;
      Pick(m, order[..|order| - 1], p) + (if p(m[l]) then [l] else [])
  }

  /** `cset.update(f(x) for x in cset if p(x))`, iterating in `order`. */
  method UpdateWhere(cs: ContentSet, order: seq<string>, p: Entry -> bool, f: Entry -> Entry)
    requires cs.Valid() && Enumerates(order, cs.entries.Keys)
    requires forall e :: f(e).location == e.location
    modifies cs
    ensures cs.Valid() && cs.entries == RewriteAll(old(cs.entries), p, f)
  {
    ghost var m := cs.entries;
    UpdateFromSelf(m, order, p, f);
    var es := Select(cs.entries, order, p, f);
    cs.Update(es);
  }

  // ---- BaseSystemUnmergeProtection ----

  const PreserveSequence: seq<string> := ["/usr", "/usr/lib", "/usr/lib64", "/usr/lib32",
    "/usr/bin", "/usr/sbin", "/bin", "/sbin", "/lib", "/lib32", "/lib64",
    "/etc", "/var", "/home", "/root"]

  const BaseSystemUnmergeProtectionTrigger: Trigger :=
    Trigger("BaseSystemUnmergeProtection", None, Some(["unmerge"]), Some(UninstallingModes), Named(["uninstall"]), -100)

  /** The live locations that must never be unmerged: each preserved path joined under the offset. */
  function Blocked(offset: string, preserve: seq<string>): (r: seq<string>)
    ensures |r| == |preserve|
    ensures forall i :: 0 <= i < |preserve| ==> r[i] == PathJoin(offset, LStrip(preserve[i], '/'))
  {
    seq(|preserve|, i requires 0 <= i < |preserve| => PathJoin(offset, LStrip(preserve[i], '/')))
  }

  /** `BaseSystemUnmergeProtection.trigger`: drops the blocked locations from the uninstall set; always true. */
  method BaseSystemUnmergeProtection(uninstall: ContentSet, offset: string, preserve: seq<string>) returns (r: bool)
    requires uninstall.Valid()
    modifies uninstall
    ensures r
    ensures uninstall.Valid() && uninstall.entries == old(uninstall.entries) - (set l | l in Blocked(offset, preserve))
  {
    uninstall.DifferenceUpdate(Blocked(offset, preserve));
    return true;
  }

  /** No preserved directory survives in the uninstall set, and nothing else is dropped from it. */
  lemma UnmergeProtectionKeepsBase(m: Cset, offset: string, preserve: seq<string>, l: string)
    ensures var after := m - (set b | b in Blocked(offset, preserve));
      (l in after <==> l in m && forall i :: 0 <= i < |preserve| ==> l != PathJoin(offset, LStrip(preserve[i], '/'))) &&
      (l in after ==> after[l] == m[l])
  {
    var bl := Blocked(offset, preserve);
    if exists i :: 0 <= i < |preserve| && l == PathJoin(offset, LStrip(preserve[i], '/')) {
      var i :| 0 <= i < |preserve| && l == PathJoin(offset, LStrip(preserve[i], '/'));
      assert bl[i] == l;
    }
  }

  // ---- fix_uid_perms, fix_gid_perms ----

  const FixUidPermsTrigger: Trigger :=
    Trigger("fix_uid_perms", None, Some(["pre_merge"]), Some(InstallingModes), Named(["new_cset"]), 50)
  const FixGidPermsTrigger: Trigger :=
    Trigger("fix_gid_perms", None, Some(["pre_merge"]), Some(InstallingModes), Named(["new_cset"]), 50)

  /** `fix_uid_perms.trigger`: every entry owned by `bad` is handed to `good`. */
  method FixUidPerms(cs: ContentSet, order: seq<string>, bad: int, good: int)
    requires cs.Valid() && Enumerates(order, cs.entries.Keys)
    modifies cs
    ensures cs.Valid() && cs.entries == RewriteAll(old(cs.entries), (e: Entry) => e.uid == bad, (e: Entry) => e.(uid := good))
  {
    UpdateWhere(cs, order, (e: Entry) => e.uid == bad, (e: Entry) => e.(uid := good));
  }

  /** `fix_gid_perms.trigger`: every entry of group `bad` is handed to `good`. */
  method FixGidPerms(cs: ContentSet, order: seq<string>, bad: int, good: int)
    requires cs.Valid() && Enumerates(order, cs.entries.Keys)
    modifies cs
    ensures cs.Valid() && cs.entries == RewriteAll(old(cs.entries), (e: Entry) => e.gid == bad, (e: Entry) => e.(gid := good))
  {
    UpdateWhere(cs, order, (e: Entry) => e.gid == bad, (e: Entry) => e.(gid := good));
  }

  /** After the uid fix no entry is owned by `bad`, and only ownership of `bad`'s entries changed. */
  lemma FixUidClears(m: Cset, bad: int, good: int)
    requires good != bad
    ensures var r := RewriteAll(m, (e: Entry) => e.uid == bad, (e: Entry) => e.(uid := good));
      r.Keys == m.Keys &&
      (forall l :: l in r ==> r[l].uid != bad && r[l].(uid := m[l].uid) == m[l]) &&
      (forall l :: l in r && m[l].uid != bad ==> r[l] == m[l])
  {
  }

  /** After the gid fix no entry belongs to group `bad`, and only group of `bad`'s entries changed. */
  lemma FixGidClears(m: Cset, bad: int, good: int)
    requires good != bad
    ensures var r := RewriteAll(m, (e: Entry) => e.gid == bad, (e: Entry) => e.(gid := good));
      r.Keys == m.Keys &&
      (forall l :: l in r ==> r[l].gid != bad && r[l].(gid := m[l].gid) == m[l]) &&
      (forall l :: l in r && m[l].gid != bad ==> r[l] == m[l])
  {
  }

  // ---- fix_set_bits ----

  const FixSetBitsTrigger: Trigger :=
    Trigger("fix_set_bits", None, Some(["pre_merge"]), Some(InstallingModes), Named(["new_cset"]), 50)

  /** A non-symlink that is setuid or setgid and also world writable. */
  predicate UnsafeSetBitsEntry(e: Entry) {
    e.kind != Symlink && e.mode & SetBits != 0 && e.mode & S_IWOTH != 0
  }

  function ClearSetBits(e: Entry): (r: Entry)
    ensures r.location == e.location
  {
    e.(mode := e.mode & !(SetBits | S_IWOTH))
  }

  /**
   * The label `fix_set_bits` puts in its warning, as written: a mode with
   * the setuid bit (04000) is reported as "SetGID", any other as "SetUID".
   */
  function SetBitsLabelAsWritten(mode: bv32): (r: string)
    ensures r == "SetGID" <==> mode & S_ISUID != 0
  {
    if mode & S_ISUID != 0 then "SetGID" else "SetUID"
  }

  /** A setuid, world-writable file (mode 04002) is reported as "SetGID" and a setgid one (02002) as "SetUID". */
  lemma SetBitsLabelSwapped()
    ensures 0x802 & S_ISUID != 0 && 0x802 & S_ISGID == 0 && SetBitsLabelAsWritten(0x802) == "SetGID"
    ensures 0x402 & S_ISGID != 0 && 0x402 & S_ISUID == 0 && SetBitsLabelAsWritten(0x402) == "SetUID"
  {
  }

  /** The label named after the bit that is set: "SetUID" when 04000 is, else "SetGID". */
  function SetBitsLabel(mode: bv32): (r: string)
  {
    if mode & S_ISUID != 0 then "SetUID" else "SetGID"
  }

  /** For every mode `fix_set_bits` reports, the label names a bit the mode really carries. */
  lemma SetBitsLabelNamesTheBit(mode: bv32)
    requires mode & SetBits != 0
    ensures SetBitsLabel(mode) == "SetUID" <==> mode & S_ISUID != 0
    ensures SetBitsLabel(mode) == "SetGID" ==> mode & S_ISGID != 0
  {
    assert SetBits == S_ISUID | S_ISGID;
  }

  /** The warnings `fix_set_bits` emits for the offending locations `l`. */
  function SetBitsNotices(m: Cset, l: seq<string>, observer: bool): (r: seq<Notice>)
    requires forall x :: x in l ==> x in m
    ensures observer ==> |r| == |l| && forall i :: 0 <= i < |l| ==> r[i].location == l[i] && r[i].UnsafeSetBits?
    ensures !observer ==> r == []
  {
    if !observer then []
    else seq(|l|, i requires 0 <= i < |l| => UnsafeSetBits(SetBitsLabel(m[l[i]].mode), l[i]))
  }

  /**
   * `fix_set_bits.trigger`: every non-symlink that is setuid or setgid and
   * world writable loses its set bits and its world-write bit.
   */
  method FixSetBits(cs: ContentSet, order: seq<string>, observer: bool) returns (notices: seq<Notice>)
    requires cs.Valid() && Enumerates(order, cs.entries.Keys)
    modifies cs
    ensures cs.Valid() && cs.entries == RewriteAll(old(cs.entries), UnsafeSetBitsEntry, ClearSetBits)
    ensures notices == SetBitsNotices(old(cs.entries), Pick(old(cs.entries), order, UnsafeSetBitsEntry), observer)
  {
    var l := Pick(cs.entries, order, UnsafeSetBitsEntry);
    notices := SetBitsNotices(cs.entries, l, observer);
    if l != [] {
      UpdateWhere(cs, order, UnsafeSetBitsEntry, ClearSetBits);
    } else {
      assert RewriteAll(cs.entries, UnsafeSetBitsEntry, ClearSetBits) == cs.entries;
    }
  }

  /** After `fix_set_bits` no entry is unsafe, and a second run changes nothing. */
  lemma {:induction false} FixSetBitsSettles(m: Cset)
    ensures var r := RewriteAll(m, UnsafeSetBitsEntry, ClearSetBits);
      (forall l :: l in r ==> !UnsafeSetBitsEntry(r[l])) &&
      RewriteAll(r, UnsafeSetBitsEntry, ClearSetBits) == r
  {
    var r := RewriteAll(m, UnsafeSetBitsEntry, ClearSetBits);
    forall l | l in r
      ensures !UnsafeSetBitsEntry(r[l])
    {
      if UnsafeSetBitsEntry(m[l]) {
        ClearedIsSafe(m[l]);
      }
    }
  }

  lemma ClearedIsSafe(e: Entry)
    ensures ClearSetBits(e).mode & SetBits == 0 && ClearSetBits(e).mode & S_IWOTH == 0
    ensures ClearSetBits(e).mode & !(SetBits | S_IWOTH) == e.mode & !(SetBits | S_IWOTH)
  {
  }

  // ---- detect_world_writable ----

  const DetectWorldWritableTrigger: Trigger :=
    Trigger("detect_world_writable", None, Some(["pre_merge"]), Some(InstallingModes), Named(["new_cset"]), 50)

  predicate WorldWritableEntry(e: Entry) {
    e.kind != Symlink && e.mode & S_IWOTH != 0
  }

  function ClearWorldWrite(e: Entry): (r: Entry)
    ensures r.location == e.location
  {
    e.(mode := e.mode & !S_IWOTH)
  }

  /**
   * `detect_world_writable.trigger`: with neither an observer nor `fixPerms`
   * nothing happens; otherwise each world-writable non-symlink is reported
   * (with an observer) and, with `fixPerms`, loses its world-write bit.
   */
  method DetectWorldWritable(cs: ContentSet, order: seq<string>, observer: bool, fixPerms: bool) returns (notices: seq<Notice>)
    requires cs.Valid() && Enumerates(order, cs.entries.Keys)
    modifies cs
    ensures cs.Valid()
    ensures cs.entries == if fixPerms then RewriteAll(old(cs.entries), WorldWritableEntry, ClearWorldWrite) else old(cs.entries)
    ensures |notices| == (if observer then |Pick(old(cs.entries), order, WorldWritableEntry)| else 0)
    ensures forall i :: 0 <= i < |notices| ==> notices[i] == WorldWritable(Pick(old(cs.entries), order, WorldWritableEntry)[i])
  {
    if !observer && !fixPerms {
      return [];
    }
    var l := Pick(cs.entries, order, WorldWritableEntry);
    notices := if observer then seq(|l|, i requires 0 <= i < |l| => WorldWritable(l[i])) else [];
    if fixPerms {
      UpdateWhere(cs, order, WorldWritableEntry, ClearWorldWrite);
    }
  }

  /** Every non-symlink is reported exactly when it is world writable, and with `fixPerms` none stays so. */
  lemma WorldWritableReported(m: Cset, order: seq<string>, l: string)
    requires Enumerates(order, m.Keys)
    ensures forall x :: x in order ==> x in m
    ensures l in Pick(m, order, WorldWritableEntry) <==> l in m && WorldWritableEntry(m[l])
    ensures l in m ==> !WorldWritableEntry(RewriteAll(m, WorldWritableEntry, ClearWorldWrite)[l])
  {
  }

  // ---- PruneFiles ----

  const PruneFilesTrigger: Trigger :=
    Trigger("PruneFiles", None, Some(["pre_merge"]), Some(InstallingModes), Named(["new_cset"]), 50)

  /** The entries `PruneFiles` keeps: those the sentinel does not flag. */
  function Pruned(m: Cset, sentinel: Entry -> bool): (r: Cset)
    ensures r.Keys <= m.Keys
    ensures forall l :: l in r ==> r[l] == m[l]
    ensures forall l :: l in m ==> (l in r <==> !sentinel(m[l]))
  {
    map l | l in m && !sentinel(m[l]) :: m[l]
  }

  /** `PruneFiles.trigger`: each flagged entry is reported (with an observer) and removed. */
  method PruneFiles(cs: ContentSet, order: seq<string>, sentinel: Entry -> bool, observer: bool) returns (notices: seq<Notice>)
    requires cs.Valid() && Enumerates(order, cs.entries.Keys)
    modifies cs
    ensures cs.Valid() && cs.entries == Pruned(old(cs.entries), sentinel)
    ensures observer ==>
      |notices| == |Pick(old(cs.entries), order, sentinel)| &&
      forall i :: 0 <= i < |notices| ==> notices[i] == Pruning(Pick(old(cs.entries), order, sentinel)[i])
    ensures !observer ==> notices == []
  {
    var removal := Pick(cs.entries, order, sentinel);
    notices := if observer then seq(|removal|, i requires 0 <= i < |removal| => Pruning(removal[i])) else [];
    ghost var m := cs.entries;
    cs.DifferenceUpdate(removal);
    assert cs.entries == Pruned(m, sentinel);
  }

  // ---- CommonDirectoryModes ----

  const CommonDirectoryModesTrigger: Trigger :=
    Trigger("CommonDirectoryModes", None, Some(["pre_merge"]), Some(InstallingModes), Named(["new_cset"]), 50)

  /** The directories expected to be 0755, after `normpath` (so `/usr/.` is `/usr`). */
  const CommonDirectories: set<string> := {
    "/usr", "/usr/lib", "/usr/lib64", "/usr/lib32", "/usr/bin", "/usr/sbin", "/usr/local",
    "/usr/share", "/usr/share/man", "/usr/share/info",
    "/usr/share/man/man1", "/usr/share/man/man2", "/usr/share/man/man3",
    "/usr/share/man/man4", "/usr/share/man/man5", "/usr/share/man/man6",
    "/usr/share/man/man7", "/usr/share/man/man8", "/usr/share/man/man9",
    "/lib", "/lib32", "/lib64", "/etc", "/bin", "/sbin", "/var"}

  predicate BadCommonDir(e: Entry) {
    e.kind == Directory && e.location in CommonDirectories && e.mode != Mode0755
  }

  /** One warning per location of `bad`, carrying its mode. */
  function DirModeNotices(m: Cset, bad: seq<string>): (r: seq<Notice>)
    requires forall l :: l in bad ==> l in m
    ensures forall l :: l in bad ==> DirMode(l, m[l].mode) in r
    ensures forall n :: n in r ==> n.DirMode? && n.location in bad && n.mode == m[n.location].mode
  {
    if bad == [] then []
    else [DirMode(bad[0], m[bad[0]].mode)] + DirModeNotices(m, bad[1..])
  }

  /** `CommonDirectoryModes.trigger`: without an observer nothing; otherwise a warning per common directory whose mode is not 0755. */
  function CommonDirectoryModes(m: Cset, order: seq<string>, observer: bool): (r: seq<Notice>)
    requires Enumerates(order, m.Keys) && Keyed(m)
    ensures !observer ==> r == []
    ensures observer ==> forall l :: l in m && m[l].kind == Directory && l in CommonDirectories && m[l].mode != Mode0755 ==>
      DirMode(l, m[l].mode) in r
    ensures forall n :: n in r ==>
      n.DirMode? && n.location in m && n.mode == m[n.location].mode &&
      m[n.location].kind == Directory && n.location in CommonDirectories && n.mode != Mode0755
  {
    if !observer then []
    else DirModeNotices(m, Pick(m, order, BadCommonDir))
  }
}
