/**
 * The remaining ebuild triggers of pkgcore/ebuild/triggers.py: `SFPerms`
 * (read bits dropped from set-id files), `FixImageSymlinks` (symlinks that
 * point into the image directory `$D`), the pattern builder of
 * `register_multilib_strict_trigger`, and `generate_triggers`, which picks
 * the triggers a domain runs from its settings and `FEATURES`.
 */
module EbuildTriggers {
  import opened Wrappers
  import opened Text
  import opened Contents
  import opened Engine
  import opened FsTriggers
  import Collision

  // ---------------------------------------------------------------------
  // SFPerms
  // ---------------------------------------------------------------------

  const GroupWorldRead: bv32 := 0x24  // 0044
  const S_IROTH: bv32 := 0x4          // 0004

  const SfPermsTrigger: Trigger :=
    Trigger("SFPerms", None, Some(["pre_merge"]), Some(InstallingModes), Named(["new_cset"]), 50)

  /** A warning `SFPerms` sends the observer: which set-id bit caused which read bits to go. */
  datatype SfNotice = DropRead(reason: string, location: string, dropped: bv32)

  /** A setuid file that group or others can read. */
  predicate SetuidReadable(e: Entry) {
    e.mode & S_ISUID != 0 && e.mode & GroupWorldRead != 0
  }

  /** A setgid file that others can read. */
  predicate SetgidReadable(e: Entry) {
    e.mode & S_ISGID != 0 && e.mode & S_IROTH != 0
  }

  /** `x.change_attributes(mode=x.mode & ~bits)`. */
  function DropBits(e: Entry, bits: bv32): Entry
  {
    e.(mode := e.mode & !bits)
  }

  /** Clearing bits clears them, sets none and leaves the others alone. */
  lemma ClearBits(v: bv32, bits: bv32)
    ensures (v & !bits) & bits == 0 && (v & !bits) & !v == 0
    ensures (v & !bits) | bits == v | bits
  {
  }

  /**
   * The resets one regular file contributes, in the order they are appended.
   * Both are computed from the original entry.
   */
  function SfResetsOf(e: Entry): (r: seq<Entry>)
    ensures forall x :: x in r ==> x.location == e.location
  {
    (if SetuidReadable(e) then [DropBits(e, GroupWorldRead)] else []) +
    (if SetgidReadable(e) then [DropBits(e, S_IROTH)] else [])
  }

  /** The warnings one regular file causes, one per reset, naming the bit that caused it. */
  function SfNoticesOf(e: Entry): (r: seq<SfNotice>)
    ensures |r| == |SfResetsOf(e)|
  {
    (if SetuidReadable(e) then [DropRead(SetBitsLabel(S_ISUID), e.location, GroupWorldRead)] else []) +
    (if SetgidReadable(e) then [DropRead(SetBitsLabel(S_ISGID), e.location, S_IROTH)] else [])
  }

  /** The reason as written: the setuid case blames "SetGID" and the setgid case "SetUID". */
  function SfReasonAsWritten(bit: bv32): string
  {
    if bit == S_ISUID then "SetGID" else "SetUID"
  }

  /** A setuid file readable by group (mode 04640) is reported as losing its read bits "due to SetGID". */
  lemma SfReasonSwapped()
    ensures var e := Entry("/usr/bin/x", Regular, 0x9A0, 0, 0, 0, map[], "");
      SetuidReadable(e) && e.mode & S_ISGID == 0 && SfReasonAsWritten(S_ISUID) == "SetGID"
  {
  }

  /** Every warning names a set-id bit the file really carries. */
  lemma SfNoticeNamesTheBit(e: Entry, n: SfNotice)
    requires n in SfNoticesOf(e)
    ensures n.reason == "SetUID" ==> e.mode & S_ISUID != 0 && n.dropped == GroupWorldRead
    ensures n.reason == "SetGID" ==> e.mode & S_ISGID != 0 && n.dropped == S_IROTH
    ensures n.location == e.location
  {
    SetBitsLabelNamesTheBit(S_ISUID);
    SetBitsLabelNamesTheBit(S_ISGID);
  }

  /** The regular files of `order`'s locations in turn: their resets and their warnings. */
  function SfResets(m: Cset, order: seq<string>): (r: seq<Entry>)
    requires forall l :: l in order ==> l in m
    decreases |order|
  {
    if order == [] then []
    else
      var l := order[|order| - 1];
      SfResets(m, order[..|order| - 1]) + (if m[l].kind == Regular then SfResetsOf(m[l]) else [])
  }

  function SfNotices(m: Cset, order: seq<string>): (r: seq<SfNotice>)
    requires forall l :: l in order ==> l in m
    ensures |r| == |SfResets(m, order)|
    decreases |order|
  {
    if order == [] then []
    else
      var l := order[|order| - 1];
      SfNotices(m, order[..|order| - 1]) + (if m[l].kind == Regular then SfNoticesOf(m[l]) else [])
  }

  /** A regular file `SFPerms` changes. */
  predicate SfFlagged(e: Entry) {
    e.kind == Regular && (SetuidReadable(e) || SetgidReadable(e))
  }

  /**
   * What a flagged file ends up as: the last reset wins, so a file that is
   * both setuid-readable and setgid-readable only loses its world read bit.
   */
  function SfFixed(e: Entry): (r: Entry)
    ensures r.location == e.location
  {
    if SetgidReadable(e) then DropBits(e, S_IROTH) else DropBits(e, GroupWorldRead)
  }

  /** Updating with one file's resets is updating with its fixed entry alone. */
  lemma SfStep(base: Cset, e: Entry)
    requires SfFlagged(e)
    ensures Overlay(base, SfResetsOf(e)) == Overlay(base, [SfFixed(e)])
  {
    if SetuidReadable(e) && SetgidReadable(e) {
      assert SfResetsOf(e) == [DropBits(e, GroupWorldRead), DropBits(e, S_IROTH)];
      OverlayShadowed(base, DropBits(e, GroupWorldRead), DropBits(e, S_IROTH));
    } else {
      assert SfResetsOf(e) == [SfFixed(e)];
    }
  }

  /** A later entry at the same location hides an earlier one. */
  lemma OverlayShadowed(base: Cset, x: Entry, y: Entry)
    requires x.location == y.location
    ensures Overlay(base, [x, y]) == Overlay(base, [y])
  {
    assert [x, y][..1] == [x];
    assert [x][..0] == [] && [y][..0] == [];
  }

  /** The resets of `order`, applied by `update`, act as the fixed entries of the flagged files. */
  lemma {:induction false} SfResetsSelect(base: Cset, m: Cset, order: seq<string>)
    requires forall l :: l in order ==> l in m
    ensures Overlay(base, SfResets(m, order)) == Overlay(base, Select(m, order, SfFlagged, SfFixed))
    decreases |order|
  {
    if order != [] {
      var init := order[..|order| - 1];
      var l := order[|order| - 1];
      var e := m[l];
      SfResetsSelect(base, m, init);
      var a := SfResets(m, init);
      var b := Select(m, init, SfFlagged, SfFixed);
      var ra := if e.kind == Regular then SfResetsOf(e) else [];
      var rb := if SfFlagged(e) then [SfFixed(e)] else [];
      OverlayAppend(base, a, ra);
      OverlayAppend(base, b, rb);
      if SfFlagged(e) {
        SfStep(Overlay(base, a), e);
      } else if e.kind == Regular {
        assert ra == [];
      }
    }
  }

  /** `SFPerms` on a whole set, whatever its iteration order: exactly the flagged files are fixed. */
  lemma SfPermsEffect(m: Cset, order: seq<string>)
    requires Enumerates(order, m.Keys) && Keyed(m)
    ensures forall l :: l in order ==> l in m
    ensures Overlay(m, SfResets(m, order)) == RewriteAll(m, SfFlagged, SfFixed)
  {
    SfResetsSelect(m, m, order);
    UpdateFromSelf(m, order, SfFlagged, SfFixed);
  }

  /** A fixed file is no longer world readable. */
  lemma SfFixedNotWorldReadable(e: Entry)
    requires SfFlagged(e)
    ensures SfFixed(e).mode & S_IROTH == 0
  {
    ReadMasks(e.mode);
    if SetgidReadable(e) {
      ClearBits(e.mode, S_IROTH);
    }
  }

  /** Only read bits are taken from a fixed file, and nothing but its mode changes. */
  lemma SfFixedOnlyReadBits(e: Entry)
    requires SfFlagged(e)
    ensures SfFixed(e).mode & !e.mode == 0 && SfFixed(e).mode | GroupWorldRead == e.mode | GroupWorldRead
    ensures SfFixed(e).(mode := e.mode) == e
  {
    ReadMasks(e.mode);
    if SetgidReadable(e) {
      ClearBits(e.mode, S_IROTH);
    } else {
      ClearBits(e.mode, GroupWorldRead);
    }
  }

  lemma ReadMasks(v: bv32)
    ensures (v & !S_IROTH) | GroupWorldRead == v | GroupWorldRead
    ensures (v & !GroupWorldRead) & S_IROTH == 0
  {
  }

  /** A set-id regular file `SFPerms` leaves alone was not world readable to begin with. */
  lemma SfUnflaggedUnreadable(e: Entry)
    requires e.kind == Regular && !SfFlagged(e) && e.mode & SetBits != 0
    ensures e.mode & S_IROTH == 0
  {
    assert e.mode & S_ISUID != 0 || e.mode & S_ISGID != 0;
  }

  /**
   * The reproduced last-wins reset: a setuid and setgid file of mode 06644
   * keeps its group read bit (06640), so a second run still finds it
   * flagged and takes that bit too (06600).
   */
  lemma SfPermsNotIdempotent()
    ensures var e := Entry("/usr/bin/x", Regular, 0xDA4, 0, 0, 0, map[], "");
      SfFlagged(e) && SfFixed(e).mode == 0xDA0 &&
      SfFlagged(SfFixed(e)) && SfFixed(SfFixed(e)).mode == 0xD80
  {
  }

  datatype SfError = NoObserver  // `engine.observer.warn` on an engine without an observer

  /**
   * `SFPerms.trigger`. Without an observer the first warning raises before
   * `update`, leaving the set as it was.
   */
  method SfPerms(cs: ContentSet, order: seq<string>, observer: bool) returns (r: Result<seq<SfNotice>, SfError>)
    requires cs.Valid() && Enumerates(order, cs.entries.Keys)
    modifies cs
    ensures cs.Valid()
    ensures r.Err? <==> !observer && SfResets(old(cs.entries), order) != []
    ensures r.Err? ==> cs.entries == old(cs.entries)
    ensures r.Ok? ==> r.value == SfNotices(old(cs.entries), order) && cs.entries == RewriteAll(old(cs.entries), SfFlagged, SfFixed)
  {
    ghost var m := cs.entries;
    assert forall l :: l in order ==> l in m;
    var resets: seq<Entry> := [];
    var notices: seq<SfNotice> := [];
    var k := 0;
    while k < |order|
      invariant 0 <= k <= |order|
      invariant cs.entries == m
      invariant resets == SfResets(m, order[..k]) && notices == SfNotices(m, order[..k])
      invariant !observer ==> resets == []
    {
      assert order[..k + 1][..k] == order[..k];
      var x := cs.entries[order[k]];
      if x.kind == Regular {
        var rs, ns, failed := SfPermsFile(x, observer);
        if failed {
          SfResetsGrow(m, order, k + 1);
          return Err(NoObserver);
        }
        resets := resets + rs;
        notices := notices + ns;
      }
      k := k + 1;
    }
    assert order[..k] == order;
    cs.Update(resets);
    SfPermsEffect(m, order);
    return Ok(notices);
  }

  /** The loop body of `SFPerms.trigger` for one regular file; `failed` is the warning without an observer. */
  method SfPermsFile(x: Entry, observer: bool) returns (rs: seq<Entry>, ns: seq<SfNotice>, failed: bool)
    ensures failed <==> !observer && SfResetsOf(x) != []
    ensures !failed ==> rs == SfResetsOf(x) && ns == SfNoticesOf(x)
  {
    rs, ns := [], [];
    if x.mode & S_ISUID != 0 {
      if x.mode & GroupWorldRead != 0 {
        if !observer {
          return [], [], true;
        }
        ns := ns + [DropRead(SetBitsLabel(S_ISUID), x.location, GroupWorldRead)];
        rs := rs + [DropBits(x, GroupWorldRead)];
      }
    }
    if x.mode & S_ISGID != 0 {
      if x.mode & S_IROTH != 0 {
        if !observer {
          return [], [], true;
        }
        ns := ns + [DropRead(SetBitsLabel(S_ISGID), x.location, S_IROTH)];
        rs := rs + [DropBits(x, S_IROTH)];
      }
    }
    return rs, ns, false;
  }

  /** The resets of a prefix of the files come first among the resets of all of them. */
  lemma {:induction false} SfResetsGrow(m: Cset, order: seq<string>, n: nat)
    requires forall l :: l in order ==> l in m
    requires n <= |order|
    ensures |SfResets(m, order[..n])| <= |SfResets(m, order)|
    decreases |order| - n
  {
    if n < |order| {
      assert order[..n + 1][..n] == order[..n];
      SfResetsGrow(m, order, n + 1);
    } else {
      assert order[..n] == order;
    }
  }

  // ---------------------------------------------------------------------
  // FixImageSymlinks
  // ---------------------------------------------------------------------

  const FixImageSymlinksTrigger: Trigger :=
    Trigger("FixImageSymlinks", None, Some(["pre_merge"]), None, Named(["new_cset"]), 50)

  /** The image directory as the trigger compares against it: one trailing slash. */
  function ImagePrefix(d: string): (r: string)
    ensures EndsWith(r, "/")
  {
    RStrip(d, '/') + "/"
  }

  /** A symlink whose target lies inside the image directory. */
  predicate PointsIntoImage(prefix: string, e: Entry) {
    e.kind == Symlink && StartsWith(e.target, prefix)
  }

  /** The image prefix dropped from the target, which is made absolute. */
  function Relinked(prefix: string, e: Entry): (r: Entry)
    ensures r.location == e.location
  {
    if |prefix| <= |e.target| then e.(target := PathJoin("/", e.target[|prefix|..])) else e
  }

  function IntoImage(d: string): Entry -> bool {
    e => PointsIntoImage(ImagePrefix(d), e)
  }

  function RelinkFrom(d: string): (f: Entry -> Entry)
    ensures forall e :: f(e).location == e.location
  {
    e => Relinked(ImagePrefix(d), e)
  }

  /** A correction the trigger reports. */
  datatype LinkNotice = Correcting(location: string, target: string)

  /**
   * `FixImageSymlinks.trigger` with `$D` = `d`: each symlink pointing into
   * the image is reported (with an observer) and re-pointed at the same path
   * under the root.
   */
  method FixImageSymlinks(cs: ContentSet, order: seq<string>, d: string, observer: bool) returns (notices: seq<LinkNotice>)
    requires cs.Valid() && Enumerates(order, cs.entries.Keys)
    modifies cs
    ensures cs.Valid()
    ensures cs.entries == RewriteAll(old(cs.entries), IntoImage(d), RelinkFrom(d))
    ensures observer ==>
      var l := Pick(old(cs.entries), order, IntoImage(d));
      |notices| == |l| && forall i :: 0 <= i < |l| ==> notices[i] == Correcting(l[i], old(cs.entries)[l[i]].target)
    ensures !observer ==> notices == []
  {
    var l := Pick(cs.entries, order, IntoImage(d));
    notices := [];
    if observer {
      var entries := cs.entries;
      notices := seq(|l|, i requires 0 <= i < |l| => Correcting(l[i], if l[i] in entries then entries[l[i]].target else ""));
    }
    UpdateWhere(cs, order, IntoImage(d), RelinkFrom(d));
  }

  /**
   * A symlink into the image at `$D/rest` comes out pointing at `/rest`:
   * the new target is absolute and, read back under the image, is the old one.
   */
  lemma RelinkedUnderRoot(d: string, e: Entry)
    requires PointsIntoImage(ImagePrefix(d), e)
    ensures var p := ImagePrefix(d); var t := Relinked(p, e).target;
      StartsWith(t, "/") && (StartsWith(e.target[|p|..], "/") || e.target == p + t[1..])
  {
    var p := ImagePrefix(d);
    var rest := e.target[|p|..];
    assert e.target == p + rest;
  }

  // ---------------------------------------------------------------------
  // register_multilib_strict_trigger
  // ---------------------------------------------------------------------

  const DefaultMultilibExempt: string := "(perl5|gcc|gcc-lib)"

  /** `s` without its slashes. */
  function Unslashed(s: string): (r: string)
    decreases |s|
  {
    if s == [] then []
    else (if s[0] == '/' then [] else [s[0]]) + Unslashed(s[1..])
  }

  lemma {:induction false} CollapsePairsKeepsText(s: string)
    ensures Unslashed(CollapseSlashPairs(s)) == Unslashed(s)
    ensures StartsWith(s, "/") ==> StartsWith(CollapseSlashPairs(s), "/")
    decreases |s|
  {
    if |s| >= 2 {
      if s[..2] == "//" {
        CollapsePairsKeepsText(s[2..]);
        assert ("/" + CollapseSlashPairs(s[2..]))[1..] == CollapseSlashPairs(s[2..]);
        assert s[1..][1..] == s[2..];
      } else {
        CollapsePairsKeepsText(s[1..]);
        assert ([s[0]] + CollapseSlashPairs(s[1..]))[1..] == CollapseSlashPairs(s[1..]);
      }
    }
  }

  /** `while "//" in s: s = s.replace("//", "/")`. */
  function CollapseSlashes(s: string): (r: string)
    ensures !HasSub(r, "//")
    decreases |s|
  {
    if HasSub(s, "//") then CollapseSlashes(CollapseSlashPairs(s)) else s
  }

  /** Collapsing removes slashes only, keeps a leading one, and leaves no doubled slash behind. */
  lemma {:induction false} CollapseSlashesKeepsText(s: string)
    ensures Unslashed(CollapseSlashes(s)) == Unslashed(s)
    ensures StartsWith(s, "/") ==> StartsWith(CollapseSlashes(s), "/")
    decreases |s|
  {
    if HasSub(s, "//") {
      CollapsePairsKeepsText(s);
      CollapseSlashesKeepsText(CollapseSlashPairs(s));
    }
  }

  /** The `BlockFileType` the domain gets: the denied file types and the directories they are denied in. */
  datatype BlockFileType = BlockFileType(badFileType: string, limitPattern: string)

  /** The locations alternative: one location as is, several as a regex group. */
  function LocationsPattern(locs: seq<string>): string
    requires locs != []
  {
    if |locs| == 1 then locs[0] else "(" + JoinWith(locs, "|") + ")"
  }

  /**
   * `register_multilib_strict_trigger`: nothing unless both the directories
   * and the deny pattern are set and the directories are not blank.
   */
  function MultilibStrictSpec(dirs: Option<string>, exempt: Option<string>, deny: Option<string>): (r: Option<BlockFileType>)
    ensures r.Some? <==> dirs.Some? && deny.Some? && SplitWs(dirs.value) != []
    ensures r.Some? ==> r.value.badFileType == ".*" + deny.value + ".*" && !HasSub(r.value.limitPattern, "//")
  {
    if dirs.None? || deny.None? then None
    else
      var locs := SplitWs(dirs.value);
      if locs == [] then None
      else
        var ex := if exempt.Some? then exempt.value else DefaultMultilibExempt;
        Some(BlockFileType(".*" + deny.value + ".*", CollapseSlashes("/" + LocationsPattern(locs) + "/(?!" + ex + ")")))
  }

  method MultilibStrict(dirs: Option<string>, exempt: Option<string>, deny: Option<string>) returns (r: Option<BlockFileType>)
    ensures r == MultilibStrictSpec(dirs, exempt, deny)
  {
    if dirs.None? || deny.None? {
      return None;
    }
    var locs := SplitWs(dirs.value);
    if locs == [] {
      return None;
    }
    var ex := if exempt.Some? then exempt.value else DefaultMultilibExempt;
    var limit := "/" + LocationsPattern(locs) + "/(?!" + ex + ")";
    ghost var start := limit;
    while HasSub(limit, "//")
      invariant CollapseSlashes(limit) == CollapseSlashes(start)
      decreases |limit|
    {
      limit := CollapseSlashPairs(limit);
    }
    return Some(BlockFileType(".*" + deny.value + ".*", limit));
  }

  /** The limit pattern differs from the one written out only by fewer slashes, and is still rooted. */
  lemma MultilibLimitShape(dirs: string, exempt: Option<string>, deny: string)
    requires SplitWs(dirs) != []
    ensures var r := MultilibStrictSpec(Some(dirs), exempt, Some(deny)).value;
      var ex := if exempt.Some? then exempt.value else DefaultMultilibExempt;
      StartsWith(r.limitPattern, "/") &&
      Unslashed(r.limitPattern) == Unslashed("/" + LocationsPattern(SplitWs(dirs)) + "/(?!" + ex + ")")
  {
    var ex := if exempt.Some? then exempt.value else DefaultMultilibExempt;
    CollapseSlashesKeepsText("/" + LocationsPattern(SplitWs(dirs)) + "/(?!" + ex + ")");
  }

  // ---------------------------------------------------------------------
  // generate_triggers
  // ---------------------------------------------------------------------

  /**
   * A domain setting as `generate_triggers` reads it: a string, or the tuple
   * an incremental setting was expanded to. `Domain.Value` keeps only the
   * members of that expansion, since their order is an accident of set
   * iteration; here the tuple is taken in whatever order it arrives,
   * because `ListOf` hands it on as a list.
   */
  datatype DomainValue = Text(s: string) | Words(ws: seq<string>)

  /** `domain_settings.get(k, [])`, split when it is a string. */
  function ListOf(settings: map<string, DomainValue>, k: string): seq<string>
  {
    if k !in settings then []
    else match settings[k]
      case Text(s) => SplitWs(s)
      case Words(ws) => ws
  }

  /** `name in features`: membership for a tuple, a substring test for a string. */
  predicate HasFeature(settings: map<string, DomainValue>, name: string) {
    "FEATURES" in settings &&
    match settings["FEATURES"]
    case Text(s) => HasSub(s, name)
    case Words(ws) => name in ws
  }

  /** `domain_settings.get(k)` for a setting that must be a string when present. */
  function TextOf(settings: map<string, DomainValue>, k: string): Option<string>
    requires k in settings ==> settings[k].Text?
  {
    if k in settings then Some(settings[k].s) else None
  }

  /** The triggers `generate_triggers` yields, with the arguments they are built from. */
  datatype Generated =
    | EnvUpdate
    | ConfigProtectInstall(protects: seq<string>, disables: seq<string>)
    | ConfigProtectUninstall
    | CollisionProtect(extras: Collision.Extras)
    | ProtectOwned(extras: Collision.Extras)
    | MultilibStrictResult(block: Option<BlockFileType>)  // `None` is yielded as is
    | SfPermsFix
    | InstallIntoSymdirProtect(protects: seq<string>, disables: seq<string>)
    | PruneFiles(patterns: seq<string>)
    | UninstallIgnore(patterns: seq<string>)
    | InfoRegen

  /** Why iterating `generate_triggers` stopped. */
  datatype GenerateError =
    | MaskNotAList   // `d["INSTALL_MASK"].append` on a tuple: AttributeError

  /** The `/usr/share/...` directories the `noman`, `noinfo` and `nodoc` features mask, in that order. */
  function FeatureMasks(settings: map<string, DomainValue>): (r: seq<string>)
    ensures forall x :: x in r <==>
      (x == "/usr/share/man" && HasFeature(settings, "noman")) ||
      (x == "/usr/share/info" && HasFeature(settings, "noinfo")) ||
      (x == "/usr/share/doc" && HasFeature(settings, "nodoc"))
  {
    (if HasFeature(settings, "noman") then ["/usr/share/man"] else []) +
    (if HasFeature(settings, "noinfo") then ["/usr/share/info"] else []) +
    (if HasFeature(settings, "nodoc") then ["/usr/share/doc"] else [])
  }

  /**
   * `INSTALL_MASK` with the feature masks appended. A string setting was
   * split into a list and an absent one defaults to a list, but a tuple is
   * kept as it is, so appending to it raises.
   */
  function InstallMask(settings: map<string, DomainValue>): (r: Result<seq<string>, GenerateError>)
    ensures r.Err? <==> "INSTALL_MASK" in settings && settings["INSTALL_MASK"].Words? && FeatureMasks(settings) != []
    ensures r.Ok? ==>
      ListOf(settings, "INSTALL_MASK") <= r.value &&
      (forall x :: x in r.value <==> x in ListOf(settings, "INSTALL_MASK") || x in FeatureMasks(settings))
  {
    var added := FeatureMasks(settings);
    if added != [] && "INSTALL_MASK" in settings && settings["INSTALL_MASK"].Words? then Err(MaskNotAList)
    else Ok(ListOf(settings, "INSTALL_MASK") + added)
  }

  /** Each mask as a pattern for itself and one for everything under it. */
  function MaskPatterns(masks: seq<string>): (r: seq<string>)
    ensures |r| == 2 * |masks|
    decreases |masks|
  {
    if masks == [] then []
    else
      var x := RStrip(masks[|masks| - 1], '/');
      MaskPatterns(masks[..|masks| - 1]) + [x, x + "/*"]
  }

  lemma {:induction false} MaskPatternsShape(masks: seq<string>)
    ensures |MaskPatterns(masks)| == 2 * |masks|
    ensures forall i :: 0 <= i < |masks| ==>
      MaskPatterns(masks)[2 * i] == RStrip(masks[i], '/') && MaskPatterns(masks)[2 * i + 1] == RStrip(masks[i], '/') + "/*"
    decreases |masks|
  {
    if masks != [] {
      var init := masks[..|masks| - 1];
      MaskPatternsShape(init);
      forall i | 0 <= i < |masks|
        ensures MaskPatterns(masks)[2 * i] == RStrip(masks[i], '/') && MaskPatterns(masks)[2 * i + 1] == RStrip(masks[i], '/') + "/*"
      {
        if i < |init| {
          assert masks[i] == init[i];
        }
      }
    }
  }

  /** One trigger when `c` holds, none otherwise. */
  function When(c: bool, g: Generated): (r: seq<Generated>)
    ensures forall x :: x in r <==> c && x == g
  {
    if c then [g] else []
  }

  predicate SettingsReadable(settings: map<string, DomainValue>) {
    forall k :: k in {"MULTILIB_STRICT_DIRS", "MULTILIB_STRICT_EXEMPT", "MULTILIB_STRICT_DENY"} && k in settings ==> settings[k].Text?
  }

  function CollisionExtras(settings: map<string, DomainValue>): Collision.Extras {
    Collision.Extras(ListOf(settings, "CONFIG_PROTECT"), ListOf(settings, "CONFIG_PROTECT_MASK"), ListOf(settings, "COLLISION_IGNORE"))
  }

  /** The optional middle of the list: collision check, multilib check, `SFPerms`. */
  function Checks(settings: map<string, DomainValue>): (r: seq<Generated>)
    requires SettingsReadable(settings)
    ensures forall g :: g in r ==> g.CollisionProtect? || g.ProtectOwned? || g.MultilibStrictResult? || g.SfPermsFix?
  {
    var cp := HasFeature(settings, "collision-protect");
    When(cp, CollisionProtect(CollisionExtras(settings))) +
    When(HasFeature(settings, "protect-owned") && !cp, ProtectOwned(CollisionExtras(settings))) +
    When(HasFeature(settings, "multilib-strict"),
         MultilibStrictResult(MultilibStrictSpec(TextOf(settings, "MULTILIB_STRICT_DIRS"), TextOf(settings, "MULTILIB_STRICT_EXEMPT"),
                                                 TextOf(settings, "MULTILIB_STRICT_DENY")))) +
    When(HasFeature(settings, "sfperms"), SfPermsFix)
  }

  /** The triggers `generate_triggers` yields before it builds the install mask. */
  function Leading(settings: map<string, DomainValue>): seq<Generated>
    requires SettingsReadable(settings)
  {
    var protects := ListOf(settings, "CONFIG_PROTECT");
    var disables := ListOf(settings, "CONFIG_PROTECT_MASK");
    [EnvUpdate, ConfigProtectInstall(protects, disables), ConfigProtectUninstall] +
    Checks(settings) +
    [InstallIntoSymdirProtect(protects, disables)]
  }

  /** What iterating a generator gives: the values it yielded, then the exception that ended it, if any. */
  datatype Yielded = Yielded(triggers: seq<Generated>, raised: Option<GenerateError>)

  /** The triggers yielded once the install mask is built: pruning when some mask is set, then the last two. */
  function Trailing(settings: map<string, DomainValue>): (r: seq<Generated>)
    ensures forall g :: g in r ==> g.PruneFiles? || g.UninstallIgnore? || g.InfoRegen?
  {
    match InstallMask(settings)
    case Err(_) => []
    case Ok(masks) =>
      var patterns := MaskPatterns(masks);
      When(patterns != [], PruneFiles(patterns)) + [UninstallIgnore(ListOf(settings, "UNINSTALL_IGNORE")), InfoRegen]
  }

  /** `generate_triggers(domain)`, in the order it yields them. */
  function GenerateTriggers(settings: map<string, DomainValue>): (r: Yielded)
    requires SettingsReadable(settings)
    ensures |r.triggers| >= 4 && r.triggers[0] == EnvUpdate && r.triggers[2] == ConfigProtectUninstall
    ensures r.triggers[1] == ConfigProtectInstall(ListOf(settings, "CONFIG_PROTECT"), ListOf(settings, "CONFIG_PROTECT_MASK"))
    ensures r.raised.Some? ==> r.raised.value == MaskNotAList && r.triggers == Leading(settings)
  {
    Yielded(Leading(settings) + Trailing(settings), if InstallMask(settings).Err? then Some(InstallMask(settings).error) else None)
  }

  /**
   * The env update comes first. Iteration ends with info regeneration,
   * unless appending a feature mask to a tuple `INSTALL_MASK` raised right
   * after `install_into_symdir_protect`, in which case neither the pruning,
   * the uninstall-ignore nor the info trigger is yielded.
   */
  lemma GeneratedEnds(settings: map<string, DomainValue>)
    requires SettingsReadable(settings)
    ensures var r := GenerateTriggers(settings);
      r.triggers[0] == EnvUpdate &&
      (r.raised.Some? <==> "INSTALL_MASK" in settings && settings["INSTALL_MASK"].Words? && FeatureMasks(settings) != []) &&
      (r.raised.None? ==> |r.triggers| >= 6 && r.triggers[|r.triggers| - 1] == InfoRegen) &&
      (r.raised.Some? ==> r.triggers[|r.triggers| - 1].InstallIntoSymdirProtect? &&
                          InfoRegen !in r.triggers && forall g :: g in r.triggers ==> !g.PruneFiles? && !g.UninstallIgnore?)
  {
    if InstallMask(settings).Ok? {
      EndsWhenBuilt(settings);
    } else {
      EndsWhenRaised(settings);
    }
  }

  /** With the install mask built, the uninstall-ignore and info triggers close the list. */
  lemma EndsWhenBuilt(settings: map<string, DomainValue>)
    requires SettingsReadable(settings) && InstallMask(settings).Ok?
    ensures var r := GenerateTriggers(settings);
      r.raised.None? && |r.triggers| >= 6 && r.triggers[|r.triggers| - 1] == InfoRegen
  {
    var trail := Trailing(settings);
    assert |trail| >= 2 && trail[|trail| - 1] == InfoRegen;
    assert GenerateTriggers(settings).triggers == Leading(settings) + trail;
  }

  /** When the install mask raises, the list stops after `install_into_symdir_protect`. */
  lemma EndsWhenRaised(settings: map<string, DomainValue>)
    requires SettingsReadable(settings) && InstallMask(settings).Err?
    ensures var r := GenerateTriggers(settings);
      r.raised.Some? && r.triggers[|r.triggers| - 1].InstallIntoSymdirProtect? &&
      InfoRegen !in r.triggers && forall g :: g in r.triggers ==> !g.PruneFiles? && !g.UninstallIgnore?
  {
    var lead := Leading(settings);
    var c := Checks(settings);
    var protects := ListOf(settings, "CONFIG_PROTECT");
    var disables := ListOf(settings, "CONFIG_PROTECT_MASK");
    assert lead == [EnvUpdate, ConfigProtectInstall(protects, disables), ConfigProtectUninstall] + c + [InstallIntoSymdirProtect(protects, disables)];
    assert GenerateTriggers(settings).triggers == lead;
  }

  /**
   * `collision-protect` selects `CollisionProtect`; `protect-owned` selects
   * `ProtectOwned` only without it, so the two are never both chosen; and
   * `sfperms` selects `SFPerms`. These come before the install mask is
   * built, so they are yielded whether or not it raises.
   */
  lemma GeneratedChecks(settings: map<string, DomainValue>)
    requires SettingsReadable(settings)
    ensures var r := GenerateTriggers(settings).triggers; var ex := CollisionExtras(settings);
      (CollisionProtect(ex) in r <==> HasFeature(settings, "collision-protect")) &&
      (ProtectOwned(ex) in r <==> HasFeature(settings, "protect-owned") && !HasFeature(settings, "collision-protect")) &&
      !(CollisionProtect(ex) in r && ProtectOwned(ex) in r) &&
      (SfPermsFix in r <==> HasFeature(settings, "sfperms"))
  {
    var r := GenerateTriggers(settings).triggers;
    var c := Checks(settings);
    var trail := Trailing(settings);
    assert r == Leading(settings) + trail;
    LeadingShape(settings);
    forall g: Generated | g.CollisionProtect? || g.ProtectOwned? || g.SfPermsFix?
      ensures g in r <==> g in c
    {
      assert g !in trail;
    }
    ChecksSelect(settings);
  }

  /** Which of the optional checks `Checks` holds. */
  lemma ChecksSelect(settings: map<string, DomainValue>)
    requires SettingsReadable(settings)
    ensures var c := Checks(settings); var ex := CollisionExtras(settings);
      (CollisionProtect(ex) in c <==> HasFeature(settings, "collision-protect")) &&
      (ProtectOwned(ex) in c <==> HasFeature(settings, "protect-owned") && !HasFeature(settings, "collision-protect")) &&
      (SfPermsFix in c <==> HasFeature(settings, "sfperms"))
  {
    var cp := HasFeature(settings, "collision-protect");
    var ex := CollisionExtras(settings);
    var a := When(cp, CollisionProtect(ex));
    var b := When(HasFeature(settings, "protect-owned") && !cp, ProtectOwned(ex));
    var m := When(HasFeature(settings, "multilib-strict"),
         MultilibStrictResult(MultilibStrictSpec(TextOf(settings, "MULTILIB_STRICT_DIRS"), TextOf(settings, "MULTILIB_STRICT_EXEMPT"),
                                                 TextOf(settings, "MULTILIB_STRICT_DENY"))));
    var f := When(HasFeature(settings, "sfperms"), SfPermsFix);
    assert Checks(settings) == a + b + m + f;
  }

  /**
   * When the install mask can be built, `PruneFiles` is yielded exactly when
   * some mask is set, carrying every mask's two patterns; when appending to
   * it raises, no `PruneFiles` is yielded at all.
   */
  lemma GeneratedPrune(settings: map<string, DomainValue>)
    requires SettingsReadable(settings)
    ensures InstallMask(settings).Ok? ==>
      var masks := InstallMask(settings).value;
      (PruneFiles(MaskPatterns(masks)) in GenerateTriggers(settings).triggers <==> masks != []) &&
      |MaskPatterns(masks)| == 2 * |masks|
    ensures InstallMask(settings).Err? ==> forall g :: g in GenerateTriggers(settings).triggers ==> !g.PruneFiles?
  {
    var lead := Leading(settings);
    LeadingShape(settings);
    var trail := Trailing(settings);
    assert GenerateTriggers(settings).triggers == lead + trail;
    match InstallMask(settings)
    case Err(_) =>
      assert trail == [];
    case Ok(masks) =>
      MaskPatternsShape(masks);
      var patterns := MaskPatterns(masks);
      var last := [UninstallIgnore(ListOf(settings, "UNINSTALL_IGNORE")), InfoRegen];
      assert trail == When(patterns != [], PruneFiles(patterns)) + last;
      assert PruneFiles(patterns) !in last;
  }

  /**
   * Before the install mask, the optional checks are exactly those `Checks`
   * selects, and nothing is a `PruneFiles`.
   */
  lemma LeadingShape(settings: map<string, DomainValue>)
    requires SettingsReadable(settings)
    ensures forall g :: g in Leading(settings) ==> !g.PruneFiles?
    ensures forall g: Generated :: g.CollisionProtect? || g.ProtectOwned? || g.SfPermsFix? ==> (g in Leading(settings) <==> g in Checks(settings))
  {
    var protects := ListOf(settings, "CONFIG_PROTECT");
    var disables := ListOf(settings, "CONFIG_PROTECT_MASK");
    var head := [EnvUpdate, ConfigProtectInstall(protects, disables), ConfigProtectUninstall];
    var last := [InstallIntoSymdirProtect(protects, disables)];
    var c := Checks(settings);
    var lead := Leading(settings);
    assert lead == head + c + last;
    forall g | g in lead
      ensures !g.PruneFiles?
    {
      assert g in head || g in c || g in last;
    }
    forall g: Generated | g.CollisionProtect? || g.ProtectOwned? || g.SfPermsFix?
      ensures g in lead <==> g in c
    {
      assert g !in head && g !in last;
    }
  }

  /**
   * With `noman`, the man pages and everything under them are masked, unless
   * `INSTALL_MASK` is a tuple, which the append cannot extend.
   */
  lemma NoManMasksManPages(settings: map<string, DomainValue>)
    requires HasFeature(settings, "noman")
    ensures InstallMask(settings).Err? <==> "INSTALL_MASK" in settings && settings["INSTALL_MASK"].Words?
    ensures InstallMask(settings).Ok? ==>
      var p := MaskPatterns(InstallMask(settings).value); "/usr/share/man" in p && "/usr/share/man/*" in p
  {
    var added := FeatureMasks(settings);
    assert added != [] && added[0] == "/usr/share/man";
    if InstallMask(settings).Ok? {
      var masks := InstallMask(settings).value;
      var i := |ListOf(settings, "INSTALL_MASK")|;
      assert masks == ListOf(settings, "INSTALL_MASK") + added;
      assert masks[i] == "/usr/share/man";
      var m := "/usr/share/man";
      assert RStrip(m, '/') == m;
      MaskedAt(masks, i, m);
      assert m + "/*" == "/usr/share/man/*";
    }
  }

  /** A mask listed at any position contributes its two patterns. */
  lemma MaskedAt(masks: seq<string>, i: nat, m: string)
    requires i < |masks| && masks[i] == m
    ensures RStrip(m, '/') in MaskPatterns(masks) && RStrip(m, '/') + "/*" in MaskPatterns(masks)
  {
    MaskPatternsShape(masks);
    assert MaskPatterns(masks)[2 * i] == RStrip(m, '/');
    assert MaskPatterns(masks)[2 * i + 1] == RStrip(m, '/') + "/*";
  }
}
