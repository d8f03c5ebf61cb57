/**
 * `ConfigProtectInstall` and its partner `ConfigProtectInstall_restore`.
 *
 * Before merging, every protected file whose replacement differs from the
 * live one is moved in the install set to a sibling `._cfgNNNN_name`, and
 * the move is recorded in `renames`. After merging, the restore trigger
 * moves each recorded entry back and empties `renames`. The source hands
 * the same `renames` dict to both triggers; here both are methods of one
 * object that owns the map, which is that sharing.
 */
module CfgProtect {
  import opened Wrappers
  import opened Errno
  import opened Text
  import opened Contents
  import opened Engine
  import opened Protect

  // ---------------------------------------------------------------------
  // `._cfgNNNN_name` siblings
  // ---------------------------------------------------------------------

  /** The directory's names that start with `._cfg`. */
  function CfgOnly(names: seq<string>): (r: seq<string>)
    ensures forall x :: x in r <==> x in names && StartsWith(x, "._cfg")
    decreases |names|
  {
    if names == [] then []
    else
      var x := names[|names| - 1];
      assert names == names[..|names| - 1] + [x];
      CfgOnly(names[..|names| - 1]) + (if StartsWith(x, "._cfg") then [x] else [])
  }

  /** `sorted(x for x in listdir_files(dir_loc) if x.startswith("._cfg"))`. */
  function CfgListing(names: seq<string>): (r: seq<string>)
    ensures SortedStrings(r)
    ensures forall x :: x in r <==> x in names && StartsWith(x, "._cfg")
  {
    var r := Sort(CfgOnly(names));
    assert forall x :: x in r <==> x in multiset(r);
    r
  }

  /**
   * The count and original name in `._cfg` + four characters `int()` accepts
   * + `_` + name. Anything else (no integer, no underscore, too short for
   * index 9) is skipped, as the source's `ValueError`/`IndexError` handler does.
   */
  function ParseCfgName(x: string): (r: Option<(int, string)>)
    ensures r.Some? ==> |x| >= 10 && x[9] == '_' && r.value.1 == x[10..] && ParseInt(x[5..9]) == Some(r.value.0)
  {
    if |x| <= 9 then None
    else match ParseInt(x[5..9])
      case None => None
      case Some(n) => if x[9] != '_' then None else Some((n, x[10..]))
  }

  /** `"._cfg%04i_%s" % (count, fname)`. */
  function CfgName(count: int, fname: string): (r: string)
    ensures StartsWith(r, "._cfg")
  {
    "._cfg" + Format04(count) + "_" + fname
  }

  /** The name written for a count that fits four characters is read back as that count and name. */
  lemma CfgNameRoundTrip(count: int, fname: string)
    requires -999 <= count <= 9999
    ensures ParseCfgName(CfgName(count, fname)) == Some((count, fname))
  {
    var x := CfgName(count, fname);
    assert x[5..9] == Format04(count);
    assert x[9] == '_';
    assert x[10..] == fname;
    ParseFormat04(count);
  }

  /** `dir_loc/._cfgNNNN_fname`, where a protected entry is moved to. */
  function NewLocation(dirLoc: string, count: int, fname: string): string
  {
    PathJoin(dirLoc, CfgName(count, fname))
  }

  /**
   * A moved entry lands in its directory under a name the next run's sibling
   * scan recognises, with the same count and original name.
   */
  lemma NewLocationIsSibling(dirLoc: string, count: int, fname: string)
    requires -999 <= count <= 9999
    requires '/' !in fname
    ensures Basename(NewLocation(dirLoc, count, fname)) == CfgName(count, fname)
    ensures StartsWith(Basename(NewLocation(dirLoc, count, fname)), "._cfg")
    ensures ParseCfgName(Basename(NewLocation(dirLoc, count, fname))) == Some((count, fname))
  {
    var name := CfgName(count, fname);
    CfgNameHasNoSlash(count, fname);
    BasenameJoin(dirLoc, name);
    CfgNameRoundTrip(count, fname);
  }

  lemma CfgNameHasNoSlash(count: int, fname: string)
    requires '/' !in fname
    ensures '/' !in CfgName(count, fname)
  {
    var f := Format04(count);
    assert '/' !in f;
    var name := CfgName(count, fname);
    assert name == "._cfg" + f + "_" + fname;
    forall i | 0 <= i < |name| ensures name[i] != '/' {
      if 5 <= i < 5 + |f| {
        assert name[i] == f[i - 5];
        assert f[i - 5] in f;
      } else if i > 5 + |f| {
        assert name[i] == fname[i - 6 - |f|];
        assert fname[i - 6 - |f|] in fname;
      }
    }
  }

  /** `updates[fname]`: the parsed siblings of `fname`, in listing order, each paired with its parsed name. */
  function Siblings(names: seq<string>, fname: string): (r: seq<(int, string)>)
    ensures forall s :: s in r ==> s.1 == fname
    ensures forall s :: s in r <==> s.1 == fname && exists x :: x in names && ParseCfgName(x) == Some(s)
    decreases |names|
  {
    if names == [] then []
    else
      var x := names[|names| - 1];
      assert names == names[..|names| - 1] + [x];
      var p := ParseCfgName(x);
      Siblings(names[..|names| - 1], fname) + (if p.Some? && p.value.1 == fname then [p.value] else [])
  }

  /** The names of a directory's protected entries. */
  function Names(entries: seq<(string, Entry)>): set<string>
  {
    set e | e in entries :: e.0
  }

  /** The sibling table the source builds for one directory. */
  function Updates(listing: seq<string>, fnames: set<string>): (r: map<string, seq<(int, string)>>)
    ensures r.Keys == fnames
  {
    map fn | fn in fnames :: Siblings(listing, fn)
  }

  /** `updates = {fname: []}` then one append per parsed sibling whose name is wanted. */
  method ParseUpdates(listing: seq<string>, fnames: set<string>) returns (updates: map<string, seq<(int, string)>>)
    ensures updates == Updates(listing, fnames)
  {
    updates := map fn | fn in fnames :: [];
    assert updates == Updates(listing[..0], fnames);
    var k := 0;
    while k < |listing|
      invariant 0 <= k <= |listing|
      invariant updates == Updates(listing[..k], fnames)
    {
      UpdatesSnoc(listing, k, fnames);
      var p := ParseCfgName(listing[k]);
      if p.Some? && p.value.1 in updates {
        updates := updates[p.value.1 := updates[p.value.1] + [p.value]];
      }
      k := k + 1;
    }
    assert listing[..k] == listing;
  }

  /** One more listed name appends to the sibling list of at most one wanted name. */
  lemma UpdatesSnoc(listing: seq<string>, k: nat, fnames: set<string>)
    requires k < |listing|
    ensures var p := ParseCfgName(listing[k]); var u := Updates(listing[..k], fnames);
      Updates(listing[..k + 1], fnames) == if p.Some? && p.value.1 in u then u[p.value.1 := u[p.value.1] + [p.value]] else u
  {
    assert listing[..k + 1][..k] == listing[..k];
    var p := ParseCfgName(listing[k]);
    var u := Updates(listing[..k], fnames);
    var want := if p.Some? && p.value.1 in u then u[p.value.1 := u[p.value.1] + [p.value]] else u;
    var got := Updates(listing[..k + 1], fnames);
    forall fn | fn in fnames ensures got[fn] == want[fn] {
      assert got[fn] == Siblings(listing[..k + 1], fn);
    }
    assert got == want;
  }

  // ---------------------------------------------------------------------
  // The counter
  // ---------------------------------------------------------------------

  function Max(a: int, b: int): int { if a >= b then a else b }

  /**
   * The counter loop: stop at the first sibling whose probe says the content
   * is already there and take its count; otherwise keep one past the largest
   * count seen. The probe is asked about `dir_loc/cfg_fname`, the parsed
   * original name, not about the `._cfg` file itself.
   */
  function CountFrom(acc: int, sibs: seq<(int, string)>, dirLoc: string, entry: Entry, probe: (string, Entry) -> bool): int
    decreases |sibs|
  {
    if sibs == [] then acc
    else if probe(PathJoin(dirLoc, sibs[0].1), entry) then sibs[0].0
    else CountFrom(Max(acc, sibs[0].0 + 1), sibs[1..], dirLoc, entry, probe)
  }

  method NextCount(sibs: seq<(int, string)>, dirLoc: string, entry: Entry, probe: (string, Entry) -> bool) returns (count: int)
    ensures count == CountFrom(0, sibs, dirLoc, entry, probe)
  {
    count := 0;
    var i := 0;
    while i < |sibs|
      invariant 0 <= i <= |sibs|
      invariant CountFrom(count, sibs[i..], dirLoc, entry, probe) == CountFrom(0, sibs, dirLoc, entry, probe)
    {
      assert sibs[i..][1..] == sibs[i + 1..];
      var (cfgCount, cfgName) := sibs[i];
      if probe(PathJoin(dirLoc, cfgName), entry) {
        return cfgCount;
      }
      count := Max(count, cfgCount + 1);
      i := i + 1;
    }
  }

  /** The first sibling (in sorted order) whose probe holds gives the count. */
  lemma {:induction false} CountReusesFirstHit(acc: int, sibs: seq<(int, string)>, dirLoc: string, entry: Entry,
                                               probe: (string, Entry) -> bool, j: nat)
    requires j < |sibs| && probe(PathJoin(dirLoc, sibs[j].1), entry)
    requires forall i :: 0 <= i < j ==> !probe(PathJoin(dirLoc, sibs[i].1), entry)
    ensures CountFrom(acc, sibs, dirLoc, entry, probe) == sibs[j].0
    decreases j
  {
    if j > 0 {
      CountReusesFirstHit(Max(acc, sibs[0].0 + 1), sibs[1..], dirLoc, entry, probe, j - 1);
    }
  }

  /** With no hit, the count is past every sibling's count and is either the start value or one past some count. */
  lemma {:induction false} CountFresh(acc: int, sibs: seq<(int, string)>, dirLoc: string, entry: Entry, probe: (string, Entry) -> bool)
    requires forall s :: s in sibs ==> !probe(PathJoin(dirLoc, s.1), entry)
    ensures var r := CountFrom(acc, sibs, dirLoc, entry, probe);
      r >= acc && (forall s :: s in sibs ==> r > s.0) && (r == acc || exists s :: s in sibs && r == s.0 + 1)
    decreases |sibs|
  {
    if sibs != [] {
      assert sibs[0] in sibs;
      assert forall s :: s in sibs[1..] ==> s in sibs;
      CountFresh(Max(acc, sibs[0].0 + 1), sibs[1..], dirLoc, entry, probe);
    }
  }

  /**
   * Since every sibling in `updates[fname]` carries `fname` itself, the probe
   * asks the same question for each: either the first sibling's count is
   * reused, or the count is `max(0, largest + 1)`. No later sibling can ever
   * be reused.
   */
  lemma CounterProbeQuirk(listing: seq<string>, dirLoc: string, fname: string, entry: Entry, probe: (string, Entry) -> bool)
    ensures var sibs := Siblings(listing, fname);
      var r := CountFrom(0, sibs, dirLoc, entry, probe);
      if sibs != [] && probe(PathJoin(dirLoc, fname), entry) then r == sibs[0].0
      else r >= 0 && (forall s :: s in sibs ==> r > s.0) && (r == 0 || exists s :: s in sibs && r == s.0 + 1)
  {
    var sibs := Siblings(listing, fname);
    if sibs != [] && probe(PathJoin(dirLoc, fname), entry) {
      assert sibs[0] in sibs;
      CountReusesFirstHit(0, sibs, dirLoc, entry, probe, 0);
    } else {
      CountFresh(0, sibs, dirLoc, entry, probe);
    }
  }

  // ---------------------------------------------------------------------
  // Collecting the protected entries
  // ---------------------------------------------------------------------

  type Groups = map<string, seq<(string, Entry)>>

  /** `pjoin(engine.offset, os.path.dirname(x.location).lstrip(os.path.sep))`. */
  function GroupDir(offset: string, l: string): string
  {
    PathJoin(offset, LStrip(Dirname(l), '/'))
  }

  /** The table's key function for one offset. */
  function DirOf(offset: string): string -> string
  {
    l => GroupDir(offset, l)
  }

  /**
   * The protected-files table: each regular file of the existing set that is
   * protected, not ignored, and whose replacement in the install set differs,
   * filed under its directory as (base name, replacement). A selected file
   * with no replacement is the `KeyError` of `install_cset[x]`. The live
   * file's checksums are read only when the replacement carries some;
   * `ioErr` says whether that read fails, and unlike the uninstall side the
   * install trigger lets every errno propagate.
   */
  function CollectSpec(existing: Cset, install: Cset, order: seq<string>, dirOf: string -> string, pf: ProtectFilter,
                       igf: IgnoreFilter, fnmatch: (string, string) -> bool, ioErr: string -> Option<nat>): Result<Groups, TriggerError>
    requires forall l :: l in order ==> l in existing
    decreases |order|
  {
    if order == [] then Ok(map[])
    else
      var l := order[|order| - 1];
      var prev := CollectSpec(existing, install, order[..|order| - 1], dirOf, pf, igf, fnmatch, ioErr);
      if prev.Err? || !Selected(pf, igf, fnmatch, l) then prev
      else if l !in install then Err(MissingEntry(l))
      else if install[l].chksums != map[] && ioErr(l).Some? then Err(ChksumIo(l, ioErr(l).value))
      else if ChksumEquivalent(install[l].chksums, existing[l].chksums) then prev
      else
        var d := dirOf(l);
        var g := prev.value;
        Ok(g[d := (if d in g then g[d] else []) + [(Basename(install[l].location), install[l])]])
  }

  /** A file is filed away when it is selected, has a replacement, and the replacement's checksums differ. */
  predicate Filed(existing: Cset, install: Cset, pf: ProtectFilter, igf: IgnoreFilter, fnmatch: (string, string) -> bool, l: string)
    requires l in existing
  {
    Selected(pf, igf, fnmatch, l) && l in install && !ChksumEquivalent(install[l].chksums, existing[l].chksums)
  }

  /** When collection succeeds, every filed file is in the table under its own directory and base name. */
  lemma {:induction false} CollectFilesAll(existing: Cset, install: Cset, order: seq<string>, dirOf: string -> string, pf: ProtectFilter,
                                           igf: IgnoreFilter, fnmatch: (string, string) -> bool, ioErr: string -> Option<nat>, l: string)
    requires forall l :: l in order ==> l in existing
    requires Keyed(install)
    requires CollectSpec(existing, install, order, dirOf, pf, igf, fnmatch, ioErr).Ok?
    requires l in order && Filed(existing, install, pf, igf, fnmatch, l)
    ensures var g := CollectSpec(existing, install, order, dirOf, pf, igf, fnmatch, ioErr).value;
      dirOf(l) in g && (Basename(l), install[l]) in g[dirOf(l)]
    decreases |order|
  {
    var init := order[..|order| - 1];
    var last := order[|order| - 1];
    assert order == init + [last];
    if l != last {
      CollectFilesAll(existing, install, init, dirOf, pf, igf, fnmatch, ioErr, l);
      CollectKeeps(existing, install, order, dirOf, pf, igf, fnmatch, ioErr, dirOf(l), (Basename(l), install[l]));
    }
  }

  /** One more file keeps every entry the table already had. */
  lemma CollectKeeps(existing: Cset, install: Cset, order: seq<string>, dirOf: string -> string, pf: ProtectFilter,
                     igf: IgnoreFilter, fnmatch: (string, string) -> bool, ioErr: string -> Option<nat>, d: string, fe: (string, Entry))
    requires order != [] && forall l :: l in order ==> l in existing
    requires CollectSpec(existing, install, order, dirOf, pf, igf, fnmatch, ioErr).Ok?
    requires var prev := CollectSpec(existing, install, order[..|order| - 1], dirOf, pf, igf, fnmatch, ioErr);
      prev.Ok? && d in prev.value && fe in prev.value[d]
    ensures var g := CollectSpec(existing, install, order, dirOf, pf, igf, fnmatch, ioErr).value; d in g && fe in g[d]
  {
    var last := order[|order| - 1];
    var g := CollectSpec(existing, install, order[..|order| - 1], dirOf, pf, igf, fnmatch, ioErr).value;
    if Filed(existing, install, pf, igf, fnmatch, last) {
      var d2 := dirOf(last);
      var g2 := g[d2 := (if d2 in g then g[d2] else []) + [(Basename(install[last].location), install[last])]];
      assert CollectSpec(existing, install, order, dirOf, pf, igf, fnmatch, ioErr).value == g2;
      if d2 == d {
        assert fe in g2[d];
      }
    }
  }

  /** When collection succeeds, the table holds nothing but filed files, each under its own directory and base name. */
  lemma {:induction false} CollectFilesOnly(existing: Cset, install: Cset, order: seq<string>, dirOf: string -> string, pf: ProtectFilter,
                                            igf: IgnoreFilter, fnmatch: (string, string) -> bool, ioErr: string -> Option<nat>,
                                            d: string, fe: (string, Entry))
    requires forall l :: l in order ==> l in existing
    requires Keyed(install)
    requires CollectSpec(existing, install, order, dirOf, pf, igf, fnmatch, ioErr).Ok?
    requires var g := CollectSpec(existing, install, order, dirOf, pf, igf, fnmatch, ioErr).value;
      d in g && fe in g[d]
    ensures var l := fe.1.location;
      l in order && Filed(existing, install, pf, igf, fnmatch, l) && fe == (Basename(l), install[l]) && d == dirOf(l)
    decreases |order|
  {
    var init := order[..|order| - 1];
    var last := order[|order| - 1];
    assert order == init + [last];
    var prev := CollectSpec(existing, install, init, dirOf, pf, igf, fnmatch, ioErr);
    var g := prev.value;
    if Filed(existing, install, pf, igf, fnmatch, last) {
      var d2 := dirOf(last);
      var e2 := (Basename(install[last].location), install[last]);
      var old2 := if d2 in g then g[d2] else [];
      assert CollectSpec(existing, install, order, dirOf, pf, igf, fnmatch, ioErr).value == g[d2 := old2 + [e2]];
      if d == d2 && fe == e2 {
      } else {
        assert d in g && fe in g[d];
        CollectFilesOnly(existing, install, init, dirOf, pf, igf, fnmatch, ioErr, d, fe);
      }
    } else {
      CollectFilesOnly(existing, install, init, dirOf, pf, igf, fnmatch, ioErr, d, fe);
    }
  }

  /**
   * A successful collection met no `KeyError` and no failed read: every
   * selected file has a replacement, and when that replacement carries
   * checksums the live file's checksums were read cleanly.
   */
  lemma {:induction false} CollectReadsClean(existing: Cset, install: Cset, order: seq<string>, dirOf: string -> string,
                                             pf: ProtectFilter, igf: IgnoreFilter, fnmatch: (string, string) -> bool,
                                             ioErr: string -> Option<nat>, l: string)
    requires forall l :: l in order ==> l in existing
    requires CollectSpec(existing, install, order, dirOf, pf, igf, fnmatch, ioErr).Ok?
    requires l in order && Selected(pf, igf, fnmatch, l)
    ensures l in install && (install[l].chksums != map[] ==> ioErr(l).None?)
    decreases |order|
  {
    var init := order[..|order| - 1];
    var last := order[|order| - 1];
    assert order == init + [last];
    if l != last {
      assert CollectSpec(existing, install, init, dirOf, pf, igf, fnmatch, ioErr).Ok?;
      CollectReadsClean(existing, install, init, dirOf, pf, igf, fnmatch, ioErr, l);
    }
  }

  method CollectProtected(existing: Cset, install: Cset, order: seq<string>, dirOf: string -> string, pf: ProtectFilter,
                          igf: IgnoreFilter, fnmatch: (string, string) -> bool, ioErr: string -> Option<nat>)
    returns (r: Result<Groups, TriggerError>)
    requires forall l :: l in order ==> l in existing
    ensures r == CollectSpec(existing, install, order, dirOf, pf, igf, fnmatch, ioErr)
  {
    var protected: Groups := map[];
    var k := 0;
    while k < |order|
      invariant 0 <= k <= |order|
      invariant CollectSpec(existing, install, order[..k], dirOf, pf, igf, fnmatch, ioErr) == Ok(protected)
    {
      var l := order[k];
      assert order[..k + 1][..k] == order[..k];
      if Selected(pf, igf, fnmatch, l) {
        if l !in install {
          CollectErrSticks(existing, install, order, k + 1, dirOf, pf, igf, fnmatch, ioErr);
          return Err(MissingEntry(l));
        }
        var replacement := install[l];
        var readErr := if replacement.chksums != map[] then ioErr(l) else None;
        if readErr.Some? {
          CollectErrSticks(existing, install, order, k + 1, dirOf, pf, igf, fnmatch, ioErr);
          return Err(ChksumIo(l, readErr.value));
        }
        var same := SimpleChksumCompare(replacement.chksums, existing[l].chksums);
        if !same {
          var d := dirOf(l);
          var group := if d in protected then protected[d] else [];
          protected := protected[d := group + [(Basename(replacement.location), replacement)]];
        }
      }
      k := k + 1;
    }
    assert order[..k] == order;
    return Ok(protected);
  }

  lemma {:induction false} CollectErrSticks(existing: Cset, install: Cset, order: seq<string>, n: nat, dirOf: string -> string,
                                            pf: ProtectFilter, igf: IgnoreFilter, fnmatch: (string, string) -> bool,
                                            ioErr: string -> Option<nat>)
    requires forall l :: l in order ==> l in existing
    requires n <= |order|
    requires CollectSpec(existing, install, order[..n], dirOf, pf, igf, fnmatch, ioErr).Err?
    ensures CollectSpec(existing, install, order, dirOf, pf, igf, fnmatch, ioErr) == CollectSpec(existing, install, order[..n], dirOf, pf, igf, fnmatch, ioErr)
    decreases |order| - n
  {
    if n < |order| {
      assert order[..n + 1][..n] == order[..n];
      CollectErrSticks(existing, install, order, n + 1, dirOf, pf, igf, fnmatch, ioErr);
    } else {
      assert order[..n] == order;
    }
  }

  /** Both filters, then the table, as the install trigger builds them. */
  function ProtectedGroups(existing: Cset, install: Cset, offset: string, host: Host, extraProtects: seq<string>,
                           extraDisables: seq<string>, order: seq<string>, ioErr: string -> Option<nat>): Result<Groups, TriggerError>
    requires forall l :: l in order ==> l in existing
  {
    match Filters(host, extraProtects, extraDisables, [])
    case Err(e) => Err(e)
    case Ok((pf, igf)) => CollectSpec(existing, install, order, DirOf(offset), pf, igf, host.fnmatch, ioErr)
  }

  // ---------------------------------------------------------------------
  // Renaming
  // ---------------------------------------------------------------------

  /** The install set and the renames table, new location to original entry. */
  datatype Staged = Staged(install: Cset, renames: map<string, Entry>)

  /**
   * One rename: `remove(entry)` (skipping the entry when it is gone), then
   * `add` the entry at its `._cfg` location and record where it came from.
   */
  function RenameOne(st: Staged, dirLoc: string, fname: string, entry: Entry, count: int): (r: Staged)
    ensures entry.location !in st.install ==> r == st
    ensures entry.location in st.install ==>
      var nl := NewLocation(dirLoc, count, fname);
      nl in r.install && r.install[nl] == entry.(location := nl) && r.renames == st.renames[nl := entry]
  {
    if entry.location !in st.install then st
    else
      var nl := NewLocation(dirLoc, count, fname);
      Staged((st.install - {entry.location})[nl := entry.(location := nl)], st.renames[nl := entry])
  }

  /**
   * The renames only ever add to the table, and an install entry whose
   * location is not a recorded rename target is one that was there before,
   * unchanged.
   */
  predicate OnlyRenamed(before: Staged, after: Staged)
  {
    before.renames.Keys <= after.renames.Keys &&
    forall l :: l in after.install && l !in after.renames ==> l in before.install && after.install[l] == before.install[l]
  }

  /** The renames for one directory's entries, in the order they were filed. */
  function RenameGroup(st: Staged, dirLoc: string, entries: seq<(string, Entry)>, updates: map<string, seq<(int, string)>>,
                       probe: (string, Entry) -> bool): (r: Staged)
    requires forall e :: e in entries ==> e.0 in updates
    ensures OnlyRenamed(st, r)
    decreases |entries|
  {
    if entries == [] then st
    else
      var init := entries[..|entries| - 1];
      var (fname, entry) := entries[|entries| - 1];
      assert forall e :: e in init ==> e in entries;
      RenameOne(RenameGroup(st, dirLoc, init, updates, probe), dirLoc, fname, entry,
                CountFrom(0, updates[fname], dirLoc, entry, probe))
  }

  /** One directory: a missing directory is skipped, any other listing error propagates. */
  function ProcessDir(st: Staged, dirLoc: string, entries: seq<(string, Entry)>, listing: Result<seq<string>, nat>,
                      probe: (string, Entry) -> bool): (r: (Staged, Option<TriggerError>))
    ensures OnlyRenamed(st, r.0)
    ensures listing.Err? && listing.error != ENOENT ==> r == (st, Some(ListingFailed(dirLoc, listing.error)))
  {
    if listing.Err? then
      if listing.error == ENOENT then (st, None) else (st, Some(ListingFailed(dirLoc, listing.error)))
    else
      (RenameGroup(st, dirLoc, entries, Updates(CfgListing(listing.value), Names(entries)), probe), None)
  }

  /** The directories in `order`, stopping at the first failure with what was done before it. */
  function ProcessDirs(st: Staged, groups: Groups, order: seq<string>, listdir: string -> Result<seq<string>, nat>,
                       probe: (string, Entry) -> bool): (r: (Staged, Option<TriggerError>))
    requires forall d :: d in order ==> d in groups
    ensures OnlyRenamed(st, r.0)
    decreases |order|
  {
    if order == [] then (st, None)
    else
      var prev := ProcessDirs(st, groups, order[..|order| - 1], listdir, probe);
      var d := order[|order| - 1];
      if prev.1.Some? then prev else ProcessDir(prev.0, d, groups[d], listdir(d), probe)
  }

  /** `ConfigProtectInstall.trigger`: its whole effect on the install set and the renames table. */
  function InstallSpec(existing: Cset, st: Staged, offset: string, host: Host, extraProtects: seq<string>,
                       extraDisables: seq<string>, fileOrder: seq<string>, dirOrder: seq<string>,
                       ioErr: string -> Option<nat>, listdir: string -> Result<seq<string>, nat>, probe: (string, Entry) -> bool)
    : (r: (Staged, Option<TriggerError>))
    requires forall l :: l in fileOrder ==> l in existing
    requires ProtectedGroups(existing, st.install, offset, host, extraProtects, extraDisables, fileOrder, ioErr).Ok? ==>
      forall d :: d in dirOrder ==> d in ProtectedGroups(existing, st.install, offset, host, extraProtects, extraDisables, fileOrder, ioErr).value
    ensures OnlyRenamed(st, r.0)
    ensures ProtectedGroups(existing, st.install, offset, host, extraProtects, extraDisables, fileOrder, ioErr).Err? ==> r.0 == st && r.1.Some?
  {
    match ProtectedGroups(existing, st.install, offset, host, extraProtects, extraDisables, fileOrder, ioErr)
    case Err(e) => (st, Some(e))
    case Ok(groups) => ProcessDirs(st, groups, dirOrder, listdir, probe)
  }

  lemma {:induction false} ProcessDirsStops(st: Staged, groups: Groups, order: seq<string>, n: nat,
                                            listdir: string -> Result<seq<string>, nat>, probe: (string, Entry) -> bool)
    requires forall d :: d in order ==> d in groups
    requires n <= |order|
    requires ProcessDirs(st, groups, order[..n], listdir, probe).1.Some?
    ensures ProcessDirs(st, groups, order, listdir, probe) == ProcessDirs(st, groups, order[..n], listdir, probe)
    decreases |order| - n
  {
    if n < |order| {
      assert order[..n + 1][..n] == order[..n];
      ProcessDirsStops(st, groups, order, n + 1, listdir, probe);
    } else {
      assert order[..n] == order;
    }
  }

  // ---------------------------------------------------------------------
  // Undoing the renames
  // ---------------------------------------------------------------------

  /** `ConfigProtectInstall_restore.trigger`: move each recorded entry that is still there back to its original location. */
  function RestoreSpec(m: Cset, renames: map<string, Entry>, order: seq<string>): (r: Cset)
    requires forall k :: k in order ==> k in renames
    ensures forall l :: l in m && l !in renames && l !in Olds(renames) ==> l in r && r[l] == m[l]
    ensures forall l :: l in r ==> l in m || l in Olds(renames)
    decreases |order|
  {
    if order == [] then m
    else
      var prev := RestoreSpec(m, renames, order[..|order| - 1]);
      var k := order[|order| - 1];
      if k in prev then (prev - {k})[renames[k].location := renames[k]] else prev
  }

  /** One more entry of the order moves one more recorded entry back, if it is still there. */
  lemma RestoreStep(m: Cset, renames: map<string, Entry>, order: seq<string>, k: nat)
    requires forall k :: k in order ==> k in renames
    requires k < |order|
    ensures var prev := RestoreSpec(m, renames, order[..k]);
      var x := order[k];
      RestoreSpec(m, renames, order[..k + 1]) == if x in prev then (prev - {x})[renames[x].location := renames[x]] else prev
  {
    assert order[..k + 1][..k] == order[..k];
  }

  /** The original locations recorded in a renames table. */
  function Olds(renames: map<string, Entry>): set<string>
  {
    set k | k in renames :: renames[k].location
  }

  /** `m0` with each recorded entry moved from its original location to its new one. */
  function Moved(m0: Cset, renames: map<string, Entry>): Cset
  {
    map l | l in (m0.Keys - Olds(renames)) + renames.Keys ::
      if l in renames then renames[l].(location := l) else m0[l]
  }

  /**
   * The renames of `m0` so far are sound: every new location was free in
   * `m0`, every recorded entry is what `m0` held at its original location,
   * and no two records share an original location.
   */
  ghost predicate Sound(m0: Cset, renames: map<string, Entry>) {
    (forall k :: k in renames ==> k !in m0 && renames[k].location in m0 && m0[renames[k].location] == renames[k]) &&
    (forall k1, k2 :: k1 in renames && k2 in renames && k1 != k2 ==> renames[k1].location != renames[k2].location)
  }

  /** Before any rename, nothing has moved. */
  lemma NothingMoved(m0: Cset)
    ensures Moved(m0, map[]) == m0 && Sound(m0, map[])
  {
    assert Olds(map[]) == {};
  }

  /**
   * A rename to a location that is free both in `m0` and in the table, of an
   * entry still at its original place, keeps the install set equal to `m0`
   * with the recorded moves applied, and keeps the table sound.
   */
  lemma RenameOneMoves(m0: Cset, renames: map<string, Entry>, dirLoc: string, fname: string, entry: Entry, count: int)
    requires Sound(m0, renames)
    requires entry.location in m0 && m0[entry.location] == entry && entry.location !in Olds(renames)
    requires NewLocation(dirLoc, count, fname) !in m0 && NewLocation(dirLoc, count, fname) !in renames
    ensures var nl := NewLocation(dirLoc, count, fname);
      RenameOne(Staged(Moved(m0, renames), renames), dirLoc, fname, entry, count) ==
        Staged(Moved(m0, renames[nl := entry]), renames[nl := entry])
    ensures Sound(m0, renames[NewLocation(dirLoc, count, fname) := entry])
  {
    var nl := NewLocation(dirLoc, count, fname);
    var cur := Moved(m0, renames);
    assert entry.location in cur;
    MoveOneMore(m0, renames, nl, entry);
  }

  /** The original locations after recording one more move. */
  lemma OldsAdd(renames: map<string, Entry>, nl: string, entry: Entry)
    requires nl !in renames
    ensures Olds(renames[nl := entry]) == Olds(renames) + {entry.location}
  {
    var r2 := renames[nl := entry];
    forall o | o in Olds(r2) ensures o in Olds(renames) + {entry.location} {
      var k :| k in r2 && r2[k].location == o;
      if k != nl { assert renames[k].location == o; }
    }
    forall o | o in Olds(renames) ensures o in Olds(r2) {
      var k :| k in renames && renames[k].location == o;
      assert k != nl && k in r2 && r2[k].location == o;
    }
    assert r2[nl].location == entry.location;
  }

  /** Moving one more entry, still at its original place, to a free location. */
  lemma MoveOneMore(m0: Cset, renames: map<string, Entry>, nl: string, entry: Entry)
    requires Sound(m0, renames)
    requires entry.location in m0 && m0[entry.location] == entry && entry.location !in Olds(renames)
    requires nl !in m0 && nl !in renames
    ensures (Moved(m0, renames) - {entry.location})[nl := entry.(location := nl)] == Moved(m0, renames[nl := entry])
    ensures Sound(m0, renames[nl := entry])
  {
    OldsAdd(renames, nl, entry);
    MovedKeysOneMore(m0, renames, nl, entry);
    var got := (Moved(m0, renames) - {entry.location})[nl := entry.(location := nl)];
    var want := Moved(m0, renames[nl := entry]);
    forall l | l in got ensures got[l] == want[l] {
      if l == nl {
      } else if l in renames {
        assert got[l] == renames[l].(location := l);
      } else {
        assert got[l] == m0[l];
      }
    }
    assert got == want;
    SoundOneMore(m0, renames, nl, entry);
  }

  /** The locations after one more move: the old one gone, the new one there. */
  lemma MovedKeysOneMore(m0: Cset, renames: map<string, Entry>, nl: string, entry: Entry)
    requires Sound(m0, renames)
    requires entry.location in m0 && entry.location !in Olds(renames)
    requires nl !in m0 && nl !in renames
    requires Olds(renames[nl := entry]) == Olds(renames) + {entry.location}
    ensures ((Moved(m0, renames) - {entry.location})[nl := entry.(location := nl)]).Keys == Moved(m0, renames[nl := entry]).Keys
  {
    var got := (Moved(m0, renames) - {entry.location})[nl := entry.(location := nl)];
    var want := Moved(m0, renames[nl := entry]);
    forall l ensures l in got <==> l in want {
      if l == nl {
        assert l in want;
      } else if l in renames {
        assert l in Moved(m0, renames) && l != entry.location;
      } else {
        assert l in want <==> l in m0 && l !in Olds(renames) && l != entry.location;
      }
    }
  }

  lemma SoundOneMore(m0: Cset, renames: map<string, Entry>, nl: string, entry: Entry)
    requires Sound(m0, renames)
    requires entry.location in m0 && m0[entry.location] == entry && entry.location !in Olds(renames)
    requires nl !in m0 && nl !in renames
    ensures Sound(m0, renames[nl := entry])
  {
    var r2 := renames[nl := entry];
    forall k1, k2 | k1 in r2 && k2 in r2 && k1 != k2 ensures r2[k1].location != r2[k2].location {
      if k1 == nl {
        assert r2[k2].location in Olds(renames);
      } else if k2 == nl {
        assert r2[k1].location in Olds(renames);
      }
    }
  }

  /** Restoring one record of a sound table moves that entry home. */
  lemma RestoreOneMovesBack(m0: Cset, renames: map<string, Entry>, k: string)
    requires Sound(m0, renames) && k in renames
    ensures k in Moved(m0, renames)
    ensures (Moved(m0, renames) - {k})[renames[k].location := renames[k]] == Moved(m0, renames - {k})
    ensures Sound(m0, renames - {k})
  {
    var o := renames[k].location;
    var r2 := renames - {k};
    assert Olds(r2) == Olds(renames) - {o} by {
      forall x | x in Olds(renames) - {o} ensures x in Olds(r2) {
        var j :| j in renames && renames[j].location == x;
        assert j != k && j in r2;
      }
    }
    var got := (Moved(m0, renames) - {k})[o := renames[k]];
    var want := Moved(m0, r2);
    assert got.Keys == want.Keys;
    forall l | l in got ensures got[l] == want[l] {
    }
    assert got == want;
  }

  lemma {:induction false} RestorePart(m0: Cset, renames: map<string, Entry>, ks: seq<string>)
    requires Sound(m0, renames)
    requires forall k :: k in ks ==> k in renames
    requires forall i, j :: 0 <= i < j < |ks| ==> ks[i] != ks[j]
    ensures RestoreSpec(Moved(m0, renames), renames, ks) == Moved(m0, renames - (set k | k in ks))
    ensures Sound(m0, renames - (set k | k in ks))
    decreases |ks|
  {
    if ks == [] {
      assert renames - (set k | k in ks) == renames;
    } else {
      var init := ks[..|ks| - 1];
      var k := ks[|ks| - 1];
      assert ks == init + [k];
      assert k !in init;
      RestorePart(m0, renames, init);
      var rest := renames - (set j | j in init);
      assert k in rest && rest[k] == renames[k];
      RestoreOneMovesBack(m0, rest, k);
      WithoutOneMore(renames, init, k);
    }
  }

  /** Dropping the keys of `init + [k]` is dropping those of `init`, then `k`. */
  lemma WithoutOneMore(renames: map<string, Entry>, init: seq<string>, k: string)
    ensures renames - (set j | j in init + [k]) == (renames - (set j | j in init)) - {k}
  {
    assert (set j | j in init + [k]) == (set j | j in init) + {k};
  }

  /**
   * The round trip: restoring every record of a sound table, in any order,
   * gives back exactly the install set the renames started from.
   */
  lemma RestoreUndoesRenames(m0: Cset, renames: map<string, Entry>, order: seq<string>)
    requires Sound(m0, renames)
    requires Enumerates(order, renames.Keys)
    ensures RestoreSpec(Moved(m0, renames), renames, order) == m0
  {
    RestorePart(m0, renames, order);
    assert renames - (set k | k in order) == map[];
    NothingMoved(m0);
  }

  // ---------------------------------------------------------------------
  // The renames the install trigger makes, undone by the restore trigger
  // ---------------------------------------------------------------------

  /** The `._cfg` location `RenameGroup` gives each entry of one directory, in the same order. */
  function GroupTargets(dirLoc: string, entries: seq<(string, Entry)>, updates: map<string, seq<(int, string)>>,
                        probe: (string, Entry) -> bool): (r: seq<string>)
    requires forall e :: e in entries ==> e.0 in updates
    ensures |r| == |entries|
    decreases |entries|
  {
    if entries == [] then []
    else
      var init := entries[..|entries| - 1];
      var (fname, entry) := entries[|entries| - 1];
      assert forall e :: e in init ==> e in entries;
      GroupTargets(dirLoc, init, updates, probe) + [NewLocation(dirLoc, CountFrom(0, updates[fname], dirLoc, entry, probe), fname)]
  }

  /** The `._cfg` locations `ProcessDir` would use for directory `d`: none when its listing fails. */
  function DirTargets(groups: Groups, d: string, listdir: string -> Result<seq<string>, nat>, probe: (string, Entry) -> bool): seq<string>
    requires d in groups
  {
    if listdir(d).Err? then []
    else GroupTargets(d, groups[d], Updates(CfgListing(listdir(d).value), Names(groups[d])), probe)
  }

  /** The `._cfg` locations for every directory in `order`, directory by directory. */
  function Targets(groups: Groups, order: seq<string>, listdir: string -> Result<seq<string>, nat>,
                   probe: (string, Entry) -> bool): seq<string>
    requires forall d :: d in order ==> d in groups
    decreases |order|
  {
    if order == [] then []
    else Targets(groups, order[..|order| - 1], listdir, probe) + DirTargets(groups, order[|order| - 1], listdir, probe)
  }

  /** New locations that are free in `m0` and in the table, and pairwise distinct. */
  predicate FreshTargets(m0: Cset, renames: map<string, Entry>, ts: seq<string>) {
    (forall i :: 0 <= i < |ts| ==> ts[i] !in m0 && ts[i] !in renames) &&
    (forall i, j :: 0 <= i < j < |ts| ==> ts[i] != ts[j])
  }

  /** Fresh locations stay fresh for a table grown only by locations listed before them. */
  lemma FreshSplit(m0: Cset, renames: map<string, Entry>, grown: map<string, Entry>, a: seq<string>, b: seq<string>)
    requires FreshTargets(m0, renames, a + b)
    requires forall k :: k in grown ==> k in renames || k in a
    ensures FreshTargets(m0, renames, a)
    ensures FreshTargets(m0, grown, b)
  {
    forall i | 0 <= i < |a| ensures a[i] == (a + b)[i] {
    }
    forall i | 0 <= i < |b| ensures b[i] !in m0 && b[i] !in grown {
      assert b[i] == (a + b)[|a| + i];
    }
    forall i, j | 0 <= i < j < |b| ensures b[i] != b[j] {
      assert b[i] == (a + b)[|a| + i] && b[j] == (a + b)[|a| + j];
    }
  }

  /**
   * One directory's renames, started from a table of sound moves of `m0`,
   * leave a table of sound moves of `m0`, grown only by that directory's
   * `._cfg` locations, when those are fresh and each entry is the one `m0`
   * holds at its location. An entry already moved away is skipped.
   */
  lemma {:induction false} RenameGroupMoves(m0: Cset, renames: map<string, Entry>, dirLoc: string, entries: seq<(string, Entry)>,
                                            updates: map<string, seq<(int, string)>>, probe: (string, Entry) -> bool)
    requires Sound(m0, renames)
    requires forall e :: e in entries ==> e.0 in updates && e.1.location in m0 && m0[e.1.location] == e.1
    requires FreshTargets(m0, renames, GroupTargets(dirLoc, entries, updates, probe))
    ensures var st := RenameGroup(Staged(Moved(m0, renames), renames), dirLoc, entries, updates, probe);
      st == Staged(Moved(m0, st.renames), st.renames) && Sound(m0, st.renames) &&
      forall k :: k in st.renames ==> k in renames || k in GroupTargets(dirLoc, entries, updates, probe)
    decreases |entries|
  {
    if entries != [] {
      var init := entries[..|entries| - 1];
      var (fname, entry) := entries[|entries| - 1];
      assert forall e :: e in init ==> e in entries;
      var ts := GroupTargets(dirLoc, entries, updates, probe);
      var its := GroupTargets(dirLoc, init, updates, probe);
      var count := CountFrom(0, updates[fname], dirLoc, entry, probe);
      var nl := NewLocation(dirLoc, count, fname);
      assert ts == its + [nl];
      FreshSplit(m0, renames, renames, its, [nl]);
      RenameGroupMoves(m0, renames, dirLoc, init, updates, probe);
      var prev := RenameGroup(Staged(Moved(m0, renames), renames), dirLoc, init, updates, probe);
      FreshSplit(m0, renames, prev.renames, its, [nl]);
      assert nl !in m0 && nl !in prev.renames by {
        assert [nl][0] == nl;
      }
      if entry.location in prev.install {
        assert entry.location !in prev.renames;
        assert entry.location !in Olds(prev.renames);
        RenameOneMoves(m0, prev.renames, dirLoc, fname, entry, count);
      }
    }
  }

  /**
   * The same over the directories in `order`, including a run that stops at
   * a listing failure, which keeps what the earlier directories did.
   */
  lemma {:induction false} ProcessDirsMoves(m0: Cset, renames: map<string, Entry>, groups: Groups, order: seq<string>,
                                            listdir: string -> Result<seq<string>, nat>, probe: (string, Entry) -> bool)
    requires Sound(m0, renames)
    requires forall d :: d in order ==> d in groups
    requires forall d, e :: d in groups && e in groups[d] ==> e.1.location in m0 && m0[e.1.location] == e.1
    requires FreshTargets(m0, renames, Targets(groups, order, listdir, probe))
    ensures var st := ProcessDirs(Staged(Moved(m0, renames), renames), groups, order, listdir, probe).0;
      st == Staged(Moved(m0, st.renames), st.renames) && Sound(m0, st.renames) &&
      forall k :: k in st.renames ==> k in renames || k in Targets(groups, order, listdir, probe)
    decreases |order|
  {
    if order != [] {
      var init := order[..|order| - 1];
      var d := order[|order| - 1];
      var ts := Targets(groups, order, listdir, probe);
      var its := Targets(groups, init, listdir, probe);
      var dts := DirTargets(groups, d, listdir, probe);
      assert ts == its + dts;
      FreshSplit(m0, renames, renames, its, dts);
      ProcessDirsMoves(m0, renames, groups, init, listdir, probe);
      var prev := ProcessDirs(Staged(Moved(m0, renames), renames), groups, init, listdir, probe);
      if prev.1.None? {
        FreshSplit(m0, renames, prev.0.renames, its, dts);
        ProcessDirMoves(m0, prev.0.renames, groups, d, listdir, probe);
      }
    }
  }

  /** One directory's step of `ProcessDirsMoves`. */
  lemma ProcessDirMoves(m0: Cset, renames: map<string, Entry>, groups: Groups, d: string,
                        listdir: string -> Result<seq<string>, nat>, probe: (string, Entry) -> bool)
    requires Sound(m0, renames)
    requires d in groups
    requires forall e :: e in groups[d] ==> e.1.location in m0 && m0[e.1.location] == e.1
    requires FreshTargets(m0, renames, DirTargets(groups, d, listdir, probe))
    ensures var st := ProcessDir(Staged(Moved(m0, renames), renames), d, groups[d], listdir(d), probe).0;
      st == Staged(Moved(m0, st.renames), st.renames) && Sound(m0, st.renames) &&
      forall k :: k in st.renames ==> k in renames || k in DirTargets(groups, d, listdir, probe)
  {
    if listdir(d).Ok? {
      RenameGroupMoves(m0, renames, d, groups[d], Updates(CfgListing(listdir(d).value), Names(groups[d])), probe);
    }
  }

  /**
   * The install trigger and the restore trigger together: started from an
   * empty table on a keyed install set `m0`, whatever the install trigger
   * moved (everything, or what it did before a failure) is moved back by
   * restoring every record, in any order, giving `m0` again, provided the
   * `._cfg` locations it picks are new and distinct.
   */
  lemma InstallThenRestore(existing: Cset, m0: Cset, offset: string, host: Host, extraProtects: seq<string>,
                           extraDisables: seq<string>, fileOrder: seq<string>, dirOrder: seq<string>,
                           ioErr: string -> Option<nat>, listdir: string -> Result<seq<string>, nat>, probe: (string, Entry) -> bool,
                           restoreOrder: seq<string>)
    requires Keyed(m0)
    requires forall l :: l in fileOrder ==> l in existing
    requires var g := ProtectedGroups(existing, m0, offset, host, extraProtects, extraDisables, fileOrder, ioErr);
      g.Ok? ==> (forall d :: d in dirOrder ==> d in g.value) && FreshTargets(m0, map[], Targets(g.value, dirOrder, listdir, probe))
    requires var st := InstallSpec(existing, Staged(m0, map[]), offset, host, extraProtects, extraDisables,
                                   fileOrder, dirOrder, ioErr, listdir, probe).0;
      Enumerates(restoreOrder, st.renames.Keys)
    ensures var st := InstallSpec(existing, Staged(m0, map[]), offset, host, extraProtects, extraDisables,
                                  fileOrder, dirOrder, ioErr, listdir, probe).0;
      RestoreSpec(st.install, st.renames, restoreOrder) == m0
  {
    var st := InstallSpec(existing, Staged(m0, map[]), offset, host, extraProtects, extraDisables,
                          fileOrder, dirOrder, ioErr, listdir, probe).0;
    NothingMoved(m0);
    var g := ProtectedGroups(existing, m0, offset, host, extraProtects, extraDisables, fileOrder, ioErr);
    if g.Ok? {
      var (pf, igf) := Filters(host, extraProtects, extraDisables, []).value;
      var dirOf := DirOf(offset);
      assert g == CollectSpec(existing, m0, fileOrder, dirOf, pf, igf, host.fnmatch, ioErr);
      forall d, e | d in g.value && e in g.value[d] ensures e.1.location in m0 && m0[e.1.location] == e.1 {
        CollectFilesOnly(existing, m0, fileOrder, dirOf, pf, igf, host.fnmatch, ioErr, d, e);
      }
      ProcessDirsMoves(m0, map[], g.value, dirOrder, listdir, probe);
      assert st == ProcessDirs(Staged(Moved(m0, map[]), map[]), g.value, dirOrder, listdir, probe).0;
      RestoreUndoesRenames(m0, st.renames, restoreOrder);
    } else {
      assert st == Staged(m0, map[]);
    }
  }

  // ---------------------------------------------------------------------
  // The triggers
  // ---------------------------------------------------------------------

  const InstallTrigger: Trigger :=
    Trigger("ConfigProtectInstall", None, Some(["pre_merge"]), None, Named(["install_existing", "install"]), 100)

  const RestoreTrigger: Trigger :=
    Trigger("ConfigProtectInstall_restore", None, Some(["post_merge"]), None, Named(["install"]), 10)

  class ConfigProtectInstall {
    const extraProtects: seq<string>
    const extraDisables: seq<string>
    /** New location to the original entry, shared with the restore trigger. */
    var renames: map<string, Entry>

    constructor (extraProtects: seq<string>, extraDisables: seq<string>)
      ensures this.extraProtects == extraProtects && this.extraDisables == extraDisables
      ensures renames == map[]
    {
      this.extraProtects := extraProtects;
      this.extraDisables := extraDisables;
      renames := map[];
    }

    /** `register`: this trigger on `pre_merge`, then the restore trigger on `post_merge`. */
    method Register(engine: MergeEngine)
      modifies engine
      ensures engine.hooks ==
        RegisterAll(RegisterAll(old(engine.hooks), ["pre_merge"], Registration(InstallTrigger, Some(["install_existing", "install"]))),
                    ["post_merge"], Registration(RestoreTrigger, Some(["install"])))
      ensures engine.phase == old(engine.phase)
    {
      var _ := Engine.Register(InstallTrigger, engine);
      var _ := Engine.Register(RestoreTrigger, engine);
    }

    /** The renames for one directory whose listing is `listing`. */
    method RenameDir(install: ContentSet, dirLoc: string, entries: seq<(string, Entry)>, listing: Result<seq<string>, nat>,
                     probe: (string, Entry) -> bool) returns (err: Option<TriggerError>)
      requires install.Valid()
      modifies install, this
      ensures install.Valid()
      ensures (Staged(install.entries, renames), err) ==
        ProcessDir(Staged(old(install.entries), old(renames)), dirLoc, entries, listing, probe)
    {
      if listing.Err? {
        if listing.error == ENOENT {
          return None;
        }
        return Some(ListingFailed(dirLoc, listing.error));
      }
      var existing := CfgListing(listing.value);
      var updates := ParseUpdates(existing, Names(entries));
      ghost var st0 := Staged(install.entries, renames);
      var k := 0;
      while k < |entries|
        invariant 0 <= k <= |entries|
        invariant install.Valid()
        invariant forall e :: e in entries ==> e.0 in updates
        invariant Staged(install.entries, renames) == RenameGroup(st0, dirLoc, entries[..k], updates, probe)
      {
        assert entries[..k + 1][..k] == entries[..k];
        var (fname, entry) := entries[k];
        var count := NextCount(updates[fname], dirLoc, entry, probe);
        var found := install.Remove(entry.location);
        if found {
          var nl := NewLocation(dirLoc, count, fname);
          install.Add(entry.(location := nl));
          renames := renames[nl := entry];
        }
        k := k + 1;
      }
      assert entries[..k] == entries;
      return None;
    }

    /**
     * `trigger(engine, existing_cset, install_cset)`. `fileOrder` lists the
     * regular files of the existing set, `dirOrder` the directories of the
     * protected table, each in the order the source iterates them.
     */
    method Trigger(engine: MergeEngine, existing: Cset, install: ContentSet, host: Host, fileOrder: seq<string>, dirOrder: seq<string>,
                   ioErr: string -> Option<nat>, listdir: string -> Result<seq<string>, nat>, probe: (string, Entry) -> bool) returns (err: Option<TriggerError>)
      requires install.Valid()
      requires Enumerates(fileOrder, OfKind(existing, Regular))
      requires ProtectedGroups(existing, install.entries, engine.offset, host, extraProtects, extraDisables, fileOrder, ioErr).Ok? ==>
        Enumerates(dirOrder, ProtectedGroups(existing, install.entries, engine.offset, host, extraProtects, extraDisables, fileOrder, ioErr).value.Keys)
      modifies install, this
      ensures install.Valid()
      ensures forall l :: l in fileOrder ==> l in existing
      ensures (Staged(install.entries, renames), err) ==
        InstallSpec(existing, Staged(old(install.entries), old(renames)), engine.offset, host, extraProtects, extraDisables,
                    fileOrder, dirOrder, ioErr, listdir, probe)
    {
      assert forall l :: l in fileOrder ==> l in existing;
      var filters := Filters(host, extraProtects, extraDisables, []);
      if filters.Err? {
        return Some(filters.error);
      }
      var (pf, igf) := filters.value;
      var collected := CollectProtected(existing, install.entries, fileOrder, DirOf(engine.offset), pf, igf, host.fnmatch, ioErr);
      if collected.Err? {
        return Some(collected.error);
      }
      err := RenameDirs(install, collected.value, dirOrder, listdir, probe);
    }

    /** The renames for every directory of the table, in `order`, stopping at the first failure. */
    method RenameDirs(install: ContentSet, groups: Groups, order: seq<string>, listdir: string -> Result<seq<string>, nat>,
                      probe: (string, Entry) -> bool) returns (err: Option<TriggerError>)
      requires install.Valid()
      requires forall d :: d in order ==> d in groups
      modifies install, this
      ensures install.Valid()
      ensures (Staged(install.entries, renames), err) == ProcessDirs(Staged(old(install.entries), old(renames)), groups, order, listdir, probe)
    {
      ghost var st0 := Staged(install.entries, renames);
      var k := 0;
      while k < |order|
        invariant 0 <= k <= |order|
        invariant install.Valid()
        invariant (Staged(install.entries, renames), None) == ProcessDirs(st0, groups, order[..k], listdir, probe)
      {
        assert order[..k + 1][..k] == order[..k];
        var d := order[k];
        var e := RenameDir(install, d, groups[d], listdir(d), probe);
        if e.Some? {
          ProcessDirsStops(st0, groups, order, k + 1, listdir, probe);
          return e;
        }
        k := k + 1;
      }
      assert order[..k] == order;
      return None;
    }

    /** `ConfigProtectInstall_restore.trigger`, over the table in the order `order` lists it, then `renames.clear()`. */
    method Restore(install: ContentSet, order: seq<string>)
      requires install.Valid()
      requires Enumerates(order, renames.Keys)
      modifies install, this
      ensures install.Valid()
      ensures install.entries == RestoreSpec(old(install.entries), old(renames), order)
      ensures renames == map[]
    {
      var k := 0;
      while k < |order|
        invariant 0 <= k <= |order|
        invariant install.Valid()
        invariant renames == old(renames)
        invariant install.entries == RestoreSpec(old(install.entries), renames, order[..k])
      {
        RestoreStep(old(install.entries), renames, order, k);
        RestoreOne(install, order[k]);
        k := k + 1;
      }
      assert order[..k] == order;
      renames := map[];
    }

    /** One entry of the table: `remove` the renamed entry if it is still there, then `add` the recorded original. */
    method RestoreOne(install: ContentSet, x: string)
      requires install.Valid() && x in renames
      modifies install
      ensures install.Valid()
      ensures var m := old(install.entries);
        install.entries == if x in m then (m - {x})[renames[x].location := renames[x]] else m
    {
      var found := install.Remove(x);
      if found {
        install.Add(renames[x]);
      }
    }
  }
}
