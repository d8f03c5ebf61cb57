/**
 * The collision family of the ebuild triggers: `FileCollision` works out
 * which files of the merge would overwrite live files that no one asked to
 * be overwritten, and its two subclasses decide what to do about them —
 * `CollisionProtect` refuses any such file, `ProtectOwned` refuses only
 * files that an installed package owns. `install_into_symdir_protect` is
 * registered beside them but returns before doing anything.
 *
 * Content sets are compared by location, as `contentsSet` hashes its entries.
 * The installed packages come in as a sequence in the order the vdb
 * repositories yield them.
 */
module Collision {
  import opened Wrappers
  import opened Contents
  import opened Engine
  import opened Protect

  /** The constructor arguments every collision trigger keeps. */
  datatype Extras = Extras(protects: seq<string>, disables: seq<string>, ignores: seq<string>)

  /** The csets the collision triggers ask for: the old contents only when replacing. */
  const CollisionCsets: RequiredCsets :=
    PerMode(map[InstallMode := ["install", "install_existing"], ReplaceMode := ["install", "install_existing", "old_cset"]])

  const FileCollisionTrigger: Trigger :=
    Trigger("FileCollision", None, Some(["sanity_check"]), Some(InstallingModes), CollisionCsets, 50)
  const CollisionProtectTrigger: Trigger :=
    Trigger("CollisionProtect", None, Some(["sanity_check"]), Some(InstallingModes), CollisionCsets, 50)
  const ProtectOwnedTrigger: Trigger :=
    Trigger("ProtectOwned", None, Some(["sanity_check"]), Some(InstallingModes), CollisionCsets, 50)
  const InstallIntoSymdirProtectTrigger: Trigger :=
    Trigger("install_into_symdir_protect", None, Some(["sanity_check"]), Some(InstallingModes), CollisionCsets, 50)

  // ---------------------------------------------------------------------
  // FileCollision
  // ---------------------------------------------------------------------

  /** A live file the collision check leaves alone: config-protected or collision-ignored. */
  predicate Exempt(pf: ProtectFilter, igf: IgnoreFilter, fnmatch: (string, string) -> bool, loc: string) {
    IsProtected(pf, loc) || IsIgnored(igf, fnmatch, loc)
  }

  /** The live locations that collide: not a directory being installed, not exempt, not part of the package being replaced. */
  function CollidingFiles(install: Cset, existing: Cset, replaced: Cset, pf: ProtectFilter, igf: IgnoreFilter,
                          fnmatch: (string, string) -> bool): set<string>
  {
    set l | l in existing && l !in OfKind(install, Directory) && !Exempt(pf, igf, fnmatch, l) && l !in replaced
  }

  /**
   * `FileCollision.trigger`: what it passes to `collision`, with the empty set
   * standing for "`collision` is not called". An empty existing set returns
   * before either filter is built, so only a non-empty one can fail on them.
   */
  function FileCollisionSpec(install: Cset, existing: Cset, replaced: Cset, host: Host, extras: Extras): Result<set<string>, TriggerError>
  {
    if existing == map[] then Ok({})
    else
      match Filters(host, extras.protects, extras.disables, extras.ignores)
      case Err(e) => Err(e)
      case Ok((pf, igf)) => Ok(CollidingFiles(install, existing, replaced, pf, igf, host.fnmatch))
  }

  /**
   * `FileCollision.trigger` up to the call of `collision`. `replaced` is the
   * replaced package's contents, empty in install mode.
   */
  method FileCollisionCheck(install: Cset, existing: Cset, replaced: Cset, host: Host, extras: Extras)
    returns (r: Result<set<string>, TriggerError>)
    ensures r == FileCollisionSpec(install, existing, replaced, host, extras)
  {
    if existing == map[] {
      return Ok({});
    }
    var colliding := existing.Keys - OfKind(install, Directory);
    var filters := Filters(host, extras.protects, extras.disables, extras.ignores);
    if filters.Err? {
      return Err(filters.error);
    }
    var (pf, igf) := filters.value;
    assert FileCollisionSpec(install, existing, replaced, host, extras) == Ok(CollidingFiles(install, existing, replaced, pf, igf, host.fnmatch));
    var ignores: set<string> := {};
    var todo := colliding;
    while todo != {}
      invariant todo <= colliding
      invariant ignores == set l | l in colliding - todo && Exempt(pf, igf, host.fnmatch, l)
      decreases todo
    {
      var x :| x in todo;
      if IsProtected(pf, x) || IsIgnored(igf, host.fnmatch, x) {
        ignores := ignores + {x};
      }
      todo := todo - {x};
    }
    colliding := colliding - ignores;
    if colliding == {} {
      assert CollidingFiles(install, existing, replaced, pf, igf, host.fnmatch) == {};
      return Ok({});
    }
    colliding := colliding - replaced.Keys;
    forall l ensures l in colliding <==> l in CollidingFiles(install, existing, replaced, pf, igf, host.fnmatch) {
      assert l in ignores <==> l in existing.Keys - OfKind(install, Directory) && Exempt(pf, igf, host.fnmatch, l);
    }
    assert colliding == CollidingFiles(install, existing, replaced, pf, igf, host.fnmatch);
    return Ok(colliding);
  }

  /**
   * What the check reports is exactly the live files that the merge would
   * overwrite and nothing exempts: each is in the existing set, is not a
   * directory of the install set, is neither protected nor ignored, and was
   * not the replaced package's.
   */
  lemma CollidingIff(install: Cset, existing: Cset, replaced: Cset, host: Host, extras: Extras, loc: string)
    requires FileCollisionSpec(install, existing, replaced, host, extras).Ok?
    ensures existing == map[] ==> FileCollisionSpec(install, existing, replaced, host, extras).value == {}
    ensures existing != map[] ==>
      var (pf, igf) := Filters(host, extras.protects, extras.disables, extras.ignores).value;
      (loc in FileCollisionSpec(install, existing, replaced, host, extras).value <==>
        loc in existing && !(loc in install && install[loc].kind == Directory) &&
        !IsProtected(pf, loc) && !IsIgnored(igf, host.fnmatch, loc) && loc !in replaced)
  {
  }

  /** Config-protected files never collide, nor do files the replaced package owned. */
  lemma ProtectedNeverCollides(install: Cset, existing: Cset, replaced: Cset, host: Host, extras: Extras, loc: string)
    requires FileCollisionSpec(install, existing, replaced, host, extras).Ok?
    requires host.envd.Ok?
    requires loc in replaced || (ConfigProtectFilter(host, extras.protects, extras.disables).Ok? &&
                            IsProtected(ConfigProtectFilter(host, extras.protects, extras.disables).value, loc))
    ensures loc !in FileCollisionSpec(install, existing, replaced, host, extras).value
  {
  }

  // ---------------------------------------------------------------------
  // CollisionProtect and ProtectOwned
  // ---------------------------------------------------------------------

  /** How a collision trigger ends: the merge goes on, a filter failed, or `BlockModification`. */
  datatype Outcome =
    | Proceed
    | Failed(e: TriggerError)
    | Blocked(files: set<string>)                   // collision-protect: file(s) already exist
    | BlockedOwned(owners: map<string, set<string>>) // protect-owned: files per owning package

  /** `CollisionProtect`: any collision at all blocks the merge. */
  function CollisionProtectOutcome(install: Cset, existing: Cset, replaced: Cset, host: Host, extras: Extras): Outcome
  {
    match FileCollisionSpec(install, existing, replaced, host, extras)
    case Err(e) => Failed(e)
    case Ok(c) => if c == {} then Proceed else Blocked(c)
  }

  method CollisionProtect(install: Cset, existing: Cset, replaced: Cset, host: Host, extras: Extras) returns (o: Outcome)
    ensures o == CollisionProtectOutcome(install, existing, replaced, host, extras)
    ensures o.Blocked? ==> o.files != {} && o.files <= existing.Keys
  {
    var r := FileCollisionCheck(install, existing, replaced, host, extras);
    if r.Err? {
      return Failed(r.error);
    }
    if r.value != {} {
      return Blocked(r.value);
    }
    return Proceed;
  }

  /** An installed package as `ProtectOwned` sees it. */
  datatype Pkg = Pkg(cpv: string, isReal: bool, contents: set<string>)

  /**
   * The `collisions` table: for every real package whose contents meet the
   * colliding files, its `cpvstr` maps to the files it owns among them; a
   * later package with the same `cpvstr` replaces an earlier one.
   */
  function Owners(pkgs: seq<Pkg>, colliding: set<string>): map<string, set<string>>
    decreases |pkgs|
  {
    if pkgs == [] then map[]
    else
      var prev := Owners(pkgs[..|pkgs| - 1], colliding);
      var p := pkgs[|pkgs| - 1];
      if p.isReal && p.contents * colliding != {} then prev[p.cpv := p.contents * colliding] else prev
  }

  /** Owning a colliding file: a real package with a file among the colliding ones. */
  predicate Owns(p: Pkg, colliding: set<string>) {
    p.isReal && p.contents * colliding != {}
  }

  /**
   * The table names exactly the packages that own a colliding file, and
   * under each name lists a non-empty set of colliding files that one such
   * package owns.
   */
  lemma {:induction false} OwnersExactly(pkgs: seq<Pkg>, colliding: set<string>, cpv: string)
    ensures cpv in Owners(pkgs, colliding) <==> exists p :: p in pkgs && p.cpv == cpv && Owns(p, colliding)
    ensures cpv in Owners(pkgs, colliding) ==>
      var fs := Owners(pkgs, colliding)[cpv];
      fs != {} && fs <= colliding && exists p :: p in pkgs && p.cpv == cpv && Owns(p, colliding) && fs == p.contents * colliding
    decreases |pkgs|
  {
    if pkgs != [] {
      var init := pkgs[..|pkgs| - 1];
      var last := pkgs[|pkgs| - 1];
      assert pkgs == init + [last];
      OwnersExactly(init, colliding, cpv);
      if exists p :: p in pkgs && p.cpv == cpv && Owns(p, colliding) {
        var p :| p in pkgs && p.cpv == cpv && Owns(p, colliding);
        if p != last {
          assert p in init;
        }
      }
    }
  }

  /** `ProtectOwned.collision`: the table, built package by package. */
  method OwnedCollisions(pkgs: seq<Pkg>, colliding: set<string>) returns (collisions: map<string, set<string>>)
    ensures collisions == Owners(pkgs, colliding)
  {
    collisions := map[];
    var k := 0;
    while k < |pkgs|
      invariant 0 <= k <= |pkgs|
      invariant collisions == Owners(pkgs[..k], colliding)
    {
      assert pkgs[..k + 1][..k] == pkgs[..k];
      var pkg := pkgs[k];
      if pkg.isReal {
        var pkgFileCollisions := pkg.contents * colliding;
        if pkgFileCollisions != {} {
          collisions := collisions[pkg.cpv := pkgFileCollisions];
        }
      }
      k := k + 1;
    }
    assert pkgs[..k] == pkgs;
  }

  /** `ProtectOwned`: only files an installed package owns block the merge. */
  function ProtectOwnedOutcome(install: Cset, existing: Cset, replaced: Cset, host: Host, extras: Extras, pkgs: seq<Pkg>): Outcome
  {
    match FileCollisionSpec(install, existing, replaced, host, extras)
    case Err(e) => Failed(e)
    case Ok(c) =>
      if c == {} then Proceed
      else
        var owners := Owners(pkgs, c);
        if owners == map[] then Proceed else BlockedOwned(owners)
  }

  method ProtectOwned(install: Cset, existing: Cset, replaced: Cset, host: Host, extras: Extras, pkgs: seq<Pkg>) returns (o: Outcome)
    ensures o == ProtectOwnedOutcome(install, existing, replaced, host, extras, pkgs)
  {
    var r := FileCollisionCheck(install, existing, replaced, host, extras);
    if r.Err? {
      return Failed(r.error);
    }
    if r.value == {} {
      return Proceed;
    }
    var collisions := OwnedCollisions(pkgs, r.value);
    if collisions != map[] {
      return BlockedOwned(collisions);
    }
    return Proceed;
  }

  /**
   * `ProtectOwned` blocks iff some real installed package owns one of the
   * colliding files, and then it blocks only where `CollisionProtect` would.
   */
  lemma ProtectOwnedBlocksIff(install: Cset, existing: Cset, replaced: Cset, host: Host, extras: Extras, pkgs: seq<Pkg>)
    requires FileCollisionSpec(install, existing, replaced, host, extras).Ok?
    ensures var c := FileCollisionSpec(install, existing, replaced, host, extras).value;
      ProtectOwnedOutcome(install, existing, replaced, host, extras, pkgs).BlockedOwned? <==>
        exists p :: p in pkgs && Owns(p, c)
    ensures ProtectOwnedOutcome(install, existing, replaced, host, extras, pkgs).BlockedOwned? ==>
      CollisionProtectOutcome(install, existing, replaced, host, extras).Blocked?
  {
    var c := FileCollisionSpec(install, existing, replaced, host, extras).value;
    if exists p :: p in pkgs && Owns(p, c) {
      var p :| p in pkgs && Owns(p, c);
      OwnersExactly(pkgs, c, p.cpv);
    } else if Owners(pkgs, c) != map[] {
      var cpv :| cpv in Owners(pkgs, c);
      OwnersExactly(pkgs, c, cpv);
    }
  }

  // ---------------------------------------------------------------------
  // install_into_symdir_protect
  // ---------------------------------------------------------------------

  /** `install_into_symdir_protect.trigger` returns before its first statement of work, so it never blocks. */
  method InstallIntoSymdirProtect(install: Cset, existing: Cset, replaced: Cset) returns (o: Outcome)
    ensures o == Proceed
  {
    return Proceed;
  }
}
