/**
 * Package acceptance in the ebuild configuration domain
 * (src/pkgcore/ebuild/domain.py): mask filters and mask stacking, the
 * keyword filter, the ACCEPT_KEYWORDS defaults, incremental settings and
 * the per-package USE computation. Matching a package against an atom, a
 * glob or any other restriction is not part of this model: a package is
 * given as its `cat/pkg` key and a predicate saying which restrictions
 * match it.
 */
module Domain {
  import opened Wrappers
  import opened Text
  import Incremental
  import RestrictData

  // ---------------------------------------------------------------------
  // make_mask_filter / apply_mask_filter
  // ---------------------------------------------------------------------

  /** A mask entry: an atom, filed under its package key, or any other restriction (a glob). */
  datatype Mask = AtomMask(key: string, id: nat) | GlobMask(id: nat)

  /** The lists the filter holds, and whether its `delegate` negates the verdict. */
  datatype MaskFilter = MaskFilter(globs: seq<Mask>, atoms: map<string, seq<Mask>>, negate: bool)

  /** The globs among `masks`, in order. */
  function GlobsOf(masks: seq<Mask>): (r: seq<Mask>)
    ensures forall m :: m in r <==> m in masks && m.GlobMask?
  {
    if masks == [] then []
    else
      var init := masks[..|masks| - 1];
      assert masks == init + [masks[|masks| - 1]];
      GlobsOf(init) + (if masks[|masks| - 1].GlobMask? then [masks[|masks| - 1]] else [])
  }

  /** The atoms among `masks` whose key is `key`, in order. */
  function AtomsOf(masks: seq<Mask>, key: string): (r: seq<Mask>)
    ensures forall m :: m in r <==> m in masks && m.AtomMask? && m.key == key
  {
    if masks == [] then []
    else
      var init := masks[..|masks| - 1];
      var m := masks[|masks| - 1];
      assert masks == init + [m];
      AtomsOf(init, key) + (if m.AtomMask? && m.key == key then [m] else [])
  }

  /**
   * The filter `make_mask_filter(masks, negate)` builds: every atom goes to
   * the list of its key and everything else to the globs, each in order.
   */
  function Filed(masks: seq<Mask>, negate: bool): (r: MaskFilter)
    ensures r.globs == GlobsOf(masks) && r.negate == negate
    ensures forall k :: k in r.atoms <==> AtomsOf(masks, k) != []
    ensures forall k :: k in r.atoms ==> r.atoms[k] == AtomsOf(masks, k)
  {
    if masks == [] then MaskFilter([], map[], negate)
    else
      var init := masks[..|masks| - 1];
      var f := Filed(init, negate);
      var m := masks[|masks| - 1];
      var r := if m.AtomMask? then f.(atoms := f.atoms[m.key := (if m.key in f.atoms then f.atoms[m.key] else []) + [m]])
               else f.(globs := f.globs + [m]);
      FiledStep(masks, negate, f, r);
      r
  }

  /** Filing one more mask keeps the filter's buckets equal to the masks' own. */
  lemma FiledStep(masks: seq<Mask>, negate: bool, f: MaskFilter, r: MaskFilter)
    requires masks != []
    requires var init := masks[..|masks| - 1];
      f.globs == GlobsOf(init) && f.negate == negate &&
      (forall k :: k in f.atoms <==> AtomsOf(init, k) != []) &&
      (forall k :: k in f.atoms ==> f.atoms[k] == AtomsOf(init, k))
    requires var m := masks[|masks| - 1];
      r == if m.AtomMask? then f.(atoms := f.atoms[m.key := (if m.key in f.atoms then f.atoms[m.key] else []) + [m]])
           else f.(globs := f.globs + [m])
    ensures r.globs == GlobsOf(masks) && r.negate == negate
    ensures forall k :: k in r.atoms <==> AtomsOf(masks, k) != []
    ensures forall k :: k in r.atoms ==> r.atoms[k] == AtomsOf(masks, k)
  {
    var init := masks[..|masks| - 1];
    var m := masks[|masks| - 1];
    AtomsOfSnoc(masks);
    forall k
      ensures (k in r.atoms <==> AtomsOf(masks, k) != []) && (k in r.atoms ==> r.atoms[k] == AtomsOf(masks, k))
    {
      if m.AtomMask? && m.key == k {
        assert AtomsOf(masks, k) == AtomsOf(init, k) + [m];
      } else {
        assert AtomsOf(masks, k) == AtomsOf(init, k);
      }
    }
  }

  lemma AtomsOfSnoc(masks: seq<Mask>)
    requires masks != []
    ensures var m := masks[|masks| - 1];
      forall k :: AtomsOf(masks, k) == AtomsOf(masks[..|masks| - 1], k) + (if m.AtomMask? && m.key == k then [m] else [])
  {
  }

  /** `make_mask_filter`. */
  method MakeMaskFilter(masks: seq<Mask>, negate: bool) returns (f: MaskFilter)
    ensures f == Filed(masks, negate)
  {
    var atoms: map<string, seq<Mask>> := map[];
    var globs: seq<Mask> := [];
    var k := 0;
    while k < |masks|
      invariant 0 <= k <= |masks|
      invariant MaskFilter(globs, atoms, negate) == Filed(masks[..k], negate)
    {
      assert masks[..k + 1][..k] == masks[..k];
      var m := masks[k];
      if m.AtomMask? {
        var existing := if m.key in atoms then atoms[m.key] else [];
        atoms := atoms[m.key := existing + [m]];
      } else {
        globs := globs + [m];
      }
      k := k + 1;
    }
    assert masks[..k] == masks;
    return MaskFilter(globs, atoms, negate);
  }

  /** `apply_mask_filter`: some glob, or some atom filed under the package's key, matches it. */
  predicate ApplyMaskFilter(globs: seq<Mask>, atoms: map<string, seq<Mask>>, matches: Mask -> bool, key: string): (r: bool)
    ensures (exists g :: g in globs && matches(g)) ==> r
    ensures r && (key !in atoms || forall a :: a in atoms[key] ==> !matches(a)) ==> exists g :: g in globs && matches(g)
  {
    exists m :: m in globs + (if key in atoms then atoms[key] else []) && matches(m)
  }

  /** The `delegate` restriction `make_mask_filter` returns, applied to a package. */
  predicate MaskFilterMatches(f: MaskFilter, matches: Mask -> bool, key: string)
  {
    ApplyMaskFilter(f.globs, f.atoms, matches, key) != f.negate
  }

  /**
   * A package is hit by the mask list exactly when some glob of the list
   * matches it, or some atom of the list for the package's own key does;
   * atoms for other keys are never tried.
   */
  lemma MaskFilterIff(masks: seq<Mask>, negate: bool, matches: Mask -> bool, key: string)
    ensures var f := Filed(masks, negate);
      ApplyMaskFilter(f.globs, f.atoms, matches, key) <==>
      exists m :: m in masks && matches(m) && (m.AtomMask? ==> m.key == key)
    ensures MaskFilterMatches(Filed(masks, negate), matches, key) <==>
      (exists m :: m in masks && matches(m) && (m.AtomMask? ==> m.key == key)) != negate
  {
    var f := Filed(masks, negate);
    var bucket := if key in f.atoms then f.atoms[key] else [];
    assert bucket == AtomsOf(masks, key);
    if exists m :: m in masks && matches(m) && (m.AtomMask? ==> m.key == key) {
      var m :| m in masks && matches(m) && (m.AtomMask? ==> m.key == key);
      assert m in f.globs + bucket;
    }
  }

  // ---------------------------------------------------------------------
  // _filter_repo: mask stacking
  // ---------------------------------------------------------------------

  /** One `(neg, pos)` entry of an incremental mask stack. */
  datatype MaskPair = MaskPair(neg: set<Mask>, pos: set<Mask>)

  /** The set after applying the pairs in order, each removing `neg` and then adding `pos`. */
  function Stacked(pairs: seq<MaskPair>): set<Mask>
  {
    if pairs == [] then {}
    else Stacked(pairs[..|pairs| - 1]) - pairs[|pairs| - 1].neg + pairs[|pairs| - 1].pos
  }

  /**
   * An entry survives the stack exactly when some pair adds it and no later
   * pair removes it.
   */
  lemma {:induction false} StackedIff(pairs: seq<MaskPair>, m: Mask)
    ensures m in Stacked(pairs) <==>
      exists i :: 0 <= i < |pairs| && m in pairs[i].pos && forall j :: i < j < |pairs| ==> m !in pairs[j].neg
    decreases |pairs|
  {
    if pairs != [] {
      var n := |pairs| - 1;
      var init := pairs[..n];
      StackedIff(init, m);
      forall i | 0 <= i < n ensures pairs[i] == init[i] { }
      if m in Stacked(pairs) && m !in pairs[n].pos {
        var i :| 0 <= i < n && m in init[i].pos && forall j :: i < j < n ==> m !in init[j].neg;
        assert forall j :: i < j < |pairs| ==> m !in pairs[j].neg;
      }
      if m !in pairs[n].pos && exists i :: 0 <= i < |pairs| && m in pairs[i].pos && forall j :: i < j < |pairs| ==> m !in pairs[j].neg {
        var i :| 0 <= i < |pairs| && m in pairs[i].pos && forall j :: i < j < |pairs| ==> m !in pairs[j].neg;
        assert i < n && m in init[i].pos && forall j :: i < j < n ==> m !in init[j].neg;
      }
    }
  }

  /** One of the two stacking loops. */
  method StackPairs(pairs: seq<MaskPair>) returns (s: set<Mask>)
    ensures s == Stacked(pairs)
  {
    s := {};
    var k := 0;
    while k < |pairs|
      invariant 0 <= k <= |pairs|
      invariant s == Stacked(pairs[..k])
    {
      assert pairs[..k + 1][..k] == pairs[..k];
      s := s - pairs[k].neg;
      s := s + pairs[k].pos;
      k := k + 1;
    }
    assert pairs[..k] == pairs;
  }

  /**
   * The mask and unmask sets `_filter_repo` hands to `generate_filter`: the
   * repository's and then the profile's mask stacks, then the user's
   * `package.mask`; the profile's unmask stack, then the user's
   * `package.unmask`.
   */
  method FilterRepoMasks(repoMasks: seq<MaskPair>, profileMasks: seq<MaskPair>, pkgMasks: set<Mask>,
                         profileUnmasks: seq<MaskPair>, pkgUnmasks: set<Mask>)
    returns (masks: set<Mask>, unmasks: set<Mask>)
    ensures masks == Stacked(repoMasks + profileMasks) + pkgMasks
    ensures unmasks == Stacked(profileUnmasks) + pkgUnmasks
  {
    masks := StackPairs(repoMasks + profileMasks);
    masks := masks + pkgMasks;
    unmasks := StackPairs(profileUnmasks);
    unmasks := unmasks + pkgUnmasks;
  }

  /** User entries are masked whatever the stacks say; a stack entry is masked iff its last adder is not undone. */
  lemma FilterRepoMasksIff(repoMasks: seq<MaskPair>, profileMasks: seq<MaskPair>, pkgMasks: set<Mask>, m: Mask)
    ensures var pairs := repoMasks + profileMasks;
      m in Stacked(pairs) + pkgMasks <==>
      m in pkgMasks ||
      exists i :: 0 <= i < |pairs| && m in pairs[i].pos && forall j :: i < j < |pairs| ==> m !in pairs[j].neg
  {
    StackedIff(repoMasks + profileMasks, m);
  }

  // ---------------------------------------------------------------------
  // _apply_keywords_filter
  // ---------------------------------------------------------------------

  /** `k[0]` on an empty keyword raises IndexError. */
  datatype KeywordError = EmptyKeyword

  /** The first characters the `*` loop (`k[0] not in "-~"`) and the `~*` loop (`k[0] == "~"`) look for. */
  predicate Wanted(c: char, tilde: bool)
  {
    if tilde then c == '~' else c != '-' && c != '~'
  }

  /** One of the two early-return loops over the package's keywords. */
  function Scan(kws: seq<string>, tilde: bool): (r: Result<bool, KeywordError>)
    ensures (forall k :: k in kws ==> k != []) ==> r == Ok(exists k :: k in kws && Wanted(k[0], tilde))
    ensures r.Err? ==> [] in kws
    ensures r == Ok(true) ==> exists k :: k in kws && k != [] && Wanted(k[0], tilde)
  {
    if kws == [] then Ok(false)
    else if kws[0] == [] then
      assert kws[0] in kws;
      Err(EmptyKeyword)
    else if Wanted(kws[0][0], tilde) then Ok(true)
    else
      var r := Scan(kws[1..], tilde);
      assert forall k :: k in kws <==> k == kws[0] || k in kws[1..] by {
        assert kws == [kws[0]] + kws[1..];
      }
      r
  }

  /** A profile `package.keywords` entry: an atom and the keywords it adds. */
  datatype ProfileKeywords = ProfileKeywords(atom: RestrictData.Restriction, keywords: seq<string>)

  /** The package's keywords followed by those of every matching profile entry, in order. */
  function PkgKeywords(keywords: seq<string>, profile: seq<ProfileKeywords>, matches: RestrictData.Restriction -> bool): (r: seq<string>)
    ensures forall k :: k in r <==> k in keywords || exists p :: p in profile && matches(p.atom) && k in p.keywords
  {
    if profile == [] then keywords
    else
      var init := profile[..|profile| - 1];
      var p := profile[|profile| - 1];
      assert profile == init + [p];
      PkgKeywords(keywords, init, matches) + (if matches(p.atom) then p.keywords else [])
  }

  /** `_apply_keywords_filter` once the allowed set and the keyword list are known. */
  function ApplyKeywordsFilter(allowed: set<string>, kws: seq<string>): (r: Result<bool, KeywordError>)
    ensures "**" in allowed ==> r == Ok(true)
    ensures r.Err? ==> [] in kws
    ensures r == Ok(false) ==> forall k :: k in kws ==> k !in allowed
  {
    if "**" in allowed then Ok(true)
    else
      var star := if "*" in allowed then Scan(kws, false) else Ok(false);
      if star != Ok(false) then star
      else
        var tilde := if "~*" in allowed then Scan(kws, true) else Ok(false);
        if tilde != Ok(false) then tilde
        else Ok(exists x :: x in kws && x in allowed)
  }

  /**
   * With no empty keyword, a package is accepted exactly when `**` is
   * allowed, or `*` is and it has a stable keyword, or `~*` is and it has a
   * testing keyword, or one of its keywords is allowed itself.
   */
  lemma KeywordsAcceptIff(allowed: set<string>, kws: seq<string>)
    requires forall k :: k in kws ==> k != []
    ensures ApplyKeywordsFilter(allowed, kws) == Ok(
      "**" in allowed ||
      ("*" in allowed && exists k :: k in kws && k[0] != '-' && k[0] != '~') ||
      ("~*" in allowed && exists k :: k in kws && k[0] == '~') ||
      exists k :: k in kws && k in allowed)
  {
    var a := Scan(kws, false);
    var b := Scan(kws, true);
    assert a == Ok(exists k :: k in kws && Wanted(k[0], false));
    assert b == Ok(exists k :: k in kws && Wanted(k[0], true));
  }

  /** IndexError only comes from an empty keyword, and never once `**` is allowed. */
  lemma KeywordsErrorNeedsEmpty(allowed: set<string>, kws: seq<string>)
    requires ApplyKeywordsFilter(allowed, kws).Err?
    ensures [] in kws && "**" !in allowed && ("*" in allowed || "~*" in allowed)
  {
  }

  // ---------------------------------------------------------------------
  // _make_keywords_filter
  // ---------------------------------------------------------------------

  /** What `_make_keywords_filter` hands back, or raises. */
  datatype KeywordsFilterError =
    | BadKeywordsData(e: RestrictData.InitError)   // the collapsed data rejected an entry
    | IncrementalUnsupported                       // the NotImplementedError for `incremental`

  /** A plain `keywords` containment restriction, or the delegate over collapsed accept data. */
  datatype KeywordsFilter =
    | Containment(keys: seq<string>)
    | Delegated(data: RestrictData.Collapsed, nonIncremental: bool, profile: seq<ProfileKeywords>)

  /**
   * What an empty accept entry's data becomes: the testing keyword as a bare
   * string. The constructor stores it whole for an atom or a package
   * restriction, where the keyword filter later flattens it as one keyword,
   * but `always.extend` iterates it for an AlwaysTrue entry, one character
   * at a time.
   */
  function UnstableData(restrict: RestrictData.Restriction, unstable: string): (r: seq<string>)
    ensures restrict.AlwaysBool? ==> |r| == |unstable| && forall i :: 0 <= i < |unstable| ==> r[i] == [unstable[i]]
    ensures !restrict.AlwaysBool? ==> r == [unstable]
  {
    if restrict.AlwaysBool? then Chars(unstable) else [unstable]
  }

  /** The accept entries with every empty keyword list replaced by the testing keyword. */
  function EmptyMeansUnstable(accept: seq<RestrictData.Pair>, unstable: string): (r: seq<RestrictData.Pair>)
    ensures |r| == |accept|
    ensures forall i :: 0 <= i < |r| ==>
      r[i].restrict == accept[i].restrict &&
      (unstable != [] ==> r[i].data != []) &&
      r[i].data == (if accept[i].data == [] then UnstableData(accept[i].restrict, unstable) else accept[i].data)
  {
    if accept == [] then []
    else
      var p := accept[0];
      [RestrictData.Pair(p.restrict, if p.data == [] then UnstableData(p.restrict, unstable) else p.data)] +
      EmptyMeansUnstable(accept[1..], unstable)
  }

  /** Whether the arch is a stable one: `~arch` is not among the default keywords. */
  predicate StableArch(arch: string, defaultKeys: seq<string>)
  {
    "~" + LStrip(arch, '~') !in defaultKeys
  }

  /** The restriction sources `_make_keywords_filter` collapses. */
  function KeywordSources(arch: string, defaultKeys: seq<string>, accept: seq<RestrictData.Pair>): seq<seq<RestrictData.Pair>>
  {
    [[RestrictData.Pair(RestrictData.AlwaysBool(true), defaultKeys)],
     if StableArch(arch, defaultKeys) then EmptyMeansUnstable(accept, "~" + arch) else accept]
  }

  /** `_make_keywords_filter(arch, default_keys, accept_keywords, profile_keywords, incremental)`. */
  function MakeKeywordsFilter(arch: string, defaultKeys: seq<string>, accept: seq<RestrictData.Pair>,
                              profile: seq<ProfileKeywords>, incremental: bool): (r: Result<KeywordsFilter, KeywordsFilterError>)
    ensures accept == [] && profile == [] ==> r.Ok? && r.value.Containment? && r.value.keys == defaultKeys
    ensures incremental && (accept != [] || profile != []) ==> r.Err?
    ensures r.Ok? && r.value.Delegated? ==>
      r.value.profile == profile && r.value.nonIncremental == !StableArch(arch, defaultKeys)
  {
    if accept == [] && profile == [] then Ok(Containment(defaultKeys))
    else match RestrictData.CollapseSpec(KeywordSources(arch, defaultKeys, accept), true)
      case Err(e) => Err(BadKeywordsData(e))
      case Ok(data) =>
        if incremental then Err(IncrementalUnsupported)
        else Ok(Delegated(data, !StableArch(arch, defaultKeys), profile))
  }

  /** Why a delegated keyword filter could not decide. */
  datatype KeywordsMatchError = PullFailed(cause: Incremental.ExpandError) | KeywordIndex(index: KeywordError)

  /**
   * The keyword filter applied to a package with keywords `keywords`, key
   * `key` and restriction matcher `matches`; `order` is the iteration order
   * of the collapsed defaults.
   */
  function KeywordsFilterMatches(f: KeywordsFilter, keywords: seq<string>, matches: RestrictData.Restriction -> bool,
                                 key: string, order: seq<string>): (r: Result<bool, KeywordsMatchError>)
    requires f.Delegated? ==> Enumerates(order, f.data.defaults)
    ensures f.Containment? ==> r.Ok?
    ensures r.Err? && r.error.KeywordIndex? ==> f.Delegated? && [] in PkgKeywords(keywords, f.profile, matches)
  {
    match f
    case Containment(keys) => Ok(exists k :: k in keywords && k in keys)
    case Delegated(data, nonIncremental, profile) =>
      var pulled :=
        if nonIncremental then Ok(RestrictData.NonIncrementalPullSpec(data, matches, key, false))
        else RestrictData.PullSpec(data, matches, key, false, [], order);
      if pulled.Err? then Err(PullFailed(pulled.error))
      else match ApplyKeywordsFilter(pulled.value.data, PkgKeywords(keywords, profile, matches))
        case Ok(b) => Ok(b)
        case Err(e) => Err(KeywordIndex(e))
  }

  /** Without accept or profile keywords, a package passes exactly when it carries a default keyword. */
  lemma UnconfiguredKeywordsContain(arch: string, defaultKeys: seq<string>, incremental: bool,
                                    keywords: seq<string>, matches: RestrictData.Restriction -> bool, key: string)
    ensures MakeKeywordsFilter(arch, defaultKeys, [], [], incremental).Ok?
    ensures KeywordsFilterMatches(MakeKeywordsFilter(arch, defaultKeys, [], [], incremental).value, keywords, matches, key, [])
      == Ok(exists k :: k in keywords && k in defaultKeys)
  {
  }

  /** Any accept or profile keywords with `incremental` end in an error, never in a filter. */
  lemma IncrementalKeywordsFail(arch: string, defaultKeys: seq<string>, accept: seq<RestrictData.Pair>,
                                profile: seq<ProfileKeywords>)
    requires accept != [] || profile != []
    ensures MakeKeywordsFilter(arch, defaultKeys, accept, profile, true).Err?
  {
  }

  /**
   * On a stable arch, an accept entry for an atom with no keywords is filed
   * under the atom's key as accepting `~arch`; on a testing arch the filter
   * pulls non-incrementally.
   */
  lemma StableEmptyEntryMeansUnstable(arch: string, defaultKeys: seq<string>, accept: seq<RestrictData.Pair>,
                                      profile: seq<ProfileKeywords>, i: nat)
    requires MakeKeywordsFilter(arch, defaultKeys, accept, profile, false).Ok?
    requires StableArch(arch, defaultKeys)
    requires i < |accept| && accept[i].data == [] && accept[i].restrict.Atom?
    ensures var f := MakeKeywordsFilter(arch, defaultKeys, accept, profile, false).value;
      var key := accept[i].restrict.key;
      f.Delegated? && !f.nonIncremental &&
      key in f.data.atoms && RestrictData.Pair(accept[i].restrict, ["~" + arch]) in f.data.atoms[key]
  {
    var sources := KeywordSources(arch, defaultKeys, accept);
    RestrictData.CollapseFiles(sources, true);
    var filled := EmptyMeansUnstable(accept, "~" + arch);
    assert filled[i] == RestrictData.Pair(accept[i].restrict, ["~" + arch]);
    assert filled[i] in sources[1];
    assert filled[i] in Flatten(sources);
  }

  /**
   * An AlwaysTrue accept entry with no keywords on a stable arch does not
   * add `~arch` to the defaults but its characters: with arch `amd64` the
   * defaults gain `~`, `a`, `m`, `d`, `6` and `4`, and a package keyworded
   * only `~amd64` that no other entry concerns is refused.
   */
  lemma StableAlwaysEntrySpreads(arch: string, defaultKeys: seq<string>, matches: RestrictData.Restriction -> bool,
                                 key: string, order: seq<string>)
    requires StableArch(arch, defaultKeys) && arch != [] && arch[0] != '~' && '-' !in arch
    requires forall k :: 0 <= k < |defaultKeys| ==> Incremental.Plain(defaultKeys[k])
    ensures var f := MakeKeywordsFilter(arch, defaultKeys, [RestrictData.Pair(RestrictData.AlwaysBool(true), [])], [], false);
      f.Ok? && f.value.Delegated? && !f.value.nonIncremental &&
      f.value.data.defaults == (set k | k in defaultKeys) + (set c | c in "~" + arch :: [c]) &&
      "~" + arch !in f.value.data.defaults
    ensures var f := MakeKeywordsFilter(arch, defaultKeys, [RestrictData.Pair(RestrictData.AlwaysBool(true), [])], [], false);
      f.Ok? && f.value.Delegated? && Enumerates(order, f.value.data.defaults) &&
      '*' !in arch && "*" !in defaultKeys && "**" !in defaultKeys && "~*" !in defaultKeys ==>
      KeywordsFilterMatches(f.value, ["~" + arch], matches, key, order) == Ok(false)
  {
    var unstable := "~" + arch;
    var defaults := (set k | k in defaultKeys) + (set c | c in unstable :: [c]);
    SpreadCollapsed(arch, defaultKeys);
    assert LStrip(arch, '~') == arch;
    assert unstable !in defaults by {
      assert |unstable| > 1;
    }
    if '*' !in arch && "*" !in defaultKeys && "**" !in defaultKeys && "~*" !in defaultKeys && Enumerates(order, defaults) {
      assert "*" !in defaults && "**" !in defaults && "~*" !in defaults by {
        assert "*" != "~";
        assert |"**"| == 2 && |"~*"| == 2;
      }
      OnlyDefaultsRefuse(defaults, unstable, matches, key, order);
    }
  }

  /**
   * With nothing filed but the defaults, a package carrying one keyword that
   * is not a default, with no wildcard among the defaults, is refused.
   */
  lemma OnlyDefaultsRefuse(defaults: set<string>, kw: string, matches: RestrictData.Restriction -> bool,
                           key: string, order: seq<string>)
    requires kw != [] && kw !in defaults && "*" !in defaults && "**" !in defaults && "~*" !in defaults
    requires Enumerates(order, defaults)
    ensures KeywordsFilterMatches(Delegated(RestrictData.Collapsed(defaults, [], map[]), false, []), [kw], matches, key, order) == Ok(false)
  {
    var data := RestrictData.Collapsed(defaults, [], map[]);
    assert RestrictData.Matched(data, matches, key) == [];
    assert RestrictData.PullSpec(data, matches, key, false, [], order) == Ok(RestrictData.Pulled(defaults, true));
    KeywordsAcceptIff(defaults, [kw]);
  }

  /** The keyword filter built from the defaults and one empty AlwaysTrue accept entry, on a stable arch. */
  lemma SpreadCollapsed(arch: string, defaultKeys: seq<string>)
    requires StableArch(arch, defaultKeys) && '-' !in arch
    requires forall k :: 0 <= k < |defaultKeys| ==> Incremental.Plain(defaultKeys[k])
    ensures MakeKeywordsFilter(arch, defaultKeys, [RestrictData.Pair(RestrictData.AlwaysBool(true), [])], [], false) ==
      Ok(Delegated(RestrictData.Collapsed((set k | k in defaultKeys) + (set c | c in "~" + arch :: [c]), [], map[]), false, []))
  {
    var always := RestrictData.AlwaysBool(true);
    var accept := [RestrictData.Pair(always, [])];
    var unstable := "~" + arch;
    var spread := Chars(unstable);
    var p0 := RestrictData.Pair(always, defaultKeys);
    var p1 := RestrictData.Pair(always, spread);
    assert EmptyMeansUnstable(accept, unstable) == [p1];
    assert KeywordSources(arch, defaultKeys, accept) == [[p0], [p1]];
    assert Flatten([[p1]]) == [p1];
    assert Flatten([[p0], [p1]]) == [p0, p1];
    var tokens := SpreadFiled(defaultKeys, spread);
    var defaults := (set k | k in defaultKeys) + (set c | c in unstable :: [c]);
    SpreadExpanded(defaultKeys, unstable);
    var b := RestrictData.Buckets(tokens, [], [], map[]);
    assert RestrictData.FileAll(RestrictData.NoBuckets, Flatten(KeywordSources(arch, defaultKeys, accept))) == Ok(b);
    assert RestrictData.Freeform(b) == [];
    assert RestrictData.CollapseSpec(KeywordSources(arch, defaultKeys, accept), true) ==
      Ok(RestrictData.Collapsed(defaults, [], map[]));
  }

  /** Filing the defaults pair and then the spread pair, both AlwaysTrue. */
  lemma SpreadFiled(defaultKeys: seq<string>, spread: seq<string>) returns (tokens: seq<string>)
    requires spread != []
    ensures tokens == defaultKeys + spread
    ensures var always := RestrictData.AlwaysBool(true);
      RestrictData.FileAll(RestrictData.NoBuckets, [RestrictData.Pair(always, defaultKeys), RestrictData.Pair(always, spread)])
      == Ok(RestrictData.Buckets(tokens, [], [], map[]))
  {
    tokens := defaultKeys + spread;
    var always := RestrictData.AlwaysBool(true);
    var p0 := RestrictData.Pair(always, defaultKeys);
    var p1 := RestrictData.Pair(always, spread);
    var b0 := RestrictData.Buckets(defaultKeys, [], [], map[]);
    var negs0 := RestrictData.Pair(always, RestrictData.Negations(defaultKeys));
    assert (map k | k in RestrictData.NoBuckets.atoms :: RestrictData.NoBuckets.atoms[k] + [negs0]) == map[];
    assert [] + defaultKeys == defaultKeys;
    assert RestrictData.File(RestrictData.NoBuckets, p0) == Ok(b0);
    var b1 := RestrictData.Buckets(tokens, [], [], map[]);
    assert RestrictData.File(b0, p1) == Ok(b1);
    assert RestrictData.FileAll(b0, [p1]) == Ok(b1);
  }

  /** Expanding plain defaults followed by the characters of `unstable`. */
  lemma SpreadExpanded(defaultKeys: seq<string>, unstable: string)
    requires forall k :: 0 <= k < |defaultKeys| ==> Incremental.Plain(defaultKeys[k])
    requires '-' !in unstable
    ensures Incremental.Expand({}, defaultKeys + Chars(unstable), true) ==
      Incremental.Expansion((set k | k in defaultKeys) + (set c | c in unstable :: [c]), None)
  {
    var spread := Chars(unstable);
    var tokens := defaultKeys + spread;
    forall k | 0 <= k < |tokens| ensures Incremental.Plain(tokens[k]) {
      if k >= |defaultKeys| {
        assert tokens[k] == spread[k - |defaultKeys|] == [unstable[k - |defaultKeys|]];
      }
    }
    Incremental.ExpandPlain({}, tokens, true);
    assert (set t | t in tokens) == (set k | k in defaultKeys) + (set c | c in unstable :: [c]) by {
      forall t | t in tokens ensures t in defaultKeys || exists c :: c in unstable && t == [c] {
        var i :| 0 <= i < |tokens| && tokens[i] == t;
        if i >= |defaultKeys| {
          assert t == [unstable[i - |defaultKeys|]];
        }
      }
      forall c | c in unstable ensures [c] in tokens {
        var i :| 0 <= i < |unstable| && unstable[i] == c;
        assert tokens[|defaultKeys| + i] == [c];
      }
    }
  }

  // ---------------------------------------------------------------------
  // domain.__init__: ACCEPT_KEYWORDS defaults
  // ---------------------------------------------------------------------

  /** The `~`-stripped form of every testing keyword in `xs`, in order. */
  function Stabled(xs: seq<string>): (r: seq<string>)
    ensures forall y :: y in r <==> exists x :: x in xs && StartsWith(x, "~") && y == LStrip(x, '~')
  {
    if xs == [] then []
    else
      var init := xs[..|xs| - 1];
      var x := xs[|xs| - 1];
      assert xs == init + [x];
      Stabled(init) + (if StartsWith(x, "~") then [LStrip(x, '~')] else [])
  }

  /** The default keywords: the expanded ACCEPT_KEYWORDS, their stable forms, the arch, without repeats. */
  function DefaultKeywordsSpec(listed: seq<string>, arch: string): seq<string>
  {
    StableUnique(listed + Stabled(listed) + [arch])
  }

  /** The `for x in default_keywords[:]` loop and the `unstable_unique` that follows it. */
  method DefaultKeywords(listed: seq<string>, arch: string) returns (dk: seq<string>)
    ensures dk == DefaultKeywordsSpec(listed, arch)
  {
    dk := listed;
    var k := 0;
    while k < |listed|
      invariant 0 <= k <= |listed|
      invariant dk == listed + Stabled(listed[..k])
    {
      assert listed[..k + 1][..k] == listed[..k];
      var x := listed[k];
      if StartsWith(x, "~") {
        dk := dk + [LStrip(x, '~')];
      }
      k := k + 1;
    }
    assert listed[..k] == listed;
    dk := StableUnique(dk + [arch]);
  }

  /**
   * Every accepted keyword, the stable form of every accepted testing
   * keyword and the arch are default keywords, nothing else is, and none
   * occurs twice; the accepted keywords keep their place at the front.
   */
  lemma DefaultKeywordsMembers(listed: seq<string>, arch: string, y: string)
    ensures y in DefaultKeywordsSpec(listed, arch) <==>
      y in listed || y == arch || exists x :: x in listed && StartsWith(x, "~") && y == LStrip(x, '~')
    ensures var dk := DefaultKeywordsSpec(listed, arch); forall i, j :: 0 <= i < j < |dk| ==> dk[i] != dk[j]
  {
    assert y in listed + Stabled(listed) + [arch] <==> y in listed || y in Stabled(listed) || y == arch;
  }

  // ---------------------------------------------------------------------
  // domain.__init__: incremental settings
  // ---------------------------------------------------------------------

  /**
   * A setting's value: a string, a tuple of tokens, or the tuple an
   * incremental expansion leaves (its order is an accident of set
   * iteration, so only its members are kept).
   */
  datatype Value = Str(s: string) | Tokens(ts: seq<string>) | TokenSet(members: set<string>)

  /** Values as configuration supplies them, before any expansion. */
  predicate Raw(m: map<string, Value>)
  {
    forall k :: k in m ==> !m[k].TokenSet?
  }

  /** Iterating a string yields its characters, each as a one-character string. */
  function Chars(s: string): (r: seq<string>)
    ensures |r| == |s| && forall i :: 0 <= i < |s| ==> r[i] == [s[i]]
  {
    seq(|s|, i requires 0 <= i < |s| => [s[i]])
  }

  /** `tuple(v)` / iterating `v`. */
  function Iter(v: Value): seq<string>
    requires !v.TokenSet?
  {
    match v
    case Str(s) => Chars(s)
    case Tokens(ts) => ts
  }

  /**
   * `incremental_expansion(set(), v)`; a `TokenSet` is already the result
   * of one and comes back unchanged (`ReexpandFinalized`).
   */
  function ExpandValue(v: Value): Incremental.Expansion
  {
    match v
    case TokenSet(s) => Incremental.Expansion(s, None)
    case _ => Incremental.Expand({}, Iter(v), true)
  }

  datatype SettingsError =
    | ConcatError(key: string)                             // a profile string plus a user tuple: TypeError
    | ExpandFailed(key: string, cause: Incremental.ExpandError)
    | NoAcceptKeywords                                     // the Failure for a missing ACCEPT_KEYWORDS
    | NoArch                                               // the Failure for a missing ARCH
    | ArchNotText

  /** The first loop: incremental settings given as strings are split on whitespace. */
  function SplitSpec(settings: map<string, Value>, incs: seq<string>): map<string, Value>
  {
    map k | k in settings :: if k in incs && settings[k].Str? then Tokens(SplitWs(settings[k].s)) else settings[k]
  }

  method SplitIncrementals(settings: map<string, Value>, incs: seq<string>) returns (m: map<string, Value>)
    ensures m == SplitSpec(settings, incs)
  {
    m := settings;
    var i := 0;
    while i < |incs|
      invariant 0 <= i <= |incs|
      invariant m == map k | k in settings :: if k in incs[..i] && settings[k].Str? then Tokens(SplitWs(settings[k].s)) else settings[k]
    {
      assert incs[..i + 1] == incs[..i] + [incs[i]];
      var x := incs[i];
      if x in m && m[x].Str? {
        m := m[x := Tokens(SplitWs(m[x].s))];
      }
      i := i + 1;
    }
    assert incs[..i] == incs;
  }

  /** Stacking raises for `k`: a profile string cannot be prepended to the user's tuple. */
  predicate ConcatFails(settings: map<string, Value>, env: map<string, Value>, incs: seq<string>, k: string)
  {
    k in env && k in settings && k in incs && env[k].Str?
  }

  /** The value of `k` once the profile's `k` has been stacked under the user's. */
  function StackedValue(settings: map<string, Value>, env: map<string, Value>, incs: seq<string>, k: string): Value
    requires Raw(settings) && Raw(env) && k in env
  {
    if k !in settings then env[k]
    else if k in incs && env[k].Tokens? then Tokens(env[k].ts + Iter(settings[k]))
    else settings[k]
  }

  /** The settings after the profile keys in `done` have been stacked. */
  function PartialStack(settings: map<string, Value>, env: map<string, Value>, incs: seq<string>, done: set<string>): map<string, Value>
    requires Raw(settings) && Raw(env) && done <= env.Keys
  {
    map k | k in settings.Keys + done :: if k in done then StackedValue(settings, env, incs, k) else settings[k]
  }

  /**
   * The second loop: keys only the profile sets take its value; for
   * incremental keys the profile's tokens come first and the user's follow;
   * any other key keeps the user's value.
   */
  function StackSpec(settings: map<string, Value>, env: map<string, Value>, incs: seq<string>): map<string, Value>
    requires Raw(settings) && Raw(env)
  {
    PartialStack(settings, env, incs, env.Keys)
  }

  /** Stacking one more profile key updates that key alone. */
  lemma StackOne(settings: map<string, Value>, env: map<string, Value>, incs: seq<string>, done: set<string>, k: string)
    requires Raw(settings) && Raw(env) && done <= env.Keys && k in env && k !in done
    ensures var m := PartialStack(settings, env, incs, done);
      (k in m <==> k in settings) && (k in m ==> m[k] == settings[k]) &&
      PartialStack(settings, env, incs, done + {k}) == m[k := StackedValue(settings, env, incs, k)]
  {
    var m := PartialStack(settings, env, incs, done);
    var m' := PartialStack(settings, env, incs, done + {k});
    assert m'.Keys == m.Keys + {k};
    forall j | j in m'.Keys ensures m'[j] == m[k := StackedValue(settings, env, incs, k)][j] {
    }
  }

  /** `for k, v in profile.default_env.iteritems()`, in the dict's iteration order `order`. */
  method StackProfile(settings: map<string, Value>, env: map<string, Value>, order: seq<string>, incs: seq<string>)
    returns (r: Result<map<string, Value>, SettingsError>)
    requires Raw(settings) && Raw(env) && Enumerates(order, env.Keys)
    ensures r.Err? <==> exists k :: ConcatFails(settings, env, incs, k)
    ensures r.Err? ==> r.error.ConcatError? && ConcatFails(settings, env, incs, r.error.key)
    ensures r.Err? ==> (exists i :: 0 <= i < |order| && order[i] == r.error.key &&
                          forall j :: 0 <= j < i ==> !ConcatFails(settings, env, incs, order[j]))
    ensures r.Ok? ==> r.value == StackSpec(settings, env, incs)
  {
    var m := settings;
    ghost var done: set<string> := {};
    assert m == PartialStack(settings, env, incs, done);
    var i := 0;
    while i < |order|
      invariant 0 <= i <= |order|
      invariant done <= env.Keys
      invariant forall j :: j in done <==> j in order[..i]
      invariant m == PartialStack(settings, env, incs, done)
      invariant forall k :: k in done ==> !ConcatFails(settings, env, incs, k)
    {
      var k := order[i];
      assert order[..i + 1] == order[..i] + [k];
      assert k !in done;
      StackOne(settings, env, incs, done, k);
      if k !in m {
        m := m[k := env[k]];
      } else if k in incs {
        match env[k]
        case Tokens(pv) =>
          m := m[k := Tokens(pv + Iter(m[k]))];
        case Str(_) =>
          assert ConcatFails(settings, env, incs, k);
          assert forall j :: 0 <= j < i ==> order[j] in order[..i];
          return Err(ConcatError(k));
      } else {
        assert m == m[k := settings[k]];
      }
      done := done + {k};
      i := i + 1;
    }
    assert done == env.Keys by {
      assert order[..i] == order;
    }
    return Ok(m);
  }

  /** Whether the third loop expands `k`: a listed incremental other than USE and ACCEPT_LICENSE. */
  predicate Finalized(incs: seq<string>, k: string)
  {
    k in incs && k != "USE" && k != "ACCEPT_LICENSE"
  }

  /** Expanding `k` raises. */
  predicate ExpandFails(m: map<string, Value>, incs: seq<string>, k: string)
  {
    k in m && Finalized(incs, k) && ExpandValue(m[k]).error.Some?
  }

  function PartialFinal(m: map<string, Value>, done: seq<string>): map<string, Value>
  {
    map k | k in m :: if k in done && k != "USE" && k != "ACCEPT_LICENSE" then TokenSet(ExpandValue(m[k]).tokens) else m[k]
  }

  lemma PartialFinalSnoc(m0: map<string, Value>, done: seq<string>, k: string)
    ensures PartialFinal(m0, done + [k]) ==
      if k in m0 && k != "USE" && k != "ACCEPT_LICENSE" then PartialFinal(m0, done)[k := TokenSet(ExpandValue(m0[k]).tokens)]
      else PartialFinal(m0, done)
  {
    assert forall x :: x in done + [k] <==> x in done || x == k;
  }

  /** The third loop: every finalized incremental is replaced by its expansion. */
  function FinalizeSpec(m: map<string, Value>, incs: seq<string>): map<string, Value>
  {
    PartialFinal(m, incs)
  }

  method FinalizeIncrementals(m0: map<string, Value>, incs: seq<string>) returns (r: Result<map<string, Value>, SettingsError>)
    ensures r.Err? <==> exists k :: ExpandFails(m0, incs, k)
    ensures r.Err? ==> r.error.ExpandFailed? && ExpandFails(m0, incs, r.error.key) &&
                       r.error.cause == ExpandValue(m0[r.error.key]).error.value
    ensures r.Err? ==> (exists i :: 0 <= i < |incs| && incs[i] == r.error.key &&
                          forall j :: 0 <= j < i ==> !ExpandFails(m0, incs, incs[j]))
    ensures r.Ok? ==> r.value == FinalizeSpec(m0, incs)
  {
    var m := m0;
    var i := 0;
    while i < |incs|
      invariant 0 <= i <= |incs|
      invariant m == PartialFinal(m0, incs[..i])
      invariant forall k :: k in incs[..i] && k in m0 && k != "USE" && k != "ACCEPT_LICENSE" ==> ExpandValue(m0[k]).error.None?
    {
      var inc := incs[i];
      assert incs[..i + 1] == incs[..i] + [inc];
      var next := FinalizeOne(m0, incs[..i], inc, m);
      if next.Err? {
        assert ExpandFails(m0, incs, inc);
        assert forall j :: 0 <= j < i ==> incs[j] in incs[..i];
        return next;
      }
      m := next.value;
      i := i + 1;
    }
    assert incs[..i] == incs;
    forall k | k in m0 && Finalized(incs, k) ensures !ExpandFails(m0, incs, k) {
      assert k in incs[..i];
    }
    return Ok(m);
  }

  /** One pass of the third loop: `settings[inc] = tuple(incremental_expansion(...))`. */
  method FinalizeOne(m0: map<string, Value>, done: seq<string>, inc: string, m: map<string, Value>)
    returns (r: Result<map<string, Value>, SettingsError>)
    requires m == PartialFinal(m0, done)
    requires forall k :: k in done && k in m0 && k != "USE" && k != "ACCEPT_LICENSE" ==> ExpandValue(m0[k]).error.None?
    ensures r.Ok? ==> r.value == PartialFinal(m0, done + [inc])
    ensures r.Ok? && inc in m0 && inc != "USE" && inc != "ACCEPT_LICENSE" ==> ExpandValue(m0[inc]).error.None?
    ensures r.Err? ==> inc in m0 && inc != "USE" && inc != "ACCEPT_LICENSE" && ExpandValue(m0[inc]).error.Some? &&
                       r == Err(ExpandFailed(inc, ExpandValue(m0[inc]).error.value))
  {
    PartialFinalSnoc(m0, done, inc);
    if inc !in m || inc == "USE" || inc == "ACCEPT_LICENSE" {
      return Ok(m);
    }
    if m[inc].TokenSet? {
      assert m[inc] == TokenSet(ExpandValue(m0[inc]).tokens);
      return Ok(m);
    }
    assert m[inc] == m0[inc];
    var s, err := Incremental.NativeIncrementalExpansion({}, Iter(m[inc]), true);
    if err.Some? {
      return Err(ExpandFailed(inc, err.value));
    }
    return Ok(m[inc := TokenSet(s)]);
  }

  /** The three loops together; the ACCEPT_KEYWORDS step follows separately. */
  function SettingsSpec(settings: map<string, Value>, env: map<string, Value>, incs: seq<string>): map<string, Value>
    requires Raw(settings) && Raw(env)
  {
    FinalizeSpec(StackSpec(SplitSpec(settings, incs), env, incs), incs)
  }

  predicate SettingsOk(settings: map<string, Value>, env: map<string, Value>, incs: seq<string>)
    requires Raw(settings) && Raw(env)
  {
    var split := SplitSpec(settings, incs);
    (forall k :: k in env ==> !ConcatFails(split, env, incs, k)) &&
    var stacked := StackSpec(split, env, incs);
    forall k :: k in stacked ==> !ExpandFails(stacked, incs, k)
  }

  lemma SplitRaw(settings: map<string, Value>, incs: seq<string>)
    requires Raw(settings)
    ensures Raw(SplitSpec(settings, incs))
  {
  }

  /** `domain.__init__` from the incrementals split up to the end of their expansion. */
  method ConfigureSettings(settings: map<string, Value>, env: map<string, Value>, order: seq<string>, incs: seq<string>)
    returns (r: Result<map<string, Value>, SettingsError>)
    requires Raw(settings) && Raw(env) && Enumerates(order, env.Keys)
    ensures r.Ok? <==> SettingsOk(settings, env, incs)
    ensures r.Ok? ==> r.value == SettingsSpec(settings, env, incs)
  {
    var split := SplitIncrementals(settings, incs);
    SplitRaw(settings, incs);
    var stacked := StackProfile(split, env, order, incs);
    if stacked.Err? {
      return stacked;
    }
    r := FinalizeIncrementals(stacked.value, incs);
  }

  /** The user's tokens for an incremental setting once split. */
  function UserTokens(v: Value): seq<string>
    requires !v.TokenSet?
  {
    match v
    case Str(s) => SplitWs(s)
    case Tokens(ts) => ts
  }

  /**
   * An incremental setting both the profile and the user give ends as the
   * expansion of the profile's tokens followed by the user's.
   */
  lemma ProfileThenUser(settings: map<string, Value>, env: map<string, Value>, incs: seq<string>, k: string)
    requires Raw(settings) && Raw(env)
    requires Finalized(incs, k) && k in settings && k in env && env[k].Tokens?
    ensures var final := SettingsSpec(settings, env, incs);
      k in final && final[k] == TokenSet(Incremental.Expand({}, env[k].ts + UserTokens(settings[k]), true).tokens)
  {
    var split := SplitSpec(settings, incs);
    assert split[k] == Tokens(UserTokens(settings[k]));
    var stacked := StackSpec(split, env, incs);
    assert stacked[k] == Tokens(env[k].ts + UserTokens(settings[k]));
  }

  /**
   * So the user overrides the profile flag by flag: a plain flag is on
   * exactly when the last token deciding it, reading the profile's tokens
   * and then the user's, turns it on.
   */
  lemma UserOverridesProfile(settings: map<string, Value>, env: map<string, Value>, incs: seq<string>, k: string, x: string)
    requires Raw(settings) && Raw(env)
    requires Finalized(incs, k) && k in settings && k in env && env[k].Tokens?
    requires Incremental.Plain(x)
    requires Incremental.Expand({}, env[k].ts + UserTokens(settings[k]), true).error == None
    ensures var final := SettingsSpec(settings, env, incs);
      k in final && final[k].TokenSet? &&
      (x in final[k].members <==> Incremental.LastDecision(env[k].ts + UserTokens(settings[k]), x) == Some(true))
  {
    ProfileThenUser(settings, env, incs, k);
    Incremental.LastTokenWins({}, env[k].ts + UserTokens(settings[k]), x, true);
  }

  /** A key outside the incrementals keeps the user's value, or the profile's when the user sets none. */
  lemma NonIncrementalUserWins(settings: map<string, Value>, env: map<string, Value>, incs: seq<string>, k: string)
    requires Raw(settings) && Raw(env)
    requires k !in incs && (k in settings || k in env)
    ensures var final := SettingsSpec(settings, env, incs);
      k in final && final[k] == if k in settings then settings[k] else env[k]
  {
  }

  /** Every value the finalized expansion leaves is a plain flag. */
  lemma {:induction false} FinalizedPlain(s: set<string>, tokens: seq<string>)
    requires forall y :: y in s ==> Incremental.Plain(y)
    ensures forall y :: y in Incremental.Expand(s, tokens, true).tokens ==> Incremental.Plain(y)
    decreases tokens
  {
    if tokens != [] {
      match Incremental.Step(s, tokens[0], true)
      case Err(_) =>
      case Ok(s') =>
        FinalizedPlain(s', tokens[1..]);
    }
  }

  /**
   * Expanding the tuple of an expanded setting again, in whatever order the
   * set yields it, gives the same set: which is why the model keeps only
   * its members.
   */
  lemma ReexpandFinalized(v: Value, order: seq<string>)
    requires !v.TokenSet? && ExpandValue(v).error == None
    requires Enumerates(order, ExpandValue(v).tokens)
    ensures Incremental.Expand({}, order, true) == Incremental.Expansion(ExpandValue(v).tokens, None)
  {
    FinalizedPlain({}, Iter(v));
    forall k | 0 <= k < |order| ensures Incremental.Plain(order[k]) {
      assert order[k] in order;
    }
    Incremental.ExpandPlain({}, order, true);
    assert {} + (set t | t in order) == ExpandValue(v).tokens;
  }

  // ---------------------------------------------------------------------
  // domain.__init__: ACCEPT_KEYWORDS and ARCH
  // ---------------------------------------------------------------------

  /** The settings after the ACCEPT_KEYWORDS step, the arch and the default keywords. */
  datatype Keywording = Keywording(settings: map<string, Value>, arch: string, defaultKeywords: seq<string>)

  /**
   * ACCEPT_KEYWORDS is expanded once more (the result enumerated in
   * `order`), stored back as a set, ARCH is read, and the default keywords
   * are derived. A missing ACCEPT_KEYWORDS or ARCH is a Failure.
   */
  method AcceptKeywords(m: map<string, Value>, order: seq<string>) returns (r: Result<Keywording, SettingsError>)
    requires "ACCEPT_KEYWORDS" in m ==> Enumerates(order, ExpandValue(m["ACCEPT_KEYWORDS"]).tokens)
    ensures "ACCEPT_KEYWORDS" !in m ==> r == Err(NoAcceptKeywords)
    ensures "ACCEPT_KEYWORDS" in m && ExpandValue(m["ACCEPT_KEYWORDS"]).error.Some? ==>
      r == Err(ExpandFailed("ACCEPT_KEYWORDS", ExpandValue(m["ACCEPT_KEYWORDS"]).error.value))
    ensures "ACCEPT_KEYWORDS" in m && ExpandValue(m["ACCEPT_KEYWORDS"]).error.None? ==>
      ("ARCH" !in m ==> r == Err(NoArch)) &&
      ("ARCH" in m && !m["ARCH"].Str? ==> r == Err(ArchNotText)) &&
      ("ARCH" in m && m["ARCH"].Str? ==> r.Ok?)
    ensures r.Ok? ==>
      var accepted := ExpandValue(m["ACCEPT_KEYWORDS"]).tokens;
      r.value.settings == m["ACCEPT_KEYWORDS" := TokenSet(accepted)] &&
      r.value.arch == m["ARCH"].s &&
      (forall y :: y in r.value.defaultKeywords <==>
        y in accepted || y == r.value.arch || exists x :: x in accepted && StartsWith(x, "~") && y == LStrip(x, '~')) &&
      forall i, j :: 0 <= i < j < |r.value.defaultKeywords| ==> r.value.defaultKeywords[i] != r.value.defaultKeywords[j]
  {
    if "ACCEPT_KEYWORDS" !in m {
      return Err(NoAcceptKeywords);
    }
    var v := m["ACCEPT_KEYWORDS"];
    var accepted: set<string>;
    match v {
      case TokenSet(s) =>
        accepted := s;
      case _ =>
        var err;
        accepted, err := Incremental.NativeIncrementalExpansion({}, Iter(v), true);
        if err.Some? {
          return Err(ExpandFailed("ACCEPT_KEYWORDS", err.value));
        }
    }
    var settings := m["ACCEPT_KEYWORDS" := TokenSet(accepted)];
    if "ARCH" !in settings {
      return Err(NoArch);
    }
    if !settings["ARCH"].Str? {
      return Err(ArchNotText);
    }
    var arch := settings["ARCH"].s;
    var dk := DefaultKeywords(order, arch);
    forall y ensures y in dk <==>
      y in accepted || y == arch || exists x :: x in accepted && StartsWith(x, "~") && y == LStrip(x, '~')
    {
      DefaultKeywordsMembers(order, arch, y);
    }
    DefaultKeywordsMembers(order, arch, arch);
    return Ok(Keywording(settings, arch, dk));
  }

  // ---------------------------------------------------------------------
  // _extend_use_for_features
  // ---------------------------------------------------------------------

  /** `name in features`: a substring test on a string, membership on a tuple. */
  predicate HasFeature(features: Value, name: string)
  {
    match features
    case Str(s) => HasSub(s, name)
    case Tokens(ts) => name in ts
    case TokenSet(s) => name in s
  }

  /** The domain's `use` list while `__init__` builds it. */
  class UseList {
    var use: seq<string>

    constructor(initial: seq<string>)
      ensures use == initial
    {
      use := initial;
    }

    /**
     * `_extend_use_for_features(settings.get("FEATURES", ()))`: `test` is
     * appended when FEATURES has `test`, then `prefix` when it has `prefix`
     * or `force-prefix`; nothing else changes.
     */
    method ExtendUseForFeatures(features: Option<Value>)
      modifies this
      ensures features.None? ==> use == old(use)
      ensures features.Some? ==>
        use == old(use) + (if HasFeature(features.value, "test") then ["test"] else []) +
               (if HasFeature(features.value, "prefix") || HasFeature(features.value, "force-prefix") then ["prefix"] else [])
    {
      if features.Some? {
        if HasFeature(features.value, "test") {
          use := use + ["test"];
        }
        if HasFeature(features.value, "prefix") || HasFeature(features.value, "force-prefix") {
          use := use + ["prefix"];
        }
      }
    }
  }

  // ---------------------------------------------------------------------
  // get_package_use_unconfigured
  // ---------------------------------------------------------------------

  /** The flags of `enabled` ending in `*`. */
  function UseGlobs(enabled: set<string>): set<string>
  {
    set g | g in enabled && EndsWith(g, "*")
  }

  /** The IUSE flags some glob of `enabled` selects by prefix. */
  function GlobSelected(enabled: set<string>, iuse: seq<string>): set<string>
  {
    set u | u in iuse && exists g :: g in UseGlobs(enabled) && StartsWith(u, g[..|g| - 1])
  }

  /** The enabled set `get_package_use_unconfigured` returns. */
  function PackageUseSpec(enabled: set<string>, iuse: seq<string>, immutable: set<string>, disabled: set<string>,
                          forMetadata: bool): set<string>
  {
    var expanded := enabled - UseGlobs(enabled) + GlobSelected(enabled, iuse);
    if forMetadata then (expanded * (set u | u in iuse)) + immutable - disabled else expanded
  }

  /**
   * The enabled, immutable and disabled flags of a package. The pulled
   * sets for both profiles are given; the stable ones apply when the
   * package is keyworded for the stable arch and `~arch` is not accepted.
   * `order` is the iteration order of the pulled enabled set.
   */
  method PackageUseUnconfigured(arch: string, pkgKeywords: seq<string>, acceptKeywords: set<string>,
                                disabledUse: set<string>, stableDisabledUse: set<string>,
                                forcedUse: set<string>, stableForcedUse: set<string>,
                                pulledEnabled: set<string>, order: seq<string>, iuse: seq<string>, forMetadata: bool)
    returns (immutable: set<string>, enabled: set<string>, disabled: set<string>)
    requires Enumerates(order, pulledEnabled)
    ensures var stable := arch in pkgKeywords && "~" + arch !in acceptKeywords;
      disabled == (if stable then stableDisabledUse else disabledUse) &&
      immutable == (if stable then stableForcedUse else forcedUse)
    ensures enabled == PackageUseSpec(pulledEnabled, iuse, immutable, disabled, forMetadata)
  {
    var stable := arch in pkgKeywords && "~" + arch !in acceptKeywords;
    disabled := if stable then stableDisabledUse else disabledUse;
    immutable := if stable then stableForcedUse else forcedUse;
    var useGlobs := CollectGlobs(pulledEnabled, order);
    var selected := ExpandGlobs(useGlobs, iuse);
    assert selected == GlobSelected(pulledEnabled, iuse) by {
      forall u ensures u in selected <==> u in GlobSelected(pulledEnabled, iuse) {
        if u in selected {
          var g :| g in useGlobs && EndsWith(g, "*") && u in iuse && StartsWith(u, g[..|g| - 1]);
          assert g in UseGlobs(pulledEnabled);
        }
      }
    }
    enabled := pulledEnabled - (set g | g in useGlobs);
    enabled := enabled + selected;
    if forMetadata {
      enabled := enabled * (set u | u in iuse);
      enabled := enabled + immutable;
      enabled := enabled - disabled;
    }
  }

  /** `[u for u in enabled if u.endswith('*')]`. */
  method CollectGlobs(enabled: set<string>, order: seq<string>) returns (useGlobs: seq<string>)
    requires Enumerates(order, enabled)
    ensures forall g :: g in useGlobs <==> g in UseGlobs(enabled)
    ensures (set g | g in useGlobs) == UseGlobs(enabled)
  {
    useGlobs := [];
    var i := 0;
    while i < |order|
      invariant 0 <= i <= |order|
      invariant forall g :: g in useGlobs <==> g in order[..i] && EndsWith(g, "*")
    {
      assert order[..i + 1] == order[..i] + [order[i]];
      if EndsWith(order[i], "*") {
        useGlobs := useGlobs + [order[i]];
      }
      i := i + 1;
    }
    assert order[..i] == order;
  }

  /** The nested loops building `enabled_use_globs`. */
  method ExpandGlobs(useGlobs: seq<string>, iuse: seq<string>) returns (selected: set<string>)
    requires forall g :: g in useGlobs ==> EndsWith(g, "*")
    ensures forall u :: u in selected <==> exists g :: g in useGlobs && EndsWith(g, "*") && u in iuse && StartsWith(u, g[..|g| - 1])
  {
    selected := {};
    var i := 0;
    while i < |useGlobs|
      invariant 0 <= i <= |useGlobs|
      invariant forall u :: u in selected <==> exists g :: g in useGlobs[..i] && EndsWith(g, "*") && u in iuse && StartsWith(u, g[..|g| - 1])
    {
      var glob := useGlobs[i];
      assert useGlobs[..i + 1] == useGlobs[..i] + [glob];
      var j := 0;
      while j < |iuse|
        invariant 0 <= j <= |iuse|
        invariant forall u :: u in selected <==>
          (exists g :: g in useGlobs[..i] && EndsWith(g, "*") && u in iuse && StartsWith(u, g[..|g| - 1])) ||
          (u in iuse[..j] && StartsWith(u, glob[..|glob| - 1]))
      {
        assert iuse[..j + 1] == iuse[..j] + [iuse[j]];
        if StartsWith(iuse[j], glob[..|glob| - 1]) {
          selected := selected + {iuse[j]};
        }
        j := j + 1;
      }
      assert iuse[..j] == iuse;
      i := i + 1;
    }
    assert useGlobs[..i] == useGlobs;
  }

  /**
   * For metadata, the enabled flags lie within IUSE and the forced flags,
   * avoid the disabled ones, and hold every forced flag not disabled.
   */
  lemma PackageUseBounds(enabled: set<string>, iuse: seq<string>, immutable: set<string>, disabled: set<string>)
    ensures var r := PackageUseSpec(enabled, iuse, immutable, disabled, true);
      (forall u :: u in r ==> u in iuse || u in immutable) &&
      r * disabled == {} && immutable - disabled <= r
  {
  }

  /**
   * A USE glob `pfx*` turns on every IUSE flag starting with `pfx`, unless
   * (for metadata) the flag is disabled; the glob itself stays only when it
   * is one of those flags.
   */
  lemma GlobsExpand(enabled: set<string>, iuse: seq<string>, immutable: set<string>, disabled: set<string>,
                    forMetadata: bool, g: string, u: string)
    requires g in enabled && EndsWith(g, "*") && u in iuse && StartsWith(u, g[..|g| - 1])
    requires forMetadata ==> u !in disabled
    ensures u in PackageUseSpec(enabled, iuse, immutable, disabled, forMetadata)
    ensures g in PackageUseSpec(enabled, iuse, immutable, disabled, forMetadata) ==> g in iuse || g in immutable
  {
    assert g in UseGlobs(enabled);
  }
}
