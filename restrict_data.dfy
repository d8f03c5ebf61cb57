/**
 * `collapsed_restrict_to_data` (pkgcore/ebuild/misc.py): (restriction, data)
 * pairs are sorted by specificity into always-true defaults, category and
 * package restrictions, and atoms keyed by package; `pull_data` then expands
 * the data of every restriction that matches a package on top of the
 * defaults. The object compares by value on its three fields, so it is a
 * datatype here. Matching itself is left to the caller: the package is a
 * predicate on restrictions plus its key.
 */
module RestrictData {
  import opened Wrappers
  import opened Text
  import Incremental

  /** The kinds of restriction the constructor tells apart; `id` stands for the rest of it. */
  datatype Restriction =
    | AlwaysBool(negate: bool)                  // `negate` holds the value it matches with
    | Atom(key: string, id: nat)                // a package atom, with its `cat/pkg` key
    | PackageRestriction(attr: string, id: nat)
    | OtherRestriction(id: nat)

  datatype Pair = Pair(restrict: Restriction, data: seq<string>)

  datatype Collapsed = Collapsed(defaults: set<string>, freeform: seq<seq<Pair>>, atoms: map<string, seq<Pair>>)

  datatype InitError =
    | NotPackageOrCategory(r: Restriction)   // a PackageRestriction on another attribute
    | Unsupported(r: Restriction)            // neither AlwaysBool, atom nor PackageRestriction
    | BadDefault(e: Incremental.ExpandError)

  /** The local lists `always`, `cat`, `pkg` and the dict `atom_d` while pairs are filed. */
  datatype Buckets = Buckets(always: seq<string>, cat: seq<Pair>, pkg: seq<Pair>, atoms: map<string, seq<Pair>>)

  const NoBuckets := Buckets([], [], [], map[])

  /** The `-`-prefixed flags of `data`, which an AlwaysTrue pair appends to every atom list filed so far. */
  function Negations(data: seq<string>): (r: seq<string>)
    ensures forall t :: t in r <==> t in data && StartsWith(t, "-")
  {
    if data == [] then []
    else (if StartsWith(data[0], "-") then [data[0]] else []) + Negations(data[1..])
  }

  /** Whether filing `p` raises `ValueError`. */
  predicate Supported(p: Pair) {
    p.data == [] ||
    match p.restrict
    case OtherRestriction(_) => false
    case PackageRestriction(attr, _) => attr == "category" || attr == "package"
    case _ => true
  }

  /** One iteration of the filing loop. */
  function File(b: Buckets, p: Pair): Result<Buckets, InitError>
  {
    if p.data == [] then Ok(b)
    else match p.restrict
      case AlwaysBool(negate) =>
        if negate then
          var negs := Pair(p.restrict, Negations(p.data));
          Ok(b.(always := b.always + p.data,
                atoms := map k | k in b.atoms :: b.atoms[k] + [negs]))
        else Ok(b)
      case Atom(key, _) =>
        Ok(b.(atoms := b.atoms[key := (if key in b.atoms then b.atoms[key] else []) + [p]]))
      case PackageRestriction(attr, _) =>
        if attr == "category" then Ok(b.(cat := b.cat + [p]))
        else if attr == "package" then Ok(b.(pkg := b.pkg + [p]))
        else Err(NotPackageOrCategory(p.restrict))
      case OtherRestriction(_) => Err(Unsupported(p.restrict))
  }

  function FileAll(b: Buckets, pairs: seq<Pair>): Result<Buckets, InitError>
    decreases pairs
  {
    if pairs == [] then Ok(b)
    else match File(b, pairs[0])
      case Err(e) => Err(e)
      case Ok(b') => FileAll(b', pairs[1..])
  }

  /** `tuple(x for x in (repo, cat, pkg) if x)`; nothing is ever filed under `repo`. */
  function Freeform(b: Buckets): seq<seq<Pair>>
  {
    (if b.cat != [] then [b.cat] else []) + (if b.pkg != [] then [b.pkg] else [])
  }

  /** What the constructor builds, or the error it raises. */
  function CollapseSpec(sources: seq<seq<Pair>>, finalizeDefaults: bool): Result<Collapsed, InitError>
  {
    match FileAll(NoBuckets, Flatten(sources))
    case Err(e) => Err(e)
    case Ok(b) =>
      var ex := Incremental.Expand({}, b.always, finalizeDefaults);
      if ex.error.Some? then Err(BadDefault(ex.error.value))
      else Ok(Collapsed(ex.tokens, Freeform(b), b.atoms))
  }

  /** `collapsed_restrict_to_data.__init__`. */
  method Collapse(sources: seq<seq<Pair>>, finalizeDefaults: bool) returns (r: Result<Collapsed, InitError>)
    ensures r == CollapseSpec(sources, finalizeDefaults)
  {
    var pairs := Flatten(sources);
    var always: seq<string> := [];
    var cat: seq<Pair> := [];
    var pkg: seq<Pair> := [];
    var atomD: map<string, seq<Pair>> := map[];
    var k := 0;
    while k < |pairs|
      invariant 0 <= k <= |pairs|
      invariant FileAll(NoBuckets, pairs) == FileAll(Buckets(always, cat, pkg, atomD), pairs[k..])
    {
      var Pair(a, data) := pairs[k];
      assert pairs[k..][1..] == pairs[k + 1..];
      if data != [] {
        match a
        case AlwaysBool(negate) =>
          if negate {
            always := always + data;
            var negs := Pair(a, Negations(data));
            atomD := map key | key in atomD :: atomD[key] + [negs];
          }
        case Atom(key, _) =>
          var existing := if key in atomD then atomD[key] else [];
          atomD := atomD[key := existing + [pairs[k]]];
        case PackageRestriction(attr, _) =>
          if attr == "category" {
            cat := cat + [pairs[k]];
          } else if attr == "package" {
            pkg := pkg + [pairs[k]];
          } else {
            return Err(NotPackageOrCategory(a));
          }
        case OtherRestriction(_) =>
          return Err(Unsupported(a));
      }
      k := k + 1;
    }
    var defaults: set<string> := {};
    if always != [] {
      var err;
      defaults, err := Incremental.NativeIncrementalExpansion({}, always, finalizeDefaults);
      if err.Some? {
        return Err(BadDefault(err.value));
      }
    }
    var b := Buckets(always, cat, pkg, atomD);
    return Ok(Collapsed(defaults, Freeform(b), atomD));
  }

  /** Filing fails exactly when some pair with data is of a kind the constructor rejects. */
  lemma {:induction false} FileAllFailsIff(b: Buckets, pairs: seq<Pair>)
    ensures FileAll(b, pairs).Err? <==> exists i :: 0 <= i < |pairs| && !Supported(pairs[i])
    decreases pairs
  {
    if pairs != [] {
      match File(b, pairs[0])
      case Err(_) =>
      case Ok(b') =>
        FileAllFailsIff(b', pairs[1..]);
        if exists i :: 0 <= i < |pairs| && !Supported(pairs[i]) {
          var i :| 0 <= i < |pairs| && !Supported(pairs[i]);
          assert i > 0 && !Supported(pairs[1..][i - 1]);
        }
      if exists i :: 0 <= i < |pairs[1..]| && !Supported(pairs[1..][i]) {
        var i :| 0 <= i < |pairs[1..]| && !Supported(pairs[1..][i]);
        assert pairs[1..][i] == pairs[i + 1];
      }
    }
  }

  /** Every supported pair with data lands in the bucket of its kind, and nothing filed earlier is lost. */
  lemma {:induction false} FileAllFiles(b: Buckets, pairs: seq<Pair>)
    requires FileAll(b, pairs).Ok?
    ensures var b' := FileAll(b, pairs).value;
      (forall p :: p in b.cat ==> p in b'.cat) &&
      (forall p :: p in b.pkg ==> p in b'.pkg) &&
      (forall key, p :: key in b.atoms && p in b.atoms[key] ==> key in b'.atoms && p in b'.atoms[key])
    ensures var b' := FileAll(b, pairs).value;
      forall i :: 0 <= i < |pairs| && pairs[i].data != [] ==>
        match pairs[i].restrict
        case Atom(key, _) => key in b'.atoms && pairs[i] in b'.atoms[key]
        case PackageRestriction(attr, _) =>
          (attr == "category" ==> pairs[i] in b'.cat) && (attr == "package" ==> pairs[i] in b'.pkg)
        case _ => true
    decreases pairs
  {
    if pairs != [] {
      var p := pairs[0];
      var b1 := File(b, p).value;
      forall key, q | key in b.atoms && q in b.atoms[key]
        ensures key in b1.atoms && q in b1.atoms[key]
      {
        if p.data != [] && p.restrict.Atom? && p.restrict.key == key {
          assert b1.atoms[key] == b.atoms[key] + [p];
        }
      }
      FileAllFiles(b1, pairs[1..]);
      forall i | 1 <= i < |pairs| ensures pairs[i] == pairs[1..][i - 1] { }
      if p.data != [] && p.restrict.Atom? {
        var key := p.restrict.key;
        assert key in b1.atoms && p in b1.atoms[key];
      }
    }
  }

  /** Only category restrictions reach `cat`, only package restrictions reach `pkg`, only atoms of a key reach its list or the negations an AlwaysTrue pair appends. */
  predicate WellFiled(b: Buckets) {
    (forall p :: p in b.cat ==> p.restrict.PackageRestriction? && p.restrict.attr == "category" && p.data != []) &&
    (forall p :: p in b.pkg ==> p.restrict.PackageRestriction? && p.restrict.attr == "package" && p.data != []) &&
    (forall key, p :: key in b.atoms && p in b.atoms[key] ==>
      (p.restrict.Atom? && p.restrict.key == key) || p.restrict == AlwaysBool(true))
  }

  lemma {:induction false} FileAllWellFiled(b: Buckets, pairs: seq<Pair>)
    requires WellFiled(b) && FileAll(b, pairs).Ok?
    ensures WellFiled(FileAll(b, pairs).value)
    decreases pairs
  {
    if pairs != [] {
      FileAllWellFiled(File(b, pairs[0]).value, pairs[1..]);
    }
  }

  /** The data of the AlwaysTrue pairs, in order: what the defaults are expanded from. */
  function AlwaysData(pairs: seq<Pair>): seq<string>
  {
    if pairs == [] then []
    else (if pairs[0].restrict == AlwaysBool(true) then pairs[0].data else []) + AlwaysData(pairs[1..])
  }

  lemma {:induction false} FileAllAlways(b: Buckets, pairs: seq<Pair>)
    requires FileAll(b, pairs).Ok?
    ensures FileAll(b, pairs).value.always == b.always + AlwaysData(pairs)
    decreases pairs
  {
    if pairs != [] {
      FileAllAlways(File(b, pairs[0]).value, pairs[1..]);
    }
  }

  /**
   * The defaults hold a plain flag exactly when the last AlwaysTrue token
   * deciding it is the flag itself.
   */
  lemma DefaultsFromAlwaysTrue(sources: seq<seq<Pair>>, finalizeDefaults: bool, x: string)
    requires CollapseSpec(sources, finalizeDefaults).Ok?
    requires Incremental.Plain(x)
    ensures x in CollapseSpec(sources, finalizeDefaults).value.defaults <==>
      Incremental.LastDecision(AlwaysData(Flatten(sources)), x) == Some(true)
  {
    var pairs := Flatten(sources);
    FileAllAlways(NoBuckets, pairs);
    var b := FileAll(NoBuckets, pairs).value;
    assert b.always == AlwaysData(pairs);
    Incremental.LastTokenWins({}, b.always, x, finalizeDefaults);
  }

  /** The constructor's filing guarantees, stated on the object it returns. */
  lemma CollapseFiles(sources: seq<seq<Pair>>, finalizeDefaults: bool)
    requires CollapseSpec(sources, finalizeDefaults).Ok?
    ensures var c := CollapseSpec(sources, finalizeDefaults).value;
      forall p :: p in Flatten(sources) && p.data != [] && p.restrict.Atom? ==>
        p.restrict.key in c.atoms && p in c.atoms[p.restrict.key]
    ensures var c := CollapseSpec(sources, finalizeDefaults).value;
      forall p :: (p in Flatten(sources) && p.data != [] && p.restrict.PackageRestriction? &&
                   p.restrict.attr in {"category", "package"}) ==> p in Flatten(c.freeform)
    ensures var c := CollapseSpec(sources, finalizeDefaults).value;
      forall p :: p in Flatten(c.freeform) ==>
        (p in Flatten(sources) && p.data != [] &&
         p.restrict.PackageRestriction? && p.restrict.attr in {"category", "package"})
  {
    var pairs := Flatten(sources);
    FileAllFiles(NoBuckets, pairs);
    FileAllWellFiled(NoBuckets, pairs);
    FileAllSubset(NoBuckets, pairs);
    var b := FileAll(NoBuckets, pairs).value;
    var c := CollapseSpec(sources, finalizeDefaults).value;
    assert c.freeform == Freeform(b);
    forall p | p in pairs && p.data != []
      ensures p.restrict.Atom? ==> p.restrict.key in c.atoms && p in c.atoms[p.restrict.key]
      ensures p.restrict.PackageRestriction? && p.restrict.attr in {"category", "package"} ==> p in Flatten(c.freeform)
    {
      var i :| 0 <= i < |pairs| && pairs[i] == p;
      if p.restrict.PackageRestriction? && p.restrict.attr == "category" {
        assert p in b.cat && b.cat in c.freeform;
      }
      if p.restrict.PackageRestriction? && p.restrict.attr == "package" {
        assert p in b.pkg && b.pkg in c.freeform;
      }
    }
  }

  /** Whatever reaches `cat` or `pkg` came from the input pairs. */
  lemma {:induction false} FileAllSubset(b: Buckets, pairs: seq<Pair>)
    requires FileAll(b, pairs).Ok?
    ensures forall p :: p in FileAll(b, pairs).value.cat ==> p in b.cat || p in pairs
    ensures forall p :: p in FileAll(b, pairs).value.pkg ==> p in b.pkg || p in pairs
    decreases pairs
  {
    if pairs != [] {
      FileAllSubset(File(b, pairs[0]).value, pairs[1..]);
    }
  }

  /** The whole data of the restrictions in `ps` that match, in order. */
  function MatchedData(ps: seq<Pair>, matches: Restriction -> bool): (r: seq<seq<string>>)
    ensures |r| <= |ps|
  {
    if ps == [] then []
    else
      var last := ps[|ps| - 1];
      MatchedData(ps[..|ps| - 1], matches) + (if matches(last.restrict) then [last.data] else [])
  }

  lemma {:induction false} MatchedDataFrom(ps: seq<Pair>, matches: Restriction -> bool, d: seq<string>)
    ensures d in MatchedData(ps, matches) <==> exists p :: p in ps && matches(p.restrict) && p.data == d
    decreases |ps|
  {
    if ps != [] {
      var init := ps[..|ps| - 1];
      MatchedDataFrom(init, matches, d);
      assert ps == init + [ps[|ps| - 1]];
    }
  }

  function AtomsFor(c: Collapsed, key: string): seq<Pair>
  {
    if key in c.atoms then c.atoms[key] else []
  }

  /** The list `l` both `pull_data` variants build: matched freeform data, then matched atom data. */
  function Matched(c: Collapsed, matches: Restriction -> bool, key: string): seq<seq<string>>
  {
    MatchedData(Flatten(c.freeform), matches) + MatchedData(AtomsFor(c, key), matches)
  }

  /** The two loops that build `l`. */
  method CollectMatched(c: Collapsed, matches: Restriction -> bool, key: string) returns (l: seq<seq<string>>)
    ensures l == Matched(c, matches, key)
  {
    l := [];
    var specific := Flatten(c.freeform);
    var k := 0;
    while k < |specific|
      invariant 0 <= k <= |specific|
      invariant l == MatchedData(specific[..k], matches)
    {
      assert specific[..k + 1][..k] == specific[..k];
      if matches(specific[k].restrict) {
        l := l + [specific[k].data];
      }
      k := k + 1;
    }
    assert specific[..k] == specific;
    var atoms := AtomsFor(c, key);
    var l2: seq<seq<string>> := [];
    k := 0;
    while k < |atoms|
      invariant 0 <= k <= |atoms|
      invariant l2 == MatchedData(atoms[..k], matches)
    {
      assert atoms[..k + 1][..k] == atoms[..k];
      if matches(atoms[k].restrict) {
        l2 := l2 + [atoms[k].data];
      }
      k := k + 1;
    }
    assert atoms[..k] == atoms;
    l := l + l2;
  }

  /** What `pull_data` hands back; `isDefaults` says it is the object's own defaults set rather than a new one. */
  datatype Pulled = Pulled(data: set<string>, isDefaults: bool)

  function Lift(e: Incremental.Expansion, isDefaults: bool): Result<Pulled, Incremental.ExpandError>
  {
    if e.error.Some? then Err(e.error.value) else Ok(Pulled(e.tokens, isDefaults))
  }

  /** `collapsed_restrict_to_data.pull_data`, with the defaults iterated in `order`. */
  function PullSpec(c: Collapsed, matches: Restriction -> bool, key: string, forceCopy: bool,
                    preDefaults: seq<string>, order: seq<string>): Result<Pulled, Incremental.ExpandError>
    requires Enumerates(order, c.defaults)
  {
    var l := Matched(c, matches, key);
    var pre := set t | t in preDefaults;
    if l == [] then
      if preDefaults != [] then Lift(Incremental.Expand(pre, order, true), false)
      else Ok(Pulled(c.defaults, !forceCopy))
    else
      var start := if preDefaults != [] then Incremental.Expand(pre, order, true)
                   else Incremental.Expansion(c.defaults, None);
      if start.error.Some? then Err(start.error.value)
      else Lift(Incremental.Expand(start.tokens, Flatten(l), true), false)
  }

  method PullData(c: Collapsed, matches: Restriction -> bool, key: string, forceCopy: bool,
                  preDefaults: seq<string>, order: seq<string>) returns (r: Result<Pulled, Incremental.ExpandError>)
    requires Enumerates(order, c.defaults)
    ensures r == PullSpec(c, matches, key, forceCopy, preDefaults, order)
  {
    var l := CollectMatched(c, matches, key);
    var pre := set t | t in preDefaults;
    var s: set<string>;
    var err: Option<Incremental.ExpandError>;
    if l == [] {
      if preDefaults != [] {
        s, err := Incremental.NativeIncrementalExpansion(pre, order, true);
        return if err.Some? then Err(err.value) else Ok(Pulled(s, false));
      }
      return Ok(Pulled(c.defaults, !forceCopy));
    }
    if preDefaults != [] {
      s, err := Incremental.NativeIncrementalExpansion(pre, order, true);
      if err.Some? {
        return Err(err.value);
      }
    } else {
      s := c.defaults;
    }
    s, err := Incremental.NativeIncrementalExpansion(s, Flatten(l), true);
    return if err.Some? then Err(err.value) else Ok(Pulled(s, false));
  }

  /** The generator `iter_pull_data`: every token `pull_data` would expand, in order. */
  function IterPullData(c: Collapsed, matches: Restriction -> bool, key: string,
                        preDefaults: seq<string>, order: seq<string>): (r: seq<string>)
    requires Enumerates(order, c.defaults)
    ensures forall t :: t in r <==>
      t in preDefaults || t in c.defaults ||
      exists d :: d in Matched(c, matches, key) && t in d
  {
    preDefaults + order + Flatten(Matched(c, matches, key))
  }

  /**
   * When every token is a plain flag, `pull_data` is the expansion of the
   * token stream `iter_pull_data` yields, started from the empty set.
   */
  lemma PullIsStreamExpansion(c: Collapsed, matches: Restriction -> bool, key: string, forceCopy: bool,
                              preDefaults: seq<string>, order: seq<string>)
    requires Enumerates(order, c.defaults)
    requires forall t :: t in preDefaults || t in c.defaults ==> Incremental.Plain(t)
    requires forall d, t :: d in Matched(c, matches, key) && t in d ==> Incremental.Plain(t)
    ensures PullSpec(c, matches, key, forceCopy, preDefaults, order).Ok?
    ensures PullSpec(c, matches, key, forceCopy, preDefaults, order).value.data ==
      Incremental.Expand({}, IterPullData(c, matches, key, preDefaults, order), true).tokens
  {
    var l := Matched(c, matches, key);
    var pre := set t | t in preDefaults;
    var stream := IterPullData(c, matches, key, preDefaults, order);
    assert stream == preDefaults + (order + Flatten(l));
    Incremental.ExpandPlain({}, preDefaults, true);
    assert {} + pre == pre;
    Incremental.ExpandAppend({}, preDefaults, order + Flatten(l), true);
    Incremental.ExpandPlain(pre, order, true);
    Incremental.ExpandAppend(pre, order, Flatten(l), true);
    var afterDefaults := pre + c.defaults;
    assert (set t | t in order) == c.defaults;
    if l != [] {
      forall k | 0 <= k < |Flatten(l)| ensures Incremental.Plain(Flatten(l)[k]) {
        var t := Flatten(l)[k];
        assert t in Flatten(l);
      }
      Incremental.ExpandPlain(afterDefaults, Flatten(l), true);
      if preDefaults == [] {
        assert pre == {};
        assert afterDefaults == c.defaults;
      }
    } else {
      assert Flatten(l) == [];
      if preDefaults == [] {
        assert pre == {};
      }
    }
  }

  /**
   * With no pre-defaults and every matched token well formed, a plain flag
   * is pulled exactly when the last matched token deciding it is the flag,
   * or, when none decides it, when the defaults hold it.
   */
  lemma PullLastTokenWins(c: Collapsed, matches: Restriction -> bool, key: string, forceCopy: bool,
                          order: seq<string>, x: string)
    requires Enumerates(order, c.defaults)
    requires Incremental.Plain(x)
    requires PullSpec(c, matches, key, forceCopy, [], order).Ok?
    ensures x in PullSpec(c, matches, key, forceCopy, [], order).value.data <==>
      match Incremental.LastDecision(Flatten(Matched(c, matches, key)), x)
      case Some(b) => b
      case None => x in c.defaults
  {
    var l := Matched(c, matches, key);
    if l != [] {
      Incremental.LastTokenWins(c.defaults, Flatten(l), x, true);
    } else {
      assert Flatten(l) == [];
    }
  }

  /** `non_incremental_collapsed_restrict_to_data.pull_data`: the defaults plus every matched token. */
  function NonIncrementalPullSpec(c: Collapsed, matches: Restriction -> bool, key: string, forceCopy: bool): (r: Pulled)
    ensures forall t :: t in r.data <==>
      t in c.defaults || exists d :: d in Matched(c, matches, key) && t in d
    ensures r.isDefaults <==> Matched(c, matches, key) == [] && !forceCopy
  {
    var l := Matched(c, matches, key);
    if l == [] then Pulled(c.defaults, !forceCopy)
    else Pulled(c.defaults + (set t | t in Flatten(l)), false)
  }

  method NonIncrementalPullData(c: Collapsed, matches: Restriction -> bool, key: string, forceCopy: bool)
    returns (r: Pulled)
    ensures r == NonIncrementalPullSpec(c, matches, key, forceCopy)
  {
    var l := CollectMatched(c, matches, key);
    if l == [] {
      return Pulled(c.defaults, !forceCopy);
    }
    var s := c.defaults;
    var flat := Flatten(l);
    var k := 0;
    while k < |flat|
      invariant 0 <= k <= |flat|
      invariant s == c.defaults + set t | t in flat[..k]
    {
      assert flat[..k + 1] == flat[..k] + [flat[k]];
      s := s + {flat[k]};
      k := k + 1;
    }
    assert flat[..k] == flat;
    return Pulled(s, false);
  }

  /** `non_incremental_collapsed_restrict_to_data.iter_pull_data`. */
  function NonIncrementalIterPullData(c: Collapsed, matches: Restriction -> bool, key: string,
                                      order: seq<string>): (r: seq<string>)
    requires Enumerates(order, c.defaults)
    ensures Matched(c, matches, key) == [] ==> r == order
  {
    order + Flatten(Matched(c, matches, key))
  }

  /** The non-incremental iterator yields exactly the members of the non-incremental pull. */
  lemma NonIncrementalIterMatchesPull(c: Collapsed, matches: Restriction -> bool, key: string,
                                      forceCopy: bool, order: seq<string>)
    requires Enumerates(order, c.defaults)
    ensures (set t | t in NonIncrementalIterPullData(c, matches, key, order))
      == NonIncrementalPullSpec(c, matches, key, forceCopy).data
  {
    var it := NonIncrementalIterPullData(c, matches, key, order);
    var pulled := NonIncrementalPullSpec(c, matches, key, forceCopy).data;
    forall t ensures t in it <==> t in pulled {
      assert t in it <==> t in order || t in Flatten(Matched(c, matches, key));
    }
  }
}
