/**
 * env.d collapsing (pkgcore/ebuild/triggers.py, `collapse_envd` and
 * `string_collapse_envd`). The directory listing and `read_bash_dict` are
 * inputs: `listing` is what `listdir_files` returned (or its errno),
 * `read(name)` the variables the fragment `name` assigns, and `readErr(name)`
 * the error `read_bash_dict` raises on it instead, if any.
 */
module Envd {
  import opened Wrappers
  import opened Errno
  import opened Text


  const ColonParsed: set<string> := {
    "ADA_INCLUDE_PATH", "ADA_OBJECTS_PATH", "INFODIR", "INFOPATH",
    "LDPATH", "MANPATH", "PATH", "PRELINK_PATH", "PRELINK_PATH_MASK",
    "PYTHONPATH", "PKG_CONFIG_PATH", "ROOTPATH"}

  const Incrementals: set<string> := {
    "ADA_INCLUDE_PATH", "ADA_OBJECTS_PATH", "CLASSPATH", "CONFIG_PROTECT",
    "CONFIG_PROTECT_MASK", "INFODIR", "INFOPATH", "KDEDIRS", "LDPATH",
    "MANPATH", "PATH", "PRELINK_PATH", "PRELINK_PATH_MASK", "PYTHONPATH",
    "ROOTPATH", "PKG_CONFIG_PATH"}

  const ColonSeparatedKey := "COLON_SEPARATED"
  const SpaceSeparatedKey := "SPACE_SEPARATED"

  /** A fragment name `collapse_envd` reads: no backup or `._cfg` name, longer than two characters, two leading digits. */
  predicate ReadsFragment(name: string) {
    !EndsWith(name, ".bak") && !EndsWith(name, "~") && !StartsWith(name, "._cfg") &&
    |name| > 2 && IsDigit(name[0]) && IsDigit(name[1])
  }

  /** The fragments read, in the order given. */
  function Fragments(names: seq<string>): (r: seq<string>)
    ensures forall x :: x in r <==> x in names && ReadsFragment(x)
  {
    if names == [] then []
    else
      var init := names[..|names| - 1];
      var last := names[|names| - 1];
      assert forall x :: x in names <==> x in init || x == last;
      Fragments(init) + (if ReadsFragment(last) then [last] else [])
  }

  /** Why `collapse_envd` raises. */
  datatype EnvdError =
    | EnvdListingFailed(errno: nat)            // listing the directory failed other than with ENOENT
    | FragmentFailed(name: string, cause: nat) // `read_bash_dict` raised on this fragment (an IO errno or a parse-error code)

  /** The error of the first fragment `read_bash_dict` raises on, if any. */
  function FirstUnreadable(files: seq<string>, readErr: string -> Option<nat>): Option<EnvdError>
  {
    if files == [] then None
    else
      match FirstUnreadable(files[..|files| - 1], readErr)
      case Some(e) => Some(e)
      case None =>
        var last := files[|files| - 1];
        if readErr(last).Some? then Some(FragmentFailed(last, readErr(last).value)) else None
  }

  /**
   * `collapse_envd` raises iff some fragment is unreadable, and then with the
   * error of the first one, every fragment before it having been read.
   */
  lemma {:induction false} FirstUnreadableIsFirst(files: seq<string>, readErr: string -> Option<nat>)
    ensures FirstUnreadable(files, readErr).None? <==> forall x :: x in files ==> readErr(x).None?
    ensures FirstUnreadable(files, readErr).Some? ==>
      exists i :: (0 <= i < |files| && readErr(files[i]).Some? &&
        FirstUnreadable(files, readErr).value == FragmentFailed(files[i], readErr(files[i]).value) &&
        forall j :: 0 <= j < i ==> readErr(files[j]).None?)
  {
    if files != [] {
      var init := files[..|files| - 1];
      var last := files[|files| - 1];
      FirstUnreadableIsFirst(init, readErr);
      assert forall x :: x in files <==> x in init || x == last;
      assert forall j :: 0 <= j < |init| ==> files[j] == init[j];
      if FirstUnreadable(init, readErr).None? && readErr(last).Some? {
        assert forall j :: 0 <= j < |init| ==> init[j] in init;
      }
    }
  }

  /** Once a fragment has raised, reading more fragments changes nothing. */
  lemma {:induction false} FirstUnreadableSticks(files: seq<string>, rest: seq<string>, readErr: string -> Option<nat>)
    requires FirstUnreadable(files, readErr).Some?
    ensures FirstUnreadable(files + rest, readErr) == FirstUnreadable(files, readErr)
  {
    if rest != [] {
      var init := rest[..|rest| - 1];
      FirstUnreadableSticks(files, init, readErr);
      var all := files + rest;
      assert all != [] && all[..|all| - 1] == files + init;
      assert FirstUnreadable(all[..|all| - 1], readErr) == FirstUnreadable(files, readErr);
    } else {
      assert files + rest == files;
    }
  }

  /** The values the fragments give key `k`, in fragment order. */
  function ValuesOf(files: seq<string>, read: string -> map<string, string>, k: string): seq<string>
  {
    if files == [] then []
    else
      var last := files[|files| - 1];
      ValuesOf(files[..|files| - 1], read, k) + (if k in read(last) then [read(last)[k]] else [])
  }

  /** `collapsed_d.setdefault(k, []).append(v)` for every variable of one fragment. */
  function AddFragment(c: map<string, seq<string>>, d: map<string, string>): map<string, seq<string>>
  {
    map k | k in c.Keys + d.Keys :: (if k in c then c[k] else []) + (if k in d then [d[k]] else [])
  }

  /** Every key any fragment assigns, with all its values in fragment order. */
  function Gather(files: seq<string>, read: string -> map<string, string>): (r: map<string, seq<string>>)
    ensures forall k :: k in r ==> r[k] != []
  {
    if files == [] then map[]
    else AddFragment(Gather(files[..|files| - 1], read), read(files[|files| - 1]))
  }

  /** A key is gathered iff some fragment assigns it, and it holds every value assigned to it, in fragment order. */
  lemma {:induction false} GatherValues(files: seq<string>, read: string -> map<string, string>, k: string)
    ensures k in Gather(files, read) <==> ValuesOf(files, read, k) != []
    ensures k in Gather(files, read) ==> Gather(files, read)[k] == ValuesOf(files, read, k)
  {
    if files != [] {
      GatherValues(files[..|files| - 1], read, k);
    }
  }

  /** The value of `k` in the last fragment that assigns it. */
  lemma {:induction false} LastValueWins(files: seq<string>, read: string -> map<string, string>, k: string, i: nat)
    requires i < |files| && k in read(files[i])
    requires forall j :: i < j < |files| ==> k !in read(files[j])
    ensures ValuesOf(files, read, k) != []
    ensures ValuesOf(files, read, k)[|ValuesOf(files, read, k)| - 1] == read(files[i])[k]
  {
    if i < |files| - 1 {
      LastValueWins(files[..|files| - 1], read, k, i);
    }
  }

  /** The words of several values, each split on whitespace, concatenated. */
  function WordsOf(xs: seq<string>): (r: seq<string>)
    ensures forall i :: 0 <= i < |r| ==> r[i] != [] && forall c :: c in r[i] ==> !IsSpace(c)
  {
    if xs == [] then []
    else
      var w := WordsOf(xs[..|xs| - 1]);
      var last := SplitWs(xs[|xs| - 1]);
      assert forall i :: |w| <= i < |w + last| ==> (w + last)[i] == last[i - |w|];
      w + last
  }

  /** The fields of several values, each split on `:`, concatenated, with empty ones dropped. */
  function ColonFieldsOf(xs: seq<string>): (r: seq<string>)
    ensures forall i :: 0 <= i < |r| ==> r[i] != [] && ':' !in r[i]
  {
    var fields := Flatten(seq(|xs|, i requires 0 <= i < |xs| => SplitOn(xs[i], ':')));
    assert forall f :: f in fields ==> ':' !in f;
    NonEmpty(fields)
  }

  /** What a key holds after `collapse_envd`: the last value, or a list of words. */
  datatype EnvValue = Scalar(s: string) | Words(ws: seq<string>)

  datatype Collapsed = Collapsed(env: map<string, EnvValue>, incrementals: set<string>, colonParsed: set<string>)

  /** How `collapse_envd` reinterprets the values gathered for one key. */
  function Reinterpret(k: string, vs: seq<string>, inc: set<string>, colon: set<string>): EnvValue
    requires vs != []
  {
    if k !in inc then Scalar(vs[|vs| - 1])
    else if k in colon then Words(ColonFieldsOf(vs))
    else Words(NonEmpty(WordsOf(vs)))
  }

  function Popped(c: map<string, seq<string>>, k: string): seq<string>
  {
    if k in c then c[k] else []
  }

  /** The colon-parsed names: the built-in ones plus those `COLON_SEPARATED` lists. */
  function ColonNames(raw: map<string, seq<string>>): set<string>
  {
    ColonParsed + set w | w in WordsOf(Popped(raw, ColonSeparatedKey))
  }

  /** The incremental names: the built-in ones, the colon-parsed ones, and those `SPACE_SEPARATED` lists. */
  function IncrementalNames(raw: map<string, seq<string>>): set<string>
  {
    Incrementals + ColonNames(raw) + set w | w in WordsOf(Popped(raw, SpaceSeparatedKey))
  }

  /**
   * `collapse_envd`: a missing directory collapses to nothing; any other
   * listing error propagates, and so does the first `read_bash_dict` error.
   */
  function CollapseSpec(listing: Result<seq<string>, nat>, read: string -> map<string, string>,
                        readErr: string -> Option<nat>): Result<Collapsed, EnvdError>
  {
    if listing.Err? && listing.error != ENOENT then Err(EnvdListingFailed(listing.error))
    else if FirstUnreadable(FragmentFiles(listing), readErr).Some? then Err(FirstUnreadable(FragmentFiles(listing), readErr).value)
    else
      var raw := Gather(FragmentFiles(listing), read);
      Ok(Collapsed(Reinterpreted(raw), IncrementalNames(raw), ColonNames(raw)))
  }

  /** `collapse_envd` raises iff listing fails other than with ENOENT or some fragment it reads is unreadable. */
  lemma CollapseFailsIff(listing: Result<seq<string>, nat>, read: string -> map<string, string>, readErr: string -> Option<nat>)
    ensures CollapseSpec(listing, read, readErr).Err? <==>
      (listing.Err? && listing.error != ENOENT) || exists x :: x in FragmentFiles(listing) && readErr(x).Some?
  {
    FirstUnreadableIsFirst(FragmentFiles(listing), readErr);
  }

  /** The fragments `collapse_envd` reads, in sorted order; none when the directory is missing. */
  function FragmentFiles(listing: Result<seq<string>, nat>): seq<string>
  {
    if listing.Ok? then Fragments(Sort(listing.value)) else []
  }

  /** Every gathered key but the two list keys, reinterpreted. */
  function Reinterpreted(raw: map<string, seq<string>>): (r: map<string, EnvValue>)
    requires forall k :: k in raw ==> raw[k] != []
    ensures r.Keys == raw.Keys - {ColonSeparatedKey, SpaceSeparatedKey}
    ensures forall k :: k in r ==> r[k] == Reinterpret(k, raw[k], IncrementalNames(raw), ColonNames(raw))
  {
    var rest := raw - {ColonSeparatedKey, SpaceSeparatedKey};
    map k | k in rest :: Reinterpret(k, rest[k], IncrementalNames(raw), ColonNames(raw))
  }

  /**
   * The reading loop of `collapse_envd`: every fragment's variables appended
   * per key, in order, until a `read_bash_dict` that raises.
   */
  method GatherFragments(names: seq<string>, read: string -> map<string, string>, readErr: string -> Option<nat>)
    returns (r: Result<map<string, seq<string>>, EnvdError>)
    ensures FirstUnreadable(Fragments(names), readErr).None? ==> r == Ok(Gather(Fragments(names), read))
    ensures FirstUnreadable(Fragments(names), readErr).Some? ==> r == Err(FirstUnreadable(Fragments(names), readErr).value)
  {
    var collapsed := map[];
    var k := 0;
    while k < |names|
      invariant 0 <= k <= |names|
      invariant FirstUnreadable(Fragments(names[..k]), readErr).None?
      invariant collapsed == Gather(Fragments(names[..k]), read)
    {
      var x := names[k];
      FragmentsSnoc(names[..k], x);
      assert names[..k + 1] == names[..k] + [x];
      if ReadsFragment(x) {
        ReadStep(names[..k], x, readErr);
        var e := readErr(x);
        if e.Some? {
          StopsAt(names, k, readErr);
          return Err(FragmentFailed(x, e.value));
        }
        GatherSnoc(Fragments(names[..k]), x, read);
        collapsed := AddFragment(collapsed, read(x));
      } else {
        assert Fragments(names[..k] + [x]) == Fragments(names[..k]);
      }
      k := k + 1;
    }
    assert names[..k] == names;
    return Ok(collapsed);
  }

  /** Reading one more fragment after a clean prefix: its error, or still none. */
  lemma ReadStep(done: seq<string>, x: string, readErr: string -> Option<nat>)
    requires ReadsFragment(x)
    requires FirstUnreadable(Fragments(done), readErr).None?
    ensures FirstUnreadable(Fragments(done + [x]), readErr) ==
      if readErr(x).Some? then Some(FragmentFailed(x, readErr(x).value)) else None
  {
    FragmentsSnoc(done, x);
    var fs := Fragments(done + [x]);
    assert fs[..|fs| - 1] == Fragments(done) && fs[|fs| - 1] == x;
  }

  lemma {:induction false} StopsAt(names: seq<string>, k: nat, readErr: string -> Option<nat>)
    requires k < |names| && FirstUnreadable(Fragments(names[..k + 1]), readErr).Some?
    ensures FirstUnreadable(Fragments(names), readErr) == FirstUnreadable(Fragments(names[..k + 1]), readErr)
  {
    if |names| > k + 1 {
      var init, last := names[..|names| - 1], names[|names| - 1];
      assert init[..k + 1] == names[..k + 1];
      StopsAt(init, k, readErr);
      assert names == init + [last];
      FragmentsSnoc(init, last);
      var fs := Fragments(names);
      if ReadsFragment(last) {
        assert fs[..|fs| - 1] == Fragments(init);
      } else {
        assert fs == Fragments(init);
      }
    } else {
      assert names[..k + 1] == names;
    }
  }

  lemma FragmentsSnoc(names: seq<string>, x: string)
    ensures Fragments(names + [x]) == Fragments(names) + (if ReadsFragment(x) then [x] else [])
  {
    assert (names + [x])[..|names|] == names;
  }

  lemma GatherSnoc(files: seq<string>, x: string, read: string -> map<string, string>)
    ensures Gather(files + [x], read) == AddFragment(Gather(files, read), read(x))
  {
    assert (files + [x])[..|files|] == files;
  }

  /** `names.update(x.split())` for each popped value in turn. */
  method AddWords(names: set<string>, values: seq<string>) returns (r: set<string>)
    ensures r == names + set w | w in WordsOf(values)
  {
    r := names;
    var i := 0;
    while i < |values|
      invariant 0 <= i <= |values|
      invariant r == names + set w | w in WordsOf(values[..i])
    {
      assert values[..i + 1][..i] == values[..i];
      var v := SplitWs(values[i]);
      r := r + set w | w in v;
      i := i + 1;
    }
    assert values[..i] == values;
  }

  /** `collapse_envd`, proved to compute `CollapseSpec`. */
  method CollapseEnvd(listing: Result<seq<string>, nat>, read: string -> map<string, string>,
                      readErr: string -> Option<nat>) returns (r: Result<Collapsed, EnvdError>)
    ensures r == CollapseSpec(listing, read, readErr)
  {
    var collapsed: map<string, seq<string>> := map[];
    if listing.Err? {
      if listing.error != ENOENT {
        return Err(EnvdListingFailed(listing.error));
      }
    } else {
      var gathered := GatherFragments(Sort(listing.value), read, readErr);
      if gathered.Err? {
        return Err(gathered.error);
      }
      collapsed := gathered.value;
    }
    var colonValues := Popped(collapsed, ColonSeparatedKey);
    var spaceValues := Popped(collapsed, SpaceSeparatedKey);
    var colon := AddWords(ColonParsed, colonValues);
    var inc := AddWords(Incrementals + colon, spaceValues);
    ghost var raw := collapsed;
    assert inc == IncrementalNames(raw) && colon == ColonNames(raw);
    collapsed := collapsed - {ColonSeparatedKey, SpaceSeparatedKey};
    var env := map k | k in collapsed :: Reinterpret(k, collapsed[k], inc, colon);
    assert env == Reinterpreted(raw);
    return Ok(Collapsed(env, inc, colon));
  }

  /**
   * Key classification: the two list keys never survive; every other key
   * that a fragment assigns survives, as the last value given when it is not
   * incremental, else as clean words (colon fields with no `:` when
   * colon-parsed, whitespace words otherwise).
   */
  lemma EnvdClassifies(listing: Result<seq<string>, nat>, read: string -> map<string, string>,
                       readErr: string -> Option<nat>, k: string)
    requires CollapseSpec(listing, read, readErr).Ok?
    ensures var c := CollapseSpec(listing, read, readErr).value;
      ColonSeparatedKey !in c.env && SpaceSeparatedKey !in c.env &&
      Incrementals + ColonParsed <= c.incrementals && ColonParsed <= c.colonParsed && c.colonParsed <= c.incrementals &&
      (k in c.env ==>
        (c.env[k].Scalar? <==> k !in c.incrementals) &&
        (c.env[k].Words? && k in c.colonParsed ==> forall i :: 0 <= i < |c.env[k].ws| ==> c.env[k].ws[i] != [] && ':' !in c.env[k].ws[i]) &&
        (c.env[k].Words? && k !in c.colonParsed ==> forall i :: 0 <= i < |c.env[k].ws| ==>
          c.env[k].ws[i] != [] && forall ch :: ch in c.env[k].ws[i] ==> !IsSpace(ch)))
  {
    var c := CollapseSpec(listing, read, readErr).value;
    if k in c.env && c.env[k].Words? && k !in c.colonParsed {
      var raw := Gather(FragmentFiles(listing), read);
      var ws := WordsOf(raw[k]);
      assert c.env[k].ws == NonEmpty(ws);
      forall i | 0 <= i < |c.env[k].ws|
        ensures c.env[k].ws[i] != [] && forall ch :: ch in c.env[k].ws[i] ==> !IsSpace(ch)
      {
        assert c.env[k].ws[i] in ws;
      }
    }
  }

  /** A non-incremental key holds the value of the last fragment (in sorted order) that assigns it. */
  lemma EnvdScalarIsLast(listing: Result<seq<string>, nat>, read: string -> map<string, string>,
                         readErr: string -> Option<nat>, k: string, i: nat)
    requires CollapseSpec(listing, read, readErr).Ok?
    requires var files := FragmentFiles(listing);
      i < |files| && k in read(files[i]) && forall j :: i < j < |files| ==> k !in read(files[j])
    requires k != ColonSeparatedKey && k != SpaceSeparatedKey
    requires k !in CollapseSpec(listing, read, readErr).value.incrementals
    ensures k in CollapseSpec(listing, read, readErr).value.env
    ensures CollapseSpec(listing, read, readErr).value.env[k] == Scalar(read(FragmentFiles(listing)[i])[k])
  {
    var files := FragmentFiles(listing);
    var raw := Gather(files, read);
    var c := CollapseSpec(listing, read, readErr).value;
    GatheredLast(files, read, k, i);
    CollapsedAt(listing, read, readErr, k);
    ReinterpretScalar(k, raw[k], c.incrementals, c.colonParsed, read(files[i])[k]);
  }

  /** The last value gathered for a key is that of the last fragment assigning it. */
  lemma GatheredLast(files: seq<string>, read: string -> map<string, string>, k: string, i: nat)
    requires i < |files| && k in read(files[i]) && forall j :: i < j < |files| ==> k !in read(files[j])
    ensures k in Gather(files, read)
    ensures var vs := Gather(files, read)[k]; vs != [] && vs[|vs| - 1] == read(files[i])[k]
  {
    LastValueWins(files, read, k, i);
    GatherValues(files, read, k);
  }

  lemma ReinterpretScalar(k: string, vs: seq<string>, inc: set<string>, colon: set<string>, v: string)
    requires vs != [] && vs[|vs| - 1] == v && k !in inc
    ensures Reinterpret(k, vs, inc, colon) == Scalar(v)
  {
  }

  /** What `collapse_envd` keeps for one gathered key other than the list keys. */
  lemma CollapsedAt(listing: Result<seq<string>, nat>, read: string -> map<string, string>,
                    readErr: string -> Option<nat>, k: string)
    requires CollapseSpec(listing, read, readErr).Ok?
    requires k in Gather(FragmentFiles(listing), read) && k != ColonSeparatedKey && k != SpaceSeparatedKey
    ensures var raw := Gather(FragmentFiles(listing), read); var c := CollapseSpec(listing, read, readErr).value;
      k in c.env && c.env[k] == Reinterpret(k, raw[k], c.incrementals, c.colonParsed)
  {
    CollapseOk(listing, read, readErr);
  }

  /** A successful collapse is the reinterpretation of everything gathered. */
  lemma CollapseOk(listing: Result<seq<string>, nat>, read: string -> map<string, string>, readErr: string -> Option<nat>)
    requires CollapseSpec(listing, read, readErr).Ok?
    ensures var raw := Gather(FragmentFiles(listing), read);
      CollapseSpec(listing, read, readErr).value == Collapsed(Reinterpreted(raw), IncrementalNames(raw), ColonNames(raw))
  {
  }

  /** `string_collapse_envd`'s join of one incremental value; a scalar is joined character by character. */
  function JoinValue(v: EnvValue, sep: char): string
  {
    match v
    case Words(ws) => JoinOn(ws, sep)
    case Scalar(s) => JoinOn(seq(|s|, i requires 0 <= i < |s| => [s[i]]), sep)
  }

  /** `string_collapse_envd`: incremental keys re-joined with `:` (colon-parsed) or a space; other keys untouched. */
  function StringCollapsed(env: map<string, EnvValue>, inc: set<string>, colon: set<string>): (r: map<string, EnvValue>)
    ensures r.Keys == env.Keys
    ensures forall k :: k in env && k !in inc ==> r[k] == env[k]
    ensures forall k :: k in env && k in inc ==> r[k].Scalar?
  {
    map k | k in env :: if k !in inc then env[k] else Scalar(JoinValue(env[k], if k in colon then ':' else ' '))
  }

  /** The loop of `string_collapse_envd`, over the keys in whatever order the dict yields them. */
  method StringCollapseEnvd(env: map<string, EnvValue>, inc: set<string>, colon: set<string>) returns (r: map<string, EnvValue>)
    ensures r == StringCollapsed(env, inc, colon)
  {
    r := env;
    var todo := env.Keys;
    while todo != {}
      invariant todo <= env.Keys
      invariant r.Keys == env.Keys
      invariant forall k :: k in env ==>
        r[k] == if k in todo || k !in inc then env[k] else Scalar(JoinValue(env[k], if k in colon then ':' else ' '))
      decreases todo
    {
      var k :| k in todo;
      if k in inc {
        r := r[k := Scalar(JoinValue(env[k], if k in colon then ':' else ' '))];
      }
      todo := todo - {k};
    }
  }

  /**
   * Re-stringing is lossless on what `collapse_envd` produced: splitting a
   * joined colon-parsed value on `:` (dropping empties), or any other
   * incremental value on whitespace, gives back the word list.
   */
  lemma RestringRoundTrip(listing: Result<seq<string>, nat>, read: string -> map<string, string>,
                          readErr: string -> Option<nat>, k: string)
    requires CollapseSpec(listing, read, readErr).Ok?
    requires var c := CollapseSpec(listing, read, readErr).value; k in c.env && k in c.incrementals
    ensures var c := CollapseSpec(listing, read, readErr).value;
      var s := StringCollapsed(c.env, c.incrementals, c.colonParsed)[k].s;
      (k in c.colonParsed ==> NonEmpty(SplitOn(s, ':')) == c.env[k].ws) &&
      (k !in c.colonParsed ==> SplitWs(s) == c.env[k].ws)
  {
    var c := CollapseSpec(listing, read, readErr).value;
    var raw := Gather(FragmentFiles(listing), read);
    CollapseOk(listing, read, readErr);
    CollapsedAt(listing, read, readErr, k);
    RestringValue(k, raw[k], c.incrementals, c.colonParsed);
  }

  /** The round trip for one reinterpreted incremental value. */
  lemma RestringValue(k: string, vs: seq<string>, inc: set<string>, colon: set<string>)
    requires vs != [] && k in inc
    ensures Reinterpret(k, vs, inc, colon).Words?
    ensures var ws := Reinterpret(k, vs, inc, colon).ws;
      (k in colon ==> NonEmpty(SplitOn(JoinOn(ws, ':'), ':')) == ws) &&
      (k !in colon ==> SplitWs(JoinOn(ws, ' ')) == ws)
  {
    var ws := Reinterpret(k, vs, inc, colon).ws;
    if k in colon {
      assert ws == ColonFieldsOf(vs);
      if ws != [] {
        SplitJoinOn(ws, ':');
        NonEmptyKeeps(ws);
      }
    } else {
      var p := WordsOf(vs);
      assert ws == NonEmpty(p);
      forall i | 0 <= i < |ws| ensures ws[i] != [] && forall ch :: ch in ws[i] ==> !IsSpace(ch) {
        assert ws[i] in p;
        var j :| 0 <= j < |p| && p[j] == ws[i];
      }
      SplitWsJoin(ws);
    }
  }
}
