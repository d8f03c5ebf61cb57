/**
 * The content set the triggers rewrite (`pkgcore.fs.contents.contentsSet`):
 * a map from location to filesystem entry. Entries are values; they change
 * only through `change_attributes`, which here is a datatype update.
 * `update` and `add` are last-wins per location, `remove` and `del` fail
 * when the location is absent.
 */
module Contents {
  import opened Wrappers
  import opened Text

  datatype Kind = Regular | Directory | Symlink | Device | Fifo

  /** One filesystem object; `target` only means something for a symlink. */
  datatype Entry = Entry(location: string, kind: Kind, mode: bv32, uid: int, gid: int,
                         mtime: int, chksums: map<string, string>, target: string)

  type Cset = map<string, Entry>

  /** Every entry sits under its own location. */
  predicate Keyed(m: Cset) {
    forall l :: l in m ==> m[l].location == l
  }

  /** `update(es)`: each entry replaces whatever was at its location, later ones winning. */
  function Overlay(m: Cset, es: seq<Entry>): (r: Cset)
    ensures r.Keys == m.Keys + set e | e in es :: e.location
    ensures Keyed(m) ==> Keyed(r)
    decreases |es|
  {
    if es == [] then m
    else
      var init := es[..|es| - 1];
      var last := es[|es| - 1];
      assert es == init + [last];
      Overlay(m, init)[last.location := last]
  }

  /** The last entry of `es` at location `l`, if any. */
  function LastAt(es: seq<Entry>, l: string): (r: Option<Entry>)
    ensures r.Some? ==> r.value in es && r.value.location == l
    ensures r.None? ==> forall e :: e in es ==> e.location != l
  {
    if es == [] then None
    else if es[|es| - 1].location == l then Some(es[|es| - 1])
    else
      var r := LastAt(es[..|es| - 1], l);
      assert forall e :: e in es[..|es| - 1] ==> e in es;
      assert es == es[..|es| - 1] + [es[|es| - 1]];
      r
  }

  /** After `update`, a location holds the last entry given for it, or what it held before. */
  lemma {:induction false} OverlayLastWins(m: Cset, es: seq<Entry>, l: string)
    requires l in m || LastAt(es, l).Some?
    ensures l in Overlay(m, es)
    ensures Overlay(m, es)[l] == match LastAt(es, l) case Some(e) => e case None => m[l]
    decreases |es|
  {
    if es != [] && es[|es| - 1].location != l {
      OverlayLastWins(m, es[..|es| - 1], l);
    }
  }

  lemma {:induction false} OverlayAppend(m: Cset, a: seq<Entry>, b: seq<Entry>)
    ensures Overlay(m, a + b) == Overlay(Overlay(m, a), b)
    decreases |b|
  {
    if b == [] {
      assert a + b == a;
    } else {
      var init := b[..|b| - 1];
      assert (a + b)[..|a + b| - 1] == a + init;
      assert (a + b)[|a + b| - 1] == b[|b| - 1];
      OverlayAppend(m, a, init);
    }
  }

  /** The rewritten copies `f(x)` of the entries `x` at `order`'s locations for which `p(x)` holds, in order. */
  function Select(m: Cset, order: seq<string>, p: Entry -> bool, f: Entry -> Entry): (r: seq<Entry>)
    requires forall l :: l in order ==> l in m
    ensures |r| <= |order|
    decreases |order|
  {
    if order == [] then []
    else
      var l := order[|order| - 1];
      Select(m, order[..|order| - 1], p, f) + (if p(m[l]) then [f(m[l])] else [])
  }

  /**
   * The shape of most triggers: `cset.update(f(x) for x in cset if p(x))`
   * leaves every location in place, rewrites exactly the entries satisfying
   * `p`, and leaves the rest as they were.
   */
  lemma {:induction false} OverlaySelect(base: Cset, m: Cset, order: seq<string>, p: Entry -> bool, f: Entry -> Entry)
    requires forall l :: l in order ==> l in m && l in base
    requires forall i, j :: 0 <= i < j < |order| ==> order[i] != order[j]
    requires Keyed(m)
    requires forall e :: f(e).location == e.location
    ensures Overlay(base, Select(m, order, p, f)) == Rewritten(base, m, order, p, f)
    decreases |order|
  {
    if order != [] {
      var init := order[..|order| - 1];
      var l0 := order[|order| - 1];
      assert order == init + [l0];
      assert forall l :: l in init ==> l in order;
      assert l0 !in init;
      OverlaySelect(base, m, init, p, f);
      var tail := if p(m[l0]) then [f(m[l0])] else [];
      OverlayAppend(base, Select(m, init, p, f), tail);
      if p(m[l0]) {
        assert tail[..0] == [];
      }
      RewriteStep(base, m, init, l0, p, f);
    }
  }

  lemma RewriteStep(base: Cset, m: Cset, init: seq<string>, l0: string, p: Entry -> bool, f: Entry -> Entry)
    requires forall l :: l in init ==> l in m
    requires l0 in m && l0 in base && l0 !in init
    ensures Rewritten(base, m, init + [l0], p, f) ==
      var mid := Rewritten(base, m, init, p, f);
      if p(m[l0]) then mid[l0 := f(m[l0])] else mid
  {
    var mid := Rewritten(base, m, init, p, f);
    var want := Rewritten(base, m, init + [l0], p, f);
    var got := if p(m[l0]) then mid[l0 := f(m[l0])] else mid;
    forall l | l in base
      ensures want[l] == got[l]
    {
      assert l in init + [l0] <==> l in init || l == l0;
    }
    assert want == got;
  }

  /** `base` with the entries of `m` at `order`'s locations that satisfy `p` replaced by their `f` image. */
  function Rewritten(base: Cset, m: Cset, order: seq<string>, p: Entry -> bool, f: Entry -> Entry): (r: Cset)
    requires forall l :: l in order ==> l in m
    ensures r.Keys == base.Keys
    ensures forall l :: l in r ==> r[l] == if l in order && p(m[l]) then f(m[l]) else base[l]
  {
    map l | l in base :: if l in order && p(m[l]) then f(m[l]) else base[l]
  }

  /** `m` with every entry satisfying `p` replaced by its `f` image. */
  function RewriteAll(m: Cset, p: Entry -> bool, f: Entry -> Entry): (r: Cset)
    ensures r.Keys == m.Keys
    ensures forall l :: l in r && !p(m[l]) ==> r[l] == m[l]
    ensures forall l :: l in r && p(m[l]) ==> r[l] == f(m[l])
  {
    map l | l in m :: if p(m[l]) then f(m[l]) else m[l]
  }

  /**
   * `cset.update(f(x) for x in cset if p(x))`, whatever order the set
   * iterates in, is `RewriteAll`.
   */
  lemma UpdateFromSelf(m: Cset, order: seq<string>, p: Entry -> bool, f: Entry -> Entry)
    requires Enumerates(order, m.Keys)
    requires Keyed(m)
    requires forall e :: f(e).location == e.location
    ensures forall l :: l in order ==> l in m
    ensures Overlay(m, Select(m, order, p, f)) == RewriteAll(m, p, f)
  {
    OverlaySelect(m, m, order, p, f);
    assert Rewritten(m, m, order, p, f) == RewriteAll(m, p, f);
  }

  /** Locations of the entries of one kind: `iterfiles`, `iterdirs`, `iterlinks`. */
  function OfKind(m: Cset, k: Kind): (r: set<string>)
    ensures r <= m.Keys
  {
    set l | l in m && m[l].kind == k
  }

  /** `iterlinks(True)`: the parameter is `invert`, so every entry that is not a symlink. */
  function NonLinks(m: Cset): (r: set<string>)
    ensures r <= m.Keys
    ensures forall l :: l in r <==> l in m && l !in OfKind(m, Symlink)
  {
    set l | l in m && m[l].kind != Symlink
  }

  class ContentSet {
    var entries: Cset

    ghost predicate Valid()
      reads this
    {
      Keyed(entries)
    }

    constructor (es: seq<Entry>)
      ensures Valid() && entries == Overlay(map[], es)
    {
      entries := Overlay(map[], es);
    }

    /** `x in cset`, by location. */
    function Contains(l: string): bool
      reads this
    {
      l in entries
    }

    /** `cset[x]`, raising `KeyError` for an absent location. */
    function Get(l: string): (r: Option<Entry>)
      reads this
      ensures r.Some? <==> l in entries
      ensures r.Some? ==> r.value == entries[l]
    {
      if l in entries then Some(entries[l]) else None
    }

    method Add(e: Entry)
      requires Valid()
      modifies this
      ensures Valid() && entries == old(entries)[e.location := e]
    {
      entries := entries[e.location := e];
    }

    method Update(es: seq<Entry>)
      requires Valid()
      modifies this
      ensures Valid() && entries == Overlay(old(entries), es)
    {
      var k := 0;
      while k < |es|
        invariant 0 <= k <= |es|
        invariant Valid() && entries == Overlay(old(entries), es[..k])
      {
        assert es[..k + 1][..k] == es[..k];
        entries := entries[es[k].location := es[k]];
        k := k + 1;
      }
      assert es[..k] == es;
    }

    /** `remove(x)` and `del cset[x]`: false stands for the `KeyError` of an absent location. */
    method Remove(l: string) returns (found: bool)
      requires Valid()
      modifies this
      ensures Valid()
      ensures found <==> l in old(entries)
      ensures entries == old(entries) - {l}
    {
      found := l in entries;
      if found {
        entries := entries - {l};
      }
    }

    /** `difference_update(locations)`: discards each location, present or not. */
    method DifferenceUpdate(ls: seq<string>)
      requires Valid()
      modifies this
      ensures Valid() && entries == old(entries) - (set l | l in ls)
    {
      var k := 0;
      while k < |ls|
        invariant 0 <= k <= |ls|
        invariant Valid() && entries == old(entries) - (set l | l in ls[..k])
      {
        assert ls[..k + 1] == ls[..k] + [ls[k]];
        entries := entries - {ls[k]};
        k := k + 1;
      }
      assert ls[..k] == ls;
    }
  }
}
