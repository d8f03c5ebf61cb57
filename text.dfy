/**
 * The handful of Python string and `posixpath` operations the triggers rely
 * on (`startswith`, `rstrip`, `split`, `join`, `replace`, `os.path.join`,
 * `os.path.dirname`, `int()`, `"%04i"`), written out so that their edge cases
 * are those of the Python runtime (ASCII only: no Unicode digits or spaces).
 */
module Text {
  import opened Wrappers

  predicate StartsWith(s: string, p: string) {
    |p| <= |s| && s[..|p|] == p
  }

  predicate EndsWith(s: string, p: string) {
    |p| <= |s| && s[|s| - |p|..] == p
  }

  /** `str.lstrip(c)`: drop every leading `c`. */
  function LStrip(s: string, c: char): (r: string)
    ensures |r| <= |s| && r == s[|s| - |r|..]
    ensures r == [] || r[0] != c
    ensures forall i :: 0 <= i < |s| - |r| ==> s[i] == c
  {
    if |s| > 0 && s[0] == c then LStrip(s[1..], c) else s
  }

  /** `str.rstrip(c)`: drop every trailing `c`. */
  function RStrip(s: string, c: char): (r: string)
    ensures |r| <= |s| && r == s[..|r|]
    ensures r == [] || r[|r| - 1] != c
    ensures forall i :: |r| <= i < |s| ==> s[i] == c
  {
    if |s| > 0 && s[|s| - 1] == c then RStrip(s[..|s| - 1], c) else s
  }

  /** The ASCII whitespace `str.split()` separates on. */
  predicate IsSpace(c: char) {
    c == ' ' || c == '\t' || c == '\n' || c == '\r' || c as int == 11 || c as int == 12
  }

  predicate IsDigit(c: char) { '0' <= c <= '9' }

  /** `str.split(sep)`: every field, empty ones included. */
  function SplitOn(s: string, sep: char): (r: seq<string>)
    ensures |r| >= 1
    ensures forall i :: 0 <= i < |r| ==> sep !in r[i]
  {
    if s == [] then [""]
    else
      var rest := SplitOn(s[1..], sep);
      if s[0] == sep then [""] + rest
      else [[s[0]] + rest[0]] + rest[1..]
  }

  /** `sep.join(parts)` for a one-character separator. */
  function JoinOn(parts: seq<string>, sep: char): string
  {
    if parts == [] then ""
    else if |parts| == 1 then parts[0]
    else parts[0] + [sep] + JoinOn(parts[1..], sep)
  }

  /** Splitting and re-joining on the same character gives the string back. */
  lemma {:induction false} JoinSplitOn(s: string, sep: char)
    ensures JoinOn(SplitOn(s, sep), sep) == s
  {
    if s != [] {
      var rest := SplitOn(s[1..], sep);
      JoinSplitOn(s[1..], sep);
      if s[0] == sep {
        assert SplitOn(s, sep) == [""] + rest;
        assert JoinOn([""] + rest, sep) == [sep] + JoinOn(rest, sep);
      } else {
        var r := [[s[0]] + rest[0]] + rest[1..];
        assert SplitOn(s, sep) == r;
        if |rest| == 1 {
          assert JoinOn(r, sep) == [s[0]] + rest[0];
        } else {
          assert JoinOn(rest, sep) == rest[0] + [sep] + JoinOn(rest[1..], sep);
          assert r[1..] == rest[1..];
          assert JoinOn(r, sep) == [s[0]] + rest[0] + [sep] + JoinOn(rest[1..], sep);
        }
      }
    }
  }

  /** A string without the separator is one field. */
  lemma {:induction false} SplitOnNoSep(w: string, sep: char)
    requires sep !in w
    ensures SplitOn(w, sep) == [w]
  {
    if w != [] {
      SplitOnNoSep(w[1..], sep);
      assert [w[0]] + w[1..] == w;
    }
  }

  /** A separator-free prefix followed by the separator is the first field. */
  lemma {:induction false} SplitOnPrefix(a: string, b: string, sep: char)
    requires sep !in a
    ensures SplitOn(a + [sep] + b, sep) == [a] + SplitOn(b, sep)
  {
    if a == [] {
      assert a + [sep] + b == [sep] + b;
      assert ([sep] + b)[1..] == b;
    } else {
      assert (a + [sep] + b)[1..] == a[1..] + [sep] + b;
      SplitOnPrefix(a[1..], b, sep);
      assert [a[0]] + a[1..] == a;
    }
  }

  /** Joining separator-free fields and splitting again gives the fields back. */
  lemma {:induction false} SplitJoinOn(ws: seq<string>, sep: char)
    requires |ws| >= 1
    requires forall i :: 0 <= i < |ws| ==> sep !in ws[i]
    ensures SplitOn(JoinOn(ws, sep), sep) == ws
  {
    if |ws| == 1 {
      SplitOnNoSep(ws[0], sep);
    } else {
      SplitJoinOn(ws[1..], sep);
      SplitOnPrefix(ws[0], JoinOn(ws[1..], sep), sep);
      assert [ws[0]] + ws[1..] == ws;
    }
  }

  /** `filter(None, parts)` keeps parts that are all non-empty as they are. */
  lemma {:induction false} NonEmptyKeeps(parts: seq<string>)
    requires forall i :: 0 <= i < |parts| ==> parts[i] != []
    ensures NonEmpty(parts) == parts
  {
    if parts != [] {
      NonEmptyKeeps(parts[1..]);
      assert [parts[0]] + parts[1..] == parts;
    }
  }

  /** The first word of a non-empty space-free `w` followed by a space is `w`. */
  lemma {:induction false} WordPrefix(w: string, rest: string)
    requires w != [] && forall c :: c in w ==> !IsSpace(c)
    ensures Word(w + [' '] + rest) == w
  {
    var s := w + [' '] + rest;
    if |w| == 1 {
      assert s[1] == ' ';
      assert s[..1] == w;
    } else {
      assert s[1..] == w[1..] + [' '] + rest;
      assert w[1] in w;
      WordPrefix(w[1..], rest);
      assert [s[0]] + w[1..] == w;
    }
  }

  lemma {:induction false} WordWhole(w: string)
    requires w != [] && forall c :: c in w ==> !IsSpace(c)
    ensures Word(w) == w
  {
    if |w| > 1 {
      assert w[1] in w;
      assert forall c :: c in w[1..] ==> c in w;
      WordWhole(w[1..]);
      assert [w[0]] + w[1..] == w;
    }
  }

  /** Joining space-free words with single spaces and splitting on whitespace gives the words back. */
  lemma {:induction false} SplitWsJoin(ws: seq<string>)
    requires forall i :: 0 <= i < |ws| ==> ws[i] != [] && forall c :: c in ws[i] ==> !IsSpace(c)
    ensures SplitWs(JoinOn(ws, ' ')) == ws
  {
    if |ws| == 1 {
      WordWhole(ws[0]);
      assert ws[0][|ws[0]|..] == [];
    } else if |ws| > 1 {
      var rest := JoinOn(ws[1..], ' ');
      var s := ws[0] + [' '] + rest;
      assert JoinOn(ws, ' ') == s;
      assert ws[0][0] in ws[0];
      WordPrefix(ws[0], rest);
      assert s[|ws[0]|..] == [' '] + rest;
      assert ([' '] + rest)[1..] == rest;
      SplitWsJoin(ws[1..]);
      assert [ws[0]] + ws[1..] == ws;
    }
  }

  /** `str.split()` with no argument: maximal runs of non-space characters. */
  function SplitWs(s: string): (r: seq<string>)
    ensures forall i :: 0 <= i < |r| ==> r[i] != [] && forall c :: c in r[i] ==> !IsSpace(c)
    decreases |s|
  {
    if s == [] then []
    else if IsSpace(s[0]) then SplitWs(s[1..])
    else
      var w := Word(s);
      [w] + SplitWs(s[|w|..])
  }

  /** The leading run of non-space characters. */
  function Word(s: string): (w: string)
    requires s != [] && !IsSpace(s[0])
    ensures 0 < |w| <= |s| && w == s[..|w|]
    ensures forall c :: c in w ==> !IsSpace(c)
    ensures |w| == |s| || IsSpace(s[|w|])
  {
    if |s| == 1 || IsSpace(s[1]) then s[..1] else [s[0]] + Word(s[1..])
  }

  /** `filter(None, parts)`: drop the empty strings. */
  function NonEmpty(parts: seq<string>): (r: seq<string>)
    ensures forall i :: 0 <= i < |r| ==> r[i] != [] && r[i] in parts
    ensures forall p :: p in parts && p != [] ==> p in r
  {
    if parts == [] then []
    else if parts[0] == [] then NonEmpty(parts[1..])
    else [parts[0]] + NonEmpty(parts[1..])
  }

  /** `sep.join(parts)` for an arbitrary separator string. */
  function JoinWith(parts: seq<string>, sep: string): string
  {
    if parts == [] then ""
    else if |parts| == 1 then parts[0]
    else parts[0] + sep + JoinWith(parts[1..], sep)
  }

  /** The concatenation of a sequence of sequences (`iflatten_instance`, one level). */
  function Flatten<T(!new)>(xs: seq<seq<T>>): (r: seq<T>)
    ensures forall x :: x in r <==> exists i :: 0 <= i < |xs| && x in xs[i]
  {
    if xs == [] then [] else
      var rest := Flatten(xs[1..]);
      assert forall x :: (exists i :: 0 <= i < |xs| && x in xs[i]) <==>
        x in xs[0] || exists i :: 0 <= i < |xs[1..]| && x in xs[1..][i] by {
        forall x | exists i :: 0 <= i < |xs| && x in xs[i]
          ensures x in xs[0] || exists i :: 0 <= i < |xs[1..]| && x in xs[1..][i]
        {
          var i :| 0 <= i < |xs| && x in xs[i];
          if i > 0 { assert x in xs[1..][i - 1]; }
        }
      }
      xs[0] + rest
  }

  /** `stable_unique`: the first occurrence of each element, in order. */
  function StableUnique<T(==,!new)>(xs: seq<T>): (r: seq<T>)
    ensures forall x :: x in r <==> x in xs
    ensures forall i, j :: 0 <= i < j < |r| ==> r[i] != r[j]
  {
    if xs == [] then []
    else
      var r := StableUnique(xs[..|xs| - 1]);
      assert forall x :: x in xs <==> x in xs[..|xs| - 1] || x == xs[|xs| - 1] by {
        assert xs == xs[..|xs| - 1] + [xs[|xs| - 1]];
      }
      if xs[|xs| - 1] in r then r else r + [xs[|xs| - 1]]
  }

  /** `order` lists every member of `s` exactly once: one iteration order of a Python set. */
  ghost predicate Enumerates<T(!new)>(order: seq<T>, s: set<T>) {
    (forall x :: x in order <==> x in s) &&
    forall i, j :: 0 <= i < j < |order| ==> order[i] != order[j]
  }

  /** Whether `t` occurs in `s` as a substring (`t in s` on Python strings). */
  predicate HasSub(s: string, t: string) {
    StartsWith(s, t) || (s != [] && HasSub(s[1..], t))
  }

  lemma {:induction false} ShortHasNoSub(s: string, t: string)
    requires |s| < |t|
    ensures !HasSub(s, t)
  {
    if s != [] { ShortHasNoSub(s[1..], t); }
  }

  /** `s.replace("//", "/")`: one left-to-right pass over non-overlapping pairs. */
  function CollapseSlashPairs(s: string): (r: string)
    ensures |r| <= |s|
    ensures HasSub(s, "//") ==> |r| < |s|
  {
    if |s| < 2 then ShortHasNoSub(s, "//"); s
    else if s[..2] == "//" then "/" + CollapseSlashPairs(s[2..])
    else
      [s[0]] + CollapseSlashPairs(s[1..])
  }

  /** `os.path.join(a, b)` for two components. */
  function PathJoin(a: string, b: string): (r: string)
    ensures StartsWith(b, "/") ==> r == b
    ensures EndsWith(r, b)
  {
    if StartsWith(b, "/") then b
    else if a == "" || EndsWith(a, "/") then a + b
    else a + "/" + b
  }

  /** Index just past the last `/` of `p` (0 when there is none). */
  function AfterLastSlash(p: string): (i: nat)
    ensures i <= |p|
    ensures i > 0 ==> p[i - 1] == '/'
    ensures forall j :: i <= j < |p| ==> p[j] != '/'
  {
    if p == [] then 0
    else if p[|p| - 1] == '/' then |p|
    else AfterLastSlash(p[..|p| - 1])
  }

  /** `os.path.basename`. */
  function Basename(p: string): (r: string)
    ensures '/' !in r
    ensures EndsWith(p, r)
  {
    p[AfterLastSlash(p)..]
  }

  /** Past a slash (or at the start), a slash-free tail is the whole base name. */
  lemma {:induction false} AfterLastSlashTail(s: string, t: string)
    requires s == [] || s[|s| - 1] == '/'
    requires '/' !in t
    ensures AfterLastSlash(s + t) == |s|
    decreases |t|
  {
    if t == [] {
      assert s + t == s;
    } else {
      assert (s + t)[..|s + t| - 1] == s + t[..|t| - 1];
      assert t[|t| - 1] in t;
      AfterLastSlashTail(s, t[..|t| - 1]);
    }
  }

  /** Joining a slash-free relative name onto a directory keeps that name as the base name. */
  lemma BasenameJoin(dir: string, name: string)
    requires name != [] && '/' !in name
    ensures Basename(PathJoin(dir, name)) == name
  {
    assert name[0] in name;
    if dir == [] || EndsWith(dir, "/") {
      AfterLastSlashTail(dir, name);
      assert (dir + name)[|dir|..] == name;
    } else {
      AfterLastSlashTail(dir + "/", name);
      assert (dir + "/" + name)[|dir + "/"|..] == name;
    }
  }

  /** `os.path.dirname`: the head before the last slash, trailing slashes dropped unless it is all slashes. */
  function Dirname(p: string): (r: string)
    ensures |r| <= |p| && r == p[..|r|]
  {
    var head := p[..AfterLastSlash(p)];
    if head != [] && exists j :: 0 <= j < |head| && head[j] != '/' then RStrip(head, '/') else head
  }

  function DigitValue(c: char): nat
    requires IsDigit(c)
  {
    (c as int - '0' as int) as nat
  }

  /** The value of a string of decimal digits. */
  function DigitsValue(ds: string): nat
    requires forall c :: c in ds ==> IsDigit(c)
  {
    if ds == [] then 0 else DigitsValue(ds[..|ds| - 1]) * 10 + DigitValue(ds[|ds| - 1])
  }

  function StripSpaces(s: string): (r: string)
    ensures |r| <= |s|
  {
    var l := LStripSpaces(s);
    RStripSpaces(l)
  }

  function LStripSpaces(s: string): (r: string)
    ensures |r| <= |s|
  {
    if |s| > 0 && IsSpace(s[0]) then LStripSpaces(s[1..]) else s
  }

  function RStripSpaces(s: string): (r: string)
    ensures |r| <= |s|
  {
    if |s| > 0 && IsSpace(s[|s| - 1]) then RStripSpaces(s[..|s| - 1]) else s
  }

  /** Python `int(s)` on ASCII text: optional surrounding spaces, an optional sign, then one or more digits. */
  function ParseInt(s: string): (r: Option<int>)
    ensures StripSpaces(s) == [] ==> r.None?
    ensures r.Some? && r.value < 0 ==> StripSpaces(s)[0] == '-'
  {
    var t := StripSpaces(s);
    if t == [] then None
    else
      var neg := t[0] == '-';
      var ds := if t[0] == '-' || t[0] == '+' then t[1..] else t;
      if ds != [] && forall c :: c in ds ==> IsDigit(c) then
        var v: int := DigitsValue(ds);
        Some(if neg then -v else v)
      else None
  }

  /** The decimal digits of a natural number, without leading zeros. */
  function NatDigits(n: nat): (r: string)
    ensures r != [] && forall c :: c in r ==> IsDigit(c)
    ensures DigitsValue(r) == n
    ensures |r| == 1 <==> n < 10
    ensures n < 10 ==> |r| == 1
    ensures 10 <= n < 100 ==> |r| == 2
    ensures 100 <= n < 1000 ==> |r| == 3
    ensures 1000 <= n < 10000 ==> |r| == 4
    ensures |r| > 4 <==> n >= 10000
  {
    var d := ['0' + ((n % 10) as char)];
    if n < 10 then d
    else
      var r := NatDigits(n / 10) + d;
      assert r[..|r| - 1] == NatDigits(n / 10);
      r
  }

  function Zeros(k: nat): (r: string)
    ensures |r| == k && forall c :: c in r ==> c == '0'
  {
    if k == 0 then "" else "0" + Zeros(k - 1)
  }

  /** Leading zeros do not change the value of a digit string. */
  lemma {:induction false} ZerosValue(k: nat, ds: string)
    requires forall c :: c in ds ==> IsDigit(c)
    ensures forall c :: c in Zeros(k) + ds ==> IsDigit(c)
    ensures DigitsValue(Zeros(k) + ds) == DigitsValue(ds)
  {
    if ds == [] {
      assert Zeros(k) + ds == Zeros(k);
      ZerosValueAlone(k);
    } else {
      var z := Zeros(k) + ds;
      assert z[..|z| - 1] == Zeros(k) + ds[..|ds| - 1];
      ZerosValue(k, ds[..|ds| - 1]);
    }
  }

  lemma {:induction false} ZerosValueAlone(k: nat)
    ensures DigitsValue(Zeros(k)) == 0
  {
    if k > 0 {
      assert Zeros(k)[..k - 1] == Zeros(k - 1) by {
        ZerosSnoc(k - 1);
      }
      ZerosValueAlone(k - 1);
    }
  }

  lemma {:induction false} ZerosSnoc(k: nat)
    ensures Zeros(k + 1) == Zeros(k) + "0"
  {
    if k > 0 { ZerosSnoc(k - 1); }
  }

  function ZeroPad(s: string, width: nat): (r: string)
    ensures |r| == if |s| >= width then |s| else width
    ensures forall c :: c in r ==> c == '0' || c in s
  {
    if |s| >= width then s else Zeros(width - |s|) + s
  }

  /** Python `"%04i" % n`: zero padded to four characters, the sign counted in the width. */
  function Format04(n: int): (r: string)
    ensures -999 <= n <= 9999 ==> |r| == 4
    ensures forall c :: c in r ==> IsDigit(c) || c == '-'
  {
    if n >= 0 then ZeroPad(NatDigits(n), 4) else "-" + ZeroPad(NatDigits(-n), 3)
  }

  /** Text that neither starts nor ends with a space is left alone by `strip()`. */
  lemma StripUnspaced(q: string)
    requires q != [] && !IsSpace(q[0]) && !IsSpace(q[|q| - 1])
    ensures StripSpaces(q) == q
  {
    assert LStripSpaces(q) == q;
  }

  /** A plain run of digits is read by `int()` as its value. */
  lemma ParseDigits(p: string)
    requires p != [] && forall c :: c in p ==> IsDigit(c)
    ensures ParseInt(p) == Some(DigitsValue(p))
  {
    assert p[0] in p && p[|p| - 1] in p;
    StripUnspaced(p);
  }

  /** A minus sign before a run of digits negates its value. */
  lemma ParseNegDigits(p: string)
    requires p != [] && forall c :: c in p ==> IsDigit(c)
    ensures ParseInt("-" + p) == Some(-(DigitsValue(p) as int))
  {
    var q := "-" + p;
    assert p[|p| - 1] in p;
    assert q[1..] == p && q[0] == '-' && q[|q| - 1] == p[|p| - 1];
    StripUnspaced(q);
  }

  /** Padding digits with zeros keeps them digits and keeps their value. */
  lemma PadDigits(ds: string, w: nat)
    requires ds != [] && forall c :: c in ds ==> IsDigit(c)
    ensures var p := ZeroPad(ds, w);
      p != [] && (forall c :: c in p ==> IsDigit(c)) && DigitsValue(p) == DigitsValue(ds)
  {
    if |ds| < w { ZerosValue(w - |ds|, ds); }
  }

  /** `int()` reads back exactly what `"%04i"` wrote. */
  lemma ParseFormat04(n: int)
    ensures ParseInt(Format04(n)) == Some(n)
  {
    if n >= 0 {
      PadDigits(NatDigits(n), 4);
      ParseDigits(ZeroPad(NatDigits(n), 4));
    } else {
      PadDigits(NatDigits(-n), 3);
      ParseNegDigits(ZeroPad(NatDigits(-n), 3));
    }
  }

  /** `a < b` on Python strings: lexicographic by code point. */
  predicate LexLess(a: string, b: string)
    decreases |a|
  {
    if a == [] then b != []
    else if b == [] then false
    else if a[0] != b[0] then a[0] < b[0]
    else LexLess(a[1..], b[1..])
  }

  predicate LexLe(a: string, b: string) { a == b || LexLess(a, b) }

  lemma {:induction false} LexTotal(a: string, b: string)
    ensures LexLe(a, b) || LexLe(b, a)
    decreases |a|
  {
    if a != [] && b != [] && a[0] == b[0] {
      LexTotal(a[1..], b[1..]);
      if a[1..] == b[1..] { assert a == [a[0]] + a[1..] && b == [b[0]] + b[1..]; }
    }
  }

  lemma {:induction false} LexTrans(a: string, b: string, c: string)
    requires LexLe(a, b) && LexLe(b, c)
    ensures LexLe(a, c)
    decreases |a|
  {
    if a != b && b != c && a != [] && b != [] && c != [] && a[0] == b[0] && b[0] == c[0] {
      LexTrans(a[1..], b[1..], c[1..]);
      if a[1..] == c[1..] { assert a == [a[0]] + a[1..] && c == [c[0]] + c[1..]; }
    }
  }

  predicate SortedStrings(s: seq<string>) {
    forall i, j :: 0 <= i < j < |s| ==> LexLe(s[i], s[j])
  }

  /** Python `sorted()` on strings. */
  function Sort(s: seq<string>): (r: seq<string>)
    ensures SortedStrings(r)
    ensures multiset(r) == multiset(s)
  {
    if s == [] then []
    else
      assert s == [s[0]] + s[1..];
      Insert(s[0], Sort(s[1..]))
  }

  function Insert(x: string, s: seq<string>): (r: seq<string>)
    requires SortedStrings(s)
    ensures SortedStrings(r)
    ensures multiset(r) == multiset(s) + multiset{x}
  {
    if s == [] then [x]
    else if LexLe(x, s[0]) then
      assert forall j :: 0 <= j < |s| ==> LexLe(x, s[j]) by {
        forall j | 0 <= j < |s| ensures LexLe(x, s[j]) {
          if j > 0 { LexTrans(x, s[0], s[j]); }
        }
      }
      [x] + s
    else
      LexTotal(x, s[0]);
      var t := Insert(x, s[1..]);
      assert s == [s[0]] + s[1..];
      assert forall j :: 0 <= j < |t| ==> LexLe(s[0], t[j]) by {
        forall j | 0 <= j < |t| ensures LexLe(s[0], t[j]) {
          assert t[j] in multiset(t);
          assert t[j] == x || t[j] in multiset(s[1..]);
          if t[j] != x {
            var k :| 0 <= k < |s[1..]| && s[1..][k] == t[j];
            assert s[k + 1] == t[j];
          }
        }
      }
      [s[0]] + t
  }
}
