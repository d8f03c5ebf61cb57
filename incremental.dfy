/**
 * Portage-style incremental tokens (pkgcore/ebuild/misc.py,
 * `native_incremental_expansion`): `x` adds x, `-x` removes x, `-*` empties
 * the set, and a bare `-` is an error. The Python function mutates the
 * caller's set in place and may raise half way; the model returns the set as
 * it stands when the loop finishes or raises, together with the error.
 */
module Incremental {
  import opened Wrappers
  import opened Text

  datatype ExpandError =
    | EmptyToken          // `token[0]` on "" raises IndexError
    | IncompleteNegation  // the ValueError "encountered an incomplete negation, '-'"

  /** A token that is an ordinary flag: non-empty and not a negation. */
  predicate Plain(t: string) { t != [] && t[0] != '-' }

  /** The effect of one token on the set. */
  function Step(s: set<string>, token: string, finalize: bool): Result<set<string>, ExpandError>
  {
    if token == [] then Err(EmptyToken)
    else if token[0] == '-' then
      var i := token[1..];
      if i == [] then Err(IncompleteNegation)
      else
        var cleared := if i == "*" then {} else s - {i};
        Ok(if finalize then cleared else cleared + {token})
    else Ok(s - {"-" + token} + {token})
  }

  /** The set when expansion stops, and the error that stopped it, if any. */
  datatype Expansion = Expansion(tokens: set<string>, error: Option<ExpandError>)

  /** Tokens applied left to right, stopping at the first malformed one. */
  function Expand(s: set<string>, tokens: seq<string>, finalize: bool): Expansion
    decreases tokens
  {
    if tokens == [] then Expansion(s, None)
    else match Step(s, tokens[0], finalize)
      case Err(e) => Expansion(s, Some(e))
      case Ok(s') => Expand(s', tokens[1..], finalize)
  }

  /** The loop of `native_incremental_expansion`, proved to compute `Expand`. */
  method NativeIncrementalExpansion(orig: set<string>, tokens: seq<string>, finalize: bool)
    returns (s: set<string>, error: Option<ExpandError>)
    ensures Expansion(s, error) == Expand(orig, tokens, finalize)
  {
    s, error := orig, None;
    var k := 0;
    while k < |tokens|
      invariant 0 <= k <= |tokens|
      invariant Expand(s, tokens[k..], finalize) == Expand(orig, tokens, finalize)
    {
      var token := tokens[k];
      if token == [] {
        error := Some(EmptyToken);
        return;
      }
      if token[0] == '-' {
        var i := token[1..];
        if i == [] {
          error := Some(IncompleteNegation);
          return;
        }
        if i == "*" {
          s := {};
        } else {
          s := s - {i};
        }
        if !finalize {
          s := s + {token};
        }
      } else {
        s := s - {"-" + token};
        s := s + {token};
      }
      assert tokens[k..][1..] == tokens[k + 1..];
      k := k + 1;
    }
  }

  /** A bare `-` raises, and the set keeps what the earlier tokens made of it. */
  lemma IncompleteNegationFails(s: set<string>, before: seq<string>, after: seq<string>, finalize: bool)
    requires Expand(s, before, finalize).error == None
    ensures Expand(s, before + ["-"] + after, finalize)
      == Expansion(Expand(s, before, finalize).tokens, Some(IncompleteNegation))
  {
    ExpandAppend(s, before, ["-"] + after, finalize);
    assert before + ["-"] + after == before + (["-"] + after);
  }

  /** `-*` empties the set whatever it held; without finalizing, the token itself is kept. */
  lemma StarClears(s: set<string>, finalize: bool)
    ensures Step(s, "-*", finalize).Ok?
    ensures Step(s, "-*", finalize).value == if finalize then {} else {"-*"}
  {
    assert "-*"[0] == '-' && "-*"[1..] == "*";
  }

  /** `-x` removes x and nothing else; without finalizing it then adds the token `-x`. */
  lemma NegationRemovesOnly(s: set<string>, x: string, finalize: bool)
    requires x != [] && x != "*"
    ensures Step(s, "-" + x, finalize) == Ok(if finalize then s - {x} else s - {x} + {"-" + x})
  {
    assert ("-" + x)[1..] == x;
  }

  /** A plain token leaves itself in the set and its negation out of it. */
  lemma PlainAdds(s: set<string>, x: string, finalize: bool)
    requires Plain(x)
    ensures Step(s, x, finalize).Ok?
    ensures x in Step(s, x, finalize).value && "-" + x !in Step(s, x, finalize).value
    ensures Step(s, x, finalize).value - {x} == s - {x, "-" + x}
  {
  }

  /** Running two token lists one after the other is running their concatenation. */
  lemma {:induction false} ExpandAppend(s: set<string>, a: seq<string>, b: seq<string>, finalize: bool)
    ensures Expand(s, a + b, finalize) ==
      if Expand(s, a, finalize).error == None then Expand(Expand(s, a, finalize).tokens, b, finalize)
      else Expand(s, a, finalize)
    decreases a
  {
    if a != [] {
      assert (a + b)[0] == a[0] && (a + b)[1..] == a[1..] + b;
      match Step(s, a[0], finalize)
      case Err(_) =>
      case Ok(s') => ExpandAppend(s', a[1..], b, finalize);
    } else {
      assert a + b == b;
    }
  }

  /** With `finalize`, expansion never adds a `-`-prefixed member that was not there before. */
  lemma {:induction false} FinalizeAddsNoNegation(s: set<string>, tokens: seq<string>)
    ensures forall t :: t in Expand(s, tokens, true).tokens && t != [] && t[0] == '-' ==> t in s
    decreases tokens
  {
    if tokens != [] {
      match Step(s, tokens[0], true)
      case Err(_) =>
      case Ok(s') =>
        FinalizeAddsNoNegation(s', tokens[1..]);
    }
  }

  /** How one token decides the membership of a plain flag x, if it does. */
  function Decides(token: string, x: string): Option<bool>
  {
    if token == x then Some(true)
    else if token == "-" + x || token == "-*" then Some(false)
    else None
  }

  /** The verdict of the last token that decides x. */
  function LastDecision(tokens: seq<string>, x: string): Option<bool>
  {
    if tokens == [] then None
    else match LastDecision(tokens[1..], x)
      case Some(b) => Some(b)
      case None => Decides(tokens[0], x)
  }

  lemma StepDecides(s: set<string>, token: string, x: string, finalize: bool)
    requires Plain(x) && Step(s, token, finalize).Ok?
    ensures x in Step(s, token, finalize).value <==>
      match Decides(token, x) case Some(b) => b case None => x in s
  {
    if token[0] == '-' && token[1..] == x {
      assert token == "-" + x;
    }
    if token == "-" + x {
      assert token[1..] == x;
    }
  }

  /**
   * Tokens apply left to right: a plain flag ends up in the set exactly when
   * the last of `x`, `-x`, `-*` in the sequence is `x`, or, when none occurs,
   * when it was there to begin with.
   */
  lemma {:induction false} LastTokenWins(s: set<string>, tokens: seq<string>, x: string, finalize: bool)
    requires Plain(x)
    requires Expand(s, tokens, finalize).error == None
    ensures x in Expand(s, tokens, finalize).tokens <==>
      match LastDecision(tokens, x) case Some(b) => b case None => x in s
    decreases tokens
  {
    if tokens != [] {
      var st := Step(s, tokens[0], finalize);
      assert st.Ok?;
      StepDecides(s, tokens[0], x, finalize);
      LastTokenWins(st.value, tokens[1..], x, finalize);
    }
  }

  /** Plain tokens applied to a set holding no negations just add themselves. */
  lemma {:induction false} ExpandPlain(s: set<string>, tokens: seq<string>, finalize: bool)
    requires forall y :: y in s ==> Plain(y)
    requires forall k :: 0 <= k < |tokens| ==> Plain(tokens[k])
    ensures Expand(s, tokens, finalize) == Expansion(s + (set t | t in tokens), None)
    decreases tokens
  {
    if tokens != [] {
      var t := tokens[0];
      assert ("-" + t)[0] == '-';
      assert Plain(t) && "-" + t !in s;
      assert s - {"-" + t} == s;
      assert Step(s, t, finalize) == Ok(s + {t});
      ExpandPlain(s + {t}, tokens[1..], finalize);
      assert (set u | u in tokens) == {t} + (set u | u in tokens[1..]) by {
        assert tokens == [t] + tokens[1..];
      }
    }
  }
}
