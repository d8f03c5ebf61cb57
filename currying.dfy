/**
 * Partial application (portage/util/currying.py). `pre_curry` and
 * `post_curry` return a wrapper that, when called, calls the original
 * function with the stored positional arguments before or after the ones
 * given at call time and with the two keyword dicts merged; `pretty_docs`
 * copies the original's module and docstring onto the wrapper. What the
 * original function then does is not part of this model: a call is
 * represented by the arguments it receives.
 */
module Currying {
  import opened Wrappers

  /** The positional and keyword arguments a function receives. */
  datatype Call<A> = Call(args: seq<A>, kwargs: map<string, A>)

  /** The attributes of a function that `pretty_docs` reads. */
  datatype Func = Func(moduleName: string, doc: Option<string>)

  /** `kw = base.copy(); kw.update(extra)`: every key of either, the value of `extra` winning. */
  function Updated<A>(base: map<string, A>, extra: map<string, A>): (kw: map<string, A>)
    ensures kw.Keys == base.Keys + extra.Keys
    ensures forall k :: k in extra ==> kw[k] == extra[k]
    ensures forall k :: k in base && k !in extra ==> kw[k] == base[k]
  {
    base + extra
  }

  /** What `pre_curry(func, *args, **kwargs)(*moreargs, **morekwargs)` passes to `func`. */
  function PreCall<A>(args: seq<A>, kwargs: map<string, A>, moreargs: seq<A>, morekwargs: map<string, A>): (c: Call<A>)
  {
    Call(args + moreargs, Updated(kwargs, morekwargs))
  }

  /** What `post_curry(func, *args, **kwargs)(*moreargs, **morekwargs)` passes to `func`. */
  function PostCall<A>(args: seq<A>, kwargs: map<string, A>, moreargs: seq<A>, morekwargs: map<string, A>): (c: Call<A>)
  {
    Call(moreargs + args, Updated(morekwargs, kwargs))
  }

  /**
   * `pre_curry`: the curried positional arguments come first, followed by
   * the call-time ones, and a call-time keyword overrides a curried one.
   */
  lemma PreCurryOrder<A>(args: seq<A>, kwargs: map<string, A>, moreargs: seq<A>, morekwargs: map<string, A>)
    ensures var c := PreCall(args, kwargs, moreargs, morekwargs);
      |c.args| == |args| + |moreargs| && c.args[..|args|] == args && c.args[|args|..] == moreargs &&
      c.kwargs.Keys == kwargs.Keys + morekwargs.Keys &&
      forall k :: k in c.kwargs ==> c.kwargs[k] == if k in morekwargs then morekwargs[k] else kwargs[k]
  {
  }

  /**
   * `post_curry`: the call-time positional arguments come first, followed
   * by the curried ones, and a curried keyword overrides a call-time one.
   */
  lemma PostCurryOrder<A>(args: seq<A>, kwargs: map<string, A>, moreargs: seq<A>, morekwargs: map<string, A>)
    ensures var c := PostCall(args, kwargs, moreargs, morekwargs);
      |c.args| == |args| + |moreargs| && c.args[..|moreargs|] == moreargs && c.args[|moreargs|..] == args &&
      c.kwargs.Keys == kwargs.Keys + morekwargs.Keys &&
      forall k :: k in c.kwargs ==> c.kwargs[k] == if k in kwargs then kwargs[k] else morekwargs[k]
  {
  }

  /** `post_curry` is `pre_curry` with the curried and the call-time arguments exchanged. */
  lemma PostIsSwappedPre<A>(args: seq<A>, kwargs: map<string, A>, moreargs: seq<A>, morekwargs: map<string, A>)
    ensures PostCall(args, kwargs, moreargs, morekwargs) == PreCall(moreargs, morekwargs, args, kwargs)
  {
  }

  /**
   * The two agree exactly when it does not matter which side goes first:
   * when the keyword dicts agree on their shared keys and the positional
   * lists commute.
   */
  lemma PreEqualsPostIff<A>(args: seq<A>, kwargs: map<string, A>, moreargs: seq<A>, morekwargs: map<string, A>)
    ensures PreCall(args, kwargs, moreargs, morekwargs) == PostCall(args, kwargs, moreargs, morekwargs) <==>
      args + moreargs == moreargs + args &&
      forall k :: k in kwargs && k in morekwargs ==> kwargs[k] == morekwargs[k]
  {
    var pre := PreCall(args, kwargs, moreargs, morekwargs);
    var post := PostCall(args, kwargs, moreargs, morekwargs);
    if pre == post {
      forall k | k in kwargs && k in morekwargs ensures kwargs[k] == morekwargs[k] {
        assert pre.kwargs[k] == morekwargs[k] && post.kwargs[k] == kwargs[k];
      }
    }
    if args + moreargs == moreargs + args && forall k :: k in kwargs && k in morekwargs ==> kwargs[k] == morekwargs[k] {
      assert pre.kwargs == post.kwargs;
    }
  }

  /**
   * Currying a curried wrapper again: the calls nest, so the outermost
   * curried positionals go after the inner ones and its keywords override
   * them, with the call-time arguments last.
   */
  lemma PreCurryNests<A>(args1: seq<A>, kw1: map<string, A>, args2: seq<A>, kw2: map<string, A>,
                         moreargs: seq<A>, morekwargs: map<string, A>)
    ensures var outer := PreCall(args2, kw2, moreargs, morekwargs);
      PreCall(args1, kw1, outer.args, outer.kwargs) == PreCall(args1 + args2, Updated(kw1, kw2), moreargs, morekwargs)
  {
    assert args1 + (args2 + moreargs) == (args1 + args2) + moreargs;
    var lhs := Updated(kw1, Updated(kw2, morekwargs));
    var rhs := Updated(Updated(kw1, kw2), morekwargs);
    assert lhs == rhs;
  }

  /** The function object `pre_curry` / `post_curry` return. */
  class Wrapper<A> {
    const original: Func
    const args: seq<A>
    const kwargs: map<string, A>
    const post: bool
    var moduleName: string
    var doc: Option<string>

    /** `pre_curry(func, *args, **kwargs)` (or `post_curry` when `post`): `callit` with `__original__` set. */
    constructor(func: Func, post: bool, args: seq<A>, kwargs: map<string, A>)
      ensures this.original == func && this.post == post && this.args == args && this.kwargs == kwargs
      ensures moduleName == "portage.util.currying" && doc == None
    {
      this.original := func;
      this.post := post;
      this.args := args;
      this.kwargs := kwargs;
      moduleName := "portage.util.currying";
      doc := None;
    }

    /**
     * Calling the wrapper. It works on a copy of the keyword dicts, so what
     * the wrapper stores stays as it was for the next call.
     */
    function Invoke(moreargs: seq<A>, morekwargs: map<string, A>): (c: Call<A>)
      ensures |c.args| == |args| + |moreargs| && c.kwargs.Keys == kwargs.Keys + morekwargs.Keys
      ensures c == if post then PreCall(moreargs, morekwargs, args, kwargs) else PreCall(args, kwargs, moreargs, morekwargs)
    {
      if post then PostCall(args, kwargs, moreargs, morekwargs) else PreCall(args, kwargs, moreargs, morekwargs)
    }

    /**
     * `pretty_docs(wrapped, extradocs)`: the wrapper takes the original's
     * module, and `extradocs` as its doc when given, else the original's doc.
     */
    method PrettyDocs(extradocs: Option<string>)
      modifies this
      ensures moduleName == original.moduleName
      ensures doc == if extradocs.None? then original.doc else extradocs
    {
      moduleName := original.moduleName;
      var d := original.doc;
      if extradocs.None? {
        doc := d;
      } else {
        doc := extradocs;
      }
    }
  }
}
