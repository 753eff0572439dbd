/** The checked functional contract that every Checked* interface repeats
    for its own shape, written once over the argument type `A` (a tuple for
    several arguments, `()` for none) and the result type `R` (`()` for the
    consumers). An instance is a try operation plus the catcher that its
    `catcher()` reports. Swapping the catcher builds the interface's local
    `Impl`, which forwards the try operation to its origin. */
module Checked {
  import opened JavaLang
  import Catcher
  import Rethrow

  /** `Base` is any implementation other than the local `Impl` (a lambda, for
      one): its try operation and what its `catcher()` returns. `Wrapped` is an
      `Impl`: its origin and the catcher it was built with. */
  datatype Fn<!A, R> =
    | Base(op: A -> Outcome<R>, catcher: Catcher.Catcher)
    | Wrapped(origin: Fn<A, R>, catcher: Catcher.Catcher)

  /** The invariant every reachable instance keeps: an `Impl`'s origin is
      never an `Impl`. */
  predicate Valid<A, R>(f: Fn<A, R>)
  {
    f.Wrapped? ==> f.origin.Base?
  }

  /** The implementation at the bottom of any chain of origins. */
  function Root<A, R>(f: Fn<A, R>): (b: Fn<A, R>)
    ensures b.Base?
    ensures Valid(f) ==> b == (if f.Base? then f else f.origin)
  {
    match f
    case Base(_, _) => f
    case Wrapped(o, _) => Root(o)
  }

  /** A lambda of the interface: it keeps the default `catcher()`, the method
      reference `Catcher::rethrow`. */
  function Lambda<A, R>(op: A -> Outcome<R>): (f: Fn<A, R>)
    ensures Valid(f) && f.Base? && f.catcher == Catcher.RETHROW
    ensures f.op == op
  {
    Base(op, Catcher.RETHROW)
  }

  /** The try form (`applyOrThrow`, `acceptOrThrow`, ...): an `Impl` forwards
      it to its origin. */
  function TryApply<A, R>(f: Fn<A, R>, a: A): (r: Outcome<R>)
    ensures r == Root(f).op(a)
  {
    match f
    case Base(op, _) => op(a)
    case Wrapped(o, _) => TryApply(o, a)
  }

  /** What the safe form promises, with `dflt` the shape's default result:
      a normal result of the try form is returned as it is; a throwable it
      raises goes to `catcher().handleOrRethrowError`, and the default is
      returned when that returns normally, while whatever it raises goes out. */
  ghost predicate SafeContract<A, R>(f: Fn<A, R>, a: A, dflt: R, r: Outcome<R>)
  {
    match TryApply(f, a)
    case Normal(v) => r == Normal(v)
    case Raised(t) =>
      && (Catcher.HandleOrRethrowError(f.catcher, t).Normal? ==> r == Normal(dflt))
      && (Catcher.HandleOrRethrowError(f.catcher, t).Raised? ==>
            r == Raised(Catcher.HandleOrRethrowError(f.catcher, t).thrown))
  }

  /** The safe form (`apply`, `applyAsInt`, `test`, `accept`, ...): a try
      statement catching every Throwable. */
  function Safe<A, R>(f: Fn<A, R>, a: A, dflt: R): (r: Outcome<R>)
    ensures SafeContract(f, a, dflt, r)
  {
    match TryApply(f, a)
    case Normal(v) => Normal(v)
    case Raised(t) =>
      match Catcher.HandleOrRethrowError(f.catcher, t)
      case Normal(_) => Normal(dflt)
      case Raised(x) => Raised(x)
  }

  /** `catcher(c)` once the null check has passed: the same instance when `c`
      is the catcher it already reports; otherwise an `Impl` re-swaps its
      origin, and anything else becomes the origin of a new `Impl`. */
  function Swap<A, R>(f: Fn<A, R>, c: Catcher.Catcher): (r: Fn<A, R>)
    ensures r.catcher == c
    ensures Valid(f) ==> Valid(r)
  {
    if c == f.catcher then f
    else match f
      case Base(_, _) => Wrapped(f, c)
      case Wrapped(o, _) => Swap(o, c)
  }

  /** What `catcher(c)` promises of a valid instance `f`, stated without the
      recursion: null is rejected; the catcher `f` already reports gives `f`
      back; the catcher of `f`'s root gives the root back; any other catcher
      gives a fresh `Impl` over the root. */
  ghost predicate SwapContract<A, R>(f: Fn<A, R>, catcher: Nullable<Catcher.Catcher>, r: Outcome<Fn<A, R>>)
  {
    match catcher
    case Null => r == Raised(NullPointer("catcher"))
    case NonNull(c) =>
      && (c == f.catcher ==> r == Normal(f))
      && (c != f.catcher && c == Root(f).catcher ==> r == Normal(Root(f)))
      && (c != f.catcher && c != Root(f).catcher ==> r == Normal(Wrapped(Root(f), c)))
  }

  /** `catcher(c)`: the null check, then the swap. */
  function WithCatcher<A, R>(f: Fn<A, R>, catcher: Nullable<Catcher.Catcher>): (r: Outcome<Fn<A, R>>)
    requires Valid(f)
    ensures SwapContract(f, catcher, r)
  {
    match catcher
    case Null => Raised(NullPointer("catcher"))
    case NonNull(c) =>
      SwapMeetsContract(f, c);
      Normal(Swap(f, c))
  }

  /** The private constructor: instantiating the class always fails. */
  function Instantiate(): (r: Outcome<()>)
    ensures r.Raised? && r.thrown.UnsupportedOperation?
  {
    Raised(UnsupportedOperation)
  }

  /** `implToString(impl, origin, catcher)`, with the three parts already
      rendered (the class name and the two `toString()` results): the class
      name, then `{origin=` and the origin, then `, catcher=` and the catcher,
      then a closing brace. */
  function ImplToString(impl: string, origin: string, catcher: string): (s: string)
    ensures |s| == |impl| + |origin| + |catcher| + 19
    ensures s[..|impl| + 8] == impl + "{origin="
    ensures s[|impl| + 8..|impl| + 8 + |origin|] == origin
    ensures s[|impl| + 8 + |origin|..|impl| + 18 + |origin|] == ", catcher="
    ensures s[|impl| + 18 + |origin|..|s| - 1] == catcher
    ensures s[|s| - 1] == '}'
  {
    impl + "{origin=" + origin + ", catcher=" + catcher + "}"
  }

  /** `toString()` of an instance: an `Impl` renders itself with
      `implToString`, where `impl` is the name of the interface's `Impl`
      class; any other implementation's own text is `baseText`. */
  function Render<A, R>(f: Fn<A, R>, impl: string, baseText: string, catcherText: Catcher.Catcher -> string): (s: string)
    ensures Valid(f) ==> s == (if f.Base? then baseText else ImplToString(impl, baseText, catcherText(f.catcher)))
  {
    match f
    case Base(_, _) => baseText
    case Wrapped(o, c) => ImplToString(impl, Render(o, impl, baseText, catcherText), catcherText(c))
  }

  // ---------------------------------------------------------------------
  // Properties of the swap

  /** `catcher(c).catcher()` is `c`. */
  lemma SwapReportsCatcher<A, R>(f: Fn<A, R>, c: Catcher.Catcher)
    ensures Swap(f, c).catcher == c
  {
  }

  /** `x.catcher(x.catcher())` is `x` itself. */
  lemma SwapToOwnCatcher<A, R>(f: Fn<A, R>)
    ensures Swap(f, f.catcher) == f
  {
  }

  /** `x.catcher(c).catcher(c)` is `x.catcher(c)`. */
  lemma SwapIdempotent<A, R>(f: Fn<A, R>, c: Catcher.Catcher)
    ensures Swap(Swap(f, c), c) == Swap(f, c)
  {
    SwapReportsCatcher(f, c);
  }

  /** A different catcher never gives the same instance back. */
  lemma SwapToOtherCatcherIsNew<A, R>(f: Fn<A, R>, c: Catcher.Catcher)
    requires c != f.catcher
    ensures Swap(f, c) != f
  {
  }

  /** Swapping never changes what the try form does, however deep the chain
      of origins is. */
  lemma {:induction false} SwapKeepsTryForm<A, R>(f: Fn<A, R>, c: Catcher.Catcher, a: A)
    ensures TryApply(Swap(f, c), a) == TryApply(f, a)
  {
    if c != f.catcher && f.Wrapped? {
      SwapKeepsTryForm(f.origin, c, a);
    }
  }

  /** The try form of any instance is its root's. */
  lemma {:induction false} TryFormIsRoots<A, R>(f: Fn<A, R>, a: A)
    ensures TryApply(f, a) == TryApply(Root(f), a)
  {
    if f.Wrapped? {
      TryFormIsRoots(f.origin, a);
    }
  }

  /** Swapping never changes the root, however deep the chain of origins is. */
  lemma {:induction false} SwapKeepsRoot<A, R>(f: Fn<A, R>, c: Catcher.Catcher)
    ensures Root(Swap(f, c)) == Root(f)
  {
    if c != f.catcher && f.Wrapped? {
      SwapKeepsRoot(f.origin, c);
    }
  }

  /** Wrappers never nest: swapping a valid instance gives a valid one, whose
      origin, if it has one, is a plain implementation. */
  lemma SwapNeverNests<A, R>(f: Fn<A, R>, c: Catcher.Catcher)
    requires Valid(f)
    ensures Valid(Swap(f, c))
    ensures Swap(f, c).Wrapped? ==> Swap(f, c).origin.Base?
  {
  }

  /** Swapping a wrapper back to its origin's catcher yields the origin
      itself. */
  lemma SwapBackToOrigin<A, R>(f: Fn<A, R>)
    requires Valid(f) && f.Wrapped? && f.catcher != f.origin.catcher
    ensures Swap(f, f.origin.catcher) == f.origin
  {
  }

  /** Every instance reachable from a lambda by any sequence of swaps is
      valid, and has that lambda as its root. */
  lemma {:induction false} SwapsFromLambda<A, R>(op: A -> Outcome<R>, cs: seq<Catcher.Catcher>)
    ensures Valid(SwapAll(Lambda(op), cs))
    ensures Root(SwapAll(Lambda(op), cs)) == Lambda(op)
  {
    if cs != [] {
      var prev := SwapAll(Lambda(op), cs[..|cs| - 1]);
      SwapsFromLambda(op, cs[..|cs| - 1]);
      SwapKeepsRoot(prev, cs[|cs| - 1]);
    }
  }

  /** The instance after swapping in the catchers `cs` one after another. */
  function SwapAll<A, R>(f: Fn<A, R>, cs: seq<Catcher.Catcher>): Fn<A, R>
  {
    if cs == [] then f else Swap(SwapAll(f, cs[..|cs| - 1]), cs[|cs| - 1])
  }

  /** The recursive `catcher(c)` meets its closed-form description. */
  lemma {:induction false} SwapMeetsContract<A, R>(f: Fn<A, R>, c: Catcher.Catcher)
    requires Valid(f)
    ensures SwapContract(f, NonNull(c), Normal(Swap(f, c)))
  {
    if c != f.catcher && f.Wrapped? {
      assert Swap(f, c) == Swap(f.origin, c);
    }
  }

  // ---------------------------------------------------------------------
  // Properties of the safe form

  /** An Error raised by the try form always comes out of the safe form
      unchanged, whatever the catcher. */
  lemma SafeLetsErrorsThrough<A, R>(f: Fn<A, R>, a: A, dflt: R)
    requires TryApply(f, a).Raised? && IsError(TryApply(f, a).thrown)
    ensures Safe(f, a, dflt) == Raised(TryApply(f, a).thrown)
  {
  }

  /** Under the ignore or the print policy, the safe form turns every raised
      non-Error into the default result. */
  lemma SafeIgnoringGivesDefault<A, R>(f: Fn<A, R>, a: A, dflt: R)
    requires f.catcher.policy.IgnorePolicy? || f.catcher.policy.PrintPolicy?
    requires TryApply(f, a).Raised? && !IsError(TryApply(f, a).thrown)
    ensures Safe(f, a, dflt) == Normal(dflt)
  {
  }

  /** With the default catcher, a lambda's safe form raises a Rethrow for
      every non-Error its try form raises, and the Rethrow carries it. */
  lemma SafeLambdaRethrows<A, R>(op: A -> Outcome<R>, a: A, dflt: R)
    requires op(a).Raised? && !IsError(op(a).thrown)
    ensures Safe(Lambda(op), a, dflt) == Raised(Rethrow.Caught(op(a).thrown))
    ensures Safe(Lambda(op), a, dflt).thrown.Rethrown?
  {
  }

  /** After `catcher(c)`, the safe form is the original try form governed by
      `c`. */
  lemma SafeAfterSwap<A, R>(f: Fn<A, R>, c: Catcher.Catcher, a: A, dflt: R)
    ensures Safe(Swap(f, c), a, dflt) == Safe(Base(op := (x: A) => TryApply(f, x), catcher := c), a, dflt)
  {
    SwapKeepsTryForm(f, c, a);
  }

  // ---------------------------------------------------------------------
  // Properties of the rendering

  /** `s` begins with the class name `impl` and a brace, followed by
      `origin=` and `text`. */
  ghost predicate NamesOrigin(s: string, impl: string, text: string)
  {
    |s| >= |impl| + 8 + |text| && s[|impl| + 1..|impl| + 8 + |text|] == "origin=" + text
  }

  /** The rendering of a valid instance after a swap that built an `Impl` is
      `implToString` over the root's own text and the new catcher: the
      origin it names is the root, never an intermediate wrapper. */
  lemma RenderNamesRoot<A, R>(f: Fn<A, R>, c: Catcher.Catcher, impl: string, baseText: string,
                              catcherText: Catcher.Catcher -> string)
    requires Valid(f) && Swap(f, c).Wrapped?
    ensures Render(Swap(f, c), impl, baseText, catcherText) == ImplToString(impl, baseText, catcherText(c))
    ensures NamesOrigin(Render(Swap(f, c), impl, baseText, catcherText), impl, baseText)
  {
    var s := Render(Swap(f, c), impl, baseText, catcherText);
    SwapNeverNests(f, c);
    assert s[|impl| + 1..|impl| + 8] == "origin=" by {
      assert s[..|impl| + 8] == impl + "{origin=";
    }
  }

  /** The library's own swap scenario: a lambda, swapped to a catcher `c1`
      that is not its own, then to `c2`. The swapped instance reports `c1`,
      swapping it to `c1` again gives it back, a different `c2` gives a new
      instance, and both renderings contain `origin=` followed by the
      lambda's text. */
  lemma SwapScenario<A, R>(op: A -> Outcome<R>, c1: Catcher.Catcher, c2: Catcher.Catcher,
                           impl: string, baseText: string, catcherText: Catcher.Catcher -> string)
    requires c1 != Catcher.RETHROW && c2 != c1 && c2 != Catcher.RETHROW
    ensures Swap(Lambda(op), c1).catcher == c1
    ensures Swap(Swap(Lambda(op), c1), c1) == Swap(Lambda(op), c1)
    ensures Swap(Swap(Lambda(op), c1), c2) != Swap(Lambda(op), c1)
    ensures NamesOrigin(Render(Swap(Lambda(op), c1), impl, baseText, catcherText), impl, baseText)
    ensures NamesOrigin(Render(Swap(Swap(Lambda(op), c1), c2), impl, baseText, catcherText), impl, baseText)
  {
    var swapped := Swap(Lambda(op), c1);
    RenderNamesRoot(Lambda(op), c1, impl, baseText, catcherText);
    RenderNamesRoot(swapped, c2, impl, baseText, catcherText);
  }
}
