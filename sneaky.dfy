/** Sneaky: raise a throwable as itself, unwrapped, whatever its declared
    type. The type-erasure cast is not expressible here and needs no model:
    only its effect, raising the very same throwable, is kept. */
module Sneaky {
  import opened JavaLang
  import Catcher
  import Rethrow

  /** The private constructor: instantiating the class always fails. */
  function Instantiate(): (r: Outcome<()>)
    ensures r.Raised? && r.thrown.UnsupportedOperation?
  {
    Raised(UnsupportedOperation)
  }

  /** What `throw t` raises: `t` itself, or a NullPointerException when `t`
      is null (its helpful message is not modelled). */
  function Thrown(t: Nullable<Throwable>): Throwable
  {
    match t
    case Null => NullPointer("")
    case NonNull(x) => x
  }

  /** `sneak(t)`: the unchecked cast followed by `throw`. */
  function Sneak(t: Nullable<Throwable>): (r: Outcome<()>)
    ensures r.Raised? && (t.NonNull? ==> r.thrown == t.get)
  {
    Raised(Thrown(t))
  }

  /** `smuggle(t)`: never returns normally, and raises the given throwable
      itself, unwrapped, so the AssertionError after `sneak` is never
      reached. */
  function Smuggle(t: Nullable<Throwable>): (r: Outcome<Throwable>)
    ensures r.Raised?
    ensures t.NonNull? ==> r.thrown == t.get
    ensures t.Null? ==> r.thrown.NullPointer?
    ensures r.thrown.Assertion? ==> t == NonNull(Assertion)
  {
    match Sneak(t)
    case Raised(x) => Raised(x)
    case Normal(_) => Raised(Assertion)
  }

  /** `Sneaky.rethrow(e)` (`throw smuggle(e)`): raises `e` with its own
      class, never a wrapper around it. */
  function SneakyRethrow(e: Nullable<Throwable>): (r: Outcome<()>)
    ensures r.Raised?
    ensures e.NonNull? ==> r.thrown == e.get
  {
    match Smuggle(e)
    case Raised(x) => Raised(x)
    case Normal(v) => Raised(v)
  }

  /** The difference between the two ways of rethrowing an exception that is
      not already a Rethrow: the sneaky one raises the exception itself, the
      rethrow policy raises a Rethrow whose cause is that same exception. */
  lemma SneakyDoesNotWrap(e: Throwable)
    requires !e.Rethrown?
    ensures SneakyRethrow(NonNull(e)) == Raised(e)
    ensures Catcher.RethrowHandler(e).thrown != e
    ensures Rethrow.GetCause(Catcher.RethrowHandler(e).thrown) == e
  {
  }
}
