/** Rethrow: the runtime exception that carries an existing throwable across
    a boundary that cannot declare it. Its cause is never null. */
module Rethrow {
  import opened JavaLang

  /** `new Rethrow(cause)`: the constructor rejects a null cause before the
      superclass records it; otherwise the new Rethrow holds exactly the given
      throwable, and it is a RuntimeException, never an Error. */
  function New(cause: Nullable<Throwable>): (r: Outcome<Throwable>)
    ensures cause.Null? <==> r == Raised(NullPointer("cause"))
    ensures cause.NonNull? ==> r == Normal(Rethrown(cause.get))
    ensures r.Normal? ==> IsException(r.value) && !IsError(r.value)
  {
    match cause
    case Null => Raised(NullPointer("cause"))
    case NonNull(t) => Normal(Rethrown(t))
  }

  /** `getCause()` of a Rethrow: a throwable, never null, and exactly the
      one the Rethrow was constructed with. */
  function GetCause(r: Throwable): (c: Throwable)
    requires r.Rethrown?
    ensures New(NonNull(c)) == Normal(r)
  {
    r.cause
  }

  /** The cause read back from a new Rethrow is the throwable it was built
      with, for every throwable. */
  lemma CauseRoundTrip(t: Throwable)
    ensures New(NonNull(t)).Normal?
    ensures GetCause(New(NonNull(t)).value) == t
  {
  }

  /** `Rethrow.caught(e)`, called by the rethrow policy. Rethrow.java in this
      version of the library does not declare it. It is given the documented
      behaviour of reusing an existing Rethrow and wrapping anything else in
      a new one; contracts rely only on its yielding a Rethrow that is `e` or
      carries `e`. */
  function Caught(e: Throwable): (r: Throwable)
    ensures r.Rethrown?
    ensures r == e || GetCause(r) == e
  {
    if e.Rethrown? then e else Rethrown(e)
  }
}
