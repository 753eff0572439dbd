/** Catcher: a failure policy. Three canonical policies (ignore, print,
    rethrow), custom ones built from a consumer, and the dispatch that
    re-raises an Error before any policy runs. */
module Catcher {
  import opened JavaLang
  import Rethrow

  /** A caller-supplied exception consumer, described by its reaction to each
      throwable: `accept(e)` raises `raises[e]` when `e` is a key and returns
      normally otherwise. */
  datatype Consumer = Consumer(raises: map<Throwable, Throwable>)
  {
    function Accept(e: Throwable): (r: Outcome<()>)
      ensures r.Raised? <==> e in raises
      ensures r.Raised? ==> r.thrown == raises[e]
    {
      if e in raises then Raised(raises[e]) else Normal(())
    }
  }

  /** What a catcher's `handle` does. */
  datatype Policy = IgnorePolicy | PrintPolicy | RethrowPolicy | CustomPolicy(consumer: Consumer)

  /** A catcher object. `ref` stands for its reference: two catcher values are
      the same object exactly when they are equal. */
  datatype Catcher = Catcher(ref: nat, policy: Policy)

  /** The method references `Catcher::ignore`, `Catcher::print` and
      `Catcher::rethrow`, one object each. */
  const IGNORE: Catcher := Catcher(0, IgnorePolicy)
  const PRINT: Catcher := Catcher(1, PrintPolicy)
  const RETHROW: Catcher := Catcher(2, RethrowPolicy)

  /** `Catcher.of(consumer)`: rejects a null consumer, otherwise a new catcher
      (reference `ref`) whose `handle` is the consumer's `accept`. */
  function Of(ref: nat, consumer: Nullable<Consumer>): (r: Outcome<Catcher>)
    ensures consumer.Null? <==> r == Raised(NullPointer("consumer"))
    ensures consumer.NonNull? ==> r.Normal? && r.value.ref == ref
    ensures consumer.NonNull? ==> forall e :: Handle(r.value, e) == consumer.get.Accept(e)
  {
    match consumer
    case Null => Raised(NullPointer("consumer"))
    case NonNull(k) => Normal(Catcher(ref, CustomPolicy(k)))
  }

  /** `Catcher.ignore(e)`: returns normally, nothing else happens. */
  function Ignore(e: Throwable): (r: Outcome<()>)
    ensures r.Normal?
  {
    Normal(())
  }

  /** `Catcher.print(e)`: the stack trace goes to standard error, then it
      returns normally. */
  function Print(e: Throwable): (r: Outcome<()>)
    ensures r.Normal?
  {
    Normal(())
  }

  /** `Catcher.rethrow(e)`: never returns normally; raises `Rethrow.caught(e)`,
      a Rethrow that carries `e` (or `e` itself when it already is one). */
  function RethrowHandler(e: Throwable): (r: Outcome<()>)
    ensures r.Raised? && r.thrown.Rethrown?
    ensures r.thrown == e || Rethrow.GetCause(r.thrown) == e
  {
    Raised(Rethrow.Caught(e))
  }

  /** `handle(e)` of a catcher, by its policy. */
  function Handle(c: Catcher, e: Throwable): (r: Outcome<()>)
    ensures c.policy.IgnorePolicy? || c.policy.PrintPolicy? ==> r.Normal?
    ensures c.policy.RethrowPolicy? ==> r.Raised? && r.thrown == Rethrow.Caught(e)
    ensures c.policy.CustomPolicy? ==> r == c.policy.consumer.Accept(e)
  {
    match c.policy
    case IgnorePolicy => Ignore(e)
    case PrintPolicy => Print(e)
    case RethrowPolicy => RethrowHandler(e)
    case CustomPolicy(k) => k.Accept(e)
  }

  /** `handleOrRethrowError(e)`: an Error is raised unchanged and `handle` is
      never consulted for it; anything else is exactly `handle(e)`. */
  function HandleOrRethrowError(c: Catcher, e: Throwable): (r: Outcome<()>)
    ensures IsError(e) ==> r == Raised(e)
    ensures !IsError(e) ==> r == Handle(c, e)
  {
    if IsError(e) then Raised(e) else Handle(c, e)
  }

  /** `accept(e)`, the Consumer view of a catcher: the same as
      `handleOrRethrowError(e)`. */
  function Accept(c: Catcher, e: Throwable): (r: Outcome<()>)
    ensures r == HandleOrRethrowError(c, e)
  {
    HandleOrRethrowError(c, e)
  }

  /** Dispatch returns normally exactly when the throwable is not an Error
      and the policy's `handle` returns normally; an Error always comes back
      out as itself, whatever the policy. */
  lemma DispatchReturnsIff(c: Catcher, e: Throwable)
    ensures HandleOrRethrowError(c, e).Normal? <==> !IsError(e) && Handle(c, e).Normal?
    ensures HandleOrRethrowError(c, e).Raised? && IsError(e) ==> HandleOrRethrowError(c, e).thrown == e
  {
  }

  /** Under the ignore and print policies, dispatch returns normally exactly
      for the throwables that are not Errors; under the rethrow policy it never
      returns normally. */
  lemma CanonicalPolicies(e: Throwable)
    ensures HandleOrRethrowError(IGNORE, e).Normal? <==> !IsError(e)
    ensures HandleOrRethrowError(PRINT, e).Normal? <==> !IsError(e)
    ensures HandleOrRethrowError(RETHROW, e).Raised?
    ensures !IsError(e) ==> HandleOrRethrowError(RETHROW, e).thrown.Rethrown?
  {
  }
}
