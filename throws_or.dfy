/** ThrowsOr: an immutable box that holds a value, or an exception, or
    nothing, so that the outcome of a possibly failing operation can be kept
    and queried instead of recomputed. */
module ThrowsOr {
  import opened JavaLang

  /** The two final fields; `Valid` is the invariant every instance keeps:
      never both a value and an exception. */
  datatype ThrowsOr<+V> = ThrowsOr(value: Nullable<V>, exception: Nullable<Throwable>)
  {
    predicate Valid()
    {
      !(value.NonNull? && exception.NonNull?)
    }

    /** `isEmpty()`: neither value nor exception, which makes the box the
        same as the shared empty instance. */
    function IsEmpty(): (b: bool)
      ensures b <==> this == ThrowsOr(Null, Null)
      ensures b ==> Valid()
    {
      value.Null? && exception.Null?
    }

    /** `isPresent()`: only the value matters; a valid box that holds a
        value holds no exception. */
    function IsPresent(): (b: bool)
      ensures b <==> value.NonNull?
      ensures Valid() && b ==> exception.Null?
    {
      value.NonNull?
    }

    /** `isExceptional()`: only the exception matters; a valid box that holds
        an exception holds no value. */
    function IsExceptional(): (b: bool)
      ensures b <==> exception.NonNull?
      ensures Valid() && b ==> value.Null?
    {
      exception.NonNull?
    }

    /** `value()`: the value as an Optional. */
    function Value(): (r: Option<V>)
      ensures r.Some? <==> IsPresent()
      ensures IsPresent() ==> r == Some(value.get)
    {
      OfNullable(value)
    }

    /** `exception()`: the exception as an Optional. */
    function Exception(): (r: Option<Throwable>)
      ensures r.Some? <==> IsExceptional()
      ensures IsExceptional() ==> r == Some(exception.get)
    {
      OfNullable(exception)
    }

    /** `getOrThrow()`: a held exception comes first and is raised inside a
        new Rethrow (a held Rethrow is wrapped again); then a held value is
        returned; an empty box raises NoSuchElementException. */
    function GetOrThrow(): (r: Outcome<V>)
      ensures IsExceptional() ==> r == Raised(Rethrown(exception.get))
      ensures !IsExceptional() && IsPresent() ==> r == Normal(value.get)
      ensures IsEmpty() ==> r == Raised(NoSuchElement)
    {
      if exception.NonNull? then Raised(Rethrown(exception.get))
      else if value.NonNull? then Normal(value.get)
      else Raised(NoSuchElement)
    }

    /** `propagate()`: an exceptional box is handed back as it is, under any
        value type; otherwise IllegalStateException. */
    function Propagate<T>(): (r: Outcome<ThrowsOr<T>>)
      ensures IsExceptional() <==> r.Normal?
      ensures r.Normal? ==> r.value.exception == exception && r.value.value.Null?
      ensures r.Raised? ==> r.thrown == IllegalState("Cannot propagate: not exceptional")
    {
      if exception.NonNull? then Normal(ThrowsOr(Null, exception))
      else Raised(IllegalState("Cannot propagate: not exceptional"))
    }
  }

  /** The private no-argument constructor, used once for the shared empty
      instance. */
  function NewEmpty<V>(): (r: ThrowsOr<V>)
    ensures r.Valid() && r.IsEmpty()
  {
    ThrowsOr(Null, Null)
  }

  /** The private value constructor: rejects null. */
  function NewValue<V>(v: Nullable<V>): (r: Outcome<ThrowsOr<V>>)
    ensures v.Null? <==> r == Raised(NullPointer("value"))
    ensures v.NonNull? ==> r.Normal? && r.value.Valid() && r.value.Value() == Some(v.get) && !r.value.IsExceptional()
  {
    match v
    case Null => Raised(NullPointer("value"))
    case NonNull(x) => Normal(ThrowsOr(NonNull(x), Null))
  }

  /** The private exception constructor: rejects null. */
  function NewException<V>(e: Nullable<Throwable>): (r: Outcome<ThrowsOr<V>>)
    ensures e.Null? <==> r == Raised(NullPointer("exception"))
    ensures e.NonNull? ==> r.Normal? && r.value.Valid() && r.value.Exception() == Some(e.get) && !r.value.IsPresent()
  {
    match e
    case Null => Raised(NullPointer("exception"))
    case NonNull(x) => Normal(ThrowsOr(Null, NonNull(x)))
  }

  /** `empty()`: the shared empty instance. */
  function Empty<V>(): (r: ThrowsOr<V>)
    ensures r.Valid() && r.IsEmpty()
  {
    NewEmpty()
  }

  /** `value(v)`: a box holding `v`; null is rejected. */
  function Value<V>(v: Nullable<V>): (r: Outcome<ThrowsOr<V>>)
    ensures v.Null? ==> r == Raised(NullPointer("value"))
    ensures v.NonNull? ==> r.Normal? && r.value.Valid() && r.value.Value() == Some(v.get) && !r.value.IsExceptional()
  {
    NewValue(v)
  }

  /** `raise(e)`: a box holding `e`; null is rejected. */
  function Raise<V>(e: Nullable<Throwable>): (r: Outcome<ThrowsOr<V>>)
    ensures e.Null? ==> r == Raised(NullPointer("exception"))
    ensures e.NonNull? ==> r.Normal? && r.value.Valid() && r.value.Exception() == Some(e.get) && !r.value.IsPresent()
  {
    NewException(e)
  }

  /** `raise(supplier)`. A supplier is modelled by the outcome of its one
      `get()` call: it may return a throwable, return null, or raise. A null
      supplier is rejected, a raise from the supplier goes through, a null
      exception is rejected; otherwise the box is exceptional, with no value. */
  function RaiseFrom<V>(supplier: Nullable<Outcome<Nullable<Throwable>>>): (r: Outcome<ThrowsOr<V>>)
    ensures supplier.Null? ==> r == Raised(NullPointer("exceptionSupplier"))
    ensures supplier.NonNull? && supplier.get.Raised? ==> r == Raised(supplier.get.thrown)
    ensures supplier == NonNull(Normal(Null)) ==> r == Raised(NullPointer("exception"))
    ensures supplier.NonNull? && supplier.get.Normal? && supplier.get.value.NonNull? ==>
      r.Normal? && r.value.Valid() && r.value.Exception() == Some(supplier.get.value.get) && !r.value.IsPresent()
  {
    match supplier
    case Null => Raised(NullPointer("exceptionSupplier"))
    case NonNull(got) =>
      match got
      case Raised(t) => Raised(t)
      case Normal(e) => Raise(e)
  }

  /** `value(v, supplier)`: the supplier must not be null, even when it is not
      needed; a non-null `v` is held; otherwise the box holds the supplied
      exception, as `raise(supplier)` builds it. */
  function ValueOr<V>(v: Nullable<V>, supplier: Nullable<Outcome<Nullable<Throwable>>>): (r: Outcome<ThrowsOr<V>>)
    ensures supplier.Null? ==> r == Raised(NullPointer("exceptionSupplier"))
    ensures supplier.NonNull? && v.NonNull? ==>
      r.Normal? && r.value.Valid() && r.value.Value() == Some(v.get) && !r.value.IsExceptional()
    ensures v.Null? ==> r == RaiseFrom(supplier)
  {
    if supplier.Null? then Raised(NullPointer("exceptionSupplier"))
    else if v.NonNull? then Value(v)
    else RaiseFrom(supplier)
  }

  /** `maybe(v)`: the empty instance exactly when `v` is null, otherwise a box
      holding exactly `v`. */
  function Maybe<V>(v: Nullable<V>): (r: ThrowsOr<V>)
    ensures r.Valid() && !r.IsExceptional()
    ensures r.IsEmpty() <==> v.Null?
    ensures r.IsEmpty() ==> r == Empty()
    ensures v.NonNull? ==> r.Value() == Some(v.get)
  {
    if v.Null? then Empty() else Value(v).value
  }

  /** `result(supplier)`: the supplier runs once (modelled by the outcome of
      that run). A null supplier is rejected; a returned value goes to
      `maybe`; a raised Exception goes to `raise`; any other throwable
      (an Error, a bare Throwable) goes through. */
  function Result<V>(supplier: Nullable<Outcome<Nullable<V>>>): (r: Outcome<ThrowsOr<V>>)
    ensures supplier.Null? ==> r == Raised(NullPointer("supplier"))
    ensures supplier.NonNull? && supplier.get.Normal? ==> r == Normal(Maybe(supplier.get.value))
    ensures supplier.NonNull? && supplier.get.Raised? && IsException(supplier.get.thrown) ==>
      r.Normal? && r.value.Valid() && r.value.Exception() == Some(supplier.get.thrown) && !r.value.IsPresent()
    ensures supplier.NonNull? && supplier.get.Raised? && !IsException(supplier.get.thrown) ==> r == Raised(supplier.get.thrown)
  {
    match supplier
    case Null => Raised(NullPointer("supplier"))
    case NonNull(got) =>
      match got
      case Normal(v) => Normal(Maybe(v))
      case Raised(t) => if IsException(t) then Raise(NonNull(t)) else Raised(t)
  }

  /** Of the three states, exactly one holds for every valid box: `isEmpty`
      exactly when neither `isPresent` nor `isExceptional`, and those two
      never together. */
  lemma ExactlyOneState<V>(t: ThrowsOr<V>)
    requires t.Valid()
    ensures t.IsEmpty() <==> !t.IsPresent() && !t.IsExceptional()
    ensures !(t.IsPresent() && t.IsExceptional())
  {
  }

  /** Every empty box the factories hand out is the shared instance: `maybe`
      of null and `result` of a supplier returning null give `empty()`, and
      the value and exception factories never give an empty box. */
  lemma EmptyIsShared<V>(v: Nullable<V>, e: Nullable<Throwable>, s: Nullable<Outcome<Nullable<V>>>)
    ensures Maybe(v).IsEmpty() ==> Maybe(v) == Empty()
    ensures Maybe<V>(Null) == Empty()
    ensures Result<V>(NonNull(Normal(Null))) == Normal(Empty())
    ensures Result(s).Normal? && Result(s).value.IsEmpty() ==> Result(s).value == Empty()
    ensures Value(v).Normal? ==> !Value(v).value.IsEmpty()
    ensures Raise<V>(e).Normal? ==> !Raise<V>(e).value.IsEmpty()
  {
  }

  /** Whenever `value(v, supplier)` gets a non-null `v`, the supplier has no
      influence on the result: it is not consulted. */
  lemma ValueOrIsLazy<V>(v: V, s1: Outcome<Nullable<Throwable>>, s2: Outcome<Nullable<Throwable>>)
    ensures ValueOr(NonNull(v), NonNull(s1)) == ValueOr(NonNull(v), NonNull(s2))
  {
  }

  /** Every box the factories can produce keeps the invariant. */
  lemma FactoriesKeepInvariant<V>(v: Nullable<V>, e: Nullable<Throwable>,
                                  s: Nullable<Outcome<Nullable<Throwable>>>, r: Nullable<Outcome<Nullable<V>>>)
    ensures Empty<V>().Valid() && Maybe(v).Valid()
    ensures Value(v).Normal? ==> Value(v).value.Valid()
    ensures Raise<V>(e).Normal? ==> Raise<V>(e).value.Valid()
    ensures RaiseFrom<V>(s).Normal? ==> RaiseFrom<V>(s).value.Valid()
    ensures ValueOr(v, s).Normal? ==> ValueOr(v, s).value.Valid()
    ensures Result(r).Normal? ==> Result(r).value.Valid()
  {
  }

  /** `maybe(v).getOrThrow()` gives back `v` for every non-null `v`. */
  lemma MaybeGetRoundTrip<V>(v: V)
    ensures Maybe(NonNull(v)).IsPresent()
    ensures Maybe(NonNull(v)).GetOrThrow() == Normal(v)
  {
  }

  /** `empty().getOrThrow()` raises NoSuchElementException, not a Rethrow. */
  lemma EmptyGetOrThrow<V>()
    ensures Empty<V>().GetOrThrow() == Raised(NoSuchElement)
  {
  }

  /** An exception held by `raise(f)` survives `propagate()` to any value
      type; a value-holding box refuses to propagate. */
  lemma RaisePropagate<V, T>(f: Throwable, v: V)
    ensures Raise<V>(NonNull(f)).Normal?
    ensures Raise<V>(NonNull(f)).value.Propagate<T>().Normal?
    ensures Raise<V>(NonNull(f)).value.Propagate<T>().value.Exception() == Some(f)
    ensures Value(NonNull(v)).value.Propagate<T>() == Raised(IllegalState("Cannot propagate: not exceptional"))
  {
  }

  /** An operation that raised an Exception is remembered: each later
      `getOrThrow()` raises a Rethrow whose cause is that very exception. */
  lemma ResultRemembersFailure<V>(e: Throwable)
    requires IsException(e)
    ensures Result<V>(NonNull(Raised(e))).Normal?
    ensures Result<V>(NonNull(Raised(e))).value.GetOrThrow() == Raised(Rethrown(e))
  {
  }
}
