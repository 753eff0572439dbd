/** Attempt: run a supplier or an action once, send an Exception it raises
    to a catcher, and answer with an Optional. A supplier or an action is
    modelled by the outcome of its one run. */
module Attempt {
  import opened JavaLang
  import Catcher
  import Rethrow

  /** `with(catcher, supplier)`. Both arguments are checked for null, the
      catcher first, before anything runs. A returned value becomes a present
      Optional exactly when it is non-null. An Exception goes to
      `catcher.accept`; when that returns, the answer is the empty Optional,
      and when it raises, that throwable goes out. Throwables that are not
      Exceptions are not caught. */
  function With<T>(catcher: Nullable<Catcher.Catcher>, supplier: Nullable<Outcome<Nullable<T>>>): (r: Outcome<Option<T>>)
    ensures catcher.Null? ==> r == Raised(NullPointer("catcher"))
    ensures catcher.NonNull? && supplier.Null? ==> r == Raised(NullPointer("supplier"))
    ensures catcher.NonNull? && supplier.NonNull? && supplier.get.Normal? ==>
      r.Normal? && (r.value.Some? <==> supplier.get.value.NonNull?) && r.value == OfNullable(supplier.get.value)
    ensures catcher.NonNull? && supplier.NonNull? && supplier.get.Raised? ==>
      var t := supplier.get.thrown;
      && (!IsException(t) ==> r == Raised(t))
      && (IsException(t) && Catcher.Accept(catcher.get, t).Normal? ==> r == Normal(None))
      && (IsException(t) && Catcher.Accept(catcher.get, t).Raised? ==> r == Raised(Catcher.Accept(catcher.get, t).thrown))
  {
    if catcher.Null? then Raised(NullPointer("catcher"))
    else if supplier.Null? then Raised(NullPointer("supplier"))
    else match supplier.get
      case Normal(v) => Normal(OfNullable(v))
      case Raised(t) =>
        if !IsException(t) then Raised(t)
        else match Catcher.Accept(catcher.get, t)
          case Normal(_) => Normal(None)
          case Raised(x) => Raised(x)
  }

  /** `with(catcher, action)`: the same null checks; the action runs once; the
      call returns normally unless the action raises something other than an
      Exception or raises an Exception that makes the catcher raise. */
  function WithAction(catcher: Nullable<Catcher.Catcher>, action: Nullable<Outcome<()>>): (r: Outcome<()>)
    ensures catcher.Null? ==> r == Raised(NullPointer("catcher"))
    ensures catcher.NonNull? && action.Null? ==> r == Raised(NullPointer("action"))
    ensures catcher.NonNull? && action.NonNull? ==>
      (r.Normal? <==> action.get.Normal? ||
                      (IsException(action.get.thrown) && Catcher.Accept(catcher.get, action.get.thrown).Normal?))
    ensures catcher.NonNull? && action.NonNull? && action.get.Raised? && !IsException(action.get.thrown) ==>
      r == action.get
    ensures catcher.NonNull? && action.NonNull? && action.get.Raised? && IsException(action.get.thrown) ==>
      r == Catcher.Accept(catcher.get, action.get.thrown)
  {
    if catcher.Null? then Raised(NullPointer("catcher"))
    else if action.Null? then Raised(NullPointer("action"))
    else match action.get
      case Normal(_) => Normal(())
      case Raised(t) => if IsException(t) then Catcher.Accept(catcher.get, t) else Raised(t)
  }

  /** `ignoring(supplier)`: never raises for an Exception from the supplier,
      the answer is then empty. */
  function Ignoring<T>(supplier: Nullable<Outcome<Nullable<T>>>): (r: Outcome<Option<T>>)
    ensures supplier.NonNull? && supplier.get.Raised? && IsException(supplier.get.thrown) ==> r == Normal(None)
    ensures supplier.NonNull? && supplier.get.Normal? ==> r == Normal(OfNullable(supplier.get.value))
  {
    With(NonNull(Catcher.IGNORE), supplier)
  }

  /** `ignoring(action)`: never raises for an Exception from the action. */
  function IgnoringAction(action: Nullable<Outcome<()>>): (r: Outcome<()>)
    ensures action.NonNull? && (action.get.Normal? || IsException(action.get.thrown)) ==> r == Normal(())
  {
    WithAction(NonNull(Catcher.IGNORE), action)
  }

  /** `printing(supplier)`: prints an Exception from the supplier and
      answers empty, never raising for it. */
  function Printing<T>(supplier: Nullable<Outcome<Nullable<T>>>): (r: Outcome<Option<T>>)
    ensures supplier.NonNull? && supplier.get.Raised? && IsException(supplier.get.thrown) ==> r == Normal(None)
    ensures supplier.NonNull? && supplier.get.Normal? ==> r == Normal(OfNullable(supplier.get.value))
  {
    With(NonNull(Catcher.PRINT), supplier)
  }

  /** `printing(action)`: never raises for an Exception from the action. */
  function PrintingAction(action: Nullable<Outcome<()>>): (r: Outcome<()>)
    ensures action.NonNull? && (action.get.Normal? || IsException(action.get.thrown)) ==> r == Normal(())
  {
    WithAction(NonNull(Catcher.PRINT), action)
  }

  /** `rethrowing(supplier)`: an Exception from the supplier comes out as
      `Rethrow.caught` of it. */
  function Rethrowing<T>(supplier: Nullable<Outcome<Nullable<T>>>): (r: Outcome<Option<T>>)
    ensures supplier.NonNull? && supplier.get.Raised? && IsException(supplier.get.thrown) ==>
      r == Raised(Rethrow.Caught(supplier.get.thrown))
    ensures supplier.NonNull? && supplier.get.Normal? ==> r == Normal(OfNullable(supplier.get.value))
  {
    With(NonNull(Catcher.RETHROW), supplier)
  }

  /** `rethrowing(action)`: an Exception from the action comes out as
      `Rethrow.caught` of it. */
  function RethrowingAction(action: Nullable<Outcome<()>>): (r: Outcome<()>)
    ensures action.NonNull? && action.get.Raised? && IsException(action.get.thrown) ==>
      r == Raised(Rethrow.Caught(action.get.thrown))
    ensures action.NonNull? && action.get.Normal? ==> r == Normal(())
  {
    WithAction(NonNull(Catcher.RETHROW), action)
  }

  /** A supplier that raises the exception `f`: ignoring answers empty and
      raises nothing, rethrowing raises a Rethrow whose cause is `f` itself,
      and a custom catcher that answers `f` with `f` (the sneaky one) raises
      `f` unwrapped. */
  lemma FailingSupplier<T>(f: Throwable, ref: nat)
    requires IsException(f) && !f.Rethrown?
    ensures Ignoring<T>(NonNull(Raised(f))) == Normal(None)
    ensures Rethrowing<T>(NonNull(Raised(f))).Raised?
    ensures Rethrow.GetCause(Rethrowing<T>(NonNull(Raised(f))).thrown) == f
    ensures With<T>(NonNull(Catcher.Catcher(ref, Catcher.CustomPolicy(Catcher.Consumer(map[f := f])))), NonNull(Raised(f))) == Raised(f)
  {
  }
}
