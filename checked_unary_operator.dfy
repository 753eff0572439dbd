/** `CheckedUnaryOperator`: a `java.util.function.UnaryOperator` whose try form
    `applyOrThrow(t)` may raise any throwable, instantiating the
    contract of the checked interfaces for arguments `T` and result `Nullable<T>`. */
module CheckedUnaryOperator {
  import opened JavaLang
  import Catcher
  import Checked

  /** An instance of the interface. */
  type Op<!T> = Checked.Fn<T, Nullable<T>>

  /** A lambda: its `catcher()` is the default, `Catcher::rethrow`. */
  function Lambda<T>(op: T -> Outcome<Nullable<T>>): (f: Op<T>)
    ensures Checked.Valid(f) && f.Base? && f.op == op
    ensures f.catcher == Catcher.RETHROW
  {
    Checked.Lambda(op)
  }

  /** `apply(t)`: the try form's normal result, or, when it raises,
      `null` once the catcher has handled the throwable. */
  function Apply<T>(f: Op<T>, t: T): (r: Outcome<Nullable<T>>)
    ensures Checked.SafeContract(f, t, Null, r)
  {
    Checked.Safe(f, t, Null)
  }

  /** `catcher(catcher)`. */
  function WithCatcher<T>(f: Op<T>, catcher: Nullable<Catcher.Catcher>): (r: Outcome<Op<T>>)
    requires Checked.Valid(f)
    ensures Checked.SwapContract(f, catcher, r)
  {
    Checked.WithCatcher(f, catcher)
  }
}
