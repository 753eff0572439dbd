/** `CheckedIntFunction`: a `java.util.function.IntFunction` whose try form
    `applyOrThrow(value)` may raise any throwable, instantiating the
    contract of the checked interfaces for arguments `Int32` and result `Nullable<R>`. */
module CheckedIntFunction {
  import opened JavaLang
  import Catcher
  import Checked

  /** An instance of the interface. */
  type Op<!R> = Checked.Fn<Int32, Nullable<R>>

  /** A lambda: its `catcher()` is the default, `Catcher::rethrow`. */
  function Lambda<R>(op: Int32 -> Outcome<Nullable<R>>): (f: Op<R>)
    ensures Checked.Valid(f) && f.Base? && f.op == op
    ensures f.catcher == Catcher.RETHROW
  {
    Checked.Lambda(op)
  }

  /** `apply(value)`: the try form's normal result, or, when it raises,
      `null` once the catcher has handled the throwable. */
  function Apply<R>(f: Op<R>, value: Int32): (r: Outcome<Nullable<R>>)
    ensures Checked.SafeContract(f, value, Null, r)
  {
    Checked.Safe(f, value, Null)
  }

  /** `catcher(catcher)`. */
  function WithCatcher<R>(f: Op<R>, catcher: Nullable<Catcher.Catcher>): (r: Outcome<Op<R>>)
    requires Checked.Valid(f)
    ensures Checked.SwapContract(f, catcher, r)
  {
    Checked.WithCatcher(f, catcher)
  }
}
