/** `CheckedToDoubleBiFunction`: a `java.util.function.ToDoubleBiFunction` whose try form
    `applyAsDoubleOrThrow(t, u)` may raise any throwable, instantiating the
    contract of the checked interfaces for arguments `(T, U)` and result `Double`. */
module CheckedToDoubleBiFunction {
  import opened JavaLang
  import Catcher
  import Checked

  /** An instance of the interface. */
  type Op<!T, !U> = Checked.Fn<(T, U), Double>

  /** What the safe form returns when the catcher handles a failure:
      `0.0`. */
  const Default: Double := 0.0

  /** A lambda: its `catcher()` is the default, `Catcher::rethrow`. */
  function Lambda<T, U>(op: ((T, U)) -> Outcome<Double>): (f: Op<T, U>)
    ensures Checked.Valid(f) && f.Base? && f.op == op
    ensures f.catcher == Catcher.RETHROW
  {
    Checked.Lambda(op)
  }

  /** `applyAsDouble(t, u)`: the try form's normal result, or, when it raises,
      `0.0` once the catcher has handled the throwable. */
  function ApplyAsDouble<T, U>(f: Op<T, U>, t: T, u: U): (r: Outcome<Double>)
    ensures Checked.SafeContract(f, (t, u), Default, r)
  {
    Checked.Safe(f, (t, u), Default)
  }

  /** `catcher(catcher)`. */
  function WithCatcher<T, U>(f: Op<T, U>, catcher: Nullable<Catcher.Catcher>): (r: Outcome<Op<T, U>>)
    requires Checked.Valid(f)
    ensures Checked.SwapContract(f, catcher, r)
  {
    Checked.WithCatcher(f, catcher)
  }
}
