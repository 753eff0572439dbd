/** `CheckedToIntBiFunction`: a `java.util.function.ToIntBiFunction` whose try form
    `applyAsIntOrThrow(t, u)` may raise any throwable, instantiating the
    contract of the checked interfaces for arguments `(T, U)` and result `Int32`. */
module CheckedToIntBiFunction {
  import opened JavaLang
  import Catcher
  import Checked

  /** An instance of the interface. */
  type Op<!T, !U> = Checked.Fn<(T, U), Int32>

  /** What the safe form returns when the catcher handles a failure:
      `0`. */
  const Default: Int32 := 0

  /** A lambda: its `catcher()` is the default, `Catcher::rethrow`. */
  function Lambda<T, U>(op: ((T, U)) -> Outcome<Int32>): (f: Op<T, U>)
    ensures Checked.Valid(f) && f.Base? && f.op == op
    ensures f.catcher == Catcher.RETHROW
  {
    Checked.Lambda(op)
  }

  /** `applyAsInt(t, u)`: the try form's normal result, or, when it raises,
      `0` once the catcher has handled the throwable. */
  function ApplyAsInt<T, U>(f: Op<T, U>, t: T, u: U): (r: Outcome<Int32>)
    ensures Checked.SafeContract(f, (t, u), Default, r)
  {
    Checked.Safe(f, (t, u), Default)
  }

  /** `catcher(catcher)`. */
  function WithCatcher<T, U>(f: Op<T, U>, catcher: Nullable<Catcher.Catcher>): (r: Outcome<Op<T, U>>)
    requires Checked.Valid(f)
    ensures Checked.SwapContract(f, catcher, r)
  {
    Checked.WithCatcher(f, catcher)
  }
}
