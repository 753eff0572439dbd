/** `CheckedToIntFunction`: a `java.util.function.ToIntFunction` whose try form
    `applyAsIntOrThrow(t)` may raise any throwable, instantiating the
    contract of the checked interfaces for arguments `T` and result `Int32`. */
module CheckedToIntFunction {
  import opened JavaLang
  import Catcher
  import Checked

  /** An instance of the interface. */
  type Op<!T> = Checked.Fn<T, Int32>

  /** What the safe form returns when the catcher handles a failure:
      `0`. */
  const Default: Int32 := 0

  /** A lambda: its `catcher()` is the default, `Catcher::rethrow`. */
  function Lambda<T>(op: T -> Outcome<Int32>): (f: Op<T>)
    ensures Checked.Valid(f) && f.Base? && f.op == op
    ensures f.catcher == Catcher.RETHROW
  {
    Checked.Lambda(op)
  }

  /** `applyAsInt(t)`: the try form's normal result, or, when it raises,
      `0` once the catcher has handled the throwable. */
  function ApplyAsInt<T>(f: Op<T>, t: T): (r: Outcome<Int32>)
    ensures Checked.SafeContract(f, t, Default, r)
  {
    Checked.Safe(f, t, Default)
  }

  /** `catcher(catcher)`. */
  function WithCatcher<T>(f: Op<T>, catcher: Nullable<Catcher.Catcher>): (r: Outcome<Op<T>>)
    requires Checked.Valid(f)
    ensures Checked.SwapContract(f, catcher, r)
  {
    Checked.WithCatcher(f, catcher)
  }
}
