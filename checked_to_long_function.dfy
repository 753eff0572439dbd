/** `CheckedToLongFunction`: a `java.util.function.ToLongFunction` whose try form
    `applyAsLongOrThrow(t)` may raise any throwable, instantiating the
    contract of the checked interfaces for arguments `T` and result `Int64`. */
module CheckedToLongFunction {
  import opened JavaLang
  import Catcher
  import Checked

  /** An instance of the interface. */
  type Op<!T> = Checked.Fn<T, Int64>

  /** What the safe form returns when the catcher handles a failure:
      `0`. */
  const Default: Int64 := 0

  /** A lambda: its `catcher()` is the default, `Catcher::rethrow`. */
  function Lambda<T>(op: T -> Outcome<Int64>): (f: Op<T>)
    ensures Checked.Valid(f) && f.Base? && f.op == op
    ensures f.catcher == Catcher.RETHROW
  {
    Checked.Lambda(op)
  }

  /** `applyAsLong(t)`: the try form's normal result, or, when it raises,
      `0` once the catcher has handled the throwable. */
  function ApplyAsLong<T>(f: Op<T>, t: T): (r: Outcome<Int64>)
    ensures Checked.SafeContract(f, t, Default, r)
  {
    Checked.Safe(f, t, Default)
  }

  /** `catcher(catcher)`. */
  function WithCatcher<T>(f: Op<T>, catcher: Nullable<Catcher.Catcher>): (r: Outcome<Op<T>>)
    requires Checked.Valid(f)
    ensures Checked.SwapContract(f, catcher, r)
  {
    Checked.WithCatcher(f, catcher)
  }
}
