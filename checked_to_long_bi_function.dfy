/** `CheckedToLongBiFunction`: a `java.util.function.ToLongBiFunction` whose try form
    `applyAsLongOrThrow(t, u)` may raise any throwable, instantiating the
    contract of the checked interfaces for arguments `(T, U)` and result `Int64`. */
module CheckedToLongBiFunction {
  import opened JavaLang
  import Catcher
  import Checked

  /** An instance of the interface. */
  type Op<!T, !U> = Checked.Fn<(T, U), Int64>

  /** What the safe form returns when the catcher handles a failure:
      `0`. */
  const Default: Int64 := 0

  /** A lambda: its `catcher()` is the default, `Catcher::rethrow`. */
  function Lambda<T, U>(op: ((T, U)) -> Outcome<Int64>): (f: Op<T, U>)
    ensures Checked.Valid(f) && f.Base? && f.op == op
    ensures f.catcher == Catcher.RETHROW
  {
    Checked.Lambda(op)
  }

  /** `applyAsLong(t, u)`: the try form's normal result, or, when it raises,
      `0` once the catcher has handled the throwable. */
  function ApplyAsLong<T, U>(f: Op<T, U>, t: T, u: U): (r: Outcome<Int64>)
    ensures Checked.SafeContract(f, (t, u), Default, r)
  {
    Checked.Safe(f, (t, u), Default)
  }

  /** `catcher(catcher)`. */
  function WithCatcher<T, U>(f: Op<T, U>, catcher: Nullable<Catcher.Catcher>): (r: Outcome<Op<T, U>>)
    requires Checked.Valid(f)
    ensures Checked.SwapContract(f, catcher, r)
  {
    Checked.WithCatcher(f, catcher)
  }
}
