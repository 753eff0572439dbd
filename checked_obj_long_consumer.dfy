/** `CheckedObjLongConsumer`: a `java.util.function.ObjLongConsumer` whose try form
    `acceptOrThrow(t, value)` may raise any throwable, instantiating the
    contract of the checked interfaces for arguments `(T, Int64)` and result `()`. */
module CheckedObjLongConsumer {
  import opened JavaLang
  import Catcher
  import Checked

  /** An instance of the interface. */
  type Op<!T> = Checked.Fn<(T, Int64), ()>

  /** What the safe form returns when the catcher handles a failure:
      nothing. */
  const Default: () := ()

  /** A lambda: its `catcher()` is the default, `Catcher::rethrow`. */
  function Lambda<T>(op: ((T, Int64)) -> Outcome<()>): (f: Op<T>)
    ensures Checked.Valid(f) && f.Base? && f.op == op
    ensures f.catcher == Catcher.RETHROW
  {
    Checked.Lambda(op)
  }

  /** `accept(t, value)`: the try form's normal result, or, when it raises,
      nothing once the catcher has handled the throwable. */
  function Accept<T>(f: Op<T>, t: T, value: Int64): (r: Outcome<()>)
    ensures Checked.SafeContract(f, (t, value), Default, r)
  {
    Checked.Safe(f, (t, value), Default)
  }

  /** `catcher(catcher)`. */
  function WithCatcher<T>(f: Op<T>, catcher: Nullable<Catcher.Catcher>): (r: Outcome<Op<T>>)
    requires Checked.Valid(f)
    ensures Checked.SwapContract(f, catcher, r)
  {
    Checked.WithCatcher(f, catcher)
  }
}
