/** `CheckedLongConsumer`: a `java.util.function.LongConsumer` whose try form
    `acceptOrThrow(value)` may raise any throwable, instantiating the
    contract of the checked interfaces for arguments `Int64` and result `()`. */
module CheckedLongConsumer {
  import opened JavaLang
  import Catcher
  import Checked

  /** An instance of the interface. */
  type Op = Checked.Fn<Int64, ()>

  /** What the safe form returns when the catcher handles a failure:
      nothing. */
  const Default: () := ()

  /** A lambda: its `catcher()` is the default, `Catcher::rethrow`. */
  function Lambda(op: Int64 -> Outcome<()>): (f: Op)
    ensures Checked.Valid(f) && f.Base? && f.op == op
    ensures f.catcher == Catcher.RETHROW
  {
    Checked.Lambda(op)
  }

  /** `accept(value)`: the try form's normal result, or, when it raises,
      nothing once the catcher has handled the throwable. */
  function Accept(f: Op, value: Int64): (r: Outcome<()>)
    ensures Checked.SafeContract(f, value, Default, r)
  {
    Checked.Safe(f, value, Default)
  }

  /** `catcher(catcher)`. */
  function WithCatcher(f: Op, catcher: Nullable<Catcher.Catcher>): (r: Outcome<Op>)
    requires Checked.Valid(f)
    ensures Checked.SwapContract(f, catcher, r)
  {
    Checked.WithCatcher(f, catcher)
  }
}
