/** `CheckedLongToDoubleFunction`: a `java.util.function.LongToDoubleFunction` whose try form
    `applyAsDoubleOrThrow(value)` may raise any throwable, instantiating the
    contract of the checked interfaces for arguments `Int64` and result `Double`. */
module CheckedLongToDoubleFunction {
  import opened JavaLang
  import Catcher
  import Checked

  /** An instance of the interface. */
  type Op = Checked.Fn<Int64, Double>

  /** What the safe form returns when the catcher handles a failure:
      `0.0`. */
  const Default: Double := 0.0

  /** A lambda: its `catcher()` is the default, `Catcher::rethrow`. */
  function Lambda(op: Int64 -> Outcome<Double>): (f: Op)
    ensures Checked.Valid(f) && f.Base? && f.op == op
    ensures f.catcher == Catcher.RETHROW
  {
    Checked.Lambda(op)
  }

  /** `applyAsDouble(value)`: the try form's normal result, or, when it raises,
      `0.0` once the catcher has handled the throwable. */
  function ApplyAsDouble(f: Op, value: Int64): (r: Outcome<Double>)
    ensures Checked.SafeContract(f, value, Default, r)
  {
    Checked.Safe(f, value, Default)
  }

  /** `catcher(catcher)`. */
  function WithCatcher(f: Op, catcher: Nullable<Catcher.Catcher>): (r: Outcome<Op>)
    requires Checked.Valid(f)
    ensures Checked.SwapContract(f, catcher, r)
  {
    Checked.WithCatcher(f, catcher)
  }
}
