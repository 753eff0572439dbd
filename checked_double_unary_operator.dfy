/** `CheckedDoubleUnaryOperator`: a `java.util.function.DoubleUnaryOperator` whose try form
    `applyAsDoubleOrThrow(operand)` may raise any throwable, instantiating the
    contract of the checked interfaces for arguments `Double` and result `Double`. */
module CheckedDoubleUnaryOperator {
  import opened JavaLang
  import Catcher
  import Checked

  /** An instance of the interface. */
  type Op = Checked.Fn<Double, Double>

  /** What the safe form returns when the catcher handles a failure:
      `0.0`. */
  const Default: Double := 0.0

  /** A lambda: its `catcher()` is the default, `Catcher::rethrow`. */
  function Lambda(op: Double -> Outcome<Double>): (f: Op)
    ensures Checked.Valid(f) && f.Base? && f.op == op
    ensures f.catcher == Catcher.RETHROW
  {
    Checked.Lambda(op)
  }

  /** `applyAsDouble(operand)`: the try form's normal result, or, when it raises,
      `0.0` once the catcher has handled the throwable. */
  function ApplyAsDouble(f: Op, operand: Double): (r: Outcome<Double>)
    ensures Checked.SafeContract(f, operand, Default, r)
  {
    Checked.Safe(f, operand, Default)
  }

  /** `catcher(catcher)`. */
  function WithCatcher(f: Op, catcher: Nullable<Catcher.Catcher>): (r: Outcome<Op>)
    requires Checked.Valid(f)
    ensures Checked.SwapContract(f, catcher, r)
  {
    Checked.WithCatcher(f, catcher)
  }
}
