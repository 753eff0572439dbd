/** `CheckedIntUnaryOperator`: a `java.util.function.IntUnaryOperator` whose try form
    `applyAsIntOrThrow(operand)` may raise any throwable, instantiating the
    contract of the checked interfaces for arguments `Int32` and result `Int32`. */
module CheckedIntUnaryOperator {
  import opened JavaLang
  import Catcher
  import Checked

  /** An instance of the interface. */
  type Op = Checked.Fn<Int32, Int32>

  /** What the safe form returns when the catcher handles a failure:
      `0`. */
  const Default: Int32 := 0

  /** A lambda: its `catcher()` is the default, `Catcher::rethrow`. */
  function Lambda(op: Int32 -> Outcome<Int32>): (f: Op)
    ensures Checked.Valid(f) && f.Base? && f.op == op
    ensures f.catcher == Catcher.RETHROW
  {
    Checked.Lambda(op)
  }

  /** `applyAsInt(operand)`: the try form's normal result, or, when it raises,
      `0` once the catcher has handled the throwable. */
  function ApplyAsInt(f: Op, operand: Int32): (r: Outcome<Int32>)
    ensures Checked.SafeContract(f, operand, Default, r)
  {
    Checked.Safe(f, operand, Default)
  }

  /** `catcher(catcher)`. */
  function WithCatcher(f: Op, catcher: Nullable<Catcher.Catcher>): (r: Outcome<Op>)
    requires Checked.Valid(f)
    ensures Checked.SwapContract(f, catcher, r)
  {
    Checked.WithCatcher(f, catcher)
  }
}
