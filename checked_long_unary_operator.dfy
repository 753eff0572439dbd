/** `CheckedLongUnaryOperator`: a `java.util.function.LongUnaryOperator` whose try form
    `applyAsLongOrThrow(operand)` may raise any throwable, instantiating the
    contract of the checked interfaces for arguments `Int64` and result `Int64`. */
module CheckedLongUnaryOperator {
  import opened JavaLang
  import Catcher
  import Checked

  /** An instance of the interface. */
  type Op = Checked.Fn<Int64, Int64>

  /** What the safe form returns when the catcher handles a failure:
      `0`. */
  const Default: Int64 := 0

  /** A lambda: its `catcher()` is the default, `Catcher::rethrow`. */
  function Lambda(op: Int64 -> Outcome<Int64>): (f: Op)
    ensures Checked.Valid(f) && f.Base? && f.op == op
    ensures f.catcher == Catcher.RETHROW
  {
    Checked.Lambda(op)
  }

  /** `applyAsLong(operand)`: the try form's normal result, or, when it raises,
      `0` once the catcher has handled the throwable. */
  function ApplyAsLong(f: Op, operand: Int64): (r: Outcome<Int64>)
    ensures Checked.SafeContract(f, operand, Default, r)
  {
    Checked.Safe(f, operand, Default)
  }

  /** `catcher(catcher)`. */
  function WithCatcher(f: Op, catcher: Nullable<Catcher.Catcher>): (r: Outcome<Op>)
    requires Checked.Valid(f)
    ensures Checked.SwapContract(f, catcher, r)
  {
    Checked.WithCatcher(f, catcher)
  }
}
