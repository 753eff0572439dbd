/** `CheckedDoublePredicate`: a `java.util.function.DoublePredicate` whose try form
    `testOrThrow(value)` may raise any throwable, instantiating the
    contract of the checked interfaces for arguments `Double` and result `bool`. */
module CheckedDoublePredicate {
  import opened JavaLang
  import Catcher
  import Checked

  /** An instance of the interface. */
  type Op = Checked.Fn<Double, bool>

  /** What the safe form returns when the catcher handles a failure:
      `false`. */
  const Default: bool := false

  /** A lambda: its `catcher()` is the default, `Catcher::rethrow`. */
  function Lambda(op: Double -> Outcome<bool>): (f: Op)
    ensures Checked.Valid(f) && f.Base? && f.op == op
    ensures f.catcher == Catcher.RETHROW
  {
    Checked.Lambda(op)
  }

  /** `test(value)`: the try form's normal result, or, when it raises,
      `false` once the catcher has handled the throwable. */
  function Test(f: Op, value: Double): (r: Outcome<bool>)
    ensures Checked.SafeContract(f, value, Default, r)
  {
    Checked.Safe(f, value, Default)
  }

  /** `catcher(catcher)`. */
  function WithCatcher(f: Op, catcher: Nullable<Catcher.Catcher>): (r: Outcome<Op>)
    requires Checked.Valid(f)
    ensures Checked.SwapContract(f, catcher, r)
  {
    Checked.WithCatcher(f, catcher)
  }
}
