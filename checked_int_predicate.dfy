/** `CheckedIntPredicate`: a `java.util.function.IntPredicate` whose try form
    `testOrThrow(value)` may raise any throwable, instantiating the
    contract of the checked interfaces for arguments `Int32` and result `bool`. */
module CheckedIntPredicate {
  import opened JavaLang
  import Catcher
  import Checked

  /** An instance of the interface. */
  type Op = Checked.Fn<Int32, bool>

  /** What the safe form returns when the catcher handles a failure:
      `false`. */
  const Default: bool := false

  /** A lambda: its `catcher()` is the default, `Catcher::rethrow`. */
  function Lambda(op: Int32 -> Outcome<bool>): (f: Op)
    ensures Checked.Valid(f) && f.Base? && f.op == op
    ensures f.catcher == Catcher.RETHROW
  {
    Checked.Lambda(op)
  }

  /** `test(value)`: the try form's normal result, or, when it raises,
      `false` once the catcher has handled the throwable. */
  function Test(f: Op, value: Int32): (r: Outcome<bool>)
    ensures Checked.SafeContract(f, value, Default, r)
  {
    Checked.Safe(f, value, Default)
  }

  /** `catcher(catcher)`. */
  function WithCatcher(f: Op, catcher: Nullable<Catcher.Catcher>): (r: Outcome<Op>)
    requires Checked.Valid(f)
    ensures Checked.SwapContract(f, catcher, r)
  {
    Checked.WithCatcher(f, catcher)
  }
}
