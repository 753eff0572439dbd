/** `CheckedBooleanSupplier`: a `java.util.function.BooleanSupplier` whose try form
    `getAsBooleanOrThrow()` may raise any throwable, instantiating the
    contract of the checked interfaces for arguments `()` and result `bool`. */
module CheckedBooleanSupplier {
  import opened JavaLang
  import Catcher
  import Checked

  /** An instance of the interface. */
  type Op = Checked.Fn<(), bool>

  /** What the safe form returns when the catcher handles a failure:
      `false`. */
  const Default: bool := false

  /** A lambda: its `catcher()` is the default, `Catcher::rethrow`. */
  function Lambda(op: (()) -> Outcome<bool>): (f: Op)
    ensures Checked.Valid(f) && f.Base? && f.op == op
    ensures f.catcher == Catcher.RETHROW
  {
    Checked.Lambda(op)
  }

  /** `getAsBoolean()`: the try form's normal result, or, when it raises,
      `false` once the catcher has handled the throwable. */
  function GetAsBoolean(f: Op): (r: Outcome<bool>)
    ensures Checked.SafeContract(f, (), Default, r)
  {
    Checked.Safe(f, (), Default)
  }

  /** `catcher(catcher)`. */
  function WithCatcher(f: Op, catcher: Nullable<Catcher.Catcher>): (r: Outcome<Op>)
    requires Checked.Valid(f)
    ensures Checked.SwapContract(f, catcher, r)
  {
    Checked.WithCatcher(f, catcher)
  }
}
