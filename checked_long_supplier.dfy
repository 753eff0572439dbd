/** `CheckedLongSupplier`: a `java.util.function.LongSupplier` whose try form
    `getAsLongOrThrow()` may raise any throwable, instantiating the
    contract of the checked interfaces for arguments `()` and result `Int64`. */
module CheckedLongSupplier {
  import opened JavaLang
  import Catcher
  import Checked

  /** An instance of the interface. */
  type Op = Checked.Fn<(), Int64>

  /** What the safe form returns when the catcher handles a failure:
      `0`. */
  const Default: Int64 := 0

  /** A lambda: its `catcher()` is the default, `Catcher::rethrow`. */
  function Lambda(op: (()) -> Outcome<Int64>): (f: Op)
    ensures Checked.Valid(f) && f.Base? && f.op == op
    ensures f.catcher == Catcher.RETHROW
  {
    Checked.Lambda(op)
  }

  /** `getAsLong()`: the try form's normal result, or, when it raises,
      `0` once the catcher has handled the throwable. */
  function GetAsLong(f: Op): (r: Outcome<Int64>)
    ensures Checked.SafeContract(f, (), Default, r)
  {
    Checked.Safe(f, (), Default)
  }

  /** `catcher(catcher)`. */
  function WithCatcher(f: Op, catcher: Nullable<Catcher.Catcher>): (r: Outcome<Op>)
    requires Checked.Valid(f)
    ensures Checked.SwapContract(f, catcher, r)
  {
    Checked.WithCatcher(f, catcher)
  }
}
