/** `CheckedPredicate`: a `java.util.function.Predicate` whose try form
    `testOrThrow(t)` may raise any throwable, instantiating the
    contract of the checked interfaces for arguments `T` and result `bool`. */
module CheckedPredicate {
  import opened JavaLang
  import Catcher
  import Checked

  /** An instance of the interface. */
  type Op<!T> = Checked.Fn<T, bool>

  /** What the safe form returns when the catcher handles a failure:
      `false`. */
  const Default: bool := false

  /** A lambda: its `catcher()` is the default, `Catcher::rethrow`. */
  function Lambda<T>(op: T -> Outcome<bool>): (f: Op<T>)
    ensures Checked.Valid(f) && f.Base? && f.op == op
    ensures f.catcher == Catcher.RETHROW
  {
    Checked.Lambda(op)
  }

  /** `test(t)`: the try form's normal result, or, when it raises,
      `false` once the catcher has handled the throwable. */
  function Test<T>(f: Op<T>, t: T): (r: Outcome<bool>)
    ensures Checked.SafeContract(f, t, Default, r)
  {
    Checked.Safe(f, t, Default)
  }

  /** `catcher(catcher)`. */
  function WithCatcher<T>(f: Op<T>, catcher: Nullable<Catcher.Catcher>): (r: Outcome<Op<T>>)
    requires Checked.Valid(f)
    ensures Checked.SwapContract(f, catcher, r)
  {
    Checked.WithCatcher(f, catcher)
  }
}
