/** The slice of the Java platform that the library is written against:
    references that may be null, java.util.Optional, the throwables that the
    library creates or lets through, the primitive value types of the
    functional shapes, and the outcome of a call that may raise. */
module JavaLang {

  /** A Java reference that may be null. */
  datatype Nullable<+T> = Null | NonNull(get: T)

  /** java.util.Optional. */
  datatype Option<+T> = None | Some(value: T)

  /** Optional.ofNullable. */
  function OfNullable<T>(v: Nullable<T>): (r: Option<T>)
    ensures r.Some? <==> v.NonNull?
    ensures r.Some? ==> r.value == v.get
  {
    match v
    case Null => None
    case NonNull(x) => Some(x)
  }

  /** Where a throwable sits in java.lang's hierarchy: below Error, below
      Exception, or directly below Throwable. */
  datatype Category = ErrorClass | ExceptionClass | OtherThrowable

  /** A throwable. Those raised by code outside this library carry an identity
      (standing for the object reference) and a category; the others are the
      ones the library itself constructs. */
  datatype Throwable =
    | User(id: nat, category: Category)
    | Rethrown(cause: Throwable)           // com.rezzedup.util.exceptional.Rethrow, a RuntimeException
    | NullPointer(message: string)         // java.lang.NullPointerException
    | NoSuchElement                        // java.util.NoSuchElementException
    | IllegalState(message: string)        // java.lang.IllegalStateException
    | UnsupportedOperation                 // java.lang.UnsupportedOperationException
    | Assertion                            // java.lang.AssertionError

  /** `t instanceof Error`. */
  predicate IsError(t: Throwable)
  {
    match t
    case User(_, category) => category == ErrorClass
    case Assertion => true
    case _ => false
  }

  /** `t instanceof Exception`: what a `catch (Exception e)` clause catches. */
  predicate IsException(t: Throwable)
  {
    match t
    case User(_, category) => category == ExceptionClass
    case Assertion => false
    case _ => true
  }

  /** The outcome of a Java call: it returned a value, or it raised. */
  datatype Outcome<+T> = Normal(value: T) | Raised(thrown: Throwable)

  /** Java `double`. The library never does arithmetic on doubles, it only
      passes them through or returns the literal 0.0. */
  type Double = real

  /** Java `int`. */
  newtype Int32 = x: int | -0x8000_0000 <= x < 0x8000_0000

  /** Java `long`. */
  newtype Int64 = x: int | -0x8000_0000_0000_0000 <= x < 0x8000_0000_0000_0000
}
