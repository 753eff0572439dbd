# Exceptional, modelled in Dafny

A model of the core of the Java library Exceptional (`com.rezzedup.util.exceptional`).
The library turns operations that may throw into values governed by a pluggable failure policy:

- `ThrowsOr`, an immutable box holding a value, an exception, or nothing;
- `Catcher`, the failure policies (ignore, print, rethrow, custom) and the dispatch that re-raises an `Error` before any policy runs;
- `Rethrow`, the runtime wrapper whose cause is never null;
- `Sneaky`, which raises a throwable as itself, unwrapped;
- `Attempt`, which runs a supplier or action once and answers with an `Optional`;
- the 38 `Checked*` functional interfaces. Each has a try form that may raise, a safe form that hands failures to its catcher and returns the shape's default, and a catcher swap that builds a local `Impl` wrapper.

Every call is modelled as a pure function returning an `Outcome`: `Normal(value)` or `Raised(throwable)`.
A Java reference that may be null is a `Nullable`.
A supplier, action or try form is modelled by the outcome of its single run.
So "the supplier is not consulted" is stated as "the result does not depend on the supplier".
A catcher is a token `Catcher(ref, policy)`; two tokens are the same object exactly when they are equal.
`Catcher.RETHROW` stands for the `Catcher::rethrow` object that a default `catcher()` returns.

The checked interfaces share one generic model in `checked.dfy`.
`Fn<A, R>` is either `Base(op, catcher)` (a lambda or any other implementation) or `Wrapped(origin, catcher)` (the local `Impl`).
`Valid` is the invariant that an `Impl`'s origin is never an `Impl`; every instance reachable through the public API keeps it.
Each `checked_*.dfy` file instantiates this model for one interface: its argument and result types, its default result, its safe form, its default catcher and its `catcher(Catcher)`.

Modules:

- `java_lang.dfy`: nullable references, Optional, throwables, outcomes, and the primitive types.
- `rethrow.dfy`, `catcher.dfy`, `sneaky.dfy`, `throws_or.dfy`, `attempt.dfy`: one module per class.
- `checked.dfy`: the shared contract of the checked interfaces and `Checked.implToString`.
- `checked_*.dfy`: one module per checked interface.

## Model

| member | source | states |
|---|---|---|
| Rethrow.New | src/main/java/com/rezzedup/util/exceptional/Rethrow.java:26-29 | a null cause is rejected with NPE "cause"; otherwise the result is the Rethrow holding exactly the given throwable, and a Rethrow is a RuntimeException, never an Error |
| Rethrow.GetCause | src/main/java/com/rezzedup/util/exceptional/Rethrow.java:38-42 | the cause is never null and is exactly the throwable the Rethrow was constructed with: constructing a Rethrow from it gives back the same Rethrow |
| Rethrow.CauseRoundTrip | src/main/java/com/rezzedup/util/exceptional/Rethrow.java:26-42 | for every throwable `t`, `new Rethrow(t).getCause()` is `t` |
| Catcher.Of | src/main/java/com/rezzedup/util/exceptional/Catcher.java:30-34 | a null consumer is rejected with NPE "consumer"; otherwise the new catcher's `handle(e)` does exactly what `consumer.accept(e)` does, for every `e` |
| Catcher.Ignore | src/main/java/com/rezzedup/util/exceptional/Catcher.java:42 | always returns normally |
| Catcher.Print | src/main/java/com/rezzedup/util/exceptional/Catcher.java:50-53 | always returns normally (the printed trace is not modelled) |
| Catcher.RethrowHandler | src/main/java/com/rezzedup/util/exceptional/Catcher.java:61-64 | never returns normally; raises a Rethrow that is `e` or carries `e` as its cause |
| Catcher.Handle | src/main/java/com/rezzedup/util/exceptional/Catcher.java:66 | ignore and print return normally, rethrow raises `Rethrow.caught(e)`, a custom catcher does what its consumer does |
| Catcher.HandleOrRethrowError | src/main/java/com/rezzedup/util/exceptional/Catcher.java:68-72 | an Error is raised unchanged without consulting `handle`; anything else is exactly `handle(e)` |
| Catcher.Accept | src/main/java/com/rezzedup/util/exceptional/Catcher.java:83 | identical to `handleOrRethrowError(e)` |
| Catcher.DispatchReturnsIff | src/main/java/com/rezzedup/util/exceptional/Catcher.java:68-72 | dispatch returns normally if and only if the throwable is not an Error and `handle` returns normally; an Error comes back out as itself |
| Catcher.CanonicalPolicies | src/main/java/com/rezzedup/util/exceptional/Catcher.java:42-72 | with ignore or print, dispatch returns normally exactly for non-Errors; with rethrow it never returns normally, and a non-Error comes out as a Rethrow |
| Sneaky.Instantiate | src/main/java/com/rezzedup/util/exceptional/Sneaky.java:12 | the private constructor always raises UnsupportedOperationException |
| Sneaky.Sneak | src/main/java/com/rezzedup/util/exceptional/Sneaky.java:15 | never returns normally; raises the given throwable itself |
| Sneaky.Smuggle | src/main/java/com/rezzedup/util/exceptional/Sneaky.java:17-21 | never returns normally; raises the given throwable itself, unwrapped (NPE for null); the AssertionError is raised only when it was the argument |
| Sneaky.SneakyRethrow | src/main/java/com/rezzedup/util/exceptional/Sneaky.java:23 | raises `e` itself, with its own class |
| Sneaky.SneakyDoesNotWrap | src/main/java/com/rezzedup/util/exceptional/Sneaky.java:23 | for a throwable that is not a Rethrow, the sneaky rethrow raises it unwrapped, while the rethrow policy raises a different throwable, a Rethrow whose cause is it |
| ThrowsOr.ThrowsOr.IsEmpty | src/main/java/com/rezzedup/util/exceptional/ThrowsOr.java:196 | true exactly when the box holds neither value nor exception, i.e. is the same as the shared empty instance; such a box is valid |
| ThrowsOr.ThrowsOr.IsPresent | src/main/java/com/rezzedup/util/exceptional/ThrowsOr.java:205 | true exactly when a value is held; a valid box holding a value holds no exception |
| ThrowsOr.ThrowsOr.IsExceptional | src/main/java/com/rezzedup/util/exceptional/ThrowsOr.java:238 | true exactly when an exception is held; a valid box holding an exception holds no value |
| ThrowsOr.ThrowsOr.Value | src/main/java/com/rezzedup/util/exceptional/ThrowsOr.java:212 | the Optional is present exactly when the box `isPresent()`, and then holds exactly the box's value |
| ThrowsOr.ThrowsOr.Exception | src/main/java/com/rezzedup/util/exceptional/ThrowsOr.java:245 | the Optional is present exactly when the box `isExceptional()`, and then holds exactly the box's exception |
| ThrowsOr.ThrowsOr.GetOrThrow | src/main/java/com/rezzedup/util/exceptional/ThrowsOr.java:224-229 | a held exception comes first and is raised inside a new Rethrow; then a held value is returned; an empty box raises NoSuchElementException |
| ThrowsOr.ThrowsOr.Propagate | src/main/java/com/rezzedup/util/exceptional/ThrowsOr.java:267-272 | succeeds exactly when exceptional, handing back the same exception and no value under any value type; otherwise IllegalStateException "Cannot propagate: not exceptional" |
| ThrowsOr.NewEmpty | src/main/java/com/rezzedup/util/exceptional/ThrowsOr.java:165-169 | the box holds neither value nor exception |
| ThrowsOr.NewValue | src/main/java/com/rezzedup/util/exceptional/ThrowsOr.java:171-175 | null is rejected with NPE "value" (and only null); any non-null value gives a valid box holding exactly that value and no exception |
| ThrowsOr.NewException | src/main/java/com/rezzedup/util/exceptional/ThrowsOr.java:177-181 | null is rejected with NPE "exception" (and only null); any non-null exception gives a valid box holding exactly that exception and no value |
| ThrowsOr.Empty | src/main/java/com/rezzedup/util/exceptional/ThrowsOr.java:35-48 | the shared instance is valid and empty |
| ThrowsOr.Value | src/main/java/com/rezzedup/util/exceptional/ThrowsOr.java:61-64 | null is rejected with NPE "value"; otherwise a valid box holding exactly the value, not exceptional |
| ThrowsOr.Raise | src/main/java/com/rezzedup/util/exceptional/ThrowsOr.java:111-114 | null is rejected with NPE "exception"; otherwise a valid box holding exactly the exception, no value |
| ThrowsOr.RaiseFrom | src/main/java/com/rezzedup/util/exceptional/ThrowsOr.java:128-132 | a null supplier is rejected with NPE "exceptionSupplier"; a raise from the supplier goes through; a supplied null is rejected with NPE "exception"; otherwise an exceptional box with no value |
| ThrowsOr.ValueOr | src/main/java/com/rezzedup/util/exceptional/ThrowsOr.java:78-82 | a null supplier is rejected even when `v` is non-null; a non-null `v` is held; a null `v` gives exactly `raise(supplier)` |
| ThrowsOr.Maybe | src/main/java/com/rezzedup/util/exceptional/ThrowsOr.java:95-98 | never exceptional; empty (the shared instance) if and only if `v` is null; otherwise holds exactly `v` |
| ThrowsOr.Result | src/main/java/com/rezzedup/util/exceptional/ThrowsOr.java:155-160 | a null supplier is rejected with NPE "supplier"; a returned value gives `maybe(value)`; a raised Exception is held; any other throwable goes through |
| ThrowsOr.ExactlyOneState | src/main/java/com/rezzedup/util/exceptional/ThrowsOr.java:196-238 | for every valid box, `isEmpty` holds exactly when neither `isPresent` nor `isExceptional`, and those two never hold together |
| ThrowsOr.EmptyIsShared | src/main/java/com/rezzedup/util/exceptional/ThrowsOr.java:35-160 | every empty box the factories give is the shared instance: `maybe(null)` and `result` of a supplier returning null give `empty()`, and `value(v)` and `raise(e)` never give an empty box |
| ThrowsOr.ValueOrIsLazy | src/main/java/com/rezzedup/util/exceptional/ThrowsOr.java:78-82 | with a non-null value, the supplier has no influence on the result |
| ThrowsOr.FactoriesKeepInvariant | src/main/java/com/rezzedup/util/exceptional/ThrowsOr.java:162-181 | every box the public factories produce holds never both a value and an exception |
| ThrowsOr.MaybeGetRoundTrip | src/main/java/com/rezzedup/util/exceptional/ThrowsOr.java:224-229 | `maybe(v).getOrThrow()` returns `v` for every non-null `v` |
| ThrowsOr.EmptyGetOrThrow | src/main/java/com/rezzedup/util/exceptional/ThrowsOr.java:224-229 | `empty().getOrThrow()` raises NoSuchElementException |
| ThrowsOr.RaisePropagate | src/main/java/com/rezzedup/util/exceptional/ThrowsOr.java:267-272 | an exception held by `raise(f)` survives `propagate()`; a value-holding box refuses to propagate |
| ThrowsOr.ResultRemembersFailure | src/main/java/com/rezzedup/util/exceptional/ThrowsOr.java:155-160 | an Exception raised by the supplier of `result` is raised again, inside a Rethrow, by `getOrThrow()` |
| Attempt.With | src/main/java/com/rezzedup/util/exceptional/Attempt.java:38-47 | null catcher then null supplier rejected before anything runs; a normal return gives a present Optional exactly when the value is non-null; an Exception goes to `catcher.accept`, giving empty when that returns and its throwable when it raises; other throwables go through |
| Attempt.WithAction | src/main/java/com/rezzedup/util/exceptional/Attempt.java:57-64 | the same null checks; returns normally if and only if the action does, or raises an Exception that the catcher accepts without raising; non-Exceptions go through |
| Attempt.Ignoring | src/main/java/com/rezzedup/util/exceptional/Attempt.java:78-81 | an Exception from the supplier gives empty, never a raise; a normal return gives `ofNullable` of it |
| Attempt.IgnoringAction | src/main/java/com/rezzedup/util/exceptional/Attempt.java:91-94 | returns normally whenever the action returns or raises an Exception |
| Attempt.Printing | src/main/java/com/rezzedup/util/exceptional/Attempt.java:108-111 | an Exception from the supplier gives empty, never a raise; a normal return gives `ofNullable` of it |
| Attempt.PrintingAction | src/main/java/com/rezzedup/util/exceptional/Attempt.java:121-124 | returns normally whenever the action returns or raises an Exception |
| Attempt.Rethrowing | src/main/java/com/rezzedup/util/exceptional/Attempt.java:139-142 | an Exception from the supplier raises `Rethrow.caught` of it; a normal return gives `ofNullable` of it |
| Attempt.RethrowingAction | src/main/java/com/rezzedup/util/exceptional/Attempt.java:152-155 | an Exception from the action raises `Rethrow.caught` of it; a normal run returns normally |
| Attempt.FailingSupplier | src/main/java/com/rezzedup/util/exceptional/Attempt.java:38-47 | a supplier raising a plain Exception `f`: ignoring gives empty, rethrowing raises a Rethrow whose cause is `f`, and a catcher that re-raises `f` makes `with` raise `f` itself |
| Checked.Lambda | src/main/java/com/rezzedup/util/exceptional/checked/CheckedIntConsumer.java:39 | a lambda is valid, not an `Impl`, and reports the default catcher `Catcher::rethrow` |
| Checked.Safe | src/main/java/com/rezzedup/util/exceptional/checked/CheckedDoubleBinaryOperator.java:34-39 | the try form's normal result is returned; a raised throwable goes to `catcher().handleOrRethrowError`, after which the default is returned, or what that raises goes out |
| Checked.TryApply | src/main/java/com/rezzedup/util/exceptional/checked/CheckedIntConsumer.java:49-52 | an `Impl` forwards the try form to its origin, so every instance's try form is its bottom implementation's operation |
| Checked.Swap | src/main/java/com/rezzedup/util/exceptional/checked/CheckedIntConsumer.java:45-61 | the result reports the requested catcher, and swapping keeps the no-`Impl`-of-`Impl` invariant |
| Checked.WithCatcher | src/main/java/com/rezzedup/util/exceptional/checked/CheckedIntConsumer.java:42-62 | null is rejected with NPE "catcher"; the catcher already reported gives the same instance; the root's catcher gives the root; any other gives a new `Impl` over the root |
| Checked.Instantiate | src/main/java/com/rezzedup/util/exceptional/checked/Checked.java:14 | the private constructor always raises UnsupportedOperationException |
| Checked.ImplToString | src/main/java/com/rezzedup/util/exceptional/checked/Checked.java:16-19 | the class name, `{origin=`, the origin, `, catcher=`, the catcher and `}`, in that order and nothing else |
| Checked.Render | src/main/java/com/rezzedup/util/exceptional/checked/CheckedIntConsumer.java:58 | a plain implementation renders as its own text; a valid `Impl` renders as `implToString` over its class name, its origin's (the root's) text and its catcher's text |
| Checked.SwapReportsCatcher | src/main/java/com/rezzedup/util/exceptional/checked/CheckedIntConsumer.java:55 | `x.catcher(c).catcher()` is `c` |
| Checked.SwapToOwnCatcher | src/main/java/com/rezzedup/util/exceptional/checked/CheckedIntConsumer.java:45 | `x.catcher(x.catcher())` is `x` itself |
| Checked.SwapIdempotent | src/main/java/com/rezzedup/util/exceptional/checked/CheckedIntConsumer.java:45-61 | `x.catcher(c).catcher(c)` is `x.catcher(c)` |
| Checked.SwapToOtherCatcherIsNew | src/main/java/com/rezzedup/util/exceptional/checked/CheckedIntConsumer.java:45-61 | a catcher other than the one reported never gives the same instance back |
| Checked.SwapKeepsTryForm | src/main/java/com/rezzedup/util/exceptional/checked/CheckedIntConsumer.java:52 | after any swap the try form does exactly what the original's did, however deep the chain of origins |
| Checked.TryFormIsRoots | src/main/java/com/rezzedup/util/exceptional/checked/CheckedIntConsumer.java:49-52 | the try form of any instance is that of the implementation at the bottom of its origins |
| Checked.SwapKeepsRoot | src/main/java/com/rezzedup/util/exceptional/checked/CheckedIntConsumer.java:61 | swapping never changes the bottom implementation |
| Checked.SwapNeverNests | src/main/java/com/rezzedup/util/exceptional/checked/CheckedIntConsumer.java:61 | swapping a valid instance gives an instance whose origin, if any, is not an `Impl` |
| Checked.SwapBackToOrigin | src/main/java/com/rezzedup/util/exceptional/checked/CheckedIntConsumer.java:61 | swapping an `Impl` to its origin's catcher gives the origin itself |
| Checked.SwapsFromLambda | src/main/java/com/rezzedup/util/exceptional/checked/CheckedIntConsumer.java:39-61 | every instance reachable from a lambda by any sequence of swaps is valid and has that lambda at its bottom |
| Checked.SwapMeetsContract | src/main/java/com/rezzedup/util/exceptional/checked/CheckedIntConsumer.java:42-62 | the recursive swap meets the closed-form description of `catcher(c)` for every valid instance |
| Checked.SafeLetsErrorsThrough | src/main/java/com/rezzedup/util/exceptional/checked/CheckedIntConsumer.java:35 | an Error from the try form comes out of the safe form unchanged, whatever the catcher |
| Checked.SafeIgnoringGivesDefault | src/main/java/com/rezzedup/util/exceptional/checked/CheckedIntConsumer.java:32-36 | with the ignore or print policy, every raised non-Error becomes the default result |
| Checked.SafeLambdaRethrows | src/main/java/com/rezzedup/util/exceptional/checked/CheckedIntConsumer.java:32-39 | with the default catcher, a lambda's safe form raises a Rethrow carrying each non-Error of its try form |
| Checked.SafeAfterSwap | src/main/java/com/rezzedup/util/exceptional/checked/CheckedIntConsumer.java:47-61 | after `catcher(c)`, the safe form is the original try form governed by `c` |
| Checked.RenderNamesRoot | src/main/java/com/rezzedup/util/exceptional/checked/CheckedIntConsumer.java:58 | the text of a swapped `Impl` is `implToString` over the original implementation's text and the new catcher, so it names the original as `origin=` |
| Checked.SwapScenario | src/test/java/com/rezzedup/util/exceptional/CheckedInterfacesTests.java:24-48 | a lambda swapped to `c1` reports `c1`, re-swapping to `c1` gives it back, a different `c2` gives a new instance, and both texts contain `origin=` and the lambda's text |
| CheckedBiPredicate.Lambda | src/main/java/com/rezzedup/util/exceptional/checked/CheckedBiPredicate.java:40 | a lambda reports the default catcher `Catcher::rethrow` |
| CheckedBiPredicate.Test | src/main/java/com/rezzedup/util/exceptional/checked/CheckedBiPredicate.java:32-37 | the try form's normal result is returned as is; a raised throwable goes to `handleOrRethrowError` of `catcher()`, then `false` is returned, or what that raises goes out |
| CheckedBiPredicate.WithCatcher | src/main/java/com/rezzedup/util/exceptional/checked/CheckedBiPredicate.java:43-63 | null is rejected with NPE "catcher"; the catcher already reported gives the same instance; the root's catcher gives the root; any other gives a new `Impl` over the root |
| CheckedBinaryOperator.Lambda | src/main/java/com/rezzedup/util/exceptional/checked/CheckedBinaryOperator.java:39 | a lambda reports the default catcher `Catcher::rethrow` |
| CheckedBinaryOperator.Apply | src/main/java/com/rezzedup/util/exceptional/checked/CheckedBinaryOperator.java:32-37 | the try form's normal result is returned as is; a raised throwable goes to `handleOrRethrowError` of `catcher()`, then `null` is returned, or what that raises goes out |
| CheckedBinaryOperator.WithCatcher | src/main/java/com/rezzedup/util/exceptional/checked/CheckedBinaryOperator.java:41-61 | null is rejected with NPE "catcher"; the catcher already reported gives the same instance; the root's catcher gives the root; any other gives a new `Impl` over the root |
| CheckedBooleanSupplier.Lambda | src/main/java/com/rezzedup/util/exceptional/checked/CheckedBooleanSupplier.java:38 | a lambda reports the default catcher `Catcher::rethrow` |
| CheckedBooleanSupplier.GetAsBoolean | src/main/java/com/rezzedup/util/exceptional/checked/CheckedBooleanSupplier.java:31-36 | the try form's normal result is returned as is; a raised throwable goes to `handleOrRethrowError` of `catcher()`, then `false` is returned, or what that raises goes out |
| CheckedBooleanSupplier.WithCatcher | src/main/java/com/rezzedup/util/exceptional/checked/CheckedBooleanSupplier.java:40-60 | null is rejected with NPE "catcher"; the catcher already reported gives the same instance; the root's catcher gives the root; any other gives a new `Impl` over the root |
| CheckedDoubleBinaryOperator.Lambda | src/main/java/com/rezzedup/util/exceptional/checked/CheckedDoubleBinaryOperator.java:42 | a lambda reports the default catcher `Catcher::rethrow` |
| CheckedDoubleBinaryOperator.ApplyAsDouble | src/main/java/com/rezzedup/util/exceptional/checked/CheckedDoubleBinaryOperator.java:34-39 | the try form's normal result is returned as is; a raised throwable goes to `handleOrRethrowError` of `catcher()`, then `0.0` is returned, or what that raises goes out |
| CheckedDoubleBinaryOperator.WithCatcher | src/main/java/com/rezzedup/util/exceptional/checked/CheckedDoubleBinaryOperator.java:45-68 | null is rejected with NPE "catcher"; the catcher already reported gives the same instance; the root's catcher gives the root; any other gives a new `Impl` over the root |
| CheckedDoubleConsumer.Lambda | src/main/java/com/rezzedup/util/exceptional/checked/CheckedDoubleConsumer.java:41 | a lambda reports the default catcher `Catcher::rethrow` |
| CheckedDoubleConsumer.Accept | src/main/java/com/rezzedup/util/exceptional/checked/CheckedDoubleConsumer.java:34-38 | the try form's normal result is returned as is; a raised throwable goes to `handleOrRethrowError` of `catcher()`, then nothing is returned, or what that raises goes out |
| CheckedDoubleConsumer.WithCatcher | src/main/java/com/rezzedup/util/exceptional/checked/CheckedDoubleConsumer.java:44-64 | null is rejected with NPE "catcher"; the catcher already reported gives the same instance; the root's catcher gives the root; any other gives a new `Impl` over the root |
| CheckedDoubleFunction.Lambda | src/main/java/com/rezzedup/util/exceptional/checked/CheckedDoubleFunction.java:43 | a lambda reports the default catcher `Catcher::rethrow` |
| CheckedDoubleFunction.Apply | src/main/java/com/rezzedup/util/exceptional/checked/CheckedDoubleFunction.java:35-40 | the try form's normal result is returned as is; a raised throwable goes to `handleOrRethrowError` of `catcher()`, then `null` is returned, or what that raises goes out |
| CheckedDoubleFunction.WithCatcher | src/main/java/com/rezzedup/util/exceptional/checked/CheckedDoubleFunction.java:46-66 | null is rejected with NPE "catcher"; the catcher already reported gives the same instance; the root's catcher gives the root; any other gives a new `Impl` over the root |
| CheckedDoublePredicate.Lambda | src/main/java/com/rezzedup/util/exceptional/checked/CheckedDoublePredicate.java:42 | a lambda reports the default catcher `Catcher::rethrow` |
| CheckedDoublePredicate.Test | src/main/java/com/rezzedup/util/exceptional/checked/CheckedDoublePredicate.java:34-39 | the try form's normal result is returned as is; a raised throwable goes to `handleOrRethrowError` of `catcher()`, then `false` is returned, or what that raises goes out |
| CheckedDoublePredicate.WithCatcher | src/main/java/com/rezzedup/util/exceptional/checked/CheckedDoublePredicate.java:45-65 | null is rejected with NPE "catcher"; the catcher already reported gives the same instance; the root's catcher gives the root; any other gives a new `Impl` over the root |
| CheckedDoubleSupplier.Lambda | src/main/java/com/rezzedup/util/exceptional/checked/CheckedDoubleSupplier.java:40 | a lambda reports the default catcher `Catcher::rethrow` |
| CheckedDoubleSupplier.GetAsDouble | src/main/java/com/rezzedup/util/exceptional/checked/CheckedDoubleSupplier.java:32-37 | the try form's normal result is returned as is; a raised throwable goes to `handleOrRethrowError` of `catcher()`, then `0.0` is returned, or what that raises goes out |
| CheckedDoubleSupplier.WithCatcher | src/main/java/com/rezzedup/util/exceptional/checked/CheckedDoubleSupplier.java:43-63 | null is rejected with NPE "catcher"; the catcher already reported gives the same instance; the root's catcher gives the root; any other gives a new `Impl` over the root |
| CheckedDoubleToIntFunction.Lambda | src/main/java/com/rezzedup/util/exceptional/checked/CheckedDoubleToIntFunction.java:42 | a lambda reports the default catcher `Catcher::rethrow` |
| CheckedDoubleToIntFunction.ApplyAsInt | src/main/java/com/rezzedup/util/exceptional/checked/CheckedDoubleToIntFunction.java:34-39 | the try form's normal result is returned as is; a raised throwable goes to `handleOrRethrowError` of `catcher()`, then `0` is returned, or what that raises goes out |
| CheckedDoubleToIntFunction.WithCatcher | src/main/java/com/rezzedup/util/exceptional/checked/CheckedDoubleToIntFunction.java:45-65 | null is rejected with NPE "catcher"; the catcher already reported gives the same instance; the root's catcher gives the root; any other gives a new `Impl` over the root |
| CheckedDoubleToLongFunction.Lambda | src/main/java/com/rezzedup/util/exceptional/checked/CheckedDoubleToLongFunction.java:42 | a lambda reports the default catcher `Catcher::rethrow` |
| CheckedDoubleToLongFunction.ApplyAsLong | src/main/java/com/rezzedup/util/exceptional/checked/CheckedDoubleToLongFunction.java:34-39 | the try form's normal result is returned as is; a raised throwable goes to `handleOrRethrowError` of `catcher()`, then `0` is returned, or what that raises goes out |
| CheckedDoubleToLongFunction.WithCatcher | src/main/java/com/rezzedup/util/exceptional/checked/CheckedDoubleToLongFunction.java:45-65 | null is rejected with NPE "catcher"; the catcher already reported gives the same instance; the root's catcher gives the root; any other gives a new `Impl` over the root |
| CheckedDoubleUnaryOperator.Lambda | src/main/java/com/rezzedup/util/exceptional/checked/CheckedDoubleUnaryOperator.java:42 | a lambda reports the default catcher `Catcher::rethrow` |
| CheckedDoubleUnaryOperator.ApplyAsDouble | src/main/java/com/rezzedup/util/exceptional/checked/CheckedDoubleUnaryOperator.java:34-39 | the try form's normal result is returned as is; a raised throwable goes to `handleOrRethrowError` of `catcher()`, then `0.0` is returned, or what that raises goes out |
| CheckedDoubleUnaryOperator.WithCatcher | src/main/java/com/rezzedup/util/exceptional/checked/CheckedDoubleUnaryOperator.java:45-65 | null is rejected with NPE "catcher"; the catcher already reported gives the same instance; the root's catcher gives the root; any other gives a new `Impl` over the root |
| CheckedIntBinaryOperator.Lambda | src/main/java/com/rezzedup/util/exceptional/checked/CheckedIntBinaryOperator.java:42 | a lambda reports the default catcher `Catcher::rethrow` |
| CheckedIntBinaryOperator.ApplyAsInt | src/main/java/com/rezzedup/util/exceptional/checked/CheckedIntBinaryOperator.java:34-39 | the try form's normal result is returned as is; a raised throwable goes to `handleOrRethrowError` of `catcher()`, then `0` is returned, or what that raises goes out |
| CheckedIntBinaryOperator.WithCatcher | src/main/java/com/rezzedup/util/exceptional/checked/CheckedIntBinaryOperator.java:45-68 | null is rejected with NPE "catcher"; the catcher already reported gives the same instance; the root's catcher gives the root; any other gives a new `Impl` over the root |
| CheckedIntConsumer.Lambda | src/main/java/com/rezzedup/util/exceptional/checked/CheckedIntConsumer.java:39 | a lambda reports the default catcher `Catcher::rethrow` |
| CheckedIntConsumer.Accept | src/main/java/com/rezzedup/util/exceptional/checked/CheckedIntConsumer.java:32-36 | the try form's normal result is returned as is; a raised throwable goes to `handleOrRethrowError` of `catcher()`, then nothing is returned, or what that raises goes out |
| CheckedIntConsumer.WithCatcher | src/main/java/com/rezzedup/util/exceptional/checked/CheckedIntConsumer.java:42-62 | null is rejected with NPE "catcher"; the catcher already reported gives the same instance; the root's catcher gives the root; any other gives a new `Impl` over the root |
| CheckedIntFunction.Lambda | src/main/java/com/rezzedup/util/exceptional/checked/CheckedIntFunction.java:41 | a lambda reports the default catcher `Catcher::rethrow` |
| CheckedIntFunction.Apply | src/main/java/com/rezzedup/util/exceptional/checked/CheckedIntFunction.java:33-38 | the try form's normal result is returned as is; a raised throwable goes to `handleOrRethrowError` of `catcher()`, then `null` is returned, or what that raises goes out |
| CheckedIntFunction.WithCatcher | src/main/java/com/rezzedup/util/exceptional/checked/CheckedIntFunction.java:44-64 | null is rejected with NPE "catcher"; the catcher already reported gives the same instance; the root's catcher gives the root; any other gives a new `Impl` over the root |
| CheckedIntPredicate.Lambda | src/main/java/com/rezzedup/util/exceptional/checked/CheckedIntPredicate.java:40 | a lambda reports the default catcher `Catcher::rethrow` |
| CheckedIntPredicate.Test | src/main/java/com/rezzedup/util/exceptional/checked/CheckedIntPredicate.java:32-37 | the try form's normal result is returned as is; a raised throwable goes to `handleOrRethrowError` of `catcher()`, then `false` is returned, or what that raises goes out |
| CheckedIntPredicate.WithCatcher | src/main/java/com/rezzedup/util/exceptional/checked/CheckedIntPredicate.java:43-63 | null is rejected with NPE "catcher"; the catcher already reported gives the same instance; the root's catcher gives the root; any other gives a new `Impl` over the root |
| CheckedIntSupplier.Lambda | src/main/java/com/rezzedup/util/exceptional/checked/CheckedIntSupplier.java:40 | a lambda reports the default catcher `Catcher::rethrow` |
| CheckedIntSupplier.GetAsInt | src/main/java/com/rezzedup/util/exceptional/checked/CheckedIntSupplier.java:32-37 | the try form's normal result is returned as is; a raised throwable goes to `handleOrRethrowError` of `catcher()`, then `0` is returned, or what that raises goes out |
| CheckedIntSupplier.WithCatcher | src/main/java/com/rezzedup/util/exceptional/checked/CheckedIntSupplier.java:43-63 | null is rejected with NPE "catcher"; the catcher already reported gives the same instance; the root's catcher gives the root; any other gives a new `Impl` over the root |
| CheckedIntToDoubleFunction.Lambda | src/main/java/com/rezzedup/util/exceptional/checked/CheckedIntToDoubleFunction.java:42 | a lambda reports the default catcher `Catcher::rethrow` |
| CheckedIntToDoubleFunction.ApplyAsDouble | src/main/java/com/rezzedup/util/exceptional/checked/CheckedIntToDoubleFunction.java:34-39 | the try form's normal result is returned as is; a raised throwable goes to `handleOrRethrowError` of `catcher()`, then `0.0` is returned, or what that raises goes out |
| CheckedIntToDoubleFunction.WithCatcher | src/main/java/com/rezzedup/util/exceptional/checked/CheckedIntToDoubleFunction.java:45-68 | null is rejected with NPE "catcher"; the catcher already reported gives the same instance; the root's catcher gives the root; any other gives a new `Impl` over the root |
| CheckedIntToLongFunction.Lambda | src/main/java/com/rezzedup/util/exceptional/checked/CheckedIntToLongFunction.java:42 | a lambda reports the default catcher `Catcher::rethrow` |
| CheckedIntToLongFunction.ApplyAsLong | src/main/java/com/rezzedup/util/exceptional/checked/CheckedIntToLongFunction.java:34-39 | the try form's normal result is returned as is; a raised throwable goes to `handleOrRethrowError` of `catcher()`, then `0` is returned, or what that raises goes out |
| CheckedIntToLongFunction.WithCatcher | src/main/java/com/rezzedup/util/exceptional/checked/CheckedIntToLongFunction.java:45-68 | null is rejected with NPE "catcher"; the catcher already reported gives the same instance; the root's catcher gives the root; any other gives a new `Impl` over the root |
| CheckedIntUnaryOperator.Lambda | src/main/java/com/rezzedup/util/exceptional/checked/CheckedIntUnaryOperator.java:42 | a lambda reports the default catcher `Catcher::rethrow` |
| CheckedIntUnaryOperator.ApplyAsInt | src/main/java/com/rezzedup/util/exceptional/checked/CheckedIntUnaryOperator.java:34-39 | the try form's normal result is returned as is; a raised throwable goes to `handleOrRethrowError` of `catcher()`, then `0` is returned, or what that raises goes out |
| CheckedIntUnaryOperator.WithCatcher | src/main/java/com/rezzedup/util/exceptional/checked/CheckedIntUnaryOperator.java:45-65 | null is rejected with NPE "catcher"; the catcher already reported gives the same instance; the root's catcher gives the root; any other gives a new `Impl` over the root |
| CheckedLongBinaryOperator.Lambda | src/main/java/com/rezzedup/util/exceptional/checked/CheckedLongBinaryOperator.java:40 | a lambda reports the default catcher `Catcher::rethrow` |
| CheckedLongBinaryOperator.ApplyAsLong | src/main/java/com/rezzedup/util/exceptional/checked/CheckedLongBinaryOperator.java:32-37 | the try form's normal result is returned as is; a raised throwable goes to `handleOrRethrowError` of `catcher()`, then `0` is returned, or what that raises goes out |
| CheckedLongBinaryOperator.WithCatcher | src/main/java/com/rezzedup/util/exceptional/checked/CheckedLongBinaryOperator.java:43-66 | null is rejected with NPE "catcher"; the catcher already reported gives the same instance; the root's catcher gives the root; any other gives a new `Impl` over the root |
| CheckedLongConsumer.Lambda | src/main/java/com/rezzedup/util/exceptional/checked/CheckedLongConsumer.java:41 | a lambda reports the default catcher `Catcher::rethrow` |
| CheckedLongConsumer.Accept | src/main/java/com/rezzedup/util/exceptional/checked/CheckedLongConsumer.java:34-38 | the try form's normal result is returned as is; a raised throwable goes to `handleOrRethrowError` of `catcher()`, then nothing is returned, or what that raises goes out |
| CheckedLongConsumer.WithCatcher | src/main/java/com/rezzedup/util/exceptional/checked/CheckedLongConsumer.java:44-64 | null is rejected with NPE "catcher"; the catcher already reported gives the same instance; the root's catcher gives the root; any other gives a new `Impl` over the root |
| CheckedLongFunction.Lambda | src/main/java/com/rezzedup/util/exceptional/checked/CheckedLongFunction.java:41 | a lambda reports the default catcher `Catcher::rethrow` |
| CheckedLongFunction.Apply | src/main/java/com/rezzedup/util/exceptional/checked/CheckedLongFunction.java:33-38 | the try form's normal result is returned as is; a raised throwable goes to `handleOrRethrowError` of `catcher()`, then `null` is returned, or what that raises goes out |
| CheckedLongFunction.WithCatcher | src/main/java/com/rezzedup/util/exceptional/checked/CheckedLongFunction.java:44-64 | null is rejected with NPE "catcher"; the catcher already reported gives the same instance; the root's catcher gives the root; any other gives a new `Impl` over the root |
| CheckedLongPredicate.Lambda | src/main/java/com/rezzedup/util/exceptional/checked/CheckedLongPredicate.java:40 | a lambda reports the default catcher `Catcher::rethrow` |
| CheckedLongPredicate.Test | src/main/java/com/rezzedup/util/exceptional/checked/CheckedLongPredicate.java:32-37 | the try form's normal result is returned as is; a raised throwable goes to `handleOrRethrowError` of `catcher()`, then `false` is returned, or what that raises goes out |
| CheckedLongPredicate.WithCatcher | src/main/java/com/rezzedup/util/exceptional/checked/CheckedLongPredicate.java:43-63 | null is rejected with NPE "catcher"; the catcher already reported gives the same instance; the root's catcher gives the root; any other gives a new `Impl` over the root |
| CheckedLongSupplier.Lambda | src/main/java/com/rezzedup/util/exceptional/checked/CheckedLongSupplier.java:42 | a lambda reports the default catcher `Catcher::rethrow` |
| CheckedLongSupplier.GetAsLong | src/main/java/com/rezzedup/util/exceptional/checked/CheckedLongSupplier.java:34-39 | the try form's normal result is returned as is; a raised throwable goes to `handleOrRethrowError` of `catcher()`, then `0` is returned, or what that raises goes out |
| CheckedLongSupplier.WithCatcher | src/main/java/com/rezzedup/util/exceptional/checked/CheckedLongSupplier.java:45-65 | null is rejected with NPE "catcher"; the catcher already reported gives the same instance; the root's catcher gives the root; any other gives a new `Impl` over the root |
| CheckedLongToDoubleFunction.Lambda | src/main/java/com/rezzedup/util/exceptional/checked/CheckedLongToDoubleFunction.java:40 | a lambda reports the default catcher `Catcher::rethrow` |
| CheckedLongToDoubleFunction.ApplyAsDouble | src/main/java/com/rezzedup/util/exceptional/checked/CheckedLongToDoubleFunction.java:32-37 | the try form's normal result is returned as is; a raised throwable goes to `handleOrRethrowError` of `catcher()`, then `0.0` is returned, or what that raises goes out |
| CheckedLongToDoubleFunction.WithCatcher | src/main/java/com/rezzedup/util/exceptional/checked/CheckedLongToDoubleFunction.java:43-63 | null is rejected with NPE "catcher"; the catcher already reported gives the same instance; the root's catcher gives the root; any other gives a new `Impl` over the root |
| CheckedLongToIntFunction.Lambda | src/main/java/com/rezzedup/util/exceptional/checked/CheckedLongToIntFunction.java:42 | a lambda reports the default catcher `Catcher::rethrow` |
| CheckedLongToIntFunction.ApplyAsInt | src/main/java/com/rezzedup/util/exceptional/checked/CheckedLongToIntFunction.java:34-39 | the try form's normal result is returned as is; a raised throwable goes to `handleOrRethrowError` of `catcher()`, then `0` is returned, or what that raises goes out |
| CheckedLongToIntFunction.WithCatcher | src/main/java/com/rezzedup/util/exceptional/checked/CheckedLongToIntFunction.java:45-65 | null is rejected with NPE "catcher"; the catcher already reported gives the same instance; the root's catcher gives the root; any other gives a new `Impl` over the root |
| CheckedLongUnaryOperator.Lambda | src/main/java/com/rezzedup/util/exceptional/checked/CheckedLongUnaryOperator.java:42 | a lambda reports the default catcher `Catcher::rethrow` |
| CheckedLongUnaryOperator.ApplyAsLong | src/main/java/com/rezzedup/util/exceptional/checked/CheckedLongUnaryOperator.java:34-39 | the try form's normal result is returned as is; a raised throwable goes to `handleOrRethrowError` of `catcher()`, then `0` is returned, or what that raises goes out |
| CheckedLongUnaryOperator.WithCatcher | src/main/java/com/rezzedup/util/exceptional/checked/CheckedLongUnaryOperator.java:45-65 | null is rejected with NPE "catcher"; the catcher already reported gives the same instance; the root's catcher gives the root; any other gives a new `Impl` over the root |
| CheckedObjDoubleConsumer.Lambda | src/main/java/com/rezzedup/util/exceptional/checked/CheckedObjDoubleConsumer.java:41 | a lambda reports the default catcher `Catcher::rethrow` |
| CheckedObjDoubleConsumer.Accept | src/main/java/com/rezzedup/util/exceptional/checked/CheckedObjDoubleConsumer.java:34-38 | the try form's normal result is returned as is; a raised throwable goes to `handleOrRethrowError` of `catcher()`, then nothing is returned, or what that raises goes out |
| CheckedObjDoubleConsumer.WithCatcher | src/main/java/com/rezzedup/util/exceptional/checked/CheckedObjDoubleConsumer.java:44-64 | null is rejected with NPE "catcher"; the catcher already reported gives the same instance; the root's catcher gives the root; any other gives a new `Impl` over the root |
| CheckedObjIntConsumer.Lambda | src/main/java/com/rezzedup/util/exceptional/checked/CheckedObjIntConsumer.java:41 | a lambda reports the default catcher `Catcher::rethrow` |
| CheckedObjIntConsumer.Accept | src/main/java/com/rezzedup/util/exceptional/checked/CheckedObjIntConsumer.java:34-38 | the try form's normal result is returned as is; a raised throwable goes to `handleOrRethrowError` of `catcher()`, then nothing is returned, or what that raises goes out |
| CheckedObjIntConsumer.WithCatcher | src/main/java/com/rezzedup/util/exceptional/checked/CheckedObjIntConsumer.java:44-64 | null is rejected with NPE "catcher"; the catcher already reported gives the same instance; the root's catcher gives the root; any other gives a new `Impl` over the root |
| CheckedObjLongConsumer.Lambda | src/main/java/com/rezzedup/util/exceptional/checked/CheckedObjLongConsumer.java:41 | a lambda reports the default catcher `Catcher::rethrow` |
| CheckedObjLongConsumer.Accept | src/main/java/com/rezzedup/util/exceptional/checked/CheckedObjLongConsumer.java:34-38 | the try form's normal result is returned as is; a raised throwable goes to `handleOrRethrowError` of `catcher()`, then nothing is returned, or what that raises goes out |
| CheckedObjLongConsumer.WithCatcher | src/main/java/com/rezzedup/util/exceptional/checked/CheckedObjLongConsumer.java:44-64 | null is rejected with NPE "catcher"; the catcher already reported gives the same instance; the root's catcher gives the root; any other gives a new `Impl` over the root |
| CheckedPredicate.Lambda | src/main/java/com/rezzedup/util/exceptional/checked/CheckedPredicate.java:42 | a lambda reports the default catcher `Catcher::rethrow` |
| CheckedPredicate.Test | src/main/java/com/rezzedup/util/exceptional/checked/CheckedPredicate.java:34-39 | the try form's normal result is returned as is; a raised throwable goes to `handleOrRethrowError` of `catcher()`, then `false` is returned, or what that raises goes out |
| CheckedPredicate.WithCatcher | src/main/java/com/rezzedup/util/exceptional/checked/CheckedPredicate.java:45-65 | null is rejected with NPE "catcher"; the catcher already reported gives the same instance; the root's catcher gives the root; any other gives a new `Impl` over the root |
| CheckedToDoubleBiFunction.Lambda | src/main/java/com/rezzedup/util/exceptional/checked/CheckedToDoubleBiFunction.java:42 | a lambda reports the default catcher `Catcher::rethrow` |
| CheckedToDoubleBiFunction.ApplyAsDouble | src/main/java/com/rezzedup/util/exceptional/checked/CheckedToDoubleBiFunction.java:34-39 | the try form's normal result is returned as is; a raised throwable goes to `handleOrRethrowError` of `catcher()`, then `0.0` is returned, or what that raises goes out |
| CheckedToDoubleBiFunction.WithCatcher | src/main/java/com/rezzedup/util/exceptional/checked/CheckedToDoubleBiFunction.java:45-65 | null is rejected with NPE "catcher"; the catcher already reported gives the same instance; the root's catcher gives the root; any other gives a new `Impl` over the root |
| CheckedToDoubleFunction.Lambda | src/main/java/com/rezzedup/util/exceptional/checked/CheckedToDoubleFunction.java:42 | a lambda reports the default catcher `Catcher::rethrow` |
| CheckedToDoubleFunction.ApplyAsDouble | src/main/java/com/rezzedup/util/exceptional/checked/CheckedToDoubleFunction.java:34-39 | the try form's normal result is returned as is; a raised throwable goes to `handleOrRethrowError` of `catcher()`, then `0.0` is returned, or what that raises goes out |
| CheckedToDoubleFunction.WithCatcher | src/main/java/com/rezzedup/util/exceptional/checked/CheckedToDoubleFunction.java:45-65 | null is rejected with NPE "catcher"; the catcher already reported gives the same instance; the root's catcher gives the root; any other gives a new `Impl` over the root |
| CheckedToIntBiFunction.Lambda | src/main/java/com/rezzedup/util/exceptional/checked/CheckedToIntBiFunction.java:42 | a lambda reports the default catcher `Catcher::rethrow` |
| CheckedToIntBiFunction.ApplyAsInt | src/main/java/com/rezzedup/util/exceptional/checked/CheckedToIntBiFunction.java:34-39 | the try form's normal result is returned as is; a raised throwable goes to `handleOrRethrowError` of `catcher()`, then `0` is returned, or what that raises goes out |
| CheckedToIntBiFunction.WithCatcher | src/main/java/com/rezzedup/util/exceptional/checked/CheckedToIntBiFunction.java:45-65 | null is rejected with NPE "catcher"; the catcher already reported gives the same instance; the root's catcher gives the root; any other gives a new `Impl` over the root |
| CheckedToIntFunction.Lambda | src/main/java/com/rezzedup/util/exceptional/checked/CheckedToIntFunction.java:42 | a lambda reports the default catcher `Catcher::rethrow` |
| CheckedToIntFunction.ApplyAsInt | src/main/java/com/rezzedup/util/exceptional/checked/CheckedToIntFunction.java:34-39 | the try form's normal result is returned as is; a raised throwable goes to `handleOrRethrowError` of `catcher()`, then `0` is returned, or what that raises goes out |
| CheckedToIntFunction.WithCatcher | src/main/java/com/rezzedup/util/exceptional/checked/CheckedToIntFunction.java:45-65 | null is rejected with NPE "catcher"; the catcher already reported gives the same instance; the root's catcher gives the root; any other gives a new `Impl` over the root |
| CheckedToLongBiFunction.Lambda | src/main/java/com/rezzedup/util/exceptional/checked/CheckedToLongBiFunction.java:42 | a lambda reports the default catcher `Catcher::rethrow` |
| CheckedToLongBiFunction.ApplyAsLong | src/main/java/com/rezzedup/util/exceptional/checked/CheckedToLongBiFunction.java:34-39 | the try form's normal result is returned as is; a raised throwable goes to `handleOrRethrowError` of `catcher()`, then `0` is returned, or what that raises goes out |
| CheckedToLongBiFunction.WithCatcher | src/main/java/com/rezzedup/util/exceptional/checked/CheckedToLongBiFunction.java:45-65 | null is rejected with NPE "catcher"; the catcher already reported gives the same instance; the root's catcher gives the root; any other gives a new `Impl` over the root |
| CheckedToLongFunction.Lambda | src/main/java/com/rezzedup/util/exceptional/checked/CheckedToLongFunction.java:42 | a lambda reports the default catcher `Catcher::rethrow` |
| CheckedToLongFunction.ApplyAsLong | src/main/java/com/rezzedup/util/exceptional/checked/CheckedToLongFunction.java:34-39 | the try form's normal result is returned as is; a raised throwable goes to `handleOrRethrowError` of `catcher()`, then `0` is returned, or what that raises goes out |
| CheckedToLongFunction.WithCatcher | src/main/java/com/rezzedup/util/exceptional/checked/CheckedToLongFunction.java:45-65 | null is rejected with NPE "catcher"; the catcher already reported gives the same instance; the root's catcher gives the root; any other gives a new `Impl` over the root |
| CheckedUnaryOperator.Lambda | src/main/java/com/rezzedup/util/exceptional/checked/CheckedUnaryOperator.java:43 | a lambda reports the default catcher `Catcher::rethrow` |
| CheckedUnaryOperator.Apply | src/main/java/com/rezzedup/util/exceptional/checked/CheckedUnaryOperator.java:35-40 | the try form's normal result is returned as is; a raised throwable goes to `handleOrRethrowError` of `catcher()`, then `null` is returned, or what that raises goes out |
| CheckedUnaryOperator.WithCatcher | src/main/java/com/rezzedup/util/exceptional/checked/CheckedUnaryOperator.java:46-66 | null is rejected with NPE "catcher"; the catcher already reported gives the same instance; the root's catcher gives the root; any other gives a new `Impl` over the root |

## Left out

- Printing: `Catcher.print` writes a stack trace to standard error; the model only states that it returns normally.
- The type-erasure cast in `Sneaky.sneak` has no Dafny counterpart; only its effect, raising the very same throwable, is modelled.
- `Rethrow.caught` is called by `Catcher.rethrow` (Catcher.java, line 63), but Rethrow.java in this version of the library does not declare it. `Rethrow.Caught` stands in for it, with the behaviour the library documents: an existing Rethrow is reused, anything else is wrapped. Contracts rely only on its yielding a Rethrow that is the argument or carries it.
- `Catcher.Swap` is extended by every checked interface, but Catcher.java in this version of the library declares only `Catcher.Source`; `Sneaky.catcher` is used by SneakyTests.java, but Sneaky.java does not declare it. The swap each checked interface implements is modelled directly.
- The static `of(op)` and `of(catcher, op)` of each checked interface are not modelled as members: the first returns its argument, the second is exactly `op.catcher(catcher)` (`WithCatcher`).
- The abstract try forms (`applyAsDoubleOrThrow` and the rest) are parameters of the model: a lambda's behaviour is a Dafny function from arguments to outcomes.
- Object identity is structural: a fresh `Rethrow`, a fresh `Impl` or a fresh `ThrowsOr` is a value. Two equal `Impl` values built by separate calls would be two objects in Java; the model only claims "the same instance" where the Java code returns `this` or the origin.
- `Catcher::rethrow` written outside a default `catcher()` evaluates to a different object in Java. The model represents such a catcher by another token with the rethrow policy; that the JVM returns one shared object from each default `catcher()` is assumed.
- The messages of NullPointerExceptions raised by `throw null` are not modelled (`Sneaky.Thrown` uses an empty message).
- IEEE 754 details of `double` are not modelled: doubles are only passed through or returned as `0.0`, so `Double` is the reals.
- `Object.toString()` of origins and catchers, and `Class.getName()` of an `Impl`, are parameters of `Checked.Render`.
- `Unchecked`, the legacy `unchecked` adapters of `CheckedBiConsumer`, `CheckedConsumer`, `CheckedBiFunction`, `CheckedFunction`, `CheckedSupplier` and `CheckedRunnable`, and `ExceptionHandler` are outside the modelled core: they only forward to `Rethrow.caught` or duplicate the Catcher policies.
- The `synchronized` modifier of `Rethrow.getCause` has no effect on the model: there is no concurrency.
- Checked.WithCatcher: requires `Valid`, as does each interface's `WithCatcher`: an `Impl` whose origin is an `Impl` cannot be built through the library, and the closed-form contract is stated for reachable instances only.
