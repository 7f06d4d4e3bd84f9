# Butter Knife runtime: binder resolution and view-lookup helpers

This project models, in Dafny, the runtime half of Butter Knife, an
annotation-driven view-binding library for Android:

- **Binder resolution and dispatch** (`ButterKnife.java`). `bind` and
  `unbind` find the generated view binder for the target's class and
  delegate to it. The search order is fixed. First comes the process-wide
  `BINDERS` cache. Classes named `android.…` or `java.…` get the shared
  no-op binder. Otherwise the search tries the class `<name>$$ViewBinder`,
  and if that class does not exist it moves to the superclass. When the
  search succeeds, every non-framework class it visited is cached; when it
  throws, nothing is added. Once the target's class is
  known, any exception surfaces as one `RuntimeException`; a null target
  fails earlier, with a bare `NullPointerException`. The two `apply` loops
  run an action or a setter over a list of views, stopping at the first
  call that throws.
- **Finder helpers** (`Util.java`). `findRequiredView` and
  `findOptionalView` look views up by id and build the error messages.
  `castParam` reports parameter positions counted from 1. The VIEW finder
  uses a placeholder resource name in edit mode. `filterNull`, `arrayOf`
  and `listOf` keep only the non-null views, and `ImmutableList` is a
  read-only view whose `contains` compares references.

Files:

| file | module | contents |
|---|---|---|
| `wrappers.dfy` | `Wrappers` | `Option` (nullable reference) and `Result` (value or thrown exception) |
| `java_text.dfy` | `JavaText` | `startsWith`, substring containment, `Integer.toString` with its inverse, 32-bit `int` addition |
| `java_runtime.dfy` | `JavaRuntime` | the throwables, and a class table standing in for reflection |
| `binder_resolution.dfy` | `BinderResolution` | `findViewBinderForClass`, its cache-free reference semantics, and their lemmas |
| `butterknife.dfy` | `ButterKnife` | `bind`, `unbind`, the `apply` loops, and a worked class-chain example |
| `util.dfy` | `Util` | `Util.Finder` helpers and `ImmutableList` |

How the model represents the runtime:

- **Classes.** Classes are indices into a table of `(name, superclass)`.
  A well-formed table numbers every superclass before its subclasses. The
  JVM forbids cyclic inheritance, so such a numbering always exists, and
  it is the termination measure of the superclass walk.
- **Class loading.** `Class.forName` is an oracle. The map `loadable` says
  which binder class names exist, and whether `newInstance` returns an
  instance or throws `IllegalAccessException` or `InstantiationException`.
  `JavaRuntime.NewInstance` reads this oracle.
- **A missing superclass.** A non-framework class without a superclass
  cannot occur in a JVM. In the code, `findViewBinderForClass(null)` would
  throw a `NullPointerException`, which `bind` wraps. The model gives that
  outcome rather than forbidding the case.
- **The cache.** The `BINDERS` map is passed into the lookup and returned
  from it.
- **Cache correctness.** `Resolve` is the cache-free meaning of a lookup.
  A cache is *coherent* when every entry equals `Resolve` of its class.
  `LookupAgreesWithResolve` proves that a lookup under a coherent cache
  answers exactly what `Resolve` answers, and leaves the cache coherent.
  The empty cache is coherent, so the cache never changes an answer.
- **Generated binders.** Their code is a parameter. For each binder class
  it gives the exception that binder's `bind` or `unbind` throws, if any.
- **View roots.** A view root (`View`, `Activity` or `Dialog`) is a map
  from id to view, plus an edit-mode flag and the resource entry names its
  `Resources` know. `Util.FindView` stands for each root's `findViewById`
  and reads that map.
- **The read-only list.** `ImmutableList.size()` is the length of the
  stored array, `Util.Size`; what it counts after `listOf` is stated on
  `Util.ListOf`.
- **References.** Java references are values of a type parameter compared
  with `==`. This is reference identity: nothing in the model has value
  equality to consult. A null is `None`.

Three details of `findViewBinderForClass` that the model follows exactly:

- `NOP_VIEW_BINDER` is returned for a framework class without being
  cached under it (ButterKnife.java:213-215). It is cached only under the
  non-framework classes below it (`FrameworkClassIsNop`,
  `VisitedClassesCached`).
- After a successful lookup, every non-framework class the walk visited is
  cached, because the `put` at ButterKnife.java:226 runs at each level of
  the recursion on the way back. A lookup that throws
  (`IllegalAccessException`, `InstantiationException`, or the
  `NullPointerException` of a missing superclass) reaches no `put`, so it
  adds nothing.
- The prefix test (ButterKnife.java:213) comes before `Class.forName`
  (ButterKnife.java:218), so no binder class is ever looked up for a
  framework class.

## Model

| member | source | states |
|---|---|---|
| `BinderResolution.FindViewBinderForClass` | butterknife/src/main/java/butterknife/ButterKnife.java:205-228 | a successful lookup only adds entries, and keeps every existing one; each new entry is a non-framework class numbered no later than the target (that the new entries are exactly the visited part of its superclass chain is `VisitedClassesCached` with `VisitedIsChainPrefix`) and maps to the resolved binder; afterwards the target is cached exactly when it was cached before or is not a framework class |
| `BinderResolution.CacheHit` | butterknife/src/main/java/butterknife/ButterKnife.java:207-211 | a cached class yields its cached binder and leaves the cache unchanged |
| `BinderResolution.FrameworkClassIsNop` | butterknife/src/main/java/butterknife/ButterKnife.java:212-216 | an uncached `android.`/`java.` class yields the no-op binder and is not cached; the answer is the same under any class-loading oracle, so no binder class is looked up for it |
| `BinderResolution.OwnBinderIsCached` | butterknife/src/main/java/butterknife/ButterKnife.java:217-226 | an uncached non-framework class whose `<name>$$ViewBinder` instantiates resolves to that binder, which is cached under the class |
| `BinderResolution.InheritsFromSuperclass` | butterknife/src/main/java/butterknife/ButterKnife.java:222-226 | an uncached non-framework class without a binder class succeeds or fails exactly as its superclass does; on success it gets the superclass's binder and is added to the superclass lookup's cache |
| `BinderResolution.VisitedClassesCached` | butterknife/src/main/java/butterknife/ButterKnife.java:205-228 | after a successful lookup, every non-framework class on the visited superclass chain maps to the resolved binder, and the new cache holds exactly the old entries plus those classes |
| `BinderResolution.LookupAgreesWithResolve` | butterknife/src/main/java/butterknife/ButterKnife.java:205-228 | under a coherent cache the lookup succeeds exactly when the cache-free resolution does, returns the same binder or the same exception, and leaves the cache coherent |
| `BinderResolution.VisitedIsChainPrefix` | butterknife/src/main/java/butterknife/ButterKnife.java:212-224 | the classes a lookup visits are a prefix of the class's `getSuperclass` chain, starting at the class itself |
| `BinderResolution.EmptyCacheIsCoherent` | butterknife/src/main/java/butterknife/ButterKnife.java:98 | the initially empty `BINDERS` map is coherent |
| `BinderResolution.RepeatLookupIsHit` | butterknife/src/main/java/butterknife/ButterKnife.java:207-226 | once a non-framework class has been resolved, looking it up again returns the same binder and cache under any class-loading oracle |
| `BinderResolution.ResolveByChain` | butterknife/src/main/java/butterknife/ButterKnife.java:212-224 | the cache-free answer is decided by the nearest class on the superclass chain that is a framework class, has a binder class, or has no superclass |
| `JavaRuntime.SuperChain` | butterknife/src/main/java/butterknife/ButterKnife.java:222-224 | the chain starts at the class, follows `getSuperclass` link by link, stays inside the class table, and ends at a class with no superclass |
| `ButterKnife.RunBinder` | butterknife/src/main/java/butterknife/ButterKnife.java:99-102 | the no-op binder never throws, whatever the generated code would do |
| `ButterKnife.Delegate` | butterknife/src/main/java/butterknife/ButterKnife.java:192-203 | the cache only grows; a failed lookup leaves the cache unchanged, delegates to nothing, and throws a `RuntimeException` whose cause is the lookup's exception; a successful lookup always delegates to the resolved binder and throws exactly when the binder does, with that exception as cause; the message is the prefix and the class name |
| `ButterKnife.Bind` | butterknife/src/main/java/butterknife/ButterKnife.java:192-203 | a null target throws a bare `NullPointerException` and leaves the cache alone; otherwise the cache afterwards is the one the lookup left, a failed lookup leaves the cache unchanged, delegates to nothing and throws `RuntimeException("Unable to bind views for " + class name)` with the lookup's exception as cause, and a successful lookup delegates to the resolved binder and throws that wrapper exactly when the binder throws, with the binder's exception as cause |
| `ButterKnife.Unbind` | butterknife/src/main/java/butterknife/ButterKnife.java:179-190 | a null target throws a bare `NullPointerException` and leaves the cache alone; otherwise the cache afterwards is the one the lookup left, a failed lookup leaves the cache unchanged, delegates to nothing and throws `RuntimeException("Unable to unbind views for " + class name)` with the lookup's exception as cause, and a successful lookup delegates to the resolved binder and throws that wrapper exactly when the binder throws, with the binder's exception as cause |
| `ButterKnife.DelegateAgreesWithResolve` | butterknife/src/main/java/butterknife/ButterKnife.java:194-199 | under a coherent cache, dispatch delegates exactly when resolution succeeds, and then to the resolved binder; it succeeds exactly when that binder's code does not throw; the cache stays coherent |
| `ButterKnife.NopTargetNeverThrows` | butterknife/src/main/java/butterknife/ButterKnife.java:99-102 | a target resolving to the no-op binder binds and unbinds without error, and delegates to the no-op binder |
| `ButterKnife.SubclassBindsThroughBaseBinder` | butterknife/src/main/java/butterknife/ButterKnife.java:205-228 | binding a subclass of a class with a binder, from an empty cache, delegates to the base binder and caches it under both classes; a second bind is a pure cache hit |
| `ButterKnife.ApplyAction` | butterknife/src/main/java/butterknife/ButterKnife.java:231-235 | the action is called in ascending index order with each element and its index; every call but the last returned normally; with no exception every element got exactly one call, and otherwise the loop stopped at the first throwing call and that call's exception escapes |
| `ButterKnife.ApplySetter` | butterknife/src/main/java/butterknife/ButterKnife.java:238-242 | the setter is called in ascending index order with each element, the same value and the index; with no exception every element got exactly one call, and otherwise the loop stopped at the first throwing call and that call's exception escapes |
| `Util.EditModeUsesPlaceholder` | butterknife-annotations/src/main/java/butterknife/internal/Util.java:26-33 | a VIEW root in edit mode names every resource `<unavailable while editing>`, whatever its resources hold |
| `Util.GetResourceEntryName` | butterknife-annotations/src/main/java/butterknife/internal/Util.java:26-33 | the VIEW finder in edit mode gives the placeholder; otherwise the name is the one the resources hold for the id, and an unknown id throws `Resources.NotFoundException` for that id |
| `Util.OnlyViewFinderHonoursEditMode` | butterknife-annotations/src/main/java/butterknife/internal/Util.java:129-131 | the ACTIVITY and DIALOG finders ignore edit mode, and their name lookup succeeds exactly for ids the resources know |
| `Util.FindOptionalView` | butterknife-annotations/src/main/java/butterknife/internal/Util.java:88-96 | the optional lookup finds a view exactly when the root has one with that id, returns that view, and otherwise returns null without throwing |
| `Util.OptionalViewIgnoresFinderAndWho` | butterknife-annotations/src/main/java/butterknife/internal/Util.java:93-96 | the erased `castView` makes the optional lookup's result independent of the finder kind and of `who` |
| `Util.FindRequiredView` | butterknife-annotations/src/main/java/butterknife/internal/Util.java:73-86 | it succeeds exactly when the optional lookup finds a view, and then returns that view; otherwise it throws an `IllegalStateException` whose message contains the resource name, the id and `who`, or the name lookup's own exception if that lookup fails |
| `Util.MissingViewMessageNames` | butterknife-annotations/src/main/java/butterknife/internal/Util.java:77-83 | the missing-view message contains the resource name, the decimal id and the binding site |
| `Util.MissingRequiredViewForMethod` | butterknife-compiler/src/test/java/butterknife/internal/OnLongClickTest.java:36 | a generated `findRequiredView(source, 1, "method 'doStuff'")` whose view is missing throws, and the message mentions id 1 and the method |
| `JavaText.IntToStringRoundTrip` | butterknife-annotations/src/main/java/butterknife/internal/Util.java:77-83 | the decimal text of an `int` in a message parses back to that `int`, so it identifies the id |
| `JavaText.AddInt32` | butterknife-annotations/src/main/java/butterknife/internal/Util.java:117-125 | `position + 1` is computed modulo 2^32 and stays in `int` range; it equals the mathematical sum when there is no overflow |
| `Util.CastParam` | butterknife-annotations/src/main/java/butterknife/internal/Util.java:112-127 | the behaviour the catch block describes (the compiled method is `CastParamAsWritten`, see Findings): a value of the right type is returned unchanged; otherwise an `IllegalStateException` caused by the `ClassCastException` whose message starts with the source parameter's 1-based position and method, and contains the target parameter's 1-based position and method |
| `Util.WrongTypeEscapesCastParam` | butterknife-annotations/src/main/java/butterknife/internal/Util.java:113-126 | for the same wrong-typed argument, the compiled method returns the value while the behaviour its catch block describes throws |
| `Util.CastParamOneBased` | butterknife-annotations/src/main/java/butterknife/internal/Util.java:117-125 | for a parameter position `p` counted from 0, the message shows a number that parses back to `p + 1` |
| `Util.ShownPositionWraps` | butterknife-annotations/src/main/java/butterknife/internal/Util.java:118 | at `Integer.MAX_VALUE` the shown position wraps to `Integer.MIN_VALUE`, as Java `int` addition does |
| `Util.NonNull` | butterknife-annotations/src/main/java/butterknife/internal/Util.java:54-63 | the filtered views are no more than the input, contain no null, and equal the input when it has no null |
| `Util.NonNullPositions` | butterknife-annotations/src/main/java/butterknife/internal/Util.java:54-63 | the filtered views are the input read at strictly ascending positions, and these are exactly the positions of the non-null entries |
| `Util.NonNullLength` | butterknife-annotations/src/main/java/butterknife/internal/Util.java:54-63 | the filtered length is the number of non-null inputs |
| `Util.NonNullIdempotent` | butterknife-annotations/src/main/java/butterknife/internal/Util.java:54-67 | filtering twice is filtering once |
| `Util.FilterNull` | butterknife-annotations/src/main/java/butterknife/internal/Util.java:54-63 | the in-place compaction returns the order-preserving non-null subsequence; the array keeps its length, its prefix is overwritten with that subsequence, and the rest is as it was |
| `Util.ArrayOf` | butterknife-annotations/src/main/java/butterknife/internal/Util.java:65-67 | the result is the non-null arguments in order: one per non-null argument, none null; the caller's argument array keeps its length, its prefix holds the result and the rest is unchanged |
| `Util.Get` | butterknife-annotations/src/main/java/butterknife/internal/Util.java:151-153 | `get` succeeds exactly for indices inside the list and then returns the element stored there; otherwise it throws `ArrayIndexOutOfBoundsException` for that index |
| `Util.Contains` | butterknife-annotations/src/main/java/butterknife/internal/Util.java:159-166 | `contains(o)` is true exactly when some element is the reference `o` |
| `Util.ListOf` | butterknife-annotations/src/main/java/butterknife/internal/Util.java:69-71 | the list's `size()` is the number of non-null arguments, and `get(i)` returns the i-th non-null argument, which is not null; the caller's argument array is overwritten as `filterNull` leaves it |

## Left out

- The `bind(Activity)`, `bind(View)`, `bind(Dialog)` and `bind(Object, …)` overloads. Each only picks the source and the finder constant for `bind(target, source, finder)`. The model has that finder as `Bind`'s parameter.
- The source object, and the target object beyond its class and whether it is null. Both are handed on to generated binder code, which is modelled by its outcome.
- Generated binder code and the annotation processor. Only the outcome of a generated binder's `bind` or `unbind` is modelled: normal return, or the exception it throws.
- `setDebug` and the `Log.d` tracing. They change log output only.
- `apply(List, Property, V)`, which depends on the Android `Property` API, and the three `findById` convenience casts.
- The catch branch of `castView`. The cast is erased, so that branch does not run; `FindOptionalView` returns the view unchanged.
- Util.CastParam: its `isInstance == false` branch models only what the catch block at Util.java:116-125 builds. The compiled cast to `T` is erased and never reaches that block; the compiled method is `CastParamAsWritten`, and the dead block is recorded under Findings.
- `getContext`. The context is used only to reach `Resources`, which the model folds into each view root's map of resource entry names.
- A loaded binder class that is not a `ViewBinder` (a `ClassCastException` at the cast) and linkage errors. Generated binder classes always implement the interface.
- The methods `ImmutableList` inherits from `AbstractList` (iterator, `equals`, `indexOf`). They are built from `get` and `size`.
- Thread safety of the unsynchronized `BINDERS` map. The model is single-threaded.
- Changes to the list made by an `apply` callback while the loop runs. The loop reads the list as it was when the call began, and a callback's effect is only whether it throws.
- ButterKnife.Delegate: `catch (Exception e)` (ButterKnife.java:187, :200) does not catch a `java.lang.Error`, so an Error thrown by generated binder code (an `AssertionError`, a `StackOverflowError`) escapes unwrapped. The model's throwables are all exceptions, so this case is not represented.
- Util.FindRequiredView: the contract says that the message contains the resource name, the decimal id and `who`. It does not state the exact wording. `MissingViewMessage` holds the exact text.
- Util.MissingViewMessageNames: states containment of each part, not the exact wording.

## Findings

| source | as written | input that shows it | evidently intended | confidence | as-written member | corrected member |
|---|---|---|---|---|---|---|
| butterknife-annotations/src/main/java/butterknife/internal/Util.java:113-126 | `(T) value` is an unchecked cast to a type variable; erasure removes the check, so the `catch (ClassCastException e)` block is unreachable and every value is returned unchanged | a value that is not an instance of the target parameter's type, e.g. `castParam(0, "onClick", 0, "doStuff", 0)` for a `View` parameter: it returns `0`, and the caller's own cast throws a bare `ClassCastException` without the positions and method names | a wrong-typed value throws `IllegalStateException("Parameter #1 of method 'onClick' was of the wrong type for parameter #1 of method 'doStuff'. …")` caused by the `ClassCastException` | medium, not executed | `Util.CastParamAsWritten`, `Util.WrongTypeEscapesCastParam` | `Util.CastParam` |
