/**
 The public entry points of `ButterKnife`: `bind` and `unbind` resolve the
 target class's binder (see BinderResolution) and delegate to it. A null
 target throws a bare NullPointerException; once the target's class is
 known, every exception becomes one RuntimeException. `apply` runs an action
 or a setter over a list of views.

 Generated binder code is not part of this model: what a generated
 binder's `bind` or `unbind` does is a parameter giving, per binder class,
 the exception it throws, if any.
 */
module ButterKnife {
  import opened Wrappers
  import opened JavaRuntime
  import JavaText
  import opened BinderResolution
  import Util

  /** The outcome of running one generated binder class's code: nothing, or a throw. */
  type BinderCode = string -> Option<Throwable>

  /** Running a resolved binder: `NOP_VIEW_BINDER` does nothing. */
  function RunBinder(b: Binder, code: BinderCode): (thrown: Option<Throwable>)
    ensures b.Nop? ==> thrown.None?
  {
    match b
    case Nop => None
    case Generated(binderClass) => code(binderClass)
  }

  const BIND_FAILURE := "Unable to bind views for "
  const UNBIND_FAILURE := "Unable to unbind views for "

  /**
   What one `bind` or `unbind` call leaves behind: the cache, the binder it
   delegated to (if resolution succeeded), and the exception it threw.
   */
  datatype Dispatch = Dispatch(cache: Cache, delegatedTo: Option<Binder>, thrown: Option<Throwable>)

  /**
   The shared body of `bind` and `unbind`: resolve, delegate, and wrap any
   exception as `RuntimeException(failurePrefix + class name, cause)`.
   */
  function Delegate(rt: Runtime, cache: Cache, target: ClassId, failurePrefix: string, code: BinderCode): (d: Dispatch)
    requires WellFormed(rt) && ValidClass(rt, target)
    ensures Extends(cache, d.cache)
    ensures d.thrown.Some? ==>
      && d.thrown.value.RuntimeException?
      && d.thrown.value.message == failurePrefix + rt.classes[target].name
      && d.thrown.value.cause.Some?
    ensures var r := FindViewBinderForClass(rt, cache, target);
      && (r.Failure? ==> d.cache == cache && d.delegatedTo.None? && d.thrown.Some? && d.thrown.value.cause == Some(r.error))
      && (r.Success? ==> d.cache == r.value.1 && d.delegatedTo == Some(r.value.0)
                         && d.thrown.Some? == RunBinder(r.value.0, code).Some?
                         && (d.thrown.Some? ==> d.thrown.value.cause == RunBinder(r.value.0, code)))
  {
    var failure := failurePrefix + rt.classes[target].name;
    match FindViewBinderForClass(rt, cache, target)
    case Failure(e) => Dispatch(cache, None, Some(RuntimeException(failure, Some(e))))
    case Success((binder, after)) =>
      match RunBinder(binder, code)
      case None => Dispatch(after, Some(binder), None)
      case Some(e) => Dispatch(after, Some(binder), Some(RuntimeException(failure, Some(e))))
  }

  /**
   `bind(target, source, finder)`. The target is a nullable reference to an
   object of class `target.value`; `target.getClass()` runs before the
   `try`, so a null target throws a bare NullPointerException. The finder
   is handed to the resolved binder, so the code that runs may depend on it.
   */
  function Bind(rt: Runtime, cache: Cache, target: Option<ClassId>, finder: Util.Finder, bindCode: Util.Finder -> BinderCode): (d: Dispatch)
    requires WellFormed(rt) && (target.Some? ==> ValidClass(rt, target.value))
    ensures Extends(cache, d.cache)
    ensures target.None? ==> d == Dispatch(cache, None, Some(NullPointerException))
    ensures target.Some? ==>
      var message := "Unable to bind views for " + rt.classes[target.value].name;
      var r := FindViewBinderForClass(rt, cache, target.value);
      && (r.Failure? ==> d.cache == cache && d.delegatedTo.None?
                         && d.thrown == Some(RuntimeException(message, Some(r.error))))
      && (r.Success? ==> d.cache == r.value.1 && d.delegatedTo == Some(r.value.0))
      && (r.Success? && RunBinder(r.value.0, bindCode(finder)).None? ==> d.thrown.None?)
      && (r.Success? && RunBinder(r.value.0, bindCode(finder)).Some? ==>
            d.thrown == Some(RuntimeException(message, RunBinder(r.value.0, bindCode(finder)))))
  {
    match target
    case None => Dispatch(cache, None, Some(NullPointerException))
    case Some(c) => Delegate(rt, cache, c, BIND_FAILURE, bindCode(finder))
  }

  /** `unbind(target)`, with the same null-target behaviour as `bind`. */
  function Unbind(rt: Runtime, cache: Cache, target: Option<ClassId>, unbindCode: BinderCode): (d: Dispatch)
    requires WellFormed(rt) && (target.Some? ==> ValidClass(rt, target.value))
    ensures Extends(cache, d.cache)
    ensures target.None? ==> d == Dispatch(cache, None, Some(NullPointerException))
    ensures target.Some? ==>
      var message := "Unable to unbind views for " + rt.classes[target.value].name;
      var r := FindViewBinderForClass(rt, cache, target.value);
      && (r.Failure? ==> d.cache == cache && d.delegatedTo.None?
                         && d.thrown == Some(RuntimeException(message, Some(r.error))))
      && (r.Success? ==> d.cache == r.value.1 && d.delegatedTo == Some(r.value.0))
      && (r.Success? && RunBinder(r.value.0, unbindCode).None? ==> d.thrown.None?)
      && (r.Success? && RunBinder(r.value.0, unbindCode).Some? ==>
            d.thrown == Some(RuntimeException(message, RunBinder(r.value.0, unbindCode))))
  {
    match target
    case None => Dispatch(cache, None, Some(NullPointerException))
    case Some(c) => Delegate(rt, cache, c, UNBIND_FAILURE, unbindCode)
  }

  /**
   With a cache built by earlier lookups, a dispatch succeeds exactly when
   the target's cache-free resolution succeeds and the resolved binder's
   code does not throw; it always delegates to that binder when it exists.
   */
  lemma DelegateAgreesWithResolve(rt: Runtime, cache: Cache, target: ClassId, failurePrefix: string, code: BinderCode)
    requires WellFormed(rt) && ValidClass(rt, target) && Coherent(rt, cache)
    ensures var d := Delegate(rt, cache, target, failurePrefix, code);
      var resolved := Resolve(rt, target);
      && Coherent(rt, d.cache)
      && (d.delegatedTo.Some? <==> resolved.Success?)
      && (resolved.Success? ==> d.delegatedTo == Some(resolved.value))
      && (d.thrown.None? <==> resolved.Success? && RunBinder(resolved.value, code).None?)
  {
    LookupAgreesWithResolve(rt, cache, target);
  }

  /**
   A target whose class resolves to the no-op binder (its walk reached a
   framework class first) binds and unbinds without error.
   */
  lemma NopTargetNeverThrows(rt: Runtime, cache: Cache, target: ClassId, finder: Util.Finder,
                             bindCode: Util.Finder -> BinderCode, unbindCode: BinderCode)
    requires WellFormed(rt) && ValidClass(rt, target) && Coherent(rt, cache)
    requires Resolve(rt, target) == Success(Nop)
    ensures Bind(rt, cache, Some(target), finder, bindCode).thrown.None?
    ensures Bind(rt, cache, Some(target), finder, bindCode).delegatedTo == Some(Nop)
    ensures Unbind(rt, cache, Some(target), unbindCode).thrown.None?
  {
    DelegateAgreesWithResolve(rt, cache, target, BIND_FAILURE, bindCode(finder));
    DelegateAgreesWithResolve(rt, cache, target, UNBIND_FAILURE, unbindCode);
  }

  /**
   A class chain `java.lang.Object` <- `android.app.Activity` <-
   `com.example.Base` (which has a generated binder) <- `com.example.Screen`.
   */
  function ExampleRuntime(): (rt: Runtime)
    ensures WellFormed(rt) && |rt.classes| == 4
  {
    Runtime(
      [ ClassInfo("java.lang.Object", None),
        ClassInfo("android.app.Activity", Some(0)),
        ClassInfo("com.example.Base", Some(1)),
        ClassInfo("com.example.Screen", Some(2)) ],
      map["com.example.Base$$ViewBinder" := Instantiable])
  }

  /**
   Binding a `Screen` from an empty cache delegates to `Base`'s binder and
   caches it under both classes; binding a second `Screen` is a cache hit
   that leaves the cache as it was.
   */
  lemma SubclassBindsThroughBaseBinder(bindCode: Util.Finder -> BinderCode)
    requires forall f :: bindCode(f)("com.example.Base$$ViewBinder").None?
    ensures var rt := ExampleRuntime();
      var first := Bind(rt, map[], Some(3), Util.ACTIVITY, bindCode);
      var second := Bind(rt, first.cache, Some(3), Util.ACTIVITY, bindCode);
      && first.thrown.None?
      && first.delegatedTo == Some(Generated("com.example.Base$$ViewBinder"))
      && first.cache == map[2 := Generated("com.example.Base$$ViewBinder"), 3 := Generated("com.example.Base$$ViewBinder")]
      && second == Dispatch(first.cache, Some(Generated("com.example.Base$$ViewBinder")), None)
  {
    var rt := ExampleRuntime();
    var b := Generated("com.example.Base$$ViewBinder");
    OutsideFramework("com.example.Screen");
    OutsideFramework("com.example.Base");
    assert BinderClassName("com.example.Base") == "com.example.Base$$ViewBinder";
    assert BinderClassName("com.example.Screen") !in rt.loadable by {
      assert BinderClassName("com.example.Screen")[12] != "com.example.Base$$ViewBinder"[12];
    }
    OwnBinderIsCached(rt, map[], 2);
    assert FindViewBinderForClass(rt, map[], 2) == Success((b, map[2 := b]));
    InheritsFromSuperclass(rt, map[], 3);
    assert FindViewBinderForClass(rt, map[], 3) == Success((b, map[2 := b, 3 := b]));
    CacheHit(rt, map[2 := b, 3 := b], 3);
  }

  lemma OutsideFramework(name: string)
    requires |name| > 0 && name[0] != 'a' && name[0] != 'j'
    ensures !IsFrameworkName(name)
  {
    assert !JavaText.StartsWith(name, "android.") by { assert "android."[0] == 'a'; }
    assert !JavaText.StartsWith(name, "java.") by { assert "java."[0] == 'j'; }
  }

  /** One recorded call of an `Action`: the view and its index. */
  datatype ActionCall<V> = ActionCall(view: V, index: nat)

  /** One recorded call of a `Setter`: the view, the value and the index. */
  datatype SetterCall<V, X> = SetterCall(view: V, value: X, index: nat)

  /**
   `apply(list, action)`. `action(view, i)` is what the callback does on
   that call: return normally (None) or throw. Returns the calls made, in
   order, and the exception that escaped, if any: the loop calls the action
   once per element with the element's index, and stops at the first call
   that throws.
   */
  method ApplyAction<V>(list: seq<V>, action: (V, nat) -> Option<Throwable>)
    returns (calls: seq<ActionCall<V>>, thrown: Option<Throwable>)
    ensures |calls| <= |list|
    ensures forall i :: 0 <= i < |calls| ==> calls[i] == ActionCall(list[i], i)
    ensures forall i :: 0 <= i < |calls| - 1 ==> action(list[i], i).None?
    ensures thrown.None? ==> |calls| == |list| && forall i :: 0 <= i < |list| ==> action(list[i], i).None?
    ensures thrown.Some? ==> |calls| >= 1 && thrown == action(list[|calls| - 1], |calls| - 1)
  {
    calls := [];
    thrown := None;
    var i := 0;
    var count := |list|;
    while i < count
      invariant 0 <= i <= count == |list|
      invariant |calls| == i
      invariant forall j :: 0 <= j < i ==> calls[j] == ActionCall(list[j], j)
      invariant forall j :: 0 <= j < i ==> action(list[j], j).None?
    {
      calls := calls + [ActionCall(list[i], i)];
      var outcome := action(list[i], i);
      if outcome.Some? {
        return calls, outcome;
      }
      i := i + 1;
    }
  }

  /**
   `apply(list, setter, value)`: like `ApplyAction`, with the same value
   passed to every call of the setter.
   */
  method ApplySetter<V, X>(list: seq<V>, setter: (V, X, nat) -> Option<Throwable>, value: X)
    returns (calls: seq<SetterCall<V, X>>, thrown: Option<Throwable>)
    ensures |calls| <= |list|
    ensures forall i :: 0 <= i < |calls| ==> calls[i] == SetterCall(list[i], value, i)
    ensures forall i :: 0 <= i < |calls| - 1 ==> setter(list[i], value, i).None?
    ensures thrown.None? ==> |calls| == |list| && forall i :: 0 <= i < |list| ==> setter(list[i], value, i).None?
    ensures thrown.Some? ==> |calls| >= 1 && thrown == setter(list[|calls| - 1], value, |calls| - 1)
  {
    calls := [];
    thrown := None;
    var i := 0;
    var count := |list|;
    while i < count
      invariant 0 <= i <= count == |list|
      invariant |calls| == i
      invariant forall j :: 0 <= j < i ==> calls[j] == SetterCall(list[j], value, j)
      invariant forall j :: 0 <= j < i ==> setter(list[j], value, j).None?
    {
      calls := calls + [SetterCall(list[i], value, i)];
      var outcome := setter(list[i], value, i);
      if outcome.Some? {
        return calls, outcome;
      }
      i := i + 1;
    }
  }
}
