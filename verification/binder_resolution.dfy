/**
 How the runtime finds the generated view binder for a class: a
 process-wide cache first, then a stop at framework classes, then the
 `<name>$$ViewBinder` naming convention, and otherwise the superclass.
 The cache is threaded through explicitly: it goes in and comes back out.
 */
module BinderResolution {
  import opened Wrappers
  import opened JavaText
  import opened JavaRuntime

  /** Suffix the annotation processor appends to a target class name. */
  const BINDER_SUFFIX := "$$ViewBinder"

  /**
   A resolved binder: the shared no-op binder, or an instance of a
   generated binder class, named by that class.
   */
  datatype Binder = Nop | Generated(binderClass: string)

  /** The `BINDERS` map: class to resolved binder. */
  type Cache = map<ClassId, Binder>

  predicate IsFrameworkName(name: string) {
    StartsWith(name, "android.") || StartsWith(name, "java.")
  }

  function BinderClassName(className: string): string {
    className + BINDER_SUFFIX
  }

  /** Every entry of `before` is still in `after`, unchanged. */
  ghost predicate Extends(before: Cache, after: Cache) {
    forall k :: k in before ==> k in after && after[k] == before[k]
  }

  /** Loading and instantiating the generated binder class `binderClass`. */
  function Instantiate(rt: Runtime, binderClass: string): Result<Binder, Throwable>
    requires binderClass in rt.loadable
  {
    var instance :- NewInstance(rt, binderClass);
    Success(Generated(instance))
  }

  /**
   `findViewBinderForClass(cls)` with `BINDERS` passed in: the resolved
   binder and the cache afterwards, or the exception that escapes.
   */
  function FindViewBinderForClass(rt: Runtime, cache: Cache, c: ClassId): (r: Result<(Binder, Cache), Throwable>)
    requires WellFormed(rt) && ValidClass(rt, c)
    ensures r.Success? ==> Extends(cache, r.value.1)
    ensures r.Success? ==> forall k :: k in r.value.1 && k !in cache ==>
      k <= c && !IsFrameworkName(rt.classes[k].name) && r.value.1[k] == r.value.0
    ensures r.Success? ==> (c in r.value.1 <==> c in cache || !IsFrameworkName(rt.classes[c].name))
    ensures r.Success? && c in r.value.1 ==> r.value.1[c] == r.value.0
    decreases c
  {
    if c in cache then Success((cache[c], cache))
    else
      var name := rt.classes[c].name;
      if IsFrameworkName(name) then Success((Nop, cache))
      else if BinderClassName(name) in rt.loadable then
        var binder :- Instantiate(rt, BinderClassName(name));
        Success((binder, cache[c := binder]))
      else
        match rt.classes[c].superclass
        case None => Failure(NullPointerException)
        case Some(s) =>
          var (binder, after) :- FindViewBinderForClass(rt, cache, s);
          Success((binder, after[c := binder]))
  }

  // ---------------------------------------------------------------------
  // Reference semantics: what a class resolves to with no cache at all.
  // ---------------------------------------------------------------------

  /** A class at which the superclass walk ends. */
  predicate Stops(rt: Runtime, c: ClassId)
    requires ValidClass(rt, c)
  {
    var name := rt.classes[c].name;
    IsFrameworkName(name) || BinderClassName(name) in rt.loadable || rt.classes[c].superclass.None?
  }

  /** What the walk yields when it ends at `c`. */
  function StopOutcome(rt: Runtime, c: ClassId): Result<Binder, Throwable>
    requires ValidClass(rt, c) && Stops(rt, c)
  {
    var name := rt.classes[c].name;
    if IsFrameworkName(name) then Success(Nop)
    else if BinderClassName(name) in rt.loadable then Instantiate(rt, BinderClassName(name))
    else Failure(NullPointerException)
  }

  /** The binder `c` resolves to when nothing is cached. */
  ghost function Resolve(rt: Runtime, c: ClassId): Result<Binder, Throwable>
    requires WellFormed(rt) && ValidClass(rt, c)
    decreases c
  {
    if Stops(rt, c) then StopOutcome(rt, c)
    else Resolve(rt, rt.classes[c].superclass.value)
  }

  /** Every cached entry is what its class resolves to without a cache. */
  ghost predicate Coherent(rt: Runtime, cache: Cache)
    requires WellFormed(rt)
  {
    forall k :: k in cache ==> ValidClass(rt, k) && Resolve(rt, k) == Success(cache[k])
  }

  /** The classes one lookup visits: `c` and its superclasses up to where it stops. */
  ghost function Visited(rt: Runtime, cache: Cache, c: ClassId): (v: seq<ClassId>)
    requires WellFormed(rt) && ValidClass(rt, c)
    ensures |v| >= 1 && v[0] == c
    ensures forall i :: 0 <= i < |v| ==> ValidClass(rt, v[i]) && v[i] <= c
    decreases c
  {
    if c in cache || Stops(rt, c) then [c]
    else [c] + Visited(rt, cache, rt.classes[c].superclass.value)
  }

  /**
   The visited classes are the start of the class's `getSuperclass` chain:
   the lookup walks up that chain and nowhere else.
   */
  lemma {:induction false} VisitedIsChainPrefix(rt: Runtime, cache: Cache, c: ClassId)
    requires WellFormed(rt) && ValidClass(rt, c)
    ensures |Visited(rt, cache, c)| <= |SuperChain(rt, c)|
    ensures Visited(rt, cache, c) == SuperChain(rt, c)[..|Visited(rt, cache, c)|]
    decreases c
  {
    if !(c in cache || Stops(rt, c)) {
      VisitedIsChainPrefix(rt, cache, rt.classes[c].superclass.value);
    }
  }

  // ---------------------------------------------------------------------
  // One step of the lookup, case by case.
  // ---------------------------------------------------------------------

  /** A cached class answers from the cache, which stays as it was. */
  lemma CacheHit(rt: Runtime, cache: Cache, c: ClassId)
    requires WellFormed(rt) && ValidClass(rt, c)
    requires c in cache
    ensures FindViewBinderForClass(rt, cache, c) == Success((cache[c], cache))
  {
  }

  /**
   An uncached framework class yields the no-op binder, is not cached, and
   no binder class is looked up for it: any class-loading oracle gives the
   same answer.
   */
  lemma FrameworkClassIsNop(rt: Runtime, cache: Cache, c: ClassId, loadable: map<string, Instantiation>)
    requires WellFormed(rt) && ValidClass(rt, c)
    requires c !in cache && IsFrameworkName(rt.classes[c].name)
    ensures FindViewBinderForClass(rt.(loadable := loadable), cache, c) == Success((Nop, cache))
  {
  }

  /** An uncached class with an instantiable generated binder gets it, and it is cached. */
  lemma OwnBinderIsCached(rt: Runtime, cache: Cache, c: ClassId)
    requires WellFormed(rt) && ValidClass(rt, c)
    requires c !in cache && !IsFrameworkName(rt.classes[c].name)
    requires BinderClassName(rt.classes[c].name) in rt.loadable
    requires rt.loadable[BinderClassName(rt.classes[c].name)] == Instantiable
    ensures var b := Generated(BinderClassName(rt.classes[c].name));
      FindViewBinderForClass(rt, cache, c) == Success((b, cache[c := b]))
  {
  }

  /**
   An uncached class without a binder class resolves to whatever its
   superclass resolves to, and is cached under that binder.
   */
  lemma InheritsFromSuperclass(rt: Runtime, cache: Cache, c: ClassId)
    requires WellFormed(rt) && ValidClass(rt, c)
    requires c !in cache && !IsFrameworkName(rt.classes[c].name)
    requires BinderClassName(rt.classes[c].name) !in rt.loadable
    requires rt.classes[c].superclass.Some?
    ensures var sr := FindViewBinderForClass(rt, cache, rt.classes[c].superclass.value);
      var r := FindViewBinderForClass(rt, cache, c);
      && (r.Success? <==> sr.Success?)
      && (r.Success? ==> r.value == (sr.value.0, sr.value.1[c := sr.value.0]))
      && (r.Failure? ==> r.error == sr.error)
  {
  }

  // ---------------------------------------------------------------------
  // Properties of a whole lookup.
  // ---------------------------------------------------------------------

  /**
   After a successful lookup, every non-framework class on the visited
   chain is cached under the resolved binder, and those are the only new
   entries.
   */
  lemma {:induction false} VisitedClassesCached(rt: Runtime, cache: Cache, c: ClassId)
    requires WellFormed(rt) && ValidClass(rt, c)
    requires FindViewBinderForClass(rt, cache, c).Success?
    ensures var (b, after) := FindViewBinderForClass(rt, cache, c).value;
      var visited := Visited(rt, cache, c);
      && (forall k :: k in visited && !IsFrameworkName(rt.classes[k].name) ==> k in after && after[k] == b)
      && (forall k :: k in after <==> k in cache || (k in visited && !IsFrameworkName(rt.classes[k].name)))
    decreases c
  {
    if c !in cache && !Stops(rt, c) {
      var s := rt.classes[c].superclass.value;
      VisitedClassesCached(rt, cache, s);
    }
  }

  /** Under a coherent cache the lookup answers what the cache-free walk answers, and keeps the cache coherent. */
  lemma {:induction false} LookupAgreesWithResolve(rt: Runtime, cache: Cache, c: ClassId)
    requires WellFormed(rt) && ValidClass(rt, c) && Coherent(rt, cache)
    ensures var r := FindViewBinderForClass(rt, cache, c);
      && (r.Success? <==> Resolve(rt, c).Success?)
      && (r.Success? ==> r.value.0 == Resolve(rt, c).value && Coherent(rt, r.value.1))
      && (r.Failure? ==> r.error == Resolve(rt, c).error)
    decreases c
  {
    if c !in cache && !Stops(rt, c) {
      var s := rt.classes[c].superclass.value;
      LookupAgreesWithResolve(rt, cache, s);
    }
  }

  lemma EmptyCacheIsCoherent(rt: Runtime)
    requires WellFormed(rt)
    ensures Coherent(rt, map[])
  {
  }

  /**
   Once a non-framework class has been resolved, looking it up again is a
   cache hit: same binder, same cache, and no class is loaded (any
   class-loading oracle gives the same answer).
   */
  lemma RepeatLookupIsHit(rt: Runtime, cache: Cache, c: ClassId, loadable: map<string, Instantiation>)
    requires WellFormed(rt) && ValidClass(rt, c)
    requires FindViewBinderForClass(rt, cache, c).Success?
    requires !IsFrameworkName(rt.classes[c].name)
    ensures var (b, after) := FindViewBinderForClass(rt, cache, c).value;
      FindViewBinderForClass(rt.(loadable := loadable), after, c) == Success((b, after))
  {
  }

  /**
   The cache-free answer is decided by the nearest class on the superclass
   chain at which the walk stops.
   */
  lemma {:induction false} ResolveByChain(rt: Runtime, c: ClassId, j: nat)
    requires WellFormed(rt) && ValidClass(rt, c)
    requires j < |SuperChain(rt, c)|
    requires Stops(rt, SuperChain(rt, c)[j])
    requires forall i :: 0 <= i < j ==> !Stops(rt, SuperChain(rt, c)[i])
    ensures Resolve(rt, c) == StopOutcome(rt, SuperChain(rt, c)[j])
    decreases c
  {
    if j > 0 {
      var s := rt.classes[c].superclass.value;
      assert SuperChain(rt, c) == [c] + SuperChain(rt, s);
      forall i | 0 <= i < j - 1
        ensures !Stops(rt, SuperChain(rt, s)[i])
      {
        assert SuperChain(rt, s)[i] == SuperChain(rt, c)[i + 1];
      }
      ResolveByChain(rt, s, j - 1);
    }
  }
}
