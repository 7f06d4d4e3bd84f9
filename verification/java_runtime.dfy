/**
 The pieces of the Java runtime the library's dispatcher observes: the
 throwables that can surface, and a class table standing in for reflection
 (`Class.getName`, `Class.getSuperclass`, `Class.forName` and
 `Class.newInstance`).
 */
module JavaRuntime {
  import opened Wrappers

  /** The exceptions that the modelled code throws, wraps or lets through. */
  datatype Throwable =
    | IllegalStateException(message: string, cause: Option<Throwable>)
    | RuntimeException(message: string, cause: Option<Throwable>)
    | ClassCastException
    | NullPointerException
    | IllegalAccessException(className: string)
    | InstantiationException(className: string)
    | ResourcesNotFoundException(id: int)
    | ArrayIndexOutOfBoundsException(index: int)

  /** A class is identified by its position in the class table. */
  type ClassId = nat

  /** What `Class.getName()` and `Class.getSuperclass()` report for one class. */
  datatype ClassInfo = ClassInfo(name: string, superclass: Option<ClassId>)

  /** What `newInstance()` does on a loadable class. */
  datatype Instantiation =
    | Instantiable      // public no-argument constructor: a fresh instance
    | Inaccessible      // constructor not accessible: IllegalAccessException
    | NotInstantiable   // abstract, or no no-argument constructor: InstantiationException

  /**
   The classes of one process. `loadable` is the oracle for
   `Class.forName`: a name maps to how its class instantiates, and a name
   that is absent throws ClassNotFoundException.
   */
  datatype Runtime = Runtime(classes: seq<ClassInfo>, loadable: map<string, Instantiation>)

  predicate ValidClass(rt: Runtime, c: ClassId) {
    c < |rt.classes|
  }

  /**
   The JVM forbids cyclic inheritance, so the classes can be numbered so
   that every superclass comes before its subclasses.
   */
  predicate WellFormed(rt: Runtime) {
    forall c :: 0 <= c < |rt.classes| && rt.classes[c].superclass.Some? ==>
      rt.classes[c].superclass.value < c
  }

  /** `Class.forName(name).newInstance()` for a name already known to load. */
  function NewInstance(rt: Runtime, name: string): (r: Result<string, Throwable>)
    requires name in rt.loadable
    ensures r.Success? <==> rt.loadable[name] == Instantiable
    ensures r.Success? ==> r.value == name
  {
    match rt.loadable[name]
    case Instantiable => Success(name)
    case Inaccessible => Failure(IllegalAccessException(name))
    case NotInstantiable => Failure(InstantiationException(name))
  }

  /** `c`, its superclass, that class's superclass, ... up to a root. */
  function SuperChain(rt: Runtime, c: ClassId): (chain: seq<ClassId>)
    requires WellFormed(rt) && ValidClass(rt, c)
    ensures |chain| >= 1 && chain[0] == c
    ensures forall i :: 0 <= i < |chain| ==> ValidClass(rt, chain[i]) && chain[i] <= c
    ensures forall i :: 0 <= i < |chain| - 1 ==> rt.classes[chain[i]].superclass == Some(chain[i + 1])
    ensures rt.classes[chain[|chain| - 1]].superclass.None?
    decreases c
  {
    match rt.classes[c].superclass
    case None => [c]
    case Some(s) => [c] + SuperChain(rt, s)
  }
}
