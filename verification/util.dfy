/**
 The helpers that generated binders call through `Util.Finder`: view
 lookup by id with required/optional semantics, resource names for error
 messages, parameter casts, and the null-filtering array and list builders
 with their read-only list view.

 Java references are values of the type parameter, compared with `==`
 (reference identity); a nullable reference is an `Option`.
 */
module Util {
  import opened Wrappers
  import opened JavaText
  import opened JavaRuntime

  /** The three kinds of view root a binding can start from. */
  datatype Finder = VIEW | ACTIVITY | DIALOG

  /**
   A view root as a finder sees it: the views reachable by id
   (`findViewById`), whether it renders in a layout editor
   (`View.isInEditMode`, consulted only for VIEW), and the resource entry
   names its context's `Resources` can report.
   */
  datatype Source<V> = Source(children: map<int, V>, inEditMode: bool, entryNames: map<int, string>)

  const EDIT_MODE_NAME := "<unavailable while editing>"

  /** `findView`: each finder asks its source's own `findViewById`. */
  function FindView<V>(source: Source<V>, id: int): (r: Option<V>)
    ensures r.Some? <==> id in source.children
    ensures r.Some? ==> r.value == source.children[id]
  {
    if id in source.children then Some(source.children[id]) else None
  }

  /**
   `getResourceEntryName`: the VIEW finder answers with a placeholder in
   edit mode; otherwise the source's resources are asked, and an unknown id
   throws `Resources.NotFoundException`.
   */
  function GetResourceEntryName<V>(finder: Finder, source: Source<V>, id: int): (r: Result<string, Throwable>)
    ensures finder == VIEW && source.inEditMode ==> r == Success(EDIT_MODE_NAME)
    ensures !(finder == VIEW && source.inEditMode) ==>
      && (id in source.entryNames ==> r == Success(source.entryNames[id]))
      && (id !in source.entryNames ==> r == Failure(ResourcesNotFoundException(id)))
  {
    if finder == VIEW && source.inEditMode then Success(EDIT_MODE_NAME)
    else if id in source.entryNames then Success(source.entryNames[id])
    else Failure(ResourcesNotFoundException(id))
  }

  /** A VIEW root in edit mode never consults its resources. */
  lemma EditModeUsesPlaceholder<V>(source: Source<V>, id: int, names: map<int, string>)
    requires source.inEditMode
    ensures GetResourceEntryName(VIEW, source.(entryNames := names), id) == Success(EDIT_MODE_NAME)
  {
  }

  /** Activity and dialog roots ignore edit mode entirely. */
  lemma OnlyViewFinderHonoursEditMode<V>(finder: Finder, source: Source<V>, id: int, editing: bool)
    requires finder != VIEW
    ensures GetResourceEntryName(finder, source.(inEditMode := editing), id)
         == GetResourceEntryName(finder, source, id)
    ensures GetResourceEntryName(finder, source, id).Success? <==> id in source.entryNames
  {
  }

  /** `findOptionalView`: the found view, or null; `castView` is an erased cast. */
  function FindOptionalView<V>(finder: Finder, source: Source<V>, id: int, who: string): (r: Option<V>)
    ensures r.Some? <==> id in source.children
    ensures r.Some? ==> r.value == source.children[id]
  {
    FindView(source, id)
  }

  /**
   The erased `castView` neither checks nor reports anything, so the
   optional lookup depends on the root and the id alone.
   */
  lemma OptionalViewIgnoresFinderAndWho<V>(source: Source<V>, id: int, f1: Finder, f2: Finder, who1: string, who2: string)
    ensures FindOptionalView(f1, source, id, who1) == FindOptionalView(f2, source, id, who2)
  {
  }

  /** The missing-view message, grouped as name, id, binding site, advice. */
  function MissingViewMessage(name: string, id: int, who: string): string {
    ("Required view '" + name) + ("' with ID " + IntToString(id)) + (" for " + who)
      + " was not found. If this view is optional add '@Nullable' annotation."
  }

  lemma MissingViewMessageNames(name: string, id: int, who: string)
    ensures IsInfix(name, MissingViewMessage(name, id, who))
    ensures IsInfix(IntToString(id), MissingViewMessage(name, id, who))
    ensures IsInfix(who, MissingViewMessage(name, id, who))
  {
    var g1, g2, g3 := "Required view '" + name, "' with ID " + IntToString(id), " for " + who;
    var g4 := " was not found. If this view is optional add '@Nullable' annotation.";
    InfixLeft(g1, g2);
    InfixLeft(g1 + g2, g3);
    InfixLeft(g1 + g2 + g3, g4);
    InfixTransitive(g1 + g2, g1 + g2 + g3, g1 + g2 + g3 + g4);
    InfixTransitive(g1, g1 + g2, g1 + g2 + g3 + g4);
    InfixRight("Required view '", name);
    InfixTransitive(name, g1, g1 + g2 + g3 + g4);
    InfixRight(g1, g2);
    InfixRight("' with ID ", IntToString(id));
    InfixTransitive(IntToString(id), g2, g1 + g2);
    InfixTransitive(IntToString(id), g1 + g2, g1 + g2 + g3 + g4);
    InfixRight(g1 + g2, g3);
    InfixRight(" for ", who);
    InfixTransitive(who, g3, g1 + g2 + g3);
    InfixTransitive(who, g1 + g2 + g3, g1 + g2 + g3 + g4);
  }

  /**
   `findRequiredView`: the optional lookup when it finds a view; otherwise
   an IllegalStateException naming the resource, the id and the binding
   site `who` (or the resource lookup's own exception, if that fails).
   */
  function FindRequiredView<V>(finder: Finder, source: Source<V>, id: int, who: string): (r: Result<V, Throwable>)
    ensures r.Success? <==> FindOptionalView(finder, source, id, who).Some?
    ensures r.Success? ==> r.value == FindOptionalView(finder, source, id, who).value
    ensures r.Failure? && GetResourceEntryName(finder, source, id).Failure? ==>
      r.error == GetResourceEntryName(finder, source, id).error
    ensures r.Failure? && GetResourceEntryName(finder, source, id).Success? ==>
      var name := GetResourceEntryName(finder, source, id).value;
      && r.error.IllegalStateException?
      && r.error.cause.None?
      && IsInfix(name, r.error.message)
      && IsInfix(IntToString(id), r.error.message)
      && IsInfix(who, r.error.message)
  {
    match FindOptionalView(finder, source, id, who)
    case Some(view) => Success(view)
    case None =>
      match GetResourceEntryName(finder, source, id)
      case Failure(e) => Failure(e)
      case Success(name) =>
        MissingViewMessageNames(name, id, who);
        Failure(IllegalStateException(MissingViewMessage(name, id, who), None))
  }

  /**
   The shape generated code produces for a method bound to id 1: when the
   view is missing, the error names id 1 and the method.
   */
  lemma MissingRequiredViewForMethod<V>(finder: Finder, source: Source<V>)
    requires 1 !in source.children && 1 in source.entryNames && finder != VIEW
    ensures var r := FindRequiredView(finder, source, 1, "method 'doStuff'");
      && r.Failure? && r.error.IllegalStateException?
      && IsInfix("1", r.error.message)
      && IsInfix("method 'doStuff'", r.error.message)
  {
    assert IntToString(1) == "1";
  }

  /** The position of a parameter as the messages show it: counted from 1. */
  function ShownPosition(position: int32): string {
    IntToString(AddInt32(position, 1))
  }

  /** The wrong-type message, grouped as source parameter, target parameter, advice. */
  function CastParamMessage(from: string, fromPosition: int32, to: string, toPosition: int32): string {
    ("Parameter #" + ShownPosition(fromPosition) + " of method '" + from)
      + ("' was of the wrong type for parameter #" + ShownPosition(toPosition) + " of method '" + to)
      + "'. See cause for more info."
  }

  /**
   `castParam` as its catch block means it: the value itself when it is an
   instance of the expected type (`isInstance`); otherwise an
   IllegalStateException, caused by the ClassCastException, whose message
   gives both parameter positions counted from 1 (in Java `int`
   arithmetic) with their method names. The compiled cast to the type
   variable `T` is erased and never throws, so the Java method behaves as
   `CastParamAsWritten`; this is the behaviour the catch block describes.
   */
  function CastParam<V>(value: V, isInstance: bool, from: string, fromPosition: int32, to: string, toPosition: int32): (r: Result<V, Throwable>)
    ensures r.Success? <==> isInstance
    ensures r.Success? ==> r.value == value
    ensures r.Failure? ==>
      && r.error.IllegalStateException?
      && r.error.cause == Some(ClassCastException)
      && StartsWith(r.error.message, "Parameter #" + ShownPosition(fromPosition) + " of method '" + from)
      && IsInfix("' was of the wrong type for parameter #" + ShownPosition(toPosition) + " of method '" + to, r.error.message)
  {
    if isInstance then Success(value)
    else
      var head := "Parameter #" + ShownPosition(fromPosition) + " of method '" + from;
      var mid := "' was of the wrong type for parameter #" + ShownPosition(toPosition) + " of method '" + to;
      var tail := "'. See cause for more info.";
      assert (head + mid + tail)[..|head|] == head;
      InfixRight(head, mid);
      InfixLeft(head + mid, tail);
      InfixTransitive(mid, head + mid, head + mid + tail);
      Failure(IllegalStateException(CastParamMessage(from, fromPosition, to, toPosition), Some(ClassCastException)))
  }

  /**
   `castParam` as compiled: `(T) value` is an unchecked cast to a type
   variable, which erasure turns into no check at all, so every value comes
   back unchanged and the catch block is never reached.
   */
  function CastParamAsWritten<V>(value: V, isInstance: bool, from: string, fromPosition: int32, to: string, toPosition: int32): (r: Result<V, Throwable>)
  {
    Success(value)
  }

  /**
   A value of the wrong type gets through the compiled `castParam` without
   the report its catch block was written to give; the check is left to
   the caller's own cast, which throws a bare ClassCastException.
   */
  lemma WrongTypeEscapesCastParam()
    ensures CastParamAsWritten(0, false, "onClick", 0, "doStuff", 0) == Success(0)
    ensures CastParam(0, false, "onClick", 0, "doStuff", 0).Failure?
  {
  }

  /**
   For any real parameter position `p` (counted from 0), the message shows
   the decimal text of `p + 1`.
   */
  lemma CastParamOneBased(fromPosition: int32, toPosition: int32)
    requires 0 <= fromPosition < 0x7fff_ffff && 0 <= toPosition < 0x7fff_ffff
    ensures IsIntLiteral(ShownPosition(fromPosition)) && ParseInt(ShownPosition(fromPosition)) == fromPosition + 1
    ensures IsIntLiteral(ShownPosition(toPosition)) && ParseInt(ShownPosition(toPosition)) == toPosition + 1
  {
    IntToStringRoundTrip(fromPosition + 1);
    IntToStringRoundTrip(toPosition + 1);
  }

  /** `Integer.MAX_VALUE + 1` wraps, exactly as the Java expression does. */
  lemma ShownPositionWraps()
    ensures ShownPosition(0x7fff_ffff) == IntToString(-0x8000_0000)
  {
  }

  // ---------------------------------------------------------------------
  // filterNull, arrayOf, listOf and the read-only list.
  // ---------------------------------------------------------------------

  /** The non-null entries of `xs`, in their original order. */
  function NonNull<T>(xs: seq<Option<T>>): (r: seq<Option<T>>)
    ensures |r| <= |xs|
    ensures forall k :: 0 <= k < |r| ==> r[k].Some?
    ensures (forall i :: 0 <= i < |xs| ==> xs[i].Some?) ==> r == xs
    decreases |xs|
  {
    if xs == [] then []
    else
      var rest := NonNull(xs[..|xs| - 1]);
      if xs[|xs| - 1].Some? then rest + [xs[|xs| - 1]] else rest
  }

  /**
   The positions of the non-null entries of `xs`, ascending: `NonNull(xs)`
   is `xs` read at exactly these positions.
   */
  function NonNullPositions<T>(xs: seq<Option<T>>): (p: seq<nat>)
    ensures |p| == |NonNull(xs)|
    ensures forall j :: 0 <= j < |p| ==> p[j] < |xs| && NonNull(xs)[j] == xs[p[j]]
    ensures forall j, k :: 0 <= j < k < |p| ==> p[j] < p[k]
    ensures forall i :: 0 <= i < |xs| && xs[i].Some? ==> i in p
    decreases |xs|
  {
    if xs == [] then []
    else
      var n := |xs| - 1;
      var rest := NonNullPositions(xs[..n]);
      if xs[n].Some? then rest + [n] else rest
  }

  ghost function NonNullIndices<T>(xs: seq<Option<T>>): set<nat> {
    set i: nat | i < |xs| && xs[i].Some?
  }

  /** Filtering keeps exactly as many entries as there are non-null ones. */
  lemma {:induction false} NonNullLength<T>(xs: seq<Option<T>>)
    ensures |NonNull(xs)| == |NonNullIndices(xs)|
    decreases |xs|
  {
    if xs != [] {
      var n := |xs| - 1;
      NonNullLength(xs[..n]);
      assert n !in NonNullIndices(xs[..n]);
      if xs[n].Some? {
        assert NonNullIndices(xs) == NonNullIndices(xs[..n]) + {n};
      } else {
        assert NonNullIndices(xs) == NonNullIndices(xs[..n]);
      }
    }
  }

  /** Filtering twice is filtering once. */
  lemma NonNullIdempotent<T>(xs: seq<Option<T>>)
    ensures NonNull(NonNull(xs)) == NonNull(xs)
  {
  }

  /** Extending the input by one entry extends the filtered views by it, if it is not null. */
  lemma NonNullStep<T>(xs: seq<Option<T>>, i: nat)
    requires i < |xs|
    ensures NonNull(xs[..i + 1]) == NonNull(xs[..i]) + (if xs[i].Some? then [xs[i]] else [])
  {
    assert xs[..i + 1][..i] == xs[..i];
  }

  /**
   One step of the compaction: with the kept views in front of the
   untouched rest, entry `i` is still in place, and writing it over position
   `end` (when it is not null) keeps the shape for `i + 1`.
   */
  lemma CompactStep<T>(views: seq<Option<T>>, i: nat, end: nat)
    requires end <= i < |views| && end == |NonNull(views[..i])|
    ensures (NonNull(views[..i]) + views[end..])[i] == views[i]
    ensures views[i].Some? ==>
      (NonNull(views[..i]) + views[end..])[end := views[i]] == NonNull(views[..i + 1]) + views[end + 1..]
    ensures views[i].None? ==> NonNull(views[..i + 1]) == NonNull(views[..i])
  {
    NonNullStep(views, i);
    var kept := NonNull(views[..i]);
    var s := kept + views[end..];
    assert s[i] == views[end..][i - end];
    if views[i].Some? {
      var t := kept + [views[i]] + views[end + 1..];
      assert |s[end := views[i]]| == |t|;
      forall k | 0 <= k < |t|
        ensures s[end := views[i]][k] == t[k]
      {
        if k > end {
          assert t[k] == views[end + 1..][k - end - 1];
          assert s[k] == views[end..][k - end];
        }
      }
    }
  }

  /**
   `filterNull`: compacts `views` in place and copies out the prefix.
   Returns the array's contents afterwards and the copied prefix.
   */
  method FilterNull<T>(views: seq<Option<T>>) returns (after: seq<Option<T>>, r: seq<Option<T>>)
    ensures r == NonNull(views)
    ensures |after| == |views|
    ensures after[..|r|] == r
    ensures after[|r|..] == views[|r|..]
  {
    var a := new Option<T>[|views|](i requires 0 <= i < |views| => views[i]);
    var end := 0;
    var i := 0;
    assert a[..] == NonNull(views[..0]) + views[0..];
    while i < a.Length
      invariant 0 <= end <= i <= a.Length == |views|
      invariant end == |NonNull(views[..i])|
      invariant a[..] == NonNull(views[..i]) + views[end..]
    {
      var view := a[i];
      CompactStep(views, i, end);
      if view.Some? {
        a[end] := view;
        end := end + 1;
      }
      i := i + 1;
    }
    assert views[..i] == views;
    after := a[..];
    r := a[..end];
  }

  /** `arrayOf`: the non-null arguments, in order. */
  method ArrayOf<T>(views: seq<Option<T>>) returns (after: seq<Option<T>>, r: seq<Option<T>>)
    ensures r == NonNull(views)
    ensures |after| == |views|
    ensures after[..|r|] == r
    ensures after[|r|..] == views[|r|..]
    ensures |r| == |NonNullIndices(views)|
    ensures forall k :: 0 <= k < |r| ==> r[k].Some?
  {
    after, r := FilterNull(views);
    NonNullLength(views);
  }

  /** The read-only list `listOf` returns; it shares the filtered array. */
  datatype ImmutableList<T> = ImmutableList(views: seq<Option<T>>)

  /** `size()`: the number of stored references. */
  function Size<T>(l: ImmutableList<T>): (r: nat)
    ensures r == |l.views|
  {
    |l.views|
  }

  /** `get(index)`: an index outside the array throws. */
  function Get<T>(l: ImmutableList<T>, index: int): (r: Result<Option<T>, Throwable>)
    ensures r.Success? <==> 0 <= index < Size(l)
    ensures r.Success? ==> r.value == l.views[index]
    ensures r.Failure? ==> r.error == ArrayIndexOutOfBoundsException(index)
  {
    if 0 <= index < |l.views| then Success(l.views[index])
    else Failure(ArrayIndexOutOfBoundsException(index))
  }

  /** `contains(o)`: true iff some element is the very reference `o`. */
  method Contains<T(==)>(l: ImmutableList<T>, o: Option<T>) returns (found: bool)
    ensures found <==> exists i :: 0 <= i < Size(l) && l.views[i] == o
  {
    var i := 0;
    while i < |l.views|
      invariant 0 <= i <= |l.views|
      invariant forall j :: 0 <= j < i ==> l.views[j] != o
    {
      if l.views[i] == o {
        return true;
      }
      i := i + 1;
    }
    return false;
  }

  /** `listOf`: a list view whose size and elements are those of the filtered array. */
  method ListOf<T>(views: seq<Option<T>>) returns (after: seq<Option<T>>, l: ImmutableList<T>)
    ensures Size(l) == |NonNull(views)| == |NonNullIndices(views)|
    ensures |after| == |views|
    ensures after[..Size(l)] == NonNull(views)
    ensures after[Size(l)..] == views[Size(l)..]
    ensures forall i :: 0 <= i < Size(l) ==> Get(l, i) == Success(NonNull(views)[i])
    ensures forall i :: 0 <= i < Size(l) ==> Get(l, i).value.Some?
  {
    var filtered;
    after, filtered := FilterNull(views);
    NonNullLength(views);
    l := ImmutableList(filtered);
  }
}
