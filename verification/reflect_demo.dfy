/**
  The raw-type computation of `ReflectDemo`: the erased class of a generic
  type expression, and what is proved about it.
 */
module ReflectDemo {
  import opened JavaReflect

  /** Detail message of the null check that opens the computation. */
  const NullTypeMessage: string := "type == null"

  /** Detail message of the exception thrown for a kind of type that is none
      of the five recognised ones. */
  function UnexpectedTypeMessage(text: string, implClass: string): string
  {
    "Expected a Class, ParameterizedType, or GenericArrayType, but <"
    + text + "> is of type " + implClass
  }

  /** `getRawType`: the class a type expression erases to.
      A class is itself; a parameterized type is its raw type, which must be a
      class; a generic array is the array class of its component's erasure; a
      type variable is `Object`; a wildcard is the erasure of its first upper
      bound. `null` and any other kind of type are rejected.

      Its contract relates it to a second description, the leaf of the spine
      and its number of generic arrays: the computation walks down the spine
      of the expression (array components and first upper bounds) to a leaf,
      and the result is the leaf's class wrapped
      in one array level per generic array passed on the way. It fails with
      the leaf's own exception, or, when the leaf has a class that cannot be
      wrapped that often, with the exception of the array creation. */
  function GetRawType(t: Type): (r: Result<Cls>)
    ensures r.Ok? <==>
      LeafErasure(Leaf(t)).Ok? && CanNestArrays(LeafErasure(Leaf(t)).value, ArrayDepth(t))
    ensures r.Ok? ==> r.value == ArrayOfN(LeafErasure(Leaf(t)).value, ArrayDepth(t))
    ensures r.Err? && LeafErasure(Leaf(t)).Err? ==> r == LeafErasure(Leaf(t))
    ensures r.Err? && LeafErasure(Leaf(t)).Ok? ==> r == Err(IllegalArgumentException(None))
  {
    match t
    case Null => Err(NullPointerException(Some(NullTypeMessage)))
    case ClassT(c) => Ok(c)
    case Parameterized(raw, _) =>
      if raw.ClassT? then Ok(raw.cls) else Err(IllegalArgumentException(None))
    case GenericArray(component) =>
      var e := GetRawType(component);
      if e.Ok? then NewArrayClass(e.value) else e
    case TypeVar(_, _) => Ok(ObjectClass)
    case Wildcard(upper, _) =>
      if |upper| == 0 then Err(ArrayIndexOutOfBoundsException(0, 0))
      else GetRawType(upper[0])
    case OtherT(text, implClass) =>
      Err(IllegalArgumentException(Some(UnexpectedTypeMessage(text, implClass))))
  }

  // ---------------------------------------------------------------------------
  // The spine of a type expression: the positions the computation descends into.

  /** A type expression the computation does not descend from. */
  predicate IsLeaf(t: Type)
  {
    !t.GenericArray? && !(t.Wildcard? && |t.upper| > 0)
  }

  /** The leaf at the end of the spine. */
  function Leaf(t: Type): (l: Type)
    ensures IsLeaf(l)
  {
    match t
    case GenericArray(component) => Leaf(component)
    case Wildcard(upper, _) => if |upper| == 0 then t else Leaf(upper[0])
    case _ => t
  }

  /** Number of generic array types on the spine. */
  function ArrayDepth(t: Type): nat
  {
    match t
    case GenericArray(component) => 1 + ArrayDepth(component)
    case Wildcard(upper, _) => if |upper| == 0 then 0 else ArrayDepth(upper[0])
    case _ => 0
  }

  /** What a leaf stands for on its own: its class, or the exception it causes. */
  function LeafErasure(l: Type): Result<Cls>
    requires IsLeaf(l)
  {
    match l
    case Null => Err(NullPointerException(Some(NullTypeMessage)))
    case ClassT(c) => Ok(c)
    case Parameterized(raw, _) =>
      if raw.ClassT? then Ok(raw.cls) else Err(IllegalArgumentException(None))
    case TypeVar(_, _) => Ok(ObjectClass)
    case Wildcard(_, _) => Err(ArrayIndexOutOfBoundsException(0, 0))
    case OtherT(text, implClass) =>
      Err(IllegalArgumentException(Some(UnexpectedTypeMessage(text, implClass))))
  }

  // ---------------------------------------------------------------------------
  // One lemma per kind of type expression.

  /** A class used as a type is returned unchanged. */
  lemma PlainClassUnchanged(c: Cls)
    ensures GetRawType(ClassT(c)) == Ok(c)
  {
  }

  /** A parameterized type erases to its raw type exactly when that is a class,
      whatever its type arguments; otherwise it is rejected without a message. */
  lemma ParameterizedErasure(raw: Type, args: seq<Type>)
    ensures GetRawType(Parameterized(raw, args)).Ok? <==> raw.ClassT?
    ensures raw.ClassT? ==> GetRawType(Parameterized(raw, args)) == Ok(raw.cls)
    ensures !raw.ClassT? ==> GetRawType(Parameterized(raw, args)) == Err(IllegalArgumentException(None))
  {
  }

  /** A generic array erases to the array class of its component's erasure,
      unless that class is `void` or already has 255 dimensions; an exception
      raised for the component is raised for the array. */
  lemma GenericArrayErasure(component: Type)
    ensures GetRawType(GenericArray(component)).Ok? <==>
      && GetRawType(component).Ok?
      && GetRawType(component).value != VoidClass
      && Dimensions(GetRawType(component).value) < MaxArrayDimensions
    ensures GetRawType(GenericArray(component)).Ok? ==>
      GetRawType(GenericArray(component)) == Ok(ArrayOf(GetRawType(component).value))
    ensures GetRawType(component).Ok? && !GetRawType(GenericArray(component)).Ok? ==>
      GetRawType(GenericArray(component)) == Err(IllegalArgumentException(None))
    ensures GetRawType(component).Err? ==>
      GetRawType(GenericArray(component)) == GetRawType(component)
  {
  }

  /** A type variable erases to `Object`, whatever its name and bounds. */
  lemma TypeVariableErasure(name: string, bounds: seq<Type>)
    ensures GetRawType(TypeVar(name, bounds)) == Ok(ObjectClass)
  {
  }

  /** A wildcard erases like its first upper bound; its lower bounds and other
      upper bounds play no part. With no upper bound at all, the unguarded
      read of the first one throws. */
  lemma WildcardErasure(upper: seq<Type>, lower: seq<Type>)
    ensures |upper| > 0 ==> GetRawType(Wildcard(upper, lower)) == GetRawType(upper[0])
    ensures |upper| == 0 ==>
      GetRawType(Wildcard(upper, lower)) == Err(ArrayIndexOutOfBoundsException(0, 0))
  {
  }

  /** `null` produces no class: the null check throws first. */
  lemma NullRejected()
    ensures GetRawType(Null) == Err(NullPointerException(Some(NullTypeMessage)))
  {
  }

  /** Any other kind of type produces no class; the message names the type
      and its runtime class. */
  lemma OtherKindsRejected(text: string, implClass: string)
    ensures GetRawType(OtherT(text, implClass))
      == Err(IllegalArgumentException(Some(UnexpectedTypeMessage(text, implClass))))
  {
  }

  // ---------------------------------------------------------------------------
  // Properties across kinds.

  /** The result is a class, and a class erases to itself: erasing twice is
      erasing once. */
  lemma Idempotent(t: Type)
    ensures GetRawType(t).Ok? ==> GetRawType(ClassT(GetRawType(t).value)) == GetRawType(t)
  {
  }

  /** `n` nested generic array types around `t` (`List<String>[][]` is two
      around `List<String>`). */
  function GenericArrayOfN(t: Type, n: nat): Type
  {
    if n == 0 then t else GenericArray(GenericArrayOfN(t, n - 1))
  }

  /** The array nesting depth is preserved: `n` generic array levels around a
      type erase to `n` array levels around its erasure, as long as that many
      levels can be created; otherwise the array creation's exception is
      raised. An exception for the innermost component surfaces unchanged. */
  lemma {:induction false} ArrayNestingPreserved(t: Type, n: nat)
    ensures GetRawType(GenericArrayOfN(t, n)).Ok? <==>
      GetRawType(t).Ok? && CanNestArrays(GetRawType(t).value, n)
    ensures GetRawType(GenericArrayOfN(t, n)).Ok? ==>
      GetRawType(GenericArrayOfN(t, n)).value == ArrayOfN(GetRawType(t).value, n)
    ensures GetRawType(GenericArrayOfN(t, n)).Ok? ==>
      Dimensions(GetRawType(GenericArrayOfN(t, n)).value) == Dimensions(GetRawType(t).value) + n
    ensures GetRawType(t).Ok? && !CanNestArrays(GetRawType(t).value, n) ==>
      GetRawType(GenericArrayOfN(t, n)) == Err(IllegalArgumentException(None))
    ensures GetRawType(t).Err? ==> GetRawType(GenericArrayOfN(t, n)) == GetRawType(t)
  {
    if n > 0 {
      ArrayNestingPreserved(t, n - 1);
    }
  }

  /** A type expression with everything the computation never reads removed:
      type arguments, type-variable names and bounds, lower bounds and all but
      the first upper bound. */
  function Skeleton(t: Type): Type
  {
    match t
    case Null => Null
    case ClassT(c) => ClassT(c)
    case Parameterized(raw, _) => Parameterized(raw, [])
    case GenericArray(component) => GenericArray(Skeleton(component))
    case TypeVar(_, _) => TypeVar("", [])
    case Wildcard(upper, _) =>
      if |upper| == 0 then Wildcard([], []) else Wildcard([Skeleton(upper[0])], [])
    case OtherT(text, implClass) => OtherT(text, implClass)
  }

  /** Only the spine matters: erasing the skeleton gives the same result. */
  lemma {:induction false} SkeletonInvariance(t: Type)
    ensures GetRawType(Skeleton(t)) == GetRawType(t)
  {
    match t
    case GenericArray(component) =>
      SkeletonInvariance(component);
    case Wildcard(upper, _) =>
      if |upper| > 0 {
        SkeletonInvariance(upper[0]);
      }
    case _ =>
  }

  /** A type expression of the shape the Java runtime produces always erases:
      no exception is ever thrown for it. */
  lemma {:induction false} WellFormedErases(t: Type)
    requires WellFormed(t)
    ensures GetRawType(t).Ok?
  {
    match t
    case Wildcard(upper, _) =>
      WellFormedErases(upper[0]);
    case ClassT(_) =>
    case _ =>
      WellFormedArrayErases(t);
  }

  /** A well-formed generic array, parameterized type or type variable erases
      to a class with one dimension per nested generic array type, whose
      element class is not `void`. */
  lemma {:induction false} WellFormedArrayErases(t: Type)
    requires WellFormed(t)
    requires t.GenericArray? || t.Parameterized? || t.TypeVar?
    ensures GetRawType(t).Ok?
    ensures Dimensions(GetRawType(t).value) == ComponentDepth(t)
    ensures ElementClass(GetRawType(t).value) != VoidClass
  {
    if t.GenericArray? {
      WellFormedArrayErases(t.component);
    }
  }

  /** The computation invents no class: the result is `Object` or a class that
      occurs in the expression, wrapped in some number of array levels. */
  lemma {:induction false} ErasureUsesOnlyInputClasses(t: Type)
    requires GetRawType(t).Ok?
    ensures exists c, n: nat :: (c == ObjectClass || c in ClassesIn(t))
                                && GetRawType(t).value == ArrayOfN(c, n)
    ensures ElementClass(GetRawType(t).value) == ObjectClass
            || exists c :: c in ClassesIn(t) && ElementClass(c) == ElementClass(GetRawType(t).value)
  {
    ErasureFromInputClasses(t);
    var c, n: nat :| (c == ObjectClass || c in ClassesIn(t)) && GetRawType(t).value == ArrayOfN(c, n);
    assert ElementClass(GetRawType(t).value) == ElementClass(c);
  }

  /** The first half of `ErasureUsesOnlyInputClasses`, by induction. */
  lemma {:induction false} ErasureFromInputClasses(t: Type)
    requires GetRawType(t).Ok?
    ensures exists c, n: nat :: (c == ObjectClass || c in ClassesIn(t))
                                && GetRawType(t).value == ArrayOfN(c, n)
  {
    match t
    case ClassT(c) =>
      assert GetRawType(t).value == ArrayOfN(c, 0);
    case Parameterized(raw, _) =>
      assert raw.cls in ClassesIn(t);
      assert GetRawType(t).value == ArrayOfN(raw.cls, 0);
    case TypeVar(_, _) =>
      assert GetRawType(t).value == ArrayOfN(ObjectClass, 0);
    case GenericArray(component) =>
      ErasureFromInputClasses(component);
      var c, n: nat :| (c == ObjectClass || c in ClassesIn(component))
                       && GetRawType(component).value == ArrayOfN(c, n);
      assert GetRawType(t).value == ArrayOfN(c, n + 1);
    case Wildcard(upper, lower) =>
      ErasureFromInputClasses(upper[0]);
      var c, n: nat :| (c == ObjectClass || c in ClassesIn(upper[0]))
                       && GetRawType(upper[0]).value == ArrayOfN(c, n);
      assert c in ClassesIn(upper[0]) ==> c in ClassesIn(t);
  }

  // ---------------------------------------------------------------------------
  // Type variables: `Object` rather than the leftmost bound.

  /** Erasure that follows the leftmost bound of a type variable instead of
      answering `Object`, as the Java Language Specification (section 4.6)
      erases type variables. Everywhere else it is the same computation. */
  function LeftmostBoundErasure(t: Type): Result<Cls>
  {
    match t
    case GenericArray(component) =>
      var e := LeftmostBoundErasure(component);
      if e.Ok? then NewArrayClass(e.value) else e
    case Wildcard(upper, _) =>
      if |upper| == 0 then LeafErasure(t) else LeftmostBoundErasure(upper[0])
    case TypeVar(_, bounds) =>
      if |bounds| == 0 then Ok(ObjectClass) else LeftmostBoundErasure(bounds[0])
    case _ => LeafErasure(t)
  }

  /** The type variable at the end of the spine, if any, is unbounded or
      bounded first by `Object`. */
  predicate SpineVariableBoundedByObject(t: Type)
  {
    var l := Leaf(t);
    l.TypeVar? ==> |l.bounds| == 0 || l.bounds[0] == ClassT(ObjectClass)
  }

  /** Answering `Object` for a type variable loses nothing when its leftmost
      bound is `Object` anyway. */
  lemma {:induction false} AgreesWithLeftmostBoundErasure(t: Type)
    requires SpineVariableBoundedByObject(t)
    ensures GetRawType(t) == LeftmostBoundErasure(t)
  {
    match t
    case GenericArray(component) =>
      AgreesWithLeftmostBoundErasure(component);
    case Wildcard(upper, _) =>
      if |upper| > 0 {
        AgreesWithLeftmostBoundErasure(upper[0]);
      }
    case _ =>
  }

  /** Where the two erasures both succeed and differ, the difference is the
      type variable at the end of the spine: the result here is `Object`
      under as many array levels as the spine has generic arrays, while the
      leftmost bound gives a class with at least that many levels. */
  lemma {:induction false} MoreGeneralThanLeftmostBound(t: Type)
    requires GetRawType(t).Ok? && LeftmostBoundErasure(t).Ok?
    requires GetRawType(t) != LeftmostBoundErasure(t)
    ensures Leaf(t).TypeVar?
    ensures GetRawType(t).value == ArrayOfN(ObjectClass, ArrayDepth(t))
    ensures Dimensions(LeftmostBoundErasure(t).value) >= ArrayDepth(t)
  {
    match t
    case GenericArray(component) =>
      MoreGeneralThanLeftmostBound(component);
    case Wildcard(upper, _) =>
      MoreGeneralThanLeftmostBound(upper[0]);
    case _ =>
  }

  /** For the type expressions the runtime produces, answering `Object` is
      only more general: where the two erasures differ, the leftmost-bound
      erasure has exactly as many array levels as the result and a reference
      element type, so it is a subtype of the result. */
  lemma {:induction false} ResultIsSupertypeOfLeftmostBound(t: Type)
    requires WellFormed(t)
    requires GetRawType(t).Ok? && LeftmostBoundErasure(t).Ok?
    requires GetRawType(t) != LeftmostBoundErasure(t)
    ensures GetRawType(t).value == ArrayOfN(ObjectClass, ArrayDepth(t))
    ensures Dimensions(LeftmostBoundErasure(t).value) == ArrayDepth(t)
    ensures !IsPrimitive(ElementClass(LeftmostBoundErasure(t).value))
    ensures SubtypeOfObjectArray(LeftmostBoundErasure(t).value, ArrayDepth(t))
  {
    MoreGeneralThanLeftmostBound(t);
    match t
    case GenericArray(component) =>
      ResultIsSupertypeOfLeftmostBound(component);
    case Wildcard(upper, _) =>
      ResultIsSupertypeOfLeftmostBound(upper[0]);
    case TypeVar(_, bounds) =>
      LeftmostBoundOfVariable(bounds[0]);
    case _ =>
  }

  /** A valid bound of a type variable erases, by its leftmost bound, to a
      named class that is not primitive. */
  lemma {:induction false} LeftmostBoundOfVariable(b: Type)
    requires WellFormed(b) && ValidVariableBound(b)
    ensures LeftmostBoundErasure(b).Ok?
    ensures LeftmostBoundErasure(b).value.Named?
    ensures !IsPrimitive(LeftmostBoundErasure(b).value)
  {
    match b
    case TypeVar(_, bounds) =>
      LeftmostBoundOfVariable(bounds[0]);
    case _ =>
  }
}
