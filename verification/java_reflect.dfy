/**
  The part of the Java reflection model that the raw-type computation reads:
  class objects, the five kinds of generic type expression (plus `null` and any
  other implementation of `java.lang.reflect.Type`), and the exceptions that
  the computation can raise, as plain values.
 */
module JavaReflect {

  datatype Option<+T> = None | Some(value: T)

  /** A `java.lang.Class` object: a named class, interface or primitive type,
      or the class of arrays whose elements have class `element`. */
  datatype Cls = Named(name: string) | ArrayOf(element: Cls)

  /** `Object.class`. */
  const ObjectClass: Cls := Named("java.lang.Object")

  /** A reference of static type `java.lang.reflect.Type`.
      - `Null`: the null reference;
      - `ClassT`: a `Class` object used as a type;
      - `Parameterized`: a `ParameterizedType`, with `getRawType()` and
        `getActualTypeArguments()`;
      - `GenericArray`: a `GenericArrayType`, with `getGenericComponentType()`;
      - `TypeVar`: a `TypeVariable`, with its name and `getBounds()`;
      - `Wildcard`: a `WildcardType`, with `getUpperBounds()` and
        `getLowerBounds()`;
      - `OtherT`: any other implementation of `Type`, with what its
        `toString()` and `getClass().getName()` return. */
  datatype Type =
    | Null
    | ClassT(cls: Cls)
    | Parameterized(raw: Type, args: seq<Type>)
    | GenericArray(component: Type)
    | TypeVar(name: string, bounds: seq<Type>)
    | Wildcard(upper: seq<Type>, lower: seq<Type>)
    | OtherT(text: string, implClass: string)

  /** The unchecked exceptions a reflective computation can throw. A missing
      message (a `null` detail message in Java) is `None`. */
  datatype Exception =
    | NullPointerException(message: Option<string>)
    | IllegalArgumentException(message: Option<string>)
    | ArrayIndexOutOfBoundsException(index: int, length: nat)

  /** A value, or the exception thrown instead of returning one. */
  datatype Result<+T> = Ok(value: T) | Err(error: Exception)

  /** Number of array levels of a class (`List[][]` has two). */
  function Dimensions(c: Cls): nat
  {
    match c
    case Named(_) => 0
    case ArrayOf(e) => 1 + Dimensions(e)
  }

  /** The class left once every array level is stripped (`List` for `List[][]`). */
  function ElementClass(c: Cls): (e: Cls)
    ensures e.Named?
  {
    match c
    case Named(_) => c
    case ArrayOf(e) => ElementClass(e)
  }

  /** `c` wrapped in `n` array levels: the class of `n`-dimensional arrays of `c`. */
  function ArrayOfN(c: Cls, n: nat): (r: Cls)
    ensures Dimensions(r) == Dimensions(c) + n
    ensures ElementClass(r) == ElementClass(c)
  {
    if n == 0 then c else ArrayOf(ArrayOfN(c, n - 1))
  }

  /** Names of the primitive types and `void`, whose class objects are not
      reference types. */
  const PrimitiveNames: set<string> :=
    {"boolean", "byte", "char", "short", "int", "long", "float", "double", "void"}

  /** The class of a primitive type or of `void`. */
  predicate IsPrimitive(c: Cls)
  {
    c.Named? && c.name in PrimitiveNames
  }

  /** Whether `c` is a subtype of `Object` under `d` array levels, by the
      array subtyping rules of the Java Language Specification (section
      4.10.3): an array type with more than `d` dimensions always is, one
      with exactly `d` is when its element type is a reference type, and
      one with fewer never is. */
  predicate SubtypeOfObjectArray(c: Cls, d: nat)
  {
    Dimensions(c) > d || (Dimensions(c) == d && !IsPrimitive(ElementClass(c)))
  }

  /** `void.class`, which no array can have as its element class. */
  const VoidClass: Cls := Named("void")

  /** The largest number of dimensions a Java array class can have. */
  const MaxArrayDimensions: nat := 255

  /** `Array.newInstance(c, 0).getClass()`: the class of arrays whose elements
      have class `c`. Creating the array is refused with an
      `IllegalArgumentException` when `c` is `void` or when the new class
      would have more than 255 dimensions. */
  function NewArrayClass(c: Cls): (r: Result<Cls>)
    ensures r.Ok? <==> c != VoidClass && Dimensions(c) < MaxArrayDimensions
    ensures r.Ok? ==> r.value == ArrayOfN(c, 1)
    ensures r.Ok? ==> Dimensions(r.value) == Dimensions(c) + 1 && ElementClass(r.value) == ElementClass(c)
    ensures r.Err? ==> r.error == IllegalArgumentException(None)
  {
    if c == VoidClass || Dimensions(c) >= MaxArrayDimensions then Err(IllegalArgumentException(None))
    else Ok(ArrayOf(c))
  }

  /** `n` successive array creations starting from element class `c` all
      succeed: none is needed, or `c` is not `void` and the last class has at
      most 255 dimensions. */
  predicate CanNestArrays(c: Cls, n: nat)
  {
    n == 0 || (c != VoidClass && Dimensions(c) + n <= MaxArrayDimensions)
  }

  /** Number of generic array types nested directly inside one another at the
      top of `t` (`List<String>[][]` has two). */
  function ComponentDepth(t: Type): nat
  {
    match t
    case GenericArray(component) => 1 + ComponentDepth(component)
    case _ => 0
  }

  /** What Java accepts as a bound of a type variable: a class or interface
      type, a parameterized type or another type variable, never a primitive
      or an array type. */
  predicate ValidVariableBound(b: Type)
  {
    b.Parameterized? || b.TypeVar? || (b.ClassT? && b.cls.Named? && !IsPrimitive(b.cls))
  }

  /** The shape of type expressions that the Java runtime hands out: no null
      references, only the five standard kinds, the raw type of a
      parameterized type is a named non-primitive class, the bounds of a
      type variable are valid variable bounds, the component of
      a generic array type is a parameterized type, a type variable or another
      generic array type, at most 255 generic array types are nested, and the
      bounds of type variables and the upper bounds of wildcards are never
      empty (an unbounded one has `Object`). Every nested type expression is
      of that shape too. */
  predicate WellFormed(t: Type)
  {
    match t
    case Null => false
    case ClassT(_) => true
    case Parameterized(raw, args) =>
      && raw.ClassT? && raw.cls.Named? && !IsPrimitive(raw.cls)
      && forall i :: 0 <= i < |args| ==> WellFormed(args[i])
    case GenericArray(component) =>
      && (component.Parameterized? || component.TypeVar? || component.GenericArray?)
      && ComponentDepth(t) <= MaxArrayDimensions
      && WellFormed(component)
    case TypeVar(_, bounds) =>
      && |bounds| > 0
      && forall i :: 0 <= i < |bounds| ==> ValidVariableBound(bounds[i]) && WellFormed(bounds[i])
    case Wildcard(upper, lower) =>
      && |upper| > 0
      && (forall i :: 0 <= i < |upper| ==> WellFormed(upper[i]))
      && (forall i :: 0 <= i < |lower| ==> WellFormed(lower[i]))
    case OtherT(_, _) => false
  }

  /** Every class object that occurs anywhere in a type expression, as a type
      or as the raw type of a parameterized type, in arguments and bounds. */
  function ClassesIn(t: Type): set<Cls>
  {
    match t
    case Null => {}
    case ClassT(c) => {c}
    case Parameterized(raw, args) =>
      ClassesIn(raw) + (set i, c | 0 <= i < |args| && c in ClassesIn(args[i]) :: c)
    case GenericArray(component) => ClassesIn(component)
    case TypeVar(_, bounds) =>
      set i, c | 0 <= i < |bounds| && c in ClassesIn(bounds[i]) :: c
    case Wildcard(upper, lower) =>
      (set i, c | 0 <= i < |upper| && c in ClassesIn(upper[i]) :: c)
      + (set i, c | 0 <= i < |lower| && c in ClassesIn(lower[i]) :: c)
    case OtherT(_, _) => {}
  }
}
