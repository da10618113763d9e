# Raw types of generic type expressions

This project models `ReflectDemo.getRawType` from the JavaDemo repository.
The function takes a type expression from Java's reflection model and returns
the class it erases to:

- a `Class` comes back as itself;
- a `ParameterizedType` such as `List<String>` gives its raw type, which must be a class;
- a `GenericArrayType` such as `List<String>[]` gives the array class of its component's erasure;
- a `TypeVariable` gives `Object`;
- a `WildcardType` gives the erasure of its first upper bound;
- `null` and every other kind of `Type` are rejected with an exception.

Files:

- `java_reflect.dfy` (module `JavaReflect`) holds the data model. A `Cls`
  datatype stands for class objects: a named class, or an array class of
  another `Cls`. A `Type` datatype has one constructor per kind of type
  expression, plus `Null` for the null reference and `OtherT` for any other
  implementation of `Type`. Exceptions are values in a `Result`. The module also
  defines `WellFormed`, the shape of expressions the Java runtime hands out.
- `reflect_demo.dfy` (module `ReflectDemo`) holds `GetRawType` and the lemmas
  about it.
- `reflect_demo_examples.dfy` (module `ReflectDemoExamples`) holds the
  concrete inputs of the demonstration: the return types of `ReflectTest`, the
  first call in `main`, and the field types of `ArrayBean`.

The contract of `GetRawType` checks the recursion against a second
description: the leaf of the spine and its number of generic arrays. The
computation follows the *spine* of an
expression: array components and first upper bounds, down to a *leaf*. Its
result is the leaf's class wrapped in one array level per generic array on the
way. Otherwise it is the exception the leaf causes, or the exception of an
array creation that the Java runtime refuses.

`Array.newInstance(c, 0).getClass()` is modelled by `NewArrayClass`. It gives
`ArrayOf(c)`, or the `IllegalArgumentException` that `Array.newInstance`
throws when `c` is `void` or the new class would have more than 255
dimensions. `Object.class` is `Named("java.lang.Object")`.

## Model

| member | source | states |
|---|---|---|
| `ReflectDemo.GetRawType` | src/demo/java/reflect/ReflectDemo.java:18-60 | The call succeeds exactly when the leaf at the end of the spine succeeds on its own and its class can be wrapped in one array level per generic array type on the spine. On success, the result is that wrapped class. A failing leaf gives the leaf's own exception. Otherwise the array creation's `IllegalArgumentException` is thrown. |
| `JavaReflect.NewArrayClass` | src/demo/java/reflect/ReflectDemo.java:41 | Creating the array class succeeds if and only if the element class is not `void` and has fewer than 255 dimensions. The new class has one more dimension and the same element class. A refusal is an `IllegalArgumentException`. |
| `ReflectDemo.PlainClassUnchanged` | src/demo/java/reflect/ReflectDemo.java:21-25 | A class used as a type is returned unchanged. |
| `ReflectDemo.ParameterizedErasure` | src/demo/java/reflect/ReflectDemo.java:27-36 | A parameterized type succeeds if and only if its raw type is a class. It then returns that class, whatever its type arguments. Otherwise it throws `IllegalArgumentException` with no message. |
| `ReflectDemo.GenericArrayErasure` | src/demo/java/reflect/ReflectDemo.java:38-42 | A generic array succeeds if and only if its component does with a class that is not `void` and has fewer than 255 dimensions. Its result is then the array class of the component's class. If the array cannot be created, it throws `IllegalArgumentException`. A failure of the component is passed on unchanged. |
| `ReflectDemo.TypeVariableErasure` | src/demo/java/reflect/ReflectDemo.java:43-48 | A type variable yields `Object`, whatever its name and bounds. |
| `ReflectDemo.WildcardErasure` | src/demo/java/reflect/ReflectDemo.java:49-52 | A wildcard with an upper bound erases like its first upper bound; its lower bounds and other upper bounds are ignored. With no upper bound, the unguarded `[0]` throws `ArrayIndexOutOfBoundsException` for index 0 and length 0. |
| `ReflectDemo.NullRejected` | src/demo/java/reflect/ReflectDemo.java:19 | A null input throws `NullPointerException` with the message "type == null". No class is produced. |
| `ReflectDemo.OtherKindsRejected` | src/demo/java/reflect/ReflectDemo.java:54-59 | Any other kind of type throws `IllegalArgumentException`. Its message embeds the type's text and the name of its runtime class. |
| `ReflectDemo.Idempotent` | src/demo/java/reflect/ReflectDemo.java:18-25 | When the call succeeds, erasing the resulting class again returns the same result. |
| `ReflectDemo.ArrayNestingPreserved` | src/demo/java/reflect/ReflectDemo.java:38-42 | Wrap a type in `n` generic array levels. The wrapped type succeeds if and only if the type does and `n` array levels can be built on its class: none are needed, or the class is not `void` and ends with at most 255 dimensions. Its result has exactly `n` more array dimensions around the type's result. Too many levels throw `IllegalArgumentException`. A failure of the innermost type surfaces unchanged. |
| `ReflectDemo.SkeletonInvariance` | src/demo/java/reflect/ReflectDemo.java:18-60 | Removing what the computation never reads leaves the result unchanged. That covers type arguments, type-variable names and bounds, lower bounds and all upper bounds after the first. |
| `ReflectDemo.WellFormedErases` | src/demo/java/reflect/ReflectDemo.java:18-60 | An expression of the shape the runtime produces always yields a class and never throws. That shape includes: array components are parameterized types, type variables or arrays; at most 255 nested array levels; raw types are named non-primitive classes; type-variable bounds are classes, parameterized types or type variables. |
| `ReflectDemo.WellFormedArrayErases` | src/demo/java/reflect/ReflectDemo.java:27-48 | A well-formed generic array, parameterized type or type variable yields a class with one dimension per nested generic array type, and its element class is not `void`. |
| `ReflectDemo.ErasureUsesOnlyInputClasses` | src/demo/java/reflect/ReflectDemo.java:18-60 | A successful result is `Object` or a class that occurs in the expression, wrapped in some number of array levels. Its element class is therefore `Object` or the element class of a class in the expression. |
| `ReflectDemo.ErasureFromInputClasses` | src/demo/java/reflect/ReflectDemo.java:18-60 | The first half of the above, proved by induction over the spine. |
| `ReflectDemo.AgreesWithLeftmostBoundErasure` | src/demo/java/reflect/ReflectDemo.java:43-48 | If the type variable at the end of the spine is unbounded or bounded first by `Object`, the result equals erasure by the leftmost bound. |
| `ReflectDemo.MoreGeneralThanLeftmostBound` | src/demo/java/reflect/ReflectDemo.java:43-48 | Suppose both erasures succeed but differ. Then the leaf of the spine is a type variable, and the result is `Object` under as many array levels as the spine has generic arrays. The leftmost-bound erasure has at least that many dimensions. |
| `ReflectDemo.ResultIsSupertypeOfLeftmostBound` | src/demo/java/reflect/ReflectDemo.java:43-48 | For a well-formed expression where the two erasures succeed but differ, the leftmost-bound erasure has exactly as many dimensions as the `Object` array result and a non-primitive element class. By the array subtyping rules it is therefore a subtype of the result: the result is more general, as the source's comment accepts. |
| `ReflectDemo.LeftmostBoundOfVariable` | src/demo/java/reflect/ReflectDemo.java:45-46 | A valid type-variable bound erases by its leftmost bound to a named, non-primitive class. |
| `ReflectDemoExamples.ReflectTestReturnTypes` | src/demo/java/reflect/ReflectDemo.java:62-73 | `List<String>` gives `List`. `List<String>[]` gives `List[]`. `T` gives `Object`. `List<?>` gives `List`. |
| `ReflectDemoExamples.MainFirstCall` | src/demo/java/reflect/ReflectDemo.java:76 | `ReflectDemo.class` comes back as itself. |
| `ReflectDemoExamples.ArrayBeanFields` | src/demo/java/reflect/ReflectDemo.java:170-175 | `List[]` comes back as itself. `List<String>[]` gives `List[]`. `List<String>[][]` and `List<SomeBean<String, Integer>>[][]` give `List[][]`. |
| `ReflectDemoExamples.WildcardCases` | src/demo/java/reflect/ReflectDemo.java:49-52 | `?` gives `Object`. `? extends Number` gives `Number`. `? super Integer` gives `Object`. `? extends List<String>` gives `List`. |
| `ReflectDemoExamples.ExamplesWellFormed` | src/demo/java/reflect/ReflectDemo.java:62-73 | All four return types of the interface, `List<String>`, `List<String>[]`, `T` and `List<?>`, have the shape the runtime produces. So do `List<String>[][]` and `U extends Object`. |
| `ReflectDemoExamples.ArrayCreationLimits` | src/demo/java/reflect/ReflectDemo.java:41 | A generic array of `void` throws `IllegalArgumentException`. 255 generic array levels around `List<String>` give a 255-dimensional `List` array. 256 levels throw. |
| `ReflectDemoExamples.MalformedPartsOffTheSpine` | src/demo/java/reflect/ReflectDemo.java:27-51 | A null type argument does not stop `List<null>` from erasing. A raw type that is not a class does stop it. A null component and an empty upper-bound list throw. |
| `ReflectDemoExamples.PrimitiveBoundExcluded` | src/demo/java/reflect/ReflectDemo.java:43-48 | `T extends int` is not of the runtime's shape, and `int[]` is not a subtype of `Object[]`. `T extends Number` in an array is of that shape, and `Number[]` is a subtype of `Object[]`. |
| `ReflectDemoExamples.BoundedVariable` | src/demo/java/reflect/ReflectDemo.java:43-48 | `T extends Number` gives `Object`, where the leftmost bound would give `Number`. For `U extends Object` the two agree. |

## Left out

- All console output (`System.out.println`) is left out. It has no effect on the result.
- `main` is left out, apart from the inputs it passes, which appear as examples. It relies on `Proxy.newProxyInstance` and an `InvocationHandler`, which are runtime proxy machinery.
- `printFieldType`, `printGenericFieldType`, `printParameterizedType`, `isGenericArrayType` and `isParameterizedType` are left out. They only print, and their one call site in `main` is commented out.
- The real `java.lang.reflect` objects are replaced by the `Type` and `Cls` datatypes. `ParameterizedType.getOwnerType()` is not modelled, because the computation never reads it. Type names are plain strings.
- An object that implements more than one of the reflection interfaces is not modelled. In Java the first matching `instanceof` test would win. The datatype's constructors are disjoint, and the runtime's own implementations are too.
- Cyclic type graphs such as `T extends Comparable<T>` are not modelled. The computation never follows type-variable bounds, so finite values lose nothing.
- Subtyping is modelled only as `SubtypeOfObjectArray`: whether a class is a subtype of `Object` under a given number of array levels. That is all the comparison with leftmost-bound erasure needs. The result is more general only because Java never allows a primitive or an array type as a type-variable bound; `WellFormed` encodes that restriction.
- A custom `WildcardType` whose `getUpperBounds()` returns `null` is not modelled. Line 51 would then throw `NullPointerException`, but a sequence cannot be null.
- NewArrayClass: the detail message of the `IllegalArgumentException` thrown by `Array.newInstance` depends on the Java runtime, so the model gives none.
- A wildcard with no upper bound can occur only in this model, never from the runtime. It is modelled as the `ArrayIndexOutOfBoundsException` the unguarded `[0]` would throw, not excluded by a precondition.
