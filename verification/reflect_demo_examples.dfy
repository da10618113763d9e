/**
  The type expressions the demonstration feeds to the raw-type computation:
  the declared return types of the `ReflectTest` interface, the class passed
  first in `main`, and the field types of `ArrayBean`.
 */
module ReflectDemoExamples {
  import opened JavaReflect
  import opened ReflectDemo

  const ListClass: Cls := Named("java.util.List")
  const StringClass: Cls := Named("java.lang.String")
  const IntegerClass: Cls := Named("java.lang.Integer")
  const NumberClass: Cls := Named("java.lang.Number")
  const SomeBeanClass: Cls := Named("demo.java.reflect.SomeBean")
  const ReflectDemoClass: Cls := Named("demo.java.reflect.ReflectDemo")

  /** `?`: the runtime reports `Object` as its only upper bound. */
  const Unbounded: Type := Wildcard([ClassT(ObjectClass)], [])

  /** `List<String>` */
  const ListOfString: Type := Parameterized(ClassT(ListClass), [ClassT(StringClass)])

  /** `T` and `U extends Object` of `ReflectTest<T, U extends Object>`. */
  const VariableT: Type := TypeVar("T", [ClassT(ObjectClass)])
  const VariableU: Type := TypeVar("U", [ClassT(ObjectClass)])

  /** Return types of `getUserIds`, `getUserNames`, `getUserType` and
      `getParameters`. */
  lemma ReflectTestReturnTypes()
    ensures GetRawType(ListOfString) == Ok(ListClass)
    ensures GetRawType(GenericArray(ListOfString)) == Ok(ArrayOf(ListClass))
    ensures GetRawType(VariableT) == Ok(ObjectClass)
    ensures GetRawType(Parameterized(ClassT(ListClass), [Unbounded])) == Ok(ListClass)
  {
  }

  /** The first call in `main`: a plain class comes back as itself. */
  lemma MainFirstCall()
    ensures GetRawType(ClassT(ReflectDemoClass)) == Ok(ReflectDemoClass)
  {
  }

  /** Generic types of the fields of `ArrayBean`: `List[]` is already a class;
      the generic arrays keep their number of dimensions. */
  lemma ArrayBeanFields()
    ensures GetRawType(ClassT(ArrayOf(ListClass))) == Ok(ArrayOf(ListClass))
    ensures GetRawType(GenericArray(ListOfString)) == Ok(ArrayOf(ListClass))
    ensures GetRawType(GenericArray(GenericArray(ListOfString)))
      == Ok(ArrayOf(ArrayOf(ListClass)))
    ensures GetRawType(GenericArray(GenericArray(
              Parameterized(ClassT(ListClass),
                [Parameterized(ClassT(SomeBeanClass), [ClassT(StringClass), ClassT(IntegerClass)])]))))
      == Ok(ArrayOf(ArrayOf(ListClass)))
  {
  }

  /** Wildcards erase through their first upper bound only. */
  lemma WildcardCases()
    ensures GetRawType(Unbounded) == Ok(ObjectClass)
    ensures GetRawType(Wildcard([ClassT(NumberClass)], [])) == Ok(NumberClass)
    ensures GetRawType(Wildcard([ClassT(ObjectClass)], [ClassT(IntegerClass)])) == Ok(ObjectClass)
    ensures GetRawType(Wildcard([ListOfString], [])) == Ok(ListClass)
  {
  }

  /** The expressions above are of the shape the runtime produces. */
  lemma ExamplesWellFormed()
    ensures WellFormed(ListOfString)
    ensures WellFormed(GenericArray(ListOfString))
    ensures WellFormed(VariableT)
    ensures WellFormed(Parameterized(ClassT(ListClass), [Unbounded]))
    ensures WellFormed(GenericArray(GenericArray(ListOfString)))
    ensures WellFormed(VariableU)
  {
    assert ComponentDepth(GenericArray(ListOfString)) == 1;
    assert ComponentDepth(GenericArray(GenericArray(ListOfString))) == 2;
  }

  /** Creating the array class fails for a `void` element and beyond 255
      dimensions; 255 generic array levels still erase. */
  lemma ArrayCreationLimits()
    ensures GetRawType(GenericArray(ClassT(VoidClass))) == Err(IllegalArgumentException(None))
    ensures GetRawType(GenericArrayOfN(ListOfString, 255)) == Ok(ArrayOfN(ListClass, 255))
    ensures GetRawType(GenericArrayOfN(ListOfString, 256)) == Err(IllegalArgumentException(None))
  {
    ArrayNestingPreserved(ListOfString, 255);
    ArrayNestingPreserved(ListOfString, 256);
  }

  /** Type arguments are never inspected, so even a malformed argument list
      does not stop a parameterized type from erasing; a raw type that is not
      a class does. */
  lemma MalformedPartsOffTheSpine()
    ensures !WellFormed(Parameterized(ClassT(ListClass), [Null]))
    ensures GetRawType(Parameterized(ClassT(ListClass), [Null])) == Ok(ListClass)
    ensures GetRawType(Parameterized(ListOfString, [])) == Err(IllegalArgumentException(None))
    ensures GetRawType(GenericArray(Null)) == Err(NullPointerException(Some("type == null")))
    ensures GetRawType(Wildcard([], [ClassT(IntegerClass)])) == Err(ArrayIndexOutOfBoundsException(0, 0))
  {
    var args: seq<Type> := [Null];
    assert !WellFormed(args[0]);
  }

  /** `T extends Number` erases to `Object` here, where the leftmost bound
      would give `Number`; for `U extends Object` the two agree. */
  lemma BoundedVariable()
    ensures GetRawType(TypeVar("T", [ClassT(NumberClass)])) == Ok(ObjectClass)
    ensures LeftmostBoundErasure(TypeVar("T", [ClassT(NumberClass)])) == Ok(NumberClass)
    ensures GetRawType(VariableU) == LeftmostBoundErasure(VariableU)
  {
  }

  /** A primitive bound, which Java refuses, is outside the runtime's shape;
      with it `int[]` would be no subtype of `Object[]`. With a class bound,
      `Number[]` is. */
  lemma PrimitiveBoundExcluded()
    ensures !WellFormed(GenericArray(TypeVar("T", [ClassT(Named("int"))])))
    ensures !SubtypeOfObjectArray(ArrayOf(Named("int")), 1)
    ensures WellFormed(GenericArray(TypeVar("T", [ClassT(NumberClass)])))
    ensures SubtypeOfObjectArray(ArrayOf(NumberClass), 1)
  {
    var bounds: seq<Type> := [ClassT(Named("int"))];
    assert !ValidVariableBound(bounds[0]);
  }
}
