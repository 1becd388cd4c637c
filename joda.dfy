/**
 * The class bookkeeping of the Joda bean bridge: when two property types are
 * interchangeable (JodaBeanUtil.equivalentTypes), which Joda property class a
 * basic type is created with (lookupPropertyType), the arity guard of
 * fillBean, and CBuildFromJodaBeans.boxedPrimitiveType.
 */
module JodaTypes {
  import opened Base

  /**
   * JodaBeanUtil.equivalentTypes: equal classes, or a primitive class and its
   * wrapper in either order. The chain tests the pairs in the source's order,
   * including its second (unreachable) long/Long test.
   */
  predicate EquivalentTypes(t1: JClass, t2: JClass) {
    if t1 == t2 then true
    else if t1 == Boxed(PByte) then t2 == Primitive(PByte)
    else if t1 == Primitive(PByte) then t2 == Boxed(PByte)
    else if t1 == Boxed(PShort) then t2 == Primitive(PShort)
    else if t1 == Primitive(PShort) then t2 == Boxed(PShort)
    else if t1 == Boxed(PInt) then t2 == Primitive(PInt)
    else if t1 == Primitive(PInt) then t2 == Boxed(PInt)
    else if t1 == Boxed(PLong) then t2 == Primitive(PLong)
    else if t1 == Primitive(PLong) then t2 == Boxed(PLong)
    else if t1 == Boxed(PFloat) then t2 == Primitive(PFloat)
    else if t1 == Primitive(PFloat) then t2 == Boxed(PFloat)
    else if t1 == Boxed(PLong) then t2 == Primitive(PLong)
    else if t1 == Primitive(PLong) then t2 == Boxed(PLong)
    else if t1 == Boxed(PDouble) then t2 == Primitive(PDouble)
    else if t1 == Primitive(PDouble) then t2 == Boxed(PDouble)
    else if t1 == Boxed(PBoolean) then t2 == Primitive(PBoolean)
    else if t1 == Primitive(PBoolean) then t2 == Boxed(PBoolean)
    else if t1 == Boxed(PChar) then t2 == Primitive(PChar)
    else if t1 == Primitive(PChar) then t2 == Boxed(PChar)
    else false
  }

  /** The relation in closed form: identity plus the eight boxing pairs, both ways. */
  lemma EquivalentTypesIff(t1: JClass, t2: JClass)
    ensures EquivalentTypes(t1, t2) <==>
      t1 == t2 ||
      (t1.Boxed? && t2 == Primitive(t1.p)) ||
      (t1.Primitive? && t2 == Boxed(t1.p))
  {
    match t1
    case Boxed(p) =>
      match p {
        case PBoolean => case PByte => case PShort => case PInt =>
        case PLong => case PFloat => case PDouble => case PChar =>
      }
    case Primitive(p) =>
      match p {
        case PBoolean => case PByte => case PShort => case PInt =>
        case PLong => case PFloat => case PDouble => case PChar =>
      }
    case _ =>
  }

  lemma EquivalentTypesReflexive(t: JClass)
    ensures EquivalentTypes(t, t)
  {
  }

  /** Every wrapper is equivalent to its primitive and back. */
  lemma BoxingPairsEquivalent(p: Prim)
    ensures EquivalentTypes(Boxed(p), Primitive(p))
    ensures EquivalentTypes(Primitive(p), Boxed(p))
  {
    EquivalentTypesIff(Boxed(p), Primitive(p));
    EquivalentTypesIff(Primitive(p), Boxed(p));
  }

  lemma EquivalentTypesSymmetric(t1: JClass, t2: JClass)
    ensures EquivalentTypes(t1, t2) <==> EquivalentTypes(t2, t1)
  {
    EquivalentTypesIff(t1, t2);
    EquivalentTypesIff(t2, t1);
  }

  /** Two different wrappers (or a wrapper and another primitive) are never equivalent. */
  lemma DistinctKindsNotEquivalent(p: Prim, q: Prim)
    requires p != q
    ensures !EquivalentTypes(Boxed(p), Primitive(q))
    ensures !EquivalentTypes(Boxed(p), Boxed(q))
    ensures !EquivalentTypes(Primitive(p), Primitive(q))
  {
    EquivalentTypesIff(Boxed(p), Primitive(q));
    EquivalentTypesIff(Boxed(p), Boxed(q));
    EquivalentTypesIff(Primitive(p), Primitive(q));
  }

  /** The Joda property classes lookupPropertyType can hand out. */
  datatype PropertyClass =
    | StringProperty
    | CharPrimitiveProperty
    | BooleanPrimitiveProperty
    | IntegerPrimitiveProperty
    | DoublePrimitiveProperty
    | BooleanProperty
    | IntegerProperty
    | DoubleProperty

  /**
   * JodaBeanUtil.lookupPropertyType. Note that the wrapper Character (not the
   * primitive char) is the one mapped, and to the primitive property class.
   */
  function LookupPropertyType(basicType: JClass): (r: Result<PropertyClass>)
    ensures r.Ok? <==> basicType in {StringClass, Boxed(PChar), Primitive(PBoolean), Primitive(PInt),
                                     Primitive(PDouble), Boxed(PBoolean), Boxed(PInt), Boxed(PDouble)}
    ensures r.Err? ==> r.error == UnsupportedProperty(basicType)
  {
    if basicType == StringClass then Ok(StringProperty)
    else if basicType == Boxed(PChar) then Ok(CharPrimitiveProperty)
    else if basicType == Primitive(PBoolean) then Ok(BooleanPrimitiveProperty)
    else if basicType == Primitive(PInt) then Ok(IntegerPrimitiveProperty)
    else if basicType == Primitive(PDouble) then Ok(DoublePrimitiveProperty)
    else if basicType == Boxed(PBoolean) then Ok(BooleanProperty)
    else if basicType == Boxed(PInt) then Ok(IntegerProperty)
    else if basicType == Boxed(PDouble) then Ok(DoubleProperty)
    else Err(UnsupportedProperty(basicType))
  }

  /** Distinct supported types get distinct property classes. */
  lemma LookupPropertyTypeInjective(a: JClass, b: JClass)
    requires LookupPropertyType(a).Ok? && LookupPropertyType(b).Ok?
    requires LookupPropertyType(a) == LookupPropertyType(b)
    ensures a == b
  {
  }

  /** long, Long, float and char have no property class. */
  lemma UnsupportedExamples()
    ensures LookupPropertyType(Primitive(PLong)).Err?
    ensures LookupPropertyType(Boxed(PLong)).Err?
    ensures LookupPropertyType(Primitive(PFloat)).Err?
    ensures LookupPropertyType(Primitive(PChar)).Err?
  {
  }

  /**
   * The guard at the head of JodaBeanUtil.fillBean: names, types and values
   * must have one entry per property. On success the number of properties set.
   */
  function FillBeanArity(propertyNames: seq<string>, propertyTypes: seq<JClass>, propertyValues: seq<Value>): (r: Result<nat>)
    ensures r.Ok? <==> |propertyNames| == |propertyTypes| == |propertyValues|
    ensures r.Ok? ==> r.value == |propertyNames|
    ensures r.Err? ==> r.error.IllegalArgument?
  {
    var numProps := |propertyNames|;
    if numProps != |propertyTypes| || numProps != |propertyValues| then
      Result<nat>.Err(IllegalArgument("names.length != types.length != values.length"))
    else
      Ok(numProps)
  }

  /**
   * CBuildFromJodaBeans.boxedPrimitiveType: each of the eight primitive
   * classes (byte, short, int, long, float, double, boolean, char) maps to its
   * wrapper; any other class is returned as is.
   */
  function BoxedPrimitiveType(c: JClass): (r: JClass)
    ensures !r.Primitive?
    ensures c.Primitive? ==> r == Boxed(c.p)
    ensures !c.Primitive? ==> r == c
  {
    match c
    case Primitive(p) => Boxed(p)
    case _ => c
  }

  lemma BoxedPrimitiveTypeIdempotent(c: JClass)
    ensures BoxedPrimitiveType(BoxedPrimitiveType(c)) == BoxedPrimitiveType(c)
  {
  }

  /** Boxing never leaves the class's equivalence class. */
  lemma BoxedPrimitiveTypeEquivalent(c: JClass)
    ensures EquivalentTypes(BoxedPrimitiveType(c), c)
    ensures EquivalentTypes(c, BoxedPrimitiveType(c))
  {
    EquivalentTypesIff(BoxedPrimitiveType(c), c);
    EquivalentTypesIff(c, BoxedPrimitiveType(c));
  }

  /** Equivalent classes box to the same class, and only they do. */
  lemma EquivalentIffSameBoxed(a: JClass, b: JClass)
    ensures EquivalentTypes(a, b) <==> BoxedPrimitiveType(a) == BoxedPrimitiveType(b)
  {
    EquivalentTypesIff(a, b);
  }
}
