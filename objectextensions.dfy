/** `ObjectExtensions.GetDefault`: a value standing for "the default" of a
    declared property type. */
module ObjectExtensions {
  import opened Wrappers
  import opened Entities

  /** `Type.IsValueType`: true for structs and for `Nullable<T>` alike. */
  predicate IsValueType(t: TypeTag) {
    t.Struct? || t.NullableStruct?
  }

  /** `Activator.CreateInstance(t)` on a value type, boxed: the default
      instance of a struct, and null for `Nullable<T>` (whose default boxes to
      null). */
  function CreateInstance(t: TypeTag): Option<Value>
    requires IsValueType(t)
  {
    if t.Struct? then Some(DefaultOf(t.kind)) else None
  }

  /** The chain of type tests of `GetDefault`, in the source's order. The test
      for `bool?` comes after the value-type test, which `bool?` already passes. */
  function GetDefault(t: TypeTag): (r: Option<Value>)
    ensures t.Struct? ==> r == Some(DefaultOf(t.kind))
    ensures t == StringType ==> r == Some(StringVal(""))
    ensures t.NullableStruct? || t.ClassType? ==> r == None
  {
    if IsValueType(t) then CreateInstance(t)
    else if t == StringType then Some(StringVal(""))
    else if t == NullableStruct(BoolKind) then None
    else None
  }

  /** `bool?` yields null, by way of the value-type branch. */
  lemma NullableBoolTakesValueTypeBranch()
    ensures IsValueType(NullableStruct(BoolKind))
    ensures GetDefault(NullableStruct(BoolKind)) == CreateInstance(NullableStruct(BoolKind)) == None
  {
  }

  /** `GetDefault` agrees with what a freshly constructed instance holds
      (C#'s `default(T)`) for every type but `string`, where it gives "" and
      not null. */
  lemma GetDefaultVersusInitialValue(t: TypeTag)
    ensures GetDefault(t) != InitialValue(t) <==> t == StringType
  {
  }
}
