/** `PropertyInfoExtensions`: a second copy of the primary-key and
    required-value checks, written as extensions on the property and on the
    entity instead of on the schema. Each is proved to answer exactly what its
    `DBSchemaExtensions` counterpart answers. */
module PropertyInfoExtensions {
  import opened Wrappers
  import opened Entities
  import opened Tables
  import opened Schemas
  import SchemaExtensions

  /** `propertyInfo.IsPrimaryKey(schema, m)`. */
  function IsPrimaryKey(propertyInfo: PropertyInfo, schema: DBSchema, m: ModelType): (r: Result<bool, Cause>)
    reads schema, schema.DBTables
    ensures r.Failure? <==> schema.Model(m).Failure?
    ensures r.Success? ==> (r.value <==> schema.Model(m).value.PrimaryKey == Some(propertyInfo))
    ensures r == SchemaExtensions.IsPrimaryKey(schema, propertyInfo, m)
  {
    var output := SchemaExtensions.InvokeModel(schema, m);
    if output.Failure? then Failure(output.error)
    else if output.value.PrimaryKey == Some(propertyInfo) then Success(true)
    else Success(false)
  }

  /** `obj.HasPrimaryKeyValue(schema)`. */
  method HasPrimaryKeyValue(obj: Entity, schema: DBSchema) returns (r: Result<bool, Cause>)
    ensures r == SchemaExtensions.HasKeyValue(SchemaExtensions.GetPrimaryKey(schema, obj.model), obj.fields)
  {
    ghost var key := SchemaExtensions.GetPrimaryKey(schema, obj.model);
    for i := 0 to |obj.fields|
      invariant i > 0 ==> key.Success?
      invariant forall j :: 0 <= j < i ==> !(key.value == Some(obj.fields[j].prop) && obj.fields[j].value.Some?)
    {
      var isKey := IsPrimaryKey(obj.fields[i].prop, schema, obj.model);
      if isKey.Failure? {
        return Failure(isKey.error);
      }
      if isKey.value && obj.fields[i].value.Some? {
        return Success(true);
      }
    }
    return Success(false);
  }

  /** `obj.GetPrimaryKeyValue(schema)`. */
  method GetPrimaryKeyValue(obj: Entity, schema: DBSchema) returns (r: Result<Option<Value>, Cause>)
    ensures r == SchemaExtensions.GetKeyValue(SchemaExtensions.GetPrimaryKey(schema, obj.model), obj.fields)
  {
    ghost var key := SchemaExtensions.GetPrimaryKey(schema, obj.model);
    for i := 0 to |obj.fields|
      invariant i > 0 ==> key.Success?
      invariant forall j :: 0 <= j < i ==> key.value != Some(obj.fields[j].prop)
      invariant i > 0 ==> SchemaExtensions.KeyValue(key.value, obj.fields) == SchemaExtensions.KeyValue(key.value, obj.fields[i..])
    {
      var isKey := IsPrimaryKey(obj.fields[i].prop, schema, obj.model);
      if isKey.Failure? {
        return Failure(isKey.error);
      }
      if isKey.value {
        return Success(obj.fields[i].value);
      }
      assert obj.fields[i..][1..] == obj.fields[i + 1..];
    }
    return Success(None);
  }

  /** `obj.RequiredValuesCorrect(schema)`. */
  method RequiredValuesCorrect(obj: Entity, schema: DBSchema) returns (r: Result<bool, Cause>)
    ensures r == SchemaExtensions.RequiredPresent(SchemaExtensions.GetRequired(schema, obj.model), obj.fields)
  {
    var output := SchemaExtensions.InvokeModel(schema, obj.model);
    if output.Failure? {
      return Failure(output.error);
    }
    var requiredProps := output.value.RequiredProperties;
    var retval := true;
    for i := 0 to |obj.fields|
      invariant retval <==> forall j :: 0 <= j < i && Some(obj.fields[j].prop) in requiredProps ==> obj.fields[j].value.Some?
    {
      if Some(obj.fields[i].prop) in requiredProps && obj.fields[i].value.None? {
        retval := false;
      }
    }
    return Success(retval);
  }
}
