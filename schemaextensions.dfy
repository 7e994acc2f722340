/** `DBSchemaExtensions`: primary-key and required-value checks of an entity
    against the table its model type has in a schema.

    Every check goes through `DBSchema.Model`, called through reflection, so
    it fails when the model has no table, with the lookup's exception wrapped
    in a `TargetInvocationException`. The lookup reads the schema but never changes it, so the pure
    specifications below take its outcome, `key` or `required`, as a value. */
module SchemaExtensions {
  import opened Wrappers
  import opened Entities
  import opened Tables
  import opened Schemas

  /** `schema.GetType().GetMethod("Model").MakeGenericMethod(m).Invoke(schema, null)`:
      the table lookup made through reflection, which wraps what the lookup
      throws. */
  function InvokeModel(schema: DBSchema, m: ModelType): (r: Result<DBTable, Cause>)
    reads schema
    ensures r.Success? <==> schema.Model(m).Success?
    ensures r.Success? ==> r.value == schema.Model(m).value
    ensures r.Failure? ==> r.error == Invoked(ModelUnavailable)
  {
    match schema.Model(m)
    case Success(table) => Success(table)
    case Failure(e) => Failure(Invoked(e))
  }

  /** `IsPrimaryKey(schema, p, m)`: whether `p` is the key recorded in `m`'s
      table. A table without a key (null) matches no property. */
  function IsPrimaryKey(schema: DBSchema, p: PropertyInfo, m: ModelType): (r: Result<bool, Cause>)
    reads schema, schema.DBTables
    ensures r.Failure? <==> schema.Model(m).Failure?
    ensures r.Failure? ==> r.error == Invoked(ModelUnavailable)
    ensures r.Success? ==> (r.value <==> schema.Model(m).value.PrimaryKey == Some(p))
  {
    var table :- InvokeModel(schema, m);
    Success(table.PrimaryKey == Some(p))
  }

  /** `GetPrimaryKey(schema, m)`: the key recorded in `m`'s table. */
  function GetPrimaryKey(schema: DBSchema, m: ModelType): (r: Result<Option<PropertyInfo>, Cause>)
    reads schema, schema.DBTables
    ensures r.Failure? <==> schema.Model(m).Failure?
    ensures r.Failure? ==> r.error == Invoked(ModelUnavailable)
    ensures r.Success? ==> r.value == schema.Model(m).value.PrimaryKey
  {
    var table :- InvokeModel(schema, m);
    Success(table.PrimaryKey)
  }

  /** The required set of `m`'s table. */
  function GetRequired(schema: DBSchema, m: ModelType): (r: Result<set<Option<PropertyInfo>>, Cause>)
    reads schema, schema.DBTables
    ensures r.Failure? <==> schema.Model(m).Failure?
    ensures r.Failure? ==> r.error == Invoked(ModelUnavailable)
    ensures r.Success? ==> r.value == schema.Model(m).value.RequiredProperties
  {
    var table :- InvokeModel(schema, m);
    Success(table.RequiredProperties)
  }

  /** The key test given the outcome of the key lookup. */
  function IsKey(key: Result<Option<PropertyInfo>, Cause>, p: PropertyInfo): Result<bool, Cause> {
    var pk :- key;
    Success(pk == Some(p))
  }

  /** `IsPrimaryKey` is the key test on what `GetPrimaryKey` returns. */
  lemma IsPrimaryKeyViaGetPrimaryKey(schema: DBSchema, p: PropertyInfo, m: ModelType)
    ensures IsPrimaryKey(schema, p, m) == IsKey(GetPrimaryKey(schema, m), p)
  {
  }

  /** What `HasPrimaryKeyValue` answers: whether some field is the key and
      holds a value. The first iteration does the lookup, so an entity
      without properties gets `false` even when the lookup would fail. */
  function HasKeyValue(key: Result<Option<PropertyInfo>, Cause>, fields: seq<Field>): Result<bool, Cause> {
    if fields == [] then Success(false)
    else
      var pk :- key;
      Success(exists i :: 0 <= i < |fields| && pk == Some(fields[i].prop) && fields[i].value.Some?)
  }

  /** The value of the first field that is the key, or null when none is. */
  function KeyValue(pk: Option<PropertyInfo>, fields: seq<Field>): (r: Option<Value>)
    ensures (forall i :: 0 <= i < |fields| ==> pk != Some(fields[i].prop)) ==> r.None?
    ensures forall i :: (0 <= i < |fields| && pk == Some(fields[i].prop)
                         && forall j :: 0 <= j < i ==> pk != Some(fields[j].prop)) ==> r == fields[i].value
  {
    if fields == [] then None
    else if pk == Some(fields[0].prop) then fields[0].value
    else
      var r := KeyValue(pk, fields[1..]);
      assert forall i :: 1 <= i < |fields| ==> fields[i] == fields[1..][i - 1];
      r
  }

  /** What `GetPrimaryKeyValue` answers. */
  function GetKeyValue(key: Result<Option<PropertyInfo>, Cause>, fields: seq<Field>): Result<Option<Value>, Cause> {
    if fields == [] then Success(None)
    else
      var pk :- key;
      Success(KeyValue(pk, fields))
  }

  /** What `RequiredValuesCorrect` answers: no required field is null. The
      lookup comes before the loop, so it fails even without properties. */
  function RequiredPresent(required: Result<set<Option<PropertyInfo>>, Cause>, fields: seq<Field>): Result<bool, Cause> {
    var req :- required;
    Success(forall i :: 0 <= i < |fields| && Some(fields[i].prop) in req ==> fields[i].value.Some?)
  }

  /** A key value that is present can be read back: reflection lists a
      property once, so the first field that is the key is the one that holds
      the value. */
  lemma {:induction false} HasKeyValueGivesKeyValue(key: Result<Option<PropertyInfo>, Cause>, e: Entity)
    requires Conforms(e) && WellFormed(e.model)
    requires HasKeyValue(key, e.fields) == Success(true)
    ensures GetKeyValue(key, e.fields).Success? && GetKeyValue(key, e.fields).value.Some?
  {
    var pk := key.value;
    var i :| 0 <= i < |e.fields| && pk == Some(e.fields[i].prop) && e.fields[i].value.Some?;
    forall j | 0 <= j < i
      ensures pk != Some(e.fields[j].prop)
    {
      assert e.fields[j].prop == e.model.properties[j] != e.model.properties[i] == e.fields[i].prop;
    }
  }

  /** Without a table for the model every check fails, except the key checks
      on an entity without properties, which never reach the lookup. */
  lemma UnregisteredModelFails(schema: DBSchema, e: Entity)
    requires schema.Model(e.model).Failure?
    ensures RequiredPresent(GetRequired(schema, e.model), e.fields) == Failure(Invoked(ModelUnavailable))
    ensures e.fields != [] ==> HasKeyValue(GetPrimaryKey(schema, e.model), e.fields) == Failure(Invoked(ModelUnavailable))
    ensures e.fields != [] ==> GetKeyValue(GetPrimaryKey(schema, e.model), e.fields) == Failure(Invoked(ModelUnavailable))
  {
  }

  /** `HasPrimaryKeyValue(schema, obj)`: returns at the first property that is
      the key and holds a value. */
  method HasPrimaryKeyValue(schema: DBSchema, obj: Entity) returns (r: Result<bool, Cause>)
    ensures r == HasKeyValue(GetPrimaryKey(schema, obj.model), obj.fields)
  {
    ghost var key := GetPrimaryKey(schema, obj.model);
    var i := 0;
    while i < |obj.fields|
      invariant 0 <= i <= |obj.fields|
      invariant i > 0 ==> key.Success?
      invariant forall j :: 0 <= j < i ==> !(key.value == Some(obj.fields[j].prop) && obj.fields[j].value.Some?)
    {
      var isKey := IsPrimaryKey(schema, obj.fields[i].prop, obj.model);
      if isKey.Failure? {
        return Failure(isKey.error);
      }
      if isKey.value && obj.fields[i].value.Some? {
        return Success(true);
      }
      i := i + 1;
    }
    return Success(false);
  }

  /** `GetPrimaryKeyValue(schema, obj)`: the value of the first property that
      is the key; null when no property is. */
  method GetPrimaryKeyValue(schema: DBSchema, obj: Entity) returns (r: Result<Option<Value>, Cause>)
    ensures r == GetKeyValue(GetPrimaryKey(schema, obj.model), obj.fields)
  {
    ghost var key := GetPrimaryKey(schema, obj.model);
    var i := 0;
    while i < |obj.fields|
      invariant 0 <= i <= |obj.fields|
      invariant i > 0 ==> key.Success?
      invariant forall j :: 0 <= j < i ==> key.value != Some(obj.fields[j].prop)
      invariant i > 0 ==> KeyValue(key.value, obj.fields) == KeyValue(key.value, obj.fields[i..])
    {
      var isKey := IsPrimaryKey(schema, obj.fields[i].prop, obj.model);
      if isKey.Failure? {
        return Failure(isKey.error);
      }
      if isKey.value {
        return Success(obj.fields[i].value);
      }
      assert obj.fields[i..][1..] == obj.fields[i + 1..];
      i := i + 1;
    }
    return Success(None);
  }

  /** `RequiredValuesCorrect(schema, obj)`: looks up the required set, then
      clears a flag for every required property that is null. */
  method RequiredValuesCorrect(schema: DBSchema, obj: Entity) returns (r: Result<bool, Cause>)
    ensures r == RequiredPresent(GetRequired(schema, obj.model), obj.fields)
  {
    var table := InvokeModel(schema, obj.model);
    if table.Failure? {
      return Failure(table.error);
    }
    var requiredProps := table.value.RequiredProperties;
    var retval := true;
    for i := 0 to |obj.fields|
      invariant retval <==> forall j :: 0 <= j < i && Some(obj.fields[j].prop) in requiredProps ==> obj.fields[j].value.Some?
    {
      if Some(obj.fields[i].prop) in requiredProps {
        if obj.fields[i].value.None? {
          retval := false;
        }
      }
    }
    return Success(retval);
  }
}
