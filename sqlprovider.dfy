/** `SqlDBActionProvider`: the four actions, each written as the source's
    loops that build the statement text, proved equal to the statement
    functions of `SqlStatements`.

    The driver is left abstract. A statement that is built is handed to the
    database (`issued`); the database answers with an error message or, for
    `Fetch`, with the rows it read. Every failure, whether from a check
    before the statement is sent or from the database, surfaces as a
    `DBActionProviderException` carrying the action's message and the cause. */
module SqlProvider {
  import opened Wrappers
  import opened Text
  import opened Entities
  import opened Gather
  import opened ObjectExtensions
  import opened Schemas
  import opened SchemaExtensions
  import opened SqlStatements
  import opened DBSets

  datatype ProviderError = DBActionProviderException(Message: string, InnerException: Cause)

  const FetchFailed := "The action provide could not fetch any data"
  const PushFailed := "The action provider could not push the given item to the database"
  const RemoveFailed := "The action provider could not remove the item/items based on the given predicate"
  const UpdateFailed := "The action provider could not update the item based on the given predicate"

  /** How an action that sends one statement ends: the statement could not be
      built, the database refused it, or it went through. */
  function Settle(message: string, statement: Result<string, Cause>, driverError: Option<string>): (r: Outcome<ProviderError>)
    ensures r.Pass? <==> statement.Success? && driverError.None?
    ensures r.Fail? ==> r.error.Message == message
    ensures statement.Failure? ==> r.error.InnerException == statement.error
    ensures statement.Success? && driverError.Some? ==> r.error.InnerException == DriverFailure(driverError.value)
  {
    if statement.Failure? then Fail(DBActionProviderException(message, statement.error))
    else if driverError.Some? then Fail(DBActionProviderException(message, DriverFailure(driverError.value)))
    else Pass
  }

  /** How `Fetch` ends: the entities read, or the cause of the failure. */
  function FetchResult(m: ModelType, pred: Option<Entity>, reader: Result<seq<Row>, string>): (r: Result<seq<Entity>, ProviderError>)
    ensures r.Success? <==> FetchStatement(m, pred).Success? && reader.Success? && ReadRows(m, reader.value).Success?
    ensures r.Failure? ==> r.error.Message == FetchFailed
  {
    if FetchStatement(m, pred).Failure? then Failure(DBActionProviderException(FetchFailed, FetchStatement(m, pred).error))
    else if reader.Failure? then Failure(DBActionProviderException(FetchFailed, DriverFailure(reader.error)))
    else if ReadRows(m, reader.value).Failure? then Failure(DBActionProviderException(FetchFailed, ReadRows(m, reader.value).error))
    else Success(ReadRows(m, reader.value).value)
  }

  /** A fetch that succeeds yields one instance of the model per row, in
      reader order. */
  lemma FetchOnePerRow(m: ModelType, pred: Option<Entity>, reader: Result<seq<Row>, string>)
    requires FetchResult(m, pred, reader).Success?
    ensures |FetchResult(m, pred, reader).value| == |reader.value|
    ensures forall i :: 0 <= i < |reader.value| ==>
              ReadRow(m, reader.value[i]).Success?
              && FetchResult(m, pred, reader).value[i] == ReadRow(m, reader.value[i]).value
              && Constructed(m, FetchResult(m, pred, reader).value[i])
  {
    ReadRowsOnePerRow(m, reader.value);
    forall i | 0 <= i < |reader.value|
      ensures Constructed(m, ReadRow(m, reader.value[i]).value)
    {
      ReadRowConforms(m, reader.value[i]);
    }
  }

  /** The `count`-guarded loop that lists the columns. */
  method JoinColumns(dbcolumns: seq<string>) returns (columns: string)
    ensures columns == Join(dbcolumns, ", ")
  {
    columns := "";
    var count := 0;
    for i := 0 to |dbcolumns|
      invariant count == i
      invariant columns == JoinedSoFar(dbcolumns, i, ", ")
    {
      JoinedSoFarStep(dbcolumns, i, ", ");
      columns := columns + dbcolumns[i];
      count := count + 1;
      if count < |dbcolumns| {
        columns := columns + ", ";
      }
    }
    JoinedSoFarAll(dbcolumns, ", ");
  }

  /** The text of `Fetch`'s query. */
  method FetchQuery(m: ModelType, pred: Option<Entity>) returns (q: Result<string, Cause>)
    ensures q == FetchStatement(m, pred)
  {
    var table := TableName(m);
    if table.Failure? {
      return Failure(table.error);
    }
    var props := m.properties;
    var dbcolumns: seq<string> := [];
    for i := 0 to |props|
      invariant Collect(props[..i], ColumnStep) == Success(dbcolumns)
    {
      CollectStep(props, i, ColumnStep);
      var name := ColumnName(props[i]);
      if name.Failure? {
        CollectFailsAt(props, i, ColumnStep);
        return Failure(name.error);
      }
      dbcolumns := dbcolumns + [name.value];
    }
    assert props[..|props|] == props;
    var columns := JoinColumns(dbcolumns);

    var where: Option<string> := None;
    if pred.Some? {
      var fs := pred.value.fields;
      ghost var conditions: seq<string> := [];
      for i := 0 to |fs|
        invariant Collect(fs[..i], ConditionStep) == Success(conditions)
        invariant where == JoinOrNull(conditions, " AND ")
      {
        CollectStep(fs, i, ConditionStep);
        if fs[i].value.None? {
          continue;
        }
        var value := fs[i].value.value;
        if where.Some? {
          where := Append(where, " AND ");
        }
        var propname := ColumnName(fs[i].prop);
        if propname.Failure? {
          CollectFailsAt(fs, i, ConditionStep);
          return Failure(propname.error);
        }
        var propEquater := ConditionLiteral(value);
        JoinOrNullSnoc(conditions, propname.value + " = " + propEquater, " AND ");
        where := Append(where, propname.value + " = " + propEquater);
        conditions := conditions + [Condition(propname.value, value)];
      }
      assert fs[..|fs|] == fs;
    }
    q := Success("SELECT " + columns + " FROM " + table.value + " WHERE " + where.GetOr("1 = 1"));
  }

  /** The reader loop's body: a new instance whose every property is set
      from the column of that name. Every property is overwritten, so the
      fields are built in order and the new instance's initial values never
      show. */
  method ReadItem(m: ModelType, row: Row) returns (r: Result<Entity, Cause>)
    ensures r == ReadRow(m, row)
  {
    var props := m.properties;
    var fields: seq<Field> := [];
    ghost var step := p => ReadStep(row, p);
    for i := 0 to |props|
      invariant Collect(props[..i], step) == Success(fields)
    {
      CollectStep(props, i, step);
      var propname := ColumnName(props[i]);
      if propname.Failure? {
        CollectFailsAt(props, i, step);
        return Failure(propname.error);
      }
      if propname.value !in row {
        CollectFailsAt(props, i, step);
        return Failure(ColumnNotFound(propname.value));
      }
      var value := ReadValue(row[propname.value]);
      fields := fields + [Field(props[i], Stored(props[i], value))];
    }
    assert props[..|props|] == props;
    return Success(Entity(m, fields));
  }

  /** `Fetch(predicate)`: `pred` is the instance the predicate produced, or
      none without a predicate; `reader` is what the database returns for the
      query (the rows, or the driver's error). */
  method Fetch(m: ModelType, pred: Option<Entity>, reader: Result<seq<Row>, string>)
    returns (issued: Option<string>, r: Result<DBSet<Entity>, ProviderError>)
    ensures issued == FetchStatement(m, pred).ToOption()
    ensures r.Success? <==> FetchResult(m, pred, reader).Success?
    ensures r.Failure? ==> r.error == FetchResult(m, pred, reader).error
    ensures r.Success? ==> fresh(r.value) && r.value.items == FetchResult(m, pred, reader).value
                           && r.value.raised == seq(|reader.value|, _ => Added)
    ensures r.Success? ==> forall i :: 0 <= i < |r.value.items| ==> Constructed(m, r.value.items[i])
  {
    var query := FetchQuery(m, pred);
    if query.Failure? {
      return None, Failure(DBActionProviderException(FetchFailed, query.error));
    }
    issued := Some(query.value);
    if reader.Failure? {
      return issued, Failure(DBActionProviderException(FetchFailed, DriverFailure(reader.error)));
    }
    var rows := reader.value;
    ghost var step := row => ReadRowStep(m, row);
    var retval := new DBSet<Entity>();
    for k := 0 to |rows|
      invariant fresh(retval)
      invariant Collect(rows[..k], step) == Success(retval.items)
      invariant retval.raised == seq(k, _ => Added)
    {
      CollectStep(rows, k, step);
      var item := ReadItem(m, rows[k]);
      if item.Failure? {
        CollectFailsAt(rows, k, step);
        return issued, Failure(DBActionProviderException(FetchFailed, item.error));
      }
      retval.Add(item.value);
    }
    assert rows[..|rows|] == rows;
    FetchOnePerRow(m, pred, reader);
    return issued, Success(retval);
  }

  /** Push's first loop: the column name of every field, in order. */
  method ColumnNames(fs: seq<Field>) returns (r: Result<seq<string>, Cause>)
    ensures r == Collect(fs, NameStep)
  {
    var dbnames: seq<string> := [];
    for i := 0 to |fs|
      invariant Collect(fs[..i], NameStep) == Success(dbnames)
    {
      CollectStep(fs, i, NameStep);
      var name := ColumnName(fs[i].prop);
      if name.Failure? {
        CollectFailsAt(fs, i, NameStep);
        return Failure(name.error);
      }
      dbnames := dbnames + [name.value];
    }
    assert fs[..|fs|] == fs;
    return Success(dbnames);
  }

  /** The text of `Push`'s INSERT, after its two checks. */
  method PushQuery(schema: DBSchema, item: Entity) returns (q: Result<string, Cause>)
    ensures q == PushStatement(GetPrimaryKey(schema, item.model), GetRequired(schema, item.model), item)
  {
    var fs := item.fields;
    var names := ColumnNames(fs);
    if names.Failure? {
      return Failure(names.error);
    }
    var dbnames := names.value;
    CollectSucceeds(fs, NameStep);
    CollectTotal(fs, NameStep);

    var hasKey := HasPrimaryKeyValue(schema, item);
    if hasKey.Failure? {
      return Failure(hasKey.error);
    }
    if !hasKey.value {
      return Failure(UnsafeAction);
    }
    var complete := RequiredValuesCorrect(schema, item);
    // The key check above already found the model's table.
    assert complete.Success?;
    if !complete.value {
      return Failure(RequiredValueNull);
    }
    var table := TableName(item.model);
    if table.Failure? {
      return Failure(table.error);
    }

    ghost var literals := Literals(fs);
    var columns := "";
    var values := "";
    var count := 0;
    for i := 0 to |fs|
      invariant count == i
      invariant columns == JoinedSoFar(dbnames, i, ", ")
      invariant values == JoinedSoFar(literals, i, ", ")
    {
      JoinedSoFarStep(dbnames, i, ", ");
      JoinedSoFarStep(literals, i, ", ");
      columns := columns + dbnames[i];
      values := values + ValueLiteral(fs[i].value);
      count := count + 1;
      if count == |fs| {
        continue;
      }
      columns := columns + ", ";
      values := values + ", ";
    }
    JoinedSoFarAll(dbnames, ", ");
    JoinedSoFarAll(literals, ", ");
    q := Success("INSERT INTO " + table.value + " (" + columns + ") VALUES (" + values + ")");
  }

  /** `Push(item)`: nothing reaches the database unless the checks pass. */
  method Push(schema: DBSchema, item: Entity, driverError: Option<string>) returns (issued: Option<string>, r: Outcome<ProviderError>)
    ensures issued == PushStatement(GetPrimaryKey(schema, item.model), GetRequired(schema, item.model), item).ToOption()
    ensures r == Settle(PushFailed, PushStatement(GetPrimaryKey(schema, item.model), GetRequired(schema, item.model), item), driverError)
  {
    var query := PushQuery(schema, item);
    if query.Failure? {
      return None, Fail(DBActionProviderException(PushFailed, query.error));
    }
    issued := Some(query.value);
    if driverError.Some? {
      return issued, Fail(DBActionProviderException(PushFailed, DriverFailure(driverError.value)));
    }
    return issued, Pass;
  }

  /** The text of `Remove`'s DELETE: the loop stops at the first non-null
      field of `pred`, the instance the predicate produced. */
  method RemoveQuery(schema: DBSchema, pred: Entity) returns (q: Result<string, Cause>)
    ensures q == RemoveStatement(GetPrimaryKey(schema, pred.model), pred)
  {
    ghost var key := GetPrimaryKey(schema, pred.model);
    var fs := pred.fields;
    var hasPrimaryKey := false;
    var where: Option<string> := None;
    var i := 0;
    while i < |fs|
      invariant 0 <= i <= |fs|
      invariant forall j :: 0 <= j < i ==> fs[j].value.None?
      invariant !hasPrimaryKey && where.None?
    {
      if fs[i].value.None? {
        i := i + 1;
        continue;
      }
      assert FirstSet(fs) == Some(i);
      var value := fs[i].value.value;
      IsPrimaryKeyViaGetPrimaryKey(schema, fs[i].prop, pred.model);
      var isKey := IsPrimaryKey(schema, fs[i].prop, pred.model);
      if isKey.Failure? {
        return Failure(isKey.error);
      }
      hasPrimaryKey := isKey.value;
      // `where` is still null here, so no " AND " is added.
      var propname := ColumnName(fs[i].prop);
      if propname.Failure? {
        return Failure(propname.error);
      }
      where := Append(where, propname.value + " = " + ConditionLiteral(value));
      break;
    }
    if !hasPrimaryKey {
      return Failure(UnsafeAction);
    }
    var table := TableName(pred.model);
    if table.Failure? {
      return Failure(table.error);
    }
    q := Success("DELETE FROM " + table.value + " WHERE " + where.GetOr("1 = 1"));
  }

  /** `Remove(predicate)`. */
  method Remove(schema: DBSchema, pred: Entity, driverError: Option<string>) returns (issued: Option<string>, r: Outcome<ProviderError>)
    ensures issued == RemoveStatement(GetPrimaryKey(schema, pred.model), pred).ToOption()
    ensures r == Settle(RemoveFailed, RemoveStatement(GetPrimaryKey(schema, pred.model), pred), driverError)
  {
    var query := RemoveQuery(schema, pred);
    if query.Failure? {
      return None, Fail(DBActionProviderException(RemoveFailed, query.error));
    }
    issued := Some(query.value);
    if driverError.Some? {
      return issued, Fail(DBActionProviderException(RemoveFailed, DriverFailure(driverError.value)));
    }
    return issued, Pass;
  }

  /** Update's SET loop: `name = literal` for every non-null field that is not
      the key, joined with ", "; null when there is none. */
  method UpdateSetList(schema: DBSchema, interned: PropertyInfo -> bool, m: ModelType, fs: seq<Field>)
    returns (r: Result<Option<string>, Cause>)
    requires GetPrimaryKey(schema, m).Success?
    ensures r.Failure? <==> UpdateSets(GetPrimaryKey(schema, m), interned, fs).Failure?
    ensures r.Failure? ==> r.error == UpdateSets(GetPrimaryKey(schema, m), interned, fs).error
    ensures r.Success? ==> r.value == JoinOrNull(UpdateSets(GetPrimaryKey(schema, m), interned, fs).value, ", ")
  {
    ghost var key := GetPrimaryKey(schema, m);
    ghost var setStep := f => SetStep(key, interned, f);
    ghost var sets: seq<string> := [];
    var newValues: Option<string> := None;
    for i := 0 to |fs|
      invariant Collect(fs[..i], setStep) == Success(sets)
      invariant newValues == JoinOrNull(sets, ", ")
    {
      CollectStep(fs, i, setStep);
      var value := fs[i].value;
      if value.None? {
        continue;
      }
      IsPrimaryKeyViaGetPrimaryKey(schema, fs[i].prop, m);
      if IsPrimaryKey(schema, fs[i].prop, m).value {
        continue;
      }
      if newValues.Some? {
        newValues := Append(newValues, ", ");
      }
      var propname := ColumnName(fs[i].prop);
      if propname.Failure? {
        CollectFailsAt(fs, i, setStep);
        return Failure(propname.error);
      }
      var newValue := if SameAsDefault(interned, fs[i]) then "NULL" else ValueLiteral(value);
      JoinOrNullSnoc(sets, propname.value + " = " + newValue, ", ");
      newValues := Append(newValues, propname.value + " = " + newValue);
      sets := sets + [propname.value + " = " + newValue];
    }
    assert fs[..|fs|] == fs;
    return Success(newValues);
  }

  /** Update's WHERE loop: a condition for every non-null field that is the
      key, joined with " AND "; null when there is none. */
  method UpdateWhereList(schema: DBSchema, m: ModelType, fs: seq<Field>) returns (r: Result<Option<string>, Cause>)
    requires GetPrimaryKey(schema, m).Success?
    ensures r.Failure? <==> UpdateConditions(GetPrimaryKey(schema, m), fs).Failure?
    ensures r.Failure? ==> r.error == UpdateConditions(GetPrimaryKey(schema, m), fs).error
    ensures r.Success? ==> r.value == JoinOrNull(UpdateConditions(GetPrimaryKey(schema, m), fs).value, " AND ")
  {
    ghost var key := GetPrimaryKey(schema, m);
    ghost var whereStep := f => KeyConditionStep(key, f);
    ghost var conditions: seq<string> := [];
    var where: Option<string> := None;
    for i := 0 to |fs|
      invariant Collect(fs[..i], whereStep) == Success(conditions)
      invariant where == JoinOrNull(conditions, " AND ")
    {
      CollectStep(fs, i, whereStep);
      IsPrimaryKeyViaGetPrimaryKey(schema, fs[i].prop, m);
      if !IsPrimaryKey(schema, fs[i].prop, m).value {
        continue;
      }
      if fs[i].value.None? {
        continue;
      }
      var value := fs[i].value.value;
      if where.Some? {
        where := Append(where, " AND ");
      }
      var propname := ColumnName(fs[i].prop);
      if propname.Failure? {
        CollectFailsAt(fs, i, whereStep);
        return Failure(propname.error);
      }
      var propEquater := ConditionLiteral(value);
      JoinOrNullSnoc(conditions, propname.value + " = " + propEquater, " AND ");
      where := Append(where, propname.value + " = " + propEquater);
      conditions := conditions + [Condition(propname.value, value)];
    }
    assert fs[..|fs|] == fs;
    return Success(where);
  }

  /** The text of `Update`'s statement. `pred` is the instance the predicate
      produced; `interned` is as in `SqlStatements.SameAsDefault`. */
  method UpdateQuery(schema: DBSchema, interned: PropertyInfo -> bool, pred: Entity) returns (q: Result<string, Cause>)
    ensures q == UpdateStatement(GetPrimaryKey(schema, pred.model), interned, pred)
  {
    ghost var key := GetPrimaryKey(schema, pred.model);
    var table := TableName(pred.model);
    if table.Failure? {
      return Failure(table.error);
    }
    var newValues: Option<string> := None;
    var hasKey := HasPrimaryKeyValue(schema, pred);
    if hasKey.Failure? {
      return Failure(hasKey.error);
    }
    if !hasKey.value {
      return Failure(UpdateWithoutKey);
    }
    // The check went through a lookup, so every later one succeeds too.
    assert key.Success?;
    var sets := UpdateSetList(schema, interned, pred.model, pred.fields);
    if sets.Failure? {
      return Failure(sets.error);
    }
    newValues := sets.value;
    var conditions := UpdateWhereList(schema, pred.model, pred.fields);
    if conditions.Failure? {
      return Failure(conditions.error);
    }
    var where := conditions.value;
    if IsNullOrWhiteSpace(where) {
      return Failure(EmptyWhere);
    }
    if IsNullOrWhiteSpace(newValues) {
      return Failure(EmptySet);
    }
    q := Success("UPDATE " + table.value + " SET " + newValues.value + " WHERE " + where.value);
  }

  /** `Update(predicate)`. */
  method Update(schema: DBSchema, interned: PropertyInfo -> bool, pred: Entity, driverError: Option<string>)
    returns (issued: Option<string>, r: Outcome<ProviderError>)
    ensures issued == UpdateStatement(GetPrimaryKey(schema, pred.model), interned, pred).ToOption()
    ensures r == Settle(UpdateFailed, UpdateStatement(GetPrimaryKey(schema, pred.model), interned, pred), driverError)
  {
    var query := UpdateQuery(schema, interned, pred);
    if query.Failure? {
      return None, Fail(DBActionProviderException(UpdateFailed, query.error));
    }
    issued := Some(query.value);
    if driverError.Some? {
      return issued, Fail(DBActionProviderException(UpdateFailed, DriverFailure(driverError.value)));
    }
    return issued, Pass;
  }
}
