/** The SQL text `SqlDBActionProvider` sends for each action, and the
    checks it makes before sending it, as pure functions of the entity and of
    the outcome of the schema lookups (`key`: the model's primary key;
    `required`: its required set).

    Each statement is assembled by loops over the properties that throw,
    skip or contribute one piece; `Gather.Collect` is that loop. */
module SqlStatements {
  import opened Wrappers
  import opened Text
  import opened Entities
  import opened Gather
  import opened ObjectExtensions
  import opened SchemaExtensions

  const Quote: string := "'"

  /** The right-hand side of a `name = value` condition: the switch on
      `value.GetType().ToString()` in the WHERE loops. Guid and String are
      quoted (and nothing inside is escaped), Boolean is 1 or 0, anything
      else is its plain text. */
  function ConditionLiteral(v: Value): (r: string)
    ensures v.GuidVal? ==> Unquoted(r) == Some(v.text)
    ensures v.StringVal? ==> Unquoted(r) == Some(v.s)
    ensures v.BoolVal? ==> (r == "1" <==> v.b) && (r == "0" <==> !v.b)
    ensures v.DateTimeOffsetVal? || v.OtherVal? ==> r == v.text
  {
    match v
    case GuidVal(text) => Quote + text + Quote
    case StringVal(s) => Quote + s + Quote
    case BoolVal(b) => if b then "1" else "0"
    case DateTimeOffsetVal(text, _) => text
    case OtherVal(_, text) => text
  }

  /** A value in INSERT's VALUES list or UPDATE's SET list: null is `NULL`, a
      DateTimeOffset is its fixed-format text in quotes, the rest as in a
      condition. */
  function ValueLiteral(v: Option<Value>): (r: string)
    ensures r == "NULL" <==> v.None? || (v.value.OtherVal? && v.value.text == "NULL")
    ensures v.Some? && v.value.DateTimeOffsetVal? ==> Unquoted(r) == Some(v.value.formatted)
    ensures v.Some? && !v.value.DateTimeOffsetVal? ==> r == ConditionLiteral(v.value)
  {
    match v
    case None => "NULL"
    case Some(DateTimeOffsetVal(_, formatted)) =>
      var r := Quote + formatted + Quote;
      assert r[0] == '\'';
      r
    case Some(x) =>
      ConditionLiteral(x)
  }

  /** The text between a pair of enclosing single quotes. */
  function Unquoted(lit: string): Option<string> {
    if 2 <= |lit| && lit[0] == '\'' && lit[|lit| - 1] == '\'' then Some(lit[1..|lit| - 1]) else None
  }

  /** `name = literal`. */
  function Condition(name: string, v: Value): string {
    name + " = " + ConditionLiteral(v)
  }

  /** `name = literal` always holds a character other than white space. */
  lemma ConditionNotBlank(name: string, v: Value)
    ensures !IsNullOrWhiteSpace(Some(Condition(name, v)))
  {
    NotWhiteSpaceWhenSomeCharIsNot(Condition(name, v), |name| + 1);
  }

  // ----- SELECT -----

  /** Fetch's first loop: the column name of every property. */
  function ColumnStep(p: PropertyInfo): Result<Option<string>, Cause> {
    var name :- ColumnName(p);
    Success(Some(name))
  }

  /** Fetch's WHERE loop: a condition for each non-null field. */
  function ConditionStep(f: Field): Result<Option<string>, Cause> {
    if f.value.None? then Success(None)
    else
      var name :- ColumnName(f.prop);
      Success(Some(Condition(name, f.value.value)))
  }

  /** The conditions of Fetch's predicate entity; no predicate, no conditions. */
  function FetchConditions(pred: Option<Entity>): (r: Result<seq<string>, Cause>)
    ensures r.Success? <==> pred.None? || forall i :: 0 <= i < |pred.value.fields| ==>
              pred.value.fields[i].value.Some? ==> ColumnName(pred.value.fields[i].prop).Success?
    ensures r.Failure? ==> r.error == NoDBNameAttribute
  {
    if pred.None? then Success([])
    else
      var fs := pred.value.fields;
      CollectSucceeds(fs, ConditionStep);
      CollectError(fs, ConditionStep);
      Collect(fs, ConditionStep)
  }

  function Select(table: string, columns: seq<string>, conditions: seq<string>): string {
    "SELECT " + Join(columns, ", ") + " FROM " + table + " WHERE " + JoinOrNull(conditions, " AND ").GetOr("1 = 1")
  }

  /** The query `Fetch` runs: table name, then columns, then conditions, each
      of which can throw. */
  function FetchStatement(m: ModelType, pred: Option<Entity>): (r: Result<string, Cause>)
    ensures r.Success? <==> && TableName(m).Success?
                            && (forall i :: 0 <= i < |m.properties| ==> ColumnName(m.properties[i]).Success?)
                            && FetchConditions(pred).Success?
    ensures r.Failure? ==> r.error == NoDBNameAttribute
    ensures r.Success? ==> "SELECT " <= r.value
  {
    CollectSucceeds(m.properties, ColumnStep);
    CollectError(m.properties, ColumnStep);
    var table :- TableName(m);
    var columns :- Collect(m.properties, ColumnStep);
    var conditions :- FetchConditions(pred);
    Success(Select(table, columns, conditions))
  }

  /** SELECT names every property's column once, in declaration order. */
  lemma {:induction false} FetchColumnsAreProperties(m: ModelType)
    requires forall i :: 0 <= i < |m.properties| ==> ColumnName(m.properties[i]).Success?
    ensures Collect(m.properties, ColumnStep).Success?
    ensures |Collect(m.properties, ColumnStep).value| == |m.properties|
    ensures forall i :: 0 <= i < |m.properties| ==>
              Collect(m.properties, ColumnStep).value[i] == ColumnName(m.properties[i]).value
  {
    CollectTotal(m.properties, ColumnStep);
  }

  /** The WHERE of a query that can be built is `1 = 1` exactly when there is
      no predicate or every field of the predicate entity is null. */
  lemma {:induction false} FetchMatchesAllIffNoCondition(m: ModelType, pred: Option<Entity>)
    requires FetchStatement(m, pred).Success?
    ensures FetchConditions(pred).Success?
    ensures FetchConditions(pred).value == []
        <==> pred.None? || forall i :: 0 <= i < |pred.value.fields| ==> pred.value.fields[i].value.None?
  {
    if pred.Some? {
      var fs := pred.value.fields;
      CollectEmpty(fs, ConditionStep);
      CollectSucceeds(fs, ConditionStep);
      assert forall i :: 0 <= i < |fs| ==> (Emits(ConditionStep(fs[i])) <==> fs[i].value.Some?);
    }
  }

  /** Each condition is `column = literal` for one non-null field, in field
      order, and every non-null field has one. */
  lemma {:induction false} FetchConditionsAreSetFields(fs: seq<Field>)
    requires Collect(fs, ConditionStep).Success?
    ensures var ps := Positions(fs, ConditionStep);
            && |Collect(fs, ConditionStep).value| == |ps|
            && (forall i :: 0 <= i < |fs| ==> (i in ps <==> fs[i].value.Some?))
            && forall k :: 0 <= k < |ps| ==>
                 Collect(fs, ConditionStep).value[k] == Condition(ColumnName(fs[ps[k]].prop).value, fs[ps[k]].value.value)
  {
    CollectPieces(fs, ConditionStep);
    CollectSucceeds(fs, ConditionStep);
  }

  // ----- INSERT -----

  /** Push's first loop: the column name of every field. */
  function NameStep(f: Field): Result<Option<string>, Cause> {
    var name :- ColumnName(f.prop);
    Success(Some(name))
  }

  /** The literal of every field, null ones included. */
  function Literals(fs: seq<Field>): (r: seq<string>)
    ensures |r| == |fs|
    ensures forall i :: 0 <= i < |fs| ==> r[i] == ValueLiteral(fs[i].value)
  {
    seq(|fs|, i requires 0 <= i < |fs| => ValueLiteral(fs[i].value))
  }

  function Insert(table: string, columns: seq<string>, values: seq<string>): string {
    "INSERT INTO " + table + " (" + Join(columns, ", ") + ") VALUES (" + Join(values, ", ") + ")"
  }

  /** The statement `Push` runs, after its two checks: the key must hold a
      value, and no required field may be null. */
  function PushStatement(key: Result<Option<PropertyInfo>, Cause>, required: Result<set<Option<PropertyInfo>>, Cause>,
                         item: Entity): (r: Result<string, Cause>)
    ensures r.Success? ==> HasKeyValue(key, item.fields) == Success(true) && RequiredPresent(required, item.fields) == Success(true)
    ensures r.Failure? ==> || r.error in {NoDBNameAttribute, UnsafeAction, RequiredValueNull}
                           || (key.Failure? && r.error == key.error)
                           || (required.Failure? && r.error == required.error)
    ensures r.Success? ==> "INSERT INTO " <= r.value
  {
    CollectError(item.fields, NameStep);
    var names :- Collect(item.fields, NameStep);
    var hasKey :- HasKeyValue(key, item.fields);
    if !hasKey then Failure(UnsafeAction)
    else
      var complete :- RequiredPresent(required, item.fields);
      if !complete then Failure(RequiredValueNull)
      else
        var table :- TableName(item.model);
        Success(Insert(table, names, Literals(item.fields)))
  }

  /** A push is sent only for an item whose key holds a value and whose
      required fields are all set; otherwise it fails with the matching
      cause. */
  lemma PushChecks(key: Result<Option<PropertyInfo>, Cause>, required: Result<set<Option<PropertyInfo>>, Cause>, item: Entity)
    requires Collect(item.fields, NameStep).Success?
    ensures PushStatement(key, required, item).Success? ==>
              HasKeyValue(key, item.fields) == Success(true) && RequiredPresent(required, item.fields) == Success(true)
    ensures HasKeyValue(key, item.fields) == Success(false) ==> PushStatement(key, required, item) == Failure(UnsafeAction)
    ensures (HasKeyValue(key, item.fields) == Success(true) && RequiredPresent(required, item.fields) == Success(false))
              ==> PushStatement(key, required, item) == Failure(RequiredValueNull)
  {
  }

  /** INSERT lists one column and one value per property, in the same order,
      ignored properties included. */
  lemma {:induction false} PushColumnsMatchValues(key: Result<Option<PropertyInfo>, Cause>,
                                                  required: Result<set<Option<PropertyInfo>>, Cause>, item: Entity)
    requires PushStatement(key, required, item).Success?
    ensures exists table, columns ::
              && PushStatement(key, required, item).value == Insert(table, columns, Literals(item.fields))
              && |columns| == |Literals(item.fields)| == |item.fields|
              && forall i :: 0 <= i < |item.fields| ==> ColumnName(item.fields[i].prop).Success? && columns[i] == ColumnName(item.fields[i].prop).value
  {
    assert Collect(item.fields, NameStep).Success?;
    var names := Collect(item.fields, NameStep).value;
    PushChecks(key, required, item);
    var table := TableName(item.model).value;
    assert PushStatement(key, required, item).value == Insert(table, names, Literals(item.fields));
    CollectSucceeds(item.fields, NameStep);
    CollectTotal(item.fields, NameStep);
    assert |names| == |Literals(item.fields)| == |item.fields|;
  }

  // ----- DELETE -----

  /** The position of the first non-null field. */
  function FirstSet(fs: seq<Field>): (r: Option<nat>)
    ensures r.None? <==> forall i :: 0 <= i < |fs| ==> fs[i].value.None?
    ensures r.Some? ==> r.value < |fs| && fs[r.value].value.Some?
                        && forall j :: 0 <= j < r.value ==> fs[j].value.None?
  {
    if fs == [] then None
    else if fs[0].value.Some? then Some(0)
    else
      var rest := FirstSet(fs[1..]);
      assert forall i :: 1 <= i < |fs| ==> fs[i] == fs[1..][i - 1];
      if rest.Some? then Some(rest.value + 1) else None
  }

  /** The statement `Remove` runs: the first non-null field of the predicate
      entity gives the one condition, and it must be the key. */
  function RemoveStatement(key: Result<Option<PropertyInfo>, Cause>, pred: Entity): (r: Result<string, Cause>)
    ensures r.Success? ==> FirstSet(pred.fields).Some? && key == Success(Some(pred.fields[FirstSet(pred.fields).value].prop))
    ensures r.Failure? ==> r.error in {NoDBNameAttribute, UnsafeAction} || (key.Failure? && r.error == key.error)
    ensures r.Success? ==> "DELETE FROM " <= r.value
  {
    var k := FirstSet(pred.fields);
    if k.None? then Failure(UnsafeAction)
    else
      var f := pred.fields[k.value];
      var isKey :- IsKey(key, f.prop);
      var name :- ColumnName(f.prop);
      if !isKey then Failure(UnsafeAction)
      else
        var table :- TableName(pred.model);
        Success("DELETE FROM " + table + " WHERE " + Condition(name, f.value.value))
  }

  /** A DELETE has exactly one condition, on the key, taken from the first
      non-null field; it never falls back to `1 = 1`. */
  lemma RemoveOnlyByKey(key: Result<Option<PropertyInfo>, Cause>, pred: Entity)
    requires RemoveStatement(key, pred).Success?
    ensures FirstSet(pred.fields).Some?
    ensures var f := pred.fields[FirstSet(pred.fields).value];
            && key == Success(Some(f.prop))
            && RemoveStatement(key, pred).value
               == "DELETE FROM " + TableName(pred.model).value + " WHERE " + Condition(ColumnName(f.prop).value, f.value.value)
  {
  }

  /** A DELETE is refused unless the first non-null field is the key, even
      when the key holds a value further on. */
  lemma RemoveRefusedUnlessFirstIsKey(key: Result<Option<PropertyInfo>, Cause>, pred: Entity, i: nat)
    requires i < |pred.fields| && pred.fields[i].value.Some?
    requires key.Success? && key.value != Some(pred.fields[i].prop)
    requires forall j :: 0 <= j < i ==> pred.fields[j].value.None?
    requires ColumnName(pred.fields[i].prop).Success?
    ensures RemoveStatement(key, pred) == Failure(UnsafeAction)
  {
    assert FirstSet(pred.fields) == Some(i);
  }

  // ----- UPDATE -----

  /** Whether `Update` writes `NULL` for a value: `value ==
      prop.PropertyType.GetDefault()` compares references. `GetDefault` boxes a
      fresh default for a value type, which no field value is; for `string` it
      is the literal "", and `interned(p)` says whether `p`'s value is that
      very object. */
  predicate SameAsDefault(interned: PropertyInfo -> bool, f: Field)
    requires f.value.Some?
  {
    && !IsValueType(f.prop.propertyType)
    && GetDefault(f.prop.propertyType) == f.value
    && interned(f.prop)
  }

  /** Update's SET loop: an assignment for each non-null field that is not the
      key. */
  function SetStep(key: Result<Option<PropertyInfo>, Cause>, interned: PropertyInfo -> bool, f: Field): Result<Option<string>, Cause> {
    if f.value.None? then Success(None)
    else
      var isKey :- IsKey(key, f.prop);
      if isKey then Success(None)
      else
        var name :- ColumnName(f.prop);
        Success(Some(name + " = " + if SameAsDefault(interned, f) then "NULL" else ValueLiteral(f.value)))
  }

  /** Update's WHERE loop: a condition for each field that is the key and is
      non-null. */
  function KeyConditionStep(key: Result<Option<PropertyInfo>, Cause>, f: Field): Result<Option<string>, Cause> {
    var isKey :- IsKey(key, f.prop);
    if !isKey || f.value.None? then Success(None)
    else
      var name :- ColumnName(f.prop);
      Success(Some(Condition(name, f.value.value)))
  }

  function UpdateSets(key: Result<Option<PropertyInfo>, Cause>, interned: PropertyInfo -> bool, fs: seq<Field>): Result<seq<string>, Cause> {
    Collect(fs, f => SetStep(key, interned, f))
  }

  function UpdateConditions(key: Result<Option<PropertyInfo>, Cause>, fs: seq<Field>): Result<seq<string>, Cause> {
    Collect(fs, f => KeyConditionStep(key, f))
  }

  /** The statement `Update` runs: table name, the key check, the SET list,
      the WHERE list, then neither may be blank. */
  function UpdateStatement(key: Result<Option<PropertyInfo>, Cause>, interned: PropertyInfo -> bool, item: Entity): (r: Result<string, Cause>)
    ensures r.Success? ==> HasKeyValue(key, item.fields) == Success(true)
    ensures r.Failure? ==> r.error in {NoDBNameAttribute, UpdateWithoutKey, EmptySet} || (key.Failure? && r.error == key.error)
    ensures r.Success? ==> "UPDATE " <= r.value
  {
    CollectError(item.fields, f => SetStep(key, interned, f));
    CollectError(item.fields, f => KeyConditionStep(key, f));
    var table :- TableName(item.model);
    var hasKey :- HasKeyValue(key, item.fields);
    if !hasKey then Failure(UpdateWithoutKey)
    else
      var sets :- UpdateSets(key, interned, item.fields);
      var conditions :- UpdateConditions(key, item.fields);
      UpdateWhereNeverBlank(key, item.fields);
      var newValues := JoinOrNull(sets, ", ");
      var where := JoinOrNull(conditions, " AND ");
      if IsNullOrWhiteSpace(where) then Failure(EmptyWhere)
      else if IsNullOrWhiteSpace(newValues) then Failure(EmptySet)
      else Success("UPDATE " + table + " SET " + newValues.value + " WHERE " + where.value)
  }

  /** A list whose first piece is a condition joins to text that is not blank. */
  lemma JoinedConditionsNotBlank(conds: seq<string>, sep: string, name: string, v: Value)
    requires conds != [] && conds[0] == Condition(name, v)
    ensures !IsNullOrWhiteSpace(JoinOrNull(conds, sep))
  {
    JoinEnds(conds, sep);
    var joined := Join(conds, sep);
    assert joined[|name| + 1] == conds[0][|name| + 1] == '=';
    NotWhiteSpaceWhenSomeCharIsNot(joined, |name| + 1);
  }

  /** Once the key check has passed, the WHERE list has a condition, so
      "Where clause in Update cannot be null" is never raised. */
  lemma {:induction false} UpdateWhereNeverBlank(key: Result<Option<PropertyInfo>, Cause>, fs: seq<Field>)
    requires HasKeyValue(key, fs) == Success(true)
    requires UpdateConditions(key, fs).Success?
    ensures UpdateConditions(key, fs).value != []
    ensures !IsNullOrWhiteSpace(JoinOrNull(UpdateConditions(key, fs).value, " AND "))
  {
    UpdateWhereNonEmpty(key, fs);
    JoinedKeyConditionsNotBlank(key, fs);
  }

  /** The key field holds a value, so it contributes a condition. */
  lemma UpdateWhereNonEmpty(key: Result<Option<PropertyInfo>, Cause>, fs: seq<Field>)
    requires HasKeyValue(key, fs) == Success(true)
    requires UpdateConditions(key, fs).Success?
    ensures UpdateConditions(key, fs).value != []
  {
    var step := f => KeyConditionStep(key, f);
    assert fs != [] && key.Success?;
    var i :| 0 <= i < |fs| && key.value == Some(fs[i].prop) && fs[i].value.Some?;
    CollectSucceeds(fs, step);
    assert Emits(step(fs[i]));
    CollectEmpty(fs, step);
  }

  /** A non-empty WHERE list starts with a `name = literal` condition. */
  lemma JoinedKeyConditionsNotBlank(key: Result<Option<PropertyInfo>, Cause>, fs: seq<Field>)
    requires UpdateConditions(key, fs).Success? && UpdateConditions(key, fs).value != []
    ensures !IsNullOrWhiteSpace(JoinOrNull(UpdateConditions(key, fs).value, " AND "))
  {
    var step := f => KeyConditionStep(key, f);
    var conds := UpdateConditions(key, fs).value;
    CollectPieces(fs, step);
    var p := Positions(fs, step)[0];
    assert Emits(step(fs[p])) && conds[0] == step(fs[p]).value.value;
    JoinedConditionsNotBlank(conds, " AND ", ColumnName(fs[p].prop).value, fs[p].value.value);
  }

  /** The WHERE list holds only conditions on fields that are the key. */
  lemma {:induction false} UpdateWhereOnlyKey(key: Result<Option<PropertyInfo>, Cause>, fs: seq<Field>)
    requires UpdateConditions(key, fs).Success?
    ensures var ps := Positions(fs, f => KeyConditionStep(key, f));
            && |UpdateConditions(key, fs).value| == |ps|
            && (forall i :: 0 <= i < |fs| ==> (i in ps <==> key == Success(Some(fs[i].prop)) && fs[i].value.Some?))
            && forall k :: 0 <= k < |ps| ==>
                 UpdateConditions(key, fs).value[k] == Condition(ColumnName(fs[ps[k]].prop).value, fs[ps[k]].value.value)
  {
    var step := f => KeyConditionStep(key, f);
    CollectPieces(fs, step);
    CollectSucceeds(fs, step);
  }

  /** The SET list assigns every non-null field that is not the key, in field
      order, and nothing else: the key is never updated. */
  lemma {:induction false} UpdateSetsNonKeyFields(key: Result<Option<PropertyInfo>, Cause>, interned: PropertyInfo -> bool, fs: seq<Field>)
    requires UpdateSets(key, interned, fs).Success?
    ensures var ps := Positions(fs, f => SetStep(key, interned, f));
            && |UpdateSets(key, interned, fs).value| == |ps|
            && (forall i :: 0 <= i < |fs| ==> (i in ps <==> fs[i].value.Some? && key.Success? && key.value != Some(fs[i].prop)))
            && forall k :: 0 <= k < |ps| ==>
                 UpdateSets(key, interned, fs).value[k] == ColumnName(fs[ps[k]].prop).value + " = "
                   + if SameAsDefault(interned, fs[ps[k]]) then "NULL" else ValueLiteral(fs[ps[k]].value)
  {
    var step := f => SetStep(key, interned, f);
    CollectPieces(fs, step);
    CollectSucceeds(fs, step);
  }

  /** An update that passes the key check is refused with "Set clause in
      Update cannot be null" exactly when no field other than the key holds a
      value. */
  lemma {:induction false} UpdateEmptySet(key: Result<Option<PropertyInfo>, Cause>, interned: PropertyInfo -> bool, item: Entity)
    requires TableName(item.model).Success?
    requires HasKeyValue(key, item.fields) == Success(true)
    requires UpdateSets(key, interned, item.fields).Success? && UpdateConditions(key, item.fields).Success?
    ensures UpdateStatement(key, interned, item) == Failure(EmptySet)
        <==> forall i :: 0 <= i < |item.fields| ==> item.fields[i].value.None? || key.value == Some(item.fields[i].prop)
  {
    var fs := item.fields;
    var step := f => SetStep(key, interned, f);
    UpdateWhereNeverBlank(key, fs);
    CollectEmpty(fs, step);
    CollectSucceeds(fs, step);
    if UpdateSets(key, interned, fs).value != [] {
      JoinedSetsNotBlank(key, interned, fs);
    }
  }

  /** A non-empty SET list starts with `name = ...`, so it is not blank. */
  lemma JoinedSetsNotBlank(key: Result<Option<PropertyInfo>, Cause>, interned: PropertyInfo -> bool, fs: seq<Field>)
    requires UpdateSets(key, interned, fs).Success? && UpdateSets(key, interned, fs).value != []
    ensures !IsNullOrWhiteSpace(JoinOrNull(UpdateSets(key, interned, fs).value, ", "))
  {
    var step := f => SetStep(key, interned, f);
    var sets := UpdateSets(key, interned, fs).value;
    CollectPieces(fs, step);
    JoinEnds(sets, ", ");
    var p := Positions(fs, step)[0];
    var name := ColumnName(fs[p].prop).value;
    var joined := Join(sets, ", ");
    assert joined[|name| + 1] == sets[0][|name| + 1] == '=';
    NotWhiteSpaceWhenSomeCharIsNot(joined, |name| + 1);
  }

  // ----- reading rows -----

  /** A cell of a result row: `DBNull` or a value. */
  datatype Cell = DbNull | Data(value: Value)

  /** A result row, by column name. */
  type Row = map<string, Cell>

  /** The value a cell sets on the entity: strings trimmed, `DBNull` null. */
  function ReadValue(c: Cell): (r: Option<Value>)
    ensures r.None? <==> c.DbNull?
    ensures c.Data? && c.value.StringVal? ==> r == Some(StringVal(Trim(c.value.s)))
    ensures c.Data? && !c.value.StringVal? ==> r == Some(c.value)
  {
    match c
    case DbNull => None
    case Data(StringVal(s)) => Some(StringVal(Trim(s)))
    case Data(v) => Some(v)
  }

  /** The reader loop's inner loop: one field per property, read from the
      column of that name and stored by `SetValue`; a missing column
      throws. */
  function ReadStep(row: Row, p: PropertyInfo): Result<Option<Field>, Cause> {
    var name :- ColumnName(p);
    if name !in row then Failure(ColumnNotFound(name))
    else Success(Some(Field(p, Stored(p, ReadValue(row[name])))))
  }

  /** One row: a new instance whose every property is set from its column,
      so nothing the constructor assigned survives. */
  function ReadRow(m: ModelType, row: Row): Result<Entity, Cause> {
    var fields :- Collect(m.properties, p => ReadStep(row, p));
    Success(Entity(m, fields))
  }

  function ReadRowStep(m: ModelType, row: Row): Result<Option<Entity>, Cause> {
    var e :- ReadRow(m, row);
    Success(Some(e))
  }

  /** Every row of the reader, in order: fails exactly when some row fails,
      with the error of one such row. */
  function ReadRows(m: ModelType, rows: seq<Row>): (r: Result<seq<Entity>, Cause>)
    ensures r.Success? <==> forall i :: 0 <= i < |rows| ==> ReadRow(m, rows[i]).Success?
    ensures r.Failure? ==> exists i :: 0 <= i < |rows| && ReadRow(m, rows[i]) == Failure(r.error)
  {
    var step := row => ReadRowStep(m, row);
    CollectSucceeds(rows, step);
    CollectError(rows, step);
    Collect(rows, step)
  }

  /** A row decodes to an instance of the model whose every field is what
      `SetValue` stores for the column of its property: a DB null in a
      non-nullable value-type property becomes the type's default. */
  lemma {:induction false} ReadRowConforms(m: ModelType, row: Row)
    requires ReadRow(m, row).Success?
    ensures Constructed(m, ReadRow(m, row).value)
    ensures forall i :: 0 <= i < |m.properties| ==>
              ColumnName(m.properties[i]).Success? && ColumnName(m.properties[i]).value in row
              && ReadRow(m, row).value.fields[i].value == Stored(m.properties[i], ReadValue(row[ColumnName(m.properties[i]).value]))
  {
    var step := p => ReadStep(row, p);
    CollectSucceeds(m.properties, step);
    CollectTotal(m.properties, step);
  }

  /** Reading yields one entity per row, in reader order. */
  lemma {:induction false} ReadRowsOnePerRow(m: ModelType, rows: seq<Row>)
    requires ReadRows(m, rows).Success?
    ensures |ReadRows(m, rows).value| == |rows|
    ensures forall i :: 0 <= i < |rows| ==> ReadRow(m, rows[i]).Success? && ReadRows(m, rows).value[i] == ReadRow(m, rows[i]).value
  {
    var step := row => ReadRowStep(m, row);
    CollectSucceeds(rows, step);
    CollectTotal(rows, step);
  }

  // ----- predicates on constructed instances -----

  /** With a predicate, Fetch's WHERE holds a condition for every non-nullable
      value-type property, which an instance never leaves null; so a model
      with such a property is never fetched with `1 = 1`. */
  lemma {:induction false} FetchFiltersValueTypes(m: ModelType, pred: Entity)
    requires Constructed(m, pred)
    requires FetchConditions(Some(pred)).Success?
    ensures forall i :: 0 <= i < |m.properties| && m.properties[i].propertyType.Struct? ==>
              i in Positions(pred.fields, ConditionStep)
    ensures (exists i :: 0 <= i < |m.properties| && m.properties[i].propertyType.Struct?) ==>
              FetchConditions(Some(pred)).value != []
  {
    FetchConditionsAreSetFields(pred.fields);
    var ps := Positions(pred.fields, ConditionStep);
    if i :| 0 <= i < |m.properties| && m.properties[i].propertyType.Struct? {
      assert pred.fields[i].prop == m.properties[i];
      assert i in ps;
    }
  }

  /** With a predicate, Update's SET assigns every non-nullable value-type
      property other than the key, with its value's literal (never `NULL`):
      such a column is always overwritten, with the default when the
      predicate left it alone. */
  lemma {:induction false} UpdateSetsValueTypes(key: Result<Option<PropertyInfo>, Cause>, interned: PropertyInfo -> bool, pred: Entity)
    requires Constructed(pred.model, pred)
    requires key.Success? && UpdateSets(key, interned, pred.fields).Success?
    ensures var ps := Positions(pred.fields, f => SetStep(key, interned, f));
            && |UpdateSets(key, interned, pred.fields).value| == |ps|
            && (forall i :: (0 <= i < |pred.fields| && pred.fields[i].prop.propertyType.Struct?
                             && key.value != Some(pred.fields[i].prop)) ==> i in ps)
            && forall k :: 0 <= k < |ps| && pred.fields[ps[k]].prop.propertyType.Struct? ==>
                 UpdateSets(key, interned, pred.fields).value[k]
                 == ColumnName(pred.fields[ps[k]].prop).value + " = " + ValueLiteral(pred.fields[ps[k]].value)
  {
    UpdateSetsNonKeyFields(key, interned, pred.fields);
  }
}
