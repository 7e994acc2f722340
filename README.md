# DBFramework core in Dafny

This project models the core of DBFramework, a small C# object-relational
mapper. An application declares model classes. A context registers one
`DBTable<TModel>` per model in a `DBSchema`. Each table records the
primary key, the required properties and the ignored properties. A
`DBActionProvider` turns entities into SQL text:

- `Fetch` builds `SELECT … FROM … WHERE …` and reads the rows back;
- `Push` builds `INSERT INTO … VALUES …`;
- `Remove` builds `DELETE FROM … WHERE …`;
- `Update` builds `UPDATE … SET … WHERE …`.

Before any statement is sent, the provider checks the primary key and the
required values.

Reflection is replaced by explicit descriptions:

- A model type is its name, its custom attributes and its properties in
  declaration order (`Entities.ModelType`).
- An entity is its model plus one field per property, each holding a value
  or null (`Entities.Entity`).
- A property also records the value `new TModel()` leaves in it: what the
  model's constructor or property initialiser assigns, if anything
  (`PropertyInfo.initializer`); otherwise `default(T)`.
- The storage name of a type or property follows the source's rule. Without
  custom attributes it is the member's own name. Otherwise it is the name
  given by the first `DBName` attribute (a `DBName` whose name is null
  gives the empty string once interpolated); when there is none, `First()`
  throws.

The database is an abstract `execute(text)` step. A statement that gets
built is returned as `issued`. The database's answer is a parameter: an
error message, or for `Fetch` the rows it returns.

Modules:

- `Entities`: model types, values, the naming rule, new instances.
- `Tables`: `DBTable` as a class, plus its updates as pure transitions on
  `TableConstraints`.
- `Schemas`: `DBSchema`.
- `ContextBuilder`: `DBContextBuilder`.
- `SchemaExtensions` and `PropertyInfoExtensions`: the two copies of the
  key and required-value checks. The loops are methods, proved against
  shared specification functions.
- `DBSets`: `DBSet<T>`, with the log of `DBSetChanged` events it raised.
- `ObjectExtensions`: `GetDefault`.
- `SqlStatements`: the statements and checks as pure functions, with
  lemmas.
- `SqlProvider`: the source's `+=` loops as methods, each proved equal to
  its statement function, and the four actions with their exception
  wrapping.
- `ActionProvider`: `DBActionProvider` and `RunAction`.
- `Gather`: one generic function, `Collect`, for every loop that throws,
  skips or appends one piece per element.
- `Text`: joining, `Trim` and `IsNullOrWhiteSpace`.

Three behaviours of the source are proved as they stand:

- `Remove` takes its single WHERE condition from the first non-null
  property. `RunAction` builds the Remove predicate from a new instance,
  which holds defaults for non-nullable value types and whatever the
  constructor or initialisers assign. So a model with such a property
  declared before its key can never be removed through `RunAction`
  (`ActionProvider.RemoveNeedsKeyFirst`).
- For the same reason a Fetch predicate always filters on every
  non-nullable value-type property, and an Update always assigns every
  such property other than the key (`SqlStatements.FetchFiltersValueTypes`,
  `SqlStatements.UpdateSetsValueTypes`).
- String literals are quoted but not escaped: the text between the quotes
  is the string itself (`SqlStatements.ConditionLiteral`).

## Model

| member | source | states |
|---|---|---|
| Entities.FirstDBName | DBFramework/ActionProvider/SqlDBActionProvider.cs:52 | fails exactly when no attribute is a `DBName`; otherwise gives the name of the first `DBName`, "" when that name is null |
| Entities.ExternalName | DBFramework/ActionProvider/SqlDBActionProvider.cs:45 | the member's own name when it has no custom attributes, otherwise the first `DBName`'s name (or the `First()` failure) |
| Entities.InitialValue | DBFramework/ActionProvider/SqlDBActionProvider.cs:66 | a new instance holds a value exactly for non-nullable value-type properties |
| Entities.ConstructedValue | DBFramework/ActionProvider/SqlDBActionProvider.cs:66 | a property of a new instance is null exactly when nothing initialises it and its type is not a non-nullable value type |
| Entities.Stored | DBFramework/ActionProvider/SqlDBActionProvider.cs:121-123 | `SetValue` stores a non-null value as given; null stays null only in a property that can hold null, and becomes the default in a non-nullable value type |
| Entities.NewInstance | DBFramework/ActionProvider/SqlDBActionProvider.cs:66 | `new TModel()` is an instance of the model: one field per property, in order, each holding what the constructor or initialiser assigns or else its type's default, never null in a non-nullable value type |
| Entities.SelectedMember | DBFramework/Base/DBTable.cs:69 | a selector yields a member only when its body is a boxing conversion of a member access |
| ObjectExtensions.GetDefault | DBFramework/Extensions/ObjectExtensions.cs:11-20 | the default instance for a struct, "" for `string`, null for `Nullable<T>` and for every other reference type |
| ObjectExtensions.NullableBoolTakesValueTypeBranch | DBFramework/Extensions/ObjectExtensions.cs:14-19 | `bool?` is caught by the value-type test, so the explicit `bool?` test is unreachable; the result is null |
| ObjectExtensions.GetDefaultVersusInitialValue | DBFramework/Extensions/ObjectExtensions.cs:11-20 | `GetDefault` differs from a new instance's value for exactly one type: `string` |
| Tables.DefaultKey | DBFramework/Base/DBTable.cs:50-55 | null when no property is named "ID" or "Id"; otherwise the first property with one of those names |
| Tables.DBTable.constructor | DBFramework/Base/DBTable.cs:30-56 | the key is `DefaultKey` of the model's properties; both sets start empty |
| Tables.DBTable.HasKey | DBFramework/Base/DBTable.cs:67-71 | the new constraints are `WithKey` of the old ones and the selected member |
| Tables.DBTable.Property | DBFramework/Base/DBTable.cs:78-81 | returns the selected member (only for a boxed member access) and changes nothing |
| Tables.DBTable.Ignore | DBFramework/Base/DBTable.cs:88-99 | the new constraints are `WithIgnored` of the old ones and the member |
| Tables.DBTable.IsRequired | DBFramework/Base/DBTable.cs:111-126 | the new constraints are `WithRequired` of the old ones and the member |
| Tables.HasKeyReplacesOrKeeps | DBFramework/Base/DBTable.cs:69-70 | a resolved member becomes the key; an unresolved selector keeps the old key; the sets never change |
| Tables.IgnoreOnlyAdds | DBFramework/Base/DBTable.cs:91-98 | `Ignore` adds the member to the ignored set and leaves the required set and the key unchanged |
| Tables.IgnoreIdempotent | DBFramework/Base/DBTable.cs:95-98 | ignoring twice is ignoring once |
| Tables.RequiredIdempotent | DBFramework/Base/DBTable.cs:122-125 | requiring twice is requiring once |
| Tables.IgnoredBlocksRequired | DBFramework/Base/DBTable.cs:118 | requiring an ignored member changes nothing |
| Tables.RequireThenIgnoreOverlaps | DBFramework/Base/DBTable.cs:95-125 | requiring and then ignoring a member leaves it in both sets |
| Tables.RequiredKeepsSetsDisjoint | DBFramework/Base/DBTable.cs:111-126 | `IsRequired` alone never makes the two sets overlap |
| Tables.SelectorFor | DBFramework/Base/DBTable.cs:69 | `m => m.P` as an `object` selector is boxed exactly when `P` has a value type, and names `P` |
| Tables.ReferenceSelectorsResolveToNull | DBFramework/Base/DBTable.cs:67-126 | with a reference-typed property, `HasKey` keeps the old key, `Ignore` records null, and `IsRequired` records null unless null is already ignored |
| Schemas.FirstTableFor | DBFramework/Base/DBSchema.cs:26-28 | none when no table is for the model; otherwise the position of the first table for it |
| Schemas.DBSchema.constructor | DBFramework/Base/DBSchema.cs:13 | the schema starts with no tables |
| Schemas.DBSchema.Register | DBFramework/Base/Context/DBContext.cs:231-237 | adds a table reference once: already present, nothing changes; otherwise it goes at the end |
| Schemas.DBSchema.Model | DBFramework/Base/DBSchema.cs:24-33 | succeeds exactly when some table is for the model and returns the first one; otherwise fails with the "isn't availlable" cause |
| Schemas.RegisterMakesAvailable | DBFramework/Base/Context/DBContext.cs:231-237 | after registration the table's model can be looked up, and earlier lookups are unchanged |
| ContextBuilder.DBContextBuilder.constructor | DBFramework/Base/Context/DBContextBuilder.cs:15-25 | the schema is fresh and empty |
| ContextBuilder.DBContextBuilder.Model | DBFramework/Base/Context/DBContextBuilder.cs:38-47 | finds a table for the model in the schema or fails, and always agrees with `DBSchema.Model` |
| SchemaExtensions.InvokeModel | DBFramework/Extensions/DBSchemaExtensions.cs:24 | the reflective call of `Model` returns the same table, and when the model has no table fails with a `TargetInvocationException` whose inner exception is the "isn't availlable" one |
| SchemaExtensions.IsPrimaryKey | DBFramework/Extensions/DBSchemaExtensions.cs:22-29 | fails exactly when the model has no table, with the wrapped lookup exception; otherwise true exactly when the property is that table's key |
| SchemaExtensions.GetPrimaryKey | DBFramework/Extensions/DBSchemaExtensions.cs:37-44 | fails exactly when the model has no table, with the wrapped lookup exception; otherwise returns that table's key |
| SchemaExtensions.GetRequired | DBFramework/Extensions/DBSchemaExtensions.cs:92-93 | fails exactly when the model has no table, with the wrapped lookup exception; otherwise returns that table's required set |
| SchemaExtensions.IsPrimaryKeyViaGetPrimaryKey | DBFramework/Extensions/DBSchemaExtensions.cs:22-44 | `IsPrimaryKey` is the comparison of the property with what `GetPrimaryKey` returns |
| SchemaExtensions.KeyValue | DBFramework/Extensions/DBSchemaExtensions.cs:68-76 | the value of the first field that is the key; null when no field is |
| SchemaExtensions.HasKeyValueGivesKeyValue | DBFramework/Extensions/DBSchemaExtensions.cs:52-76 | when `HasPrimaryKeyValue` is true, `GetPrimaryKeyValue` returns a non-null value |
| SchemaExtensions.UnregisteredModelFails | DBFramework/Extensions/DBSchemaExtensions.cs:22-100 | with no table for the model, every check fails with the wrapped lookup exception; the key checks fail only when the entity has properties |
| SchemaExtensions.HasPrimaryKeyValue | DBFramework/Extensions/DBSchemaExtensions.cs:52-60 | false without properties; otherwise fails if the lookup fails, else true exactly when some field is the key and is non-null |
| SchemaExtensions.GetPrimaryKeyValue | DBFramework/Extensions/DBSchemaExtensions.cs:68-76 | null without properties; otherwise fails if the lookup fails, else the key field's value (`KeyValue`) |
| SchemaExtensions.RequiredValuesCorrect | DBFramework/Extensions/DBSchemaExtensions.cs:88-100 | fails if the lookup fails; otherwise true exactly when no required field is null (vacuously true with none required) |
| PropertyInfoExtensions.IsPrimaryKey | DBFramework/Extensions/PropertyInfoExtensions.cs:22-29 | true exactly when the property is the model's recorded key, and equal to the `DBSchemaExtensions` version |
| PropertyInfoExtensions.HasPrimaryKeyValue | DBFramework/Extensions/PropertyInfoExtensions.cs:37-45 | the same answer as `DBSchemaExtensions.HasPrimaryKeyValue`: some field is the key and is non-null |
| PropertyInfoExtensions.GetPrimaryKeyValue | DBFramework/Extensions/PropertyInfoExtensions.cs:53-61 | the same answer as `DBSchemaExtensions.GetPrimaryKeyValue`: the key's value, or null |
| PropertyInfoExtensions.RequiredValuesCorrect | DBFramework/Extensions/PropertyInfoExtensions.cs:67-79 | the same answer as `DBSchemaExtensions.RequiredValuesCorrect`: no required field is null |
| DBSets.InsertAt | DBFramework/Base/DBSet.cs:39-43 | the item is at the index, earlier elements stay, later ones shift right by one |
| DBSets.DeleteAt | DBFramework/Base/DBSet.cs:57-61 | the element at the index is gone and the others keep their order |
| DBSets.DeleteInserted | DBFramework/Base/DBSet.cs:39-61 | `RemoveAt(i)` undoes `Insert(i, x)` |
| DBSets.InsertDeleted | DBFramework/Base/DBSet.cs:39-61 | `Insert(i, s[i])` undoes `RemoveAt(i)` |
| DBSets.FirstIndex | DBFramework/Base/DBSet.cs:88-91 | -1 exactly when the item is absent; otherwise the position of its first occurrence |
| DBSets.RemoveFirst | DBFramework/Base/DBSet.cs:51-55 | only the first occurrence is removed (one copy fewer in the multiset); a list without the item is unchanged |
| DBSets.RemoveFirstKeepsLaterCopies | DBFramework/Base/DBSet.cs:51-55 | after removing an item that occurs twice, the item is still there |
| DBSets.DBSet.constructor | DBFramework/Base/DBSet.cs:29 | the list starts empty and no event has been raised |
| DBSets.DBSet.Add | DBFramework/Base/DBSet.cs:33-37 | appends the item and raises "Added an item" |
| DBSets.DBSet.Insert | DBFramework/Base/DBSet.cs:39-43 | in range: inserts at the index and raises "Inserted an item"; out of range: fails, changes nothing and raises nothing |
| DBSets.DBSet.Clear | DBFramework/Base/DBSet.cs:45-49 | empties the list and raises "Cleared all the items" |
| DBSets.DBSet.Remove | DBFramework/Base/DBSet.cs:51-55 | raises "Removed an item" even when the item is absent, removes only its first occurrence, and returns whether it was present |
| DBSets.DBSet.RemoveAt | DBFramework/Base/DBSet.cs:57-61 | in range: deletes the element and raises "Removed an item"; out of range: fails and changes nothing |
| DBSets.DBSet.Get | DBFramework/Base/DBSet.cs:67 | returns the element at the index, or fails out of range |
| DBSets.DBSet.Set | DBFramework/Base/DBSet.cs:67 | replaces only that element and raises no event; out of range it fails and changes nothing |
| DBSets.DBSet.IndexOf | DBFramework/Base/DBSet.cs:88-91 | -1 exactly when the item is absent; otherwise the position of its first occurrence; reads only |
| DBSets.DBSet.Contains | DBFramework/Base/DBSet.cs:73-76 | true exactly when `IndexOf` is not -1, that is, exactly when the item is in the list |
| DBSets.DBSet.Count | DBFramework/Base/DBSet.cs:69 | the number of items; zero exactly when the list is empty |
| Text.Trim | DBFramework/ActionProvider/SqlDBActionProvider.cs:119-120 | only white space is removed, only at the two ends, and the result neither starts nor ends with white space |
| Text.TrimIdempotent | DBFramework/ActionProvider/SqlDBActionProvider.cs:119-120 | trimming a trimmed string changes nothing |
| SqlStatements.ConditionLiteral | DBFramework/ActionProvider/SqlDBActionProvider.cs:80-93 | Guid and String conditions quote the value's text; a Boolean is 1 exactly when true and 0 exactly when false; other values are their text |
| SqlStatements.ValueLiteral | DBFramework/ActionProvider/SqlDBActionProvider.cs:175-196 | `NULL` is written exactly for null or for an unquoted value whose text is `NULL`; a DateTimeOffset quotes its formatted text; other values are written as in conditions |
| SqlStatements.ConditionNotBlank | DBFramework/ActionProvider/SqlDBActionProvider.cs:94 | a `name = literal` condition is never null or white space |
| SqlStatements.FetchConditions | DBFramework/ActionProvider/SqlDBActionProvider.cs:63-96 | without a predicate there is no condition; otherwise it fails exactly when a non-null field has no column name, with the no-`DBName` cause |
| SqlStatements.FetchStatement | DBFramework/ActionProvider/SqlDBActionProvider.cs:44-99 | a SELECT is built exactly when the table, every property and every condition field have names; the only failure cause is a missing `DBName` |
| SqlStatements.FetchColumnsAreProperties | DBFramework/ActionProvider/SqlDBActionProvider.cs:48-60 | SELECT lists every property's column name once, in declaration order |
| SqlStatements.FetchMatchesAllIffNoCondition | DBFramework/ActionProvider/SqlDBActionProvider.cs:63-99 | the WHERE falls back to `1 = 1` exactly when there is no predicate or every field of the predicate instance is null |
| SqlStatements.FetchConditionsAreSetFields | DBFramework/ActionProvider/SqlDBActionProvider.cs:63-96 | one `name = literal` condition per non-null field, in field order, and none for null fields |
| SqlStatements.FetchFiltersValueTypes | DBFramework/ActionProvider/SqlDBActionProvider.cs:63-96 | on a constructed predicate instance every non-nullable value-type property yields a condition, so such a model is never fetched with `1 = 1` |
| SqlStatements.Literals | DBFramework/ActionProvider/SqlDBActionProvider.cs:172-196 | one VALUES literal per field, null fields included, in order |
| SqlStatements.PushChecks | DBFramework/ActionProvider/SqlDBActionProvider.cs:164-165 | an INSERT is built only when the key holds a value and every required field is set; otherwise the matching cause |
| SqlStatements.PushStatement | DBFramework/ActionProvider/SqlDBActionProvider.cs:155-202 | an INSERT is built only when the key holds a value and every required field is set; a failure is a missing name, an unsafe action, a null required value, or a lookup failure |
| SqlStatements.PushColumnsMatchValues | DBFramework/ActionProvider/SqlDBActionProvider.cs:155-202 | INSERT has one column and one value per property, in the same order; ignored properties are not left out |
| SqlStatements.FirstSet | DBFramework/ActionProvider/SqlDBActionProvider.cs:241-243 | none when every field is null; otherwise the position of the first non-null field |
| SqlStatements.RemoveStatement | DBFramework/ActionProvider/SqlDBActionProvider.cs:241-286 | a DELETE is built only when some field is set and the first set field is the key; a failure is a missing name, an unsafe action, or a lookup failure |
| SqlStatements.RemoveOnlyByKey | DBFramework/ActionProvider/SqlDBActionProvider.cs:241-286 | a DELETE has exactly one condition, taken from the first non-null field, which is the key; the `1 = 1` fallback is never used |
| SqlStatements.RemoveRefusedUnlessFirstIsKey | DBFramework/ActionProvider/SqlDBActionProvider.cs:243-280 | when the first non-null field is not the key, Remove fails as unsafe, whatever later fields hold |
| SqlStatements.UpdateWhereNeverBlank | DBFramework/ActionProvider/SqlDBActionProvider.cs:329-406 | after the key check passes, the WHERE list is non-empty and not white space |
| SqlStatements.UpdateWhereNonEmpty | DBFramework/ActionProvider/SqlDBActionProvider.cs:374-403 | a key field holding a value always contributes a WHERE condition |
| SqlStatements.UpdateWhereOnlyKey | DBFramework/ActionProvider/SqlDBActionProvider.cs:374-403 | WHERE holds one condition per non-null key field and nothing else |
| SqlStatements.UpdateSetsNonKeyFields | DBFramework/ActionProvider/SqlDBActionProvider.cs:332-371 | SET assigns exactly the non-null fields that are not the key, in order; the key is never assigned |
| SqlStatements.UpdateEmptySet | DBFramework/ActionProvider/SqlDBActionProvider.cs:329-407 | once the key check passes, Update fails with the empty-SET cause exactly when no field other than the key holds a value |
| SqlStatements.UpdateStatement | DBFramework/ActionProvider/SqlDBActionProvider.cs:329-407 | an UPDATE is built only when the key holds a value; a failure is a missing name, no key, an empty SET, or a lookup failure, never an empty WHERE |
| SqlStatements.UpdateSetsValueTypes | DBFramework/ActionProvider/SqlDBActionProvider.cs:332-371 | on a constructed instance SET assigns every non-nullable value-type property other than the key, each to its value's literal |
| SqlStatements.ReadValue | DBFramework/ActionProvider/SqlDBActionProvider.cs:118-123 | a DB null reads as null, a string is trimmed, any other value is kept |
| SqlStatements.ReadRowConforms | DBFramework/ActionProvider/SqlDBActionProvider.cs:114-124 | a decoded row is a constructed instance of the model; each field is what `SetValue` stores for the column named after its property, so a DB null in a non-nullable value type becomes the default |
| SqlStatements.ReadRows | DBFramework/ActionProvider/SqlDBActionProvider.cs:110-128 | succeeds exactly when every row decodes; a failure is the failure of some row |
| SqlStatements.ReadRowsOnePerRow | DBFramework/ActionProvider/SqlDBActionProvider.cs:112-128 | decoding yields one entity per row, in reader order |
| SqlProvider.Settle | DBFramework/ActionProvider/SqlDBActionProvider.cs:424-427 | passes exactly when the statement was built and the database accepted it; every failure carries the action's message and the cause |
| SqlProvider.FetchResult | DBFramework/ActionProvider/SqlDBActionProvider.cs:38-140 | succeeds exactly when the query is built, the database answers and every row decodes; a failure carries Fetch's message |
| SqlProvider.FetchOnePerRow | DBFramework/ActionProvider/SqlDBActionProvider.cs:110-133 | a successful fetch holds one constructed entity per row, in order |
| SqlProvider.JoinColumns | DBFramework/ActionProvider/SqlDBActionProvider.cs:53-60 | the count-guarded loop joins the names with ", " and no trailing separator |
| SqlProvider.ColumnNames | DBFramework/ActionProvider/SqlDBActionProvider.cs:155-158 | Push's first loop yields every field's column name in order, or fails at the first field without one |
| SqlProvider.FetchQuery | DBFramework/ActionProvider/SqlDBActionProvider.cs:44-99 | the loops build exactly `FetchStatement` |
| SqlProvider.ReadItem | DBFramework/ActionProvider/SqlDBActionProvider.cs:114-124 | the reader loop's body builds exactly `ReadRow`: each property gets what `SetValue` stores for its column |
| SqlProvider.Fetch | DBFramework/ActionProvider/SqlDBActionProvider.cs:38-140 | sends the query only if it can be built; the returned fresh `DBSet` holds the decoded rows, each a constructed instance of the model, and one "Added an item" event per row |
| SqlProvider.PushQuery | DBFramework/ActionProvider/SqlDBActionProvider.cs:155-202 | the loops and checks build exactly `PushStatement` |
| SqlProvider.UpdateSetList | DBFramework/ActionProvider/SqlDBActionProvider.cs:332-371 | the SET loop fails exactly when `UpdateSets` does; otherwise its text is those assignments joined with ", ", null when there is none |
| SqlProvider.UpdateWhereList | DBFramework/ActionProvider/SqlDBActionProvider.cs:374-403 | the WHERE loop fails exactly when `UpdateConditions` does; otherwise its text is those conditions joined with " AND ", null when there is none |
| SqlProvider.Push | DBFramework/ActionProvider/SqlDBActionProvider.cs:148-219 | nothing is sent unless the checks pass; the outcome is `Settle` with Push's message |
| SqlProvider.RemoveQuery | DBFramework/ActionProvider/SqlDBActionProvider.cs:234-286 | the loop with its flag and `break` builds exactly `RemoveStatement` |
| SqlProvider.Remove | DBFramework/ActionProvider/SqlDBActionProvider.cs:227-303 | nothing is sent unless the DELETE is by key; the outcome is `Settle` with Remove's message |
| SqlProvider.UpdateQuery | DBFramework/ActionProvider/SqlDBActionProvider.cs:321-410 | the checks and both loops build exactly `UpdateStatement` |
| SqlProvider.Update | DBFramework/ActionProvider/SqlDBActionProvider.cs:315-428 | nothing is sent unless the checks pass; the outcome is `Settle` with Update's message |
| ActionProvider.KeyIndex | DBFramework/ActionProvider/Base/DBActionProvider.cs:77 | none when the key is null or not a property of the model; otherwise its position |
| ActionProvider.RemovePredicate | DBFramework/ActionProvider/Base/DBActionProvider.cs:74-79 | a new instance with only the key copied from the item; every other field is as constructed; throws when the key is null or foreign |
| ActionProvider.UpdatePredicate | DBFramework/ActionProvider/Base/DBActionProvider.cs:80-91 | none exactly when the key is null or foreign; otherwise a constructed instance holding the item's key and every non-null field of the item, and the constructed value elsewhere |
| ActionProvider.UpdatePredicateCopies | DBFramework/ActionProvider/Base/DBActionProvider.cs:80-91 | the Update predicate's instance agrees with the item on every non-null field, and has a key value exactly when the item does |
| ActionProvider.RemoveNeedsKeyFirst | DBFramework/ActionProvider/Base/DBActionProvider.cs:74-79 | a Remove dispatched by `RunAction` succeeds only if the item's key is set and every property before the key is left null by `new TModel()`, so none has a non-nullable value type |
| ActionProvider.Dispatched | DBFramework/ActionProvider/Base/DBActionProvider.cs:64-94 | fails exactly when the key lookup fails, with its cause; Fetch does nothing, Push passes the item, Remove passes `RemovePredicate` of the item and the key, Update passes `UpdatePredicate` of them; each predicate is a constructed instance |
| ActionProvider.DBActionProvider.constructor | DBFramework/ActionProvider/Base/DBActionProvider.cs:42 | the connection string stays null and no schema is set |
| ActionProvider.DBActionProvider.WithConnectionString | DBFramework/ActionProvider/Base/DBActionProvider.cs:48-51 | stores the connection string |
| ActionProvider.DBActionProvider.RunUpdatePredicate | DBFramework/ActionProvider/Base/DBActionProvider.cs:83-91 | the closure's loop builds exactly `UpdatePredicate`: key from the item, then every non-null non-key field |
| ActionProvider.DBActionProvider.RunAction | DBFramework/ActionProvider/Base/DBActionProvider.cs:64-94 | the key lookup runs first, so a model without a table fails with the wrapped lookup exception; then Push passes the item, Remove and Update their predicates, and Fetch does nothing |

## Left out

- The driver: `SqlConnection`, `SqlCommand` and `SqlDataReader` are replaced by the `issued` text and a supplied answer (an error message, or the rows).
- Tasks: `Task.Run`, `async`/`await`, the un-awaited calls in `RunAction` and the exceptions those calls lose are concurrency, not modelled.
- `RunAction` returns the call it would make instead of making it; `Push`, `Remove` and `Update` are abstract there.
- Reflection: model types and properties are given explicitly, with properties in declaration order and never repeated.
- `SqlDBActionProvider`'s own constructors only forward to `DBActionProvider`'s, which are modelled.
- The provider's `Schema` property: the actions take the schema as a parameter, and a null schema is not modelled.
- `ToString` and DateTimeOffset parsing and formatting are culture-dependent library calls. Each value carries its rendered texts.
- `SqlDataReader`'s column lookup is modelled as an exact match; its case-insensitive fallback is not.
- `PropertyInfo.SetValue` rejecting a value of the wrong type is not modelled: a read value is stored as it is, except that null becomes the default in a non-nullable value type.
- Model constructors and property initialisers are not executed: each property carries the one value they leave in it, and that value is not checked against the property's type.
- `DBSet` compares items with value equality, not with `Equals` overrides or reference equality.
- Handlers of `DBSetChanged` are not modelled: the set keeps the list of events it raised.
- `DBSchema.DBTables` is a `HashSet<object>`. It is modelled as a sequence in insertion order, so lookup returns the first match in that order.
- A key that is a field rather than a property is not modelled; the source's cast to `PropertyInfo` would throw.
- `SqlStatements.SameAsDefault`: Update compares a value with `GetDefault()` by reference. Whether a string field holds the interned "" object is a parameter (`interned`).
- The `DBSet` enumerators, `CopyTo` and `IsReadOnly` only forward to the list.
- Change tracking, `DBContext`, `DBContextOptions`, the mock providers and the sandbox program are not part of this model.
