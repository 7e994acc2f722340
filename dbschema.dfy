/** `DBSchema`: the tables registered for a context, and the lookup of the
    table of one model type. */
module Schemas {
  import opened Wrappers
  import opened Entities
  import opened Tables

  /** The position of the first table whose model type is `m`. A table's
      runtime type `DBTable<TModel>` is determined by its model type, which
      never changes, so the search reads no mutable state. */
  function FirstTableFor(tables: seq<DBTable>, m: ModelType): (r: Option<nat>)
    ensures r.None? <==> forall i :: 0 <= i < |tables| ==> tables[i].Model != m
    ensures r.Some? ==> r.value < |tables| && tables[r.value].Model == m
                        && forall j :: 0 <= j < r.value ==> tables[j].Model != m
  {
    if tables == [] then None
    else if tables[0].Model == m then Some(0)
    else
      var rest := FirstTableFor(tables[1..], m);
      assert forall i :: 1 <= i < |tables| ==> tables[i] == tables[1..][i - 1];
      if rest.Some? then Some(rest.value + 1) else None
  }

  class DBSchema {
    /** A `HashSet<object>` of tables, kept here in insertion order. */
    var DBTables: seq<DBTable>

    constructor ()
      ensures DBTables == []
    {
      DBTables := [];
    }

    /** `DBTables.Add(table)`, as `DBContext.OnContextCreating` registers one
        table per `DBSet` property: a reference already present is not added
        again. */
    method Register(table: DBTable)
      modifies this
      ensures DBTables == if table in old(DBTables) then old(DBTables) else old(DBTables) + [table]
    {
      if table !in DBTables {
        DBTables := DBTables + [table];
      }
    }

    /** `Model<TModel>()`: the first registered table for `m`, or the
        "isn't availlable" exception. */
    function Model(m: ModelType): (r: Result<DBTable, Cause>)
      reads this
      ensures r.Success? <==> exists i :: 0 <= i < |DBTables| && DBTables[i].Model == m
      ensures r.Success? ==> r.value in DBTables && r.value.Model == m
      ensures r.Success? ==> exists i :: 0 <= i < |DBTables| && DBTables[i] == r.value
                                         && forall j :: 0 <= j < i ==> DBTables[j].Model != m
      ensures r.Failure? ==> r.error == ModelUnavailable
    {
      var k := FirstTableFor(DBTables, m);
      if k.Some? then Success(DBTables[k.value]) else Failure(ModelUnavailable)
    }
  }

  /** Registering a table makes its model available, and the lookup of any
      model that was already available is unchanged. */
  lemma RegisterMakesAvailable(before: seq<DBTable>, table: DBTable, m: ModelType)
    ensures FirstTableFor(before + [table], table.Model).Some?
    ensures FirstTableFor(before, m).Some? ==> FirstTableFor(before + [table], m) == FirstTableFor(before, m)
  {
    var after := before + [table];
    assert after[|before|] == table;
    if FirstTableFor(before, m).Some? {
      var k := FirstTableFor(before, m).value;
      assert after[k] == before[k];
      assert forall j :: 0 <= j < k ==> after[j] == before[j];
    }
  }
}
