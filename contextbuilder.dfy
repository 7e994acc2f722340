/** `DBContextBuilder`: owns the schema a context is configured through. */
module ContextBuilder {
  import opened Wrappers
  import opened Entities
  import opened Tables
  import opened Schemas

  class DBContextBuilder {
    const Schema: DBSchema

    constructor ()
      ensures fresh(Schema) && Schema.DBTables == []
    {
      Schema := new DBSchema();
    }

    /** `Model<TModel>()`: the same search as `DBSchema.Model`, written out
        again over `Schema.DBTables`. */
    function Model(m: ModelType): (r: Result<DBTable, Cause>)
      reads this, Schema
      ensures r.Success? <==> exists i :: 0 <= i < |Schema.DBTables| && Schema.DBTables[i].Model == m
      ensures r.Success? ==> r.value in Schema.DBTables && r.value.Model == m
      ensures r.Failure? ==> r.error == ModelUnavailable
      ensures r == Schema.Model(m)
    {
      var tables := Schema.DBTables;
      var k := FirstTableFor(tables, m);
      if k.Some? then Success(tables[k.value]) else Failure(ModelUnavailable)
    }
  }
}
