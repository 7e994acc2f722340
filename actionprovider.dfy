/** `DBActionProvider`: the base of the providers. It keeps the connection
    string and the schema, and `RunAction` turns a pending change into a call
    of `Push`, `Remove` or `Update`. For `Remove` and `Update` the call takes
    a predicate that fills in a new instance; the model hands over the
    instance that predicate produces. */
module ActionProvider {
  import opened Wrappers
  import opened Entities
  import opened Schemas
  import opened SchemaExtensions
  import opened SqlStatements
  import DBSets

  /** The call `RunAction` makes. A predicate that throws when it runs (the
      key is null, or not a property of the item) is `None`. */
  datatype Dispatch =
    | CallPush(item: Entity)
    | CallRemove(pred: Option<Entity>)
    | CallUpdate(pred: Option<Entity>)
    | NoOperation

  /** The position of the key among the properties, if it is one of them. */
  function KeyIndex(props: seq<PropertyInfo>, pk: Option<PropertyInfo>): (r: Option<nat>)
    ensures r.None? <==> pk.None? || pk.value !in props
    ensures r.Some? ==> r.value < |props| && Some(props[r.value]) == pk
  {
    if pk.None? || pk.value !in props then None else Some(DBSets.FirstIndex(props, pk.value))
  }

  /** What the Remove predicate `i => pk.SetValue(i, pk.GetValue(item))` makes
      of a new instance: the key copied from `item`, every other property as
      constructed. `item` is an instance of its model, so it never holds null
      where `SetValue` would store a default. */
  function RemovePredicate(item: Entity, pk: Option<PropertyInfo>): (r: Option<Entity>)
    requires Constructed(item.model, item) && WellFormed(item.model)
    ensures r.None? <==> KeyIndex(item.model.properties, pk).None?
    ensures r.Some? ==> Constructed(item.model, r.value)
    ensures r.Some? ==> forall i :: 0 <= i < |item.fields| ==>
              r.value.fields[i].value
              == if Some(item.fields[i].prop) == pk then item.fields[i].value else ConstructedValue(item.fields[i].prop)
  {
    var k := KeyIndex(item.model.properties, pk);
    if k.None? then None
    else
      var created := NewInstance(item.model);
      assert forall i :: 0 <= i < |item.fields| && Some(item.fields[i].prop) == pk ==> i == k.value;
      Some(created.(fields := created.fields[k.value := Field(pk.value, item.fields[k.value].value)]))
  }

  /** What the Update predicate makes of a new instance: the key copied from
      `item`, then every other non-null property of `item` copied. */
  function UpdatePredicate(item: Entity, pk: Option<PropertyInfo>): (r: Option<Entity>)
    requires Constructed(item.model, item) && WellFormed(item.model)
    ensures r.None? <==> KeyIndex(item.model.properties, pk).None?
    ensures r.Some? ==> Constructed(item.model, r.value)
    ensures r.Some? ==> forall i :: 0 <= i < |item.fields| && (item.fields[i].value.Some? || Some(item.fields[i].prop) == pk) ==>
              r.value.fields[i] == item.fields[i]
    ensures r.Some? ==> forall i :: 0 <= i < |item.fields| && item.fields[i].value.None? && Some(item.fields[i].prop) != pk ==>
              r.value.fields[i].value == ConstructedValue(item.fields[i].prop)
  {
    if KeyIndex(item.model.properties, pk).None? then None
    else
      Some(Entity(item.model, seq(|item.fields|, i requires 0 <= i < |item.fields| => CopiedField(item.fields[i], pk))))
  }

  /** One field of the Update predicate's instance: the item's value for the
      key and wherever the item holds one, the constructed value elsewhere. */
  function CopiedField(f: Field, pk: Option<PropertyInfo>): Field {
    Field(f.prop, if Some(f.prop) == pk || f.value.Some? then f.value else ConstructedValue(f.prop))
  }

  /** The Update predicate's instance part-way through its loop: the fields
      before `j` are final; from `j` on only the key, at `k`, is set. */
  ghost function PartlyCopied(fs: seq<Field>, pk: Option<PropertyInfo>, k: nat, j: nat): seq<Field> {
    seq(|fs|, l requires 0 <= l < |fs| =>
      if l < j then CopiedField(fs[l], pk)
      else Field(fs[l].prop, if l == k then fs[l].value else ConstructedValue(fs[l].prop)))
  }

  /** One iteration of the loop sets field `j` when it holds a value and is
      not the key; the key, already set, is left alone. */
  lemma PartlyCopiedStep(fs: seq<Field>, pk: Option<PropertyInfo>, k: nat, j: nat)
    requires j < |fs| && k < |fs| && Some(fs[k].prop) == pk
    requires forall l :: 0 <= l < |fs| && Some(fs[l].prop) == pk ==> l == k
    ensures PartlyCopied(fs, pk, k, j + 1)
         == if fs[j].value.Some? && Some(fs[j].prop) != pk
            then PartlyCopied(fs, pk, k, j)[j := Field(fs[j].prop, fs[j].value)]
            else PartlyCopied(fs, pk, k, j)
  {
  }

  /** The dispatch of `RunAction`, given the key lookup that precedes it. */
  function Dispatched(key: Result<Option<PropertyInfo>, Cause>, action: DBAction, item: Entity): (r: Result<Dispatch, Cause>)
    requires Constructed(item.model, item) && WellFormed(item.model)
    ensures r.Success? <==> key.Success?
    ensures r.Failure? ==> r.error == key.error
    ensures r.Success? ==> (r.value.NoOperation? <==> action == Fetch)
    ensures r.Success? && action == Push ==> r.value == CallPush(item)
    ensures r.Success? && action == Remove ==> r.value == CallRemove(RemovePredicate(item, key.value))
    ensures r.Success? && action == Update ==> r.value == CallUpdate(UpdatePredicate(item, key.value))
    ensures r.Success? && r.value.CallRemove? && r.value.pred.Some? ==>
              action == Remove && Constructed(item.model, r.value.pred.value)
    ensures r.Success? && r.value.CallUpdate? && r.value.pred.Some? ==>
              action == Update && Constructed(item.model, r.value.pred.value)
  {
    var pk :- key;
    match action
    case Push => Success(CallPush(item))
    case Remove => Success(CallRemove(RemovePredicate(item, pk)))
    case Update => Success(CallUpdate(UpdatePredicate(item, pk)))
    case Fetch => Success(NoOperation)
  }

  /** The Update predicate sets the key and every non-null field of the item:
      the instance it yields agrees with the item wherever the item holds a
      value, and the update it asks for passes the key check exactly when
      the item's key holds a value. */
  lemma UpdatePredicateCopies(item: Entity, pk: PropertyInfo)
    requires Constructed(item.model, item) && WellFormed(item.model) && pk in item.model.properties
    ensures UpdatePredicate(item, Some(pk)).Some?
    ensures var p := UpdatePredicate(item, Some(pk)).value;
            && Constructed(item.model, p)
            && (forall i :: 0 <= i < |item.fields| && item.fields[i].value.Some? ==> p.fields[i] == item.fields[i])
            && (HasKeyValue(Success(Some(pk)), p.fields) == HasKeyValue(Success(Some(pk)), item.fields))
  {
    var p := UpdatePredicate(item, Some(pk)).value;
    assert item.fields != [];
    if HasKeyValue(Success(Some(pk)), item.fields).value {
      var i :| 0 <= i < |item.fields| && Some(pk) == Some(item.fields[i].prop) && item.fields[i].value.Some?;
      assert p.fields[i] == item.fields[i];
    }
    if HasKeyValue(Success(Some(pk)), p.fields).value {
      var i :| 0 <= i < |p.fields| && Some(pk) == Some(p.fields[i].prop) && p.fields[i].value.Some?;
      assert p.fields[i].value == item.fields[i].value;
    }
  }

  /** A Remove dispatched for an item succeeds only if the key is the first
      property that is not null in a new instance: every property declared
      before the key must be left null by the constructor. A model with a
      non-nullable value-type property, or an initialised one, ahead of its
      key can never be removed this way. */
  lemma {:induction false} RemoveNeedsKeyFirst(item: Entity, pk: PropertyInfo, k: nat)
    requires Constructed(item.model, item) && WellFormed(item.model)
    requires k < |item.fields| && item.fields[k].prop == pk
    requires RemovePredicate(item, Some(pk)).Some?
    requires RemoveStatement(Success(Some(pk)), RemovePredicate(item, Some(pk)).value).Success?
    ensures item.fields[k].value.Some?
    ensures forall j :: 0 <= j < k ==> ConstructedValue(item.fields[j].prop).None?
    ensures forall j :: 0 <= j < k ==> !item.fields[j].prop.propertyType.Struct?
  {
    var p := RemovePredicate(item, Some(pk)).value;
    var first := FirstSet(p.fields);
    assert first.Some?;
    var f := first.value;
    assert p.fields[f].prop == pk;
    assert item.model.properties[f] == item.model.properties[k];
    if f != k {
      assert false;
    }
    forall j | 0 <= j < k
      ensures ConstructedValue(item.fields[j].prop).None?
    {
      assert item.model.properties[j] != item.model.properties[k];
      assert p.fields[j].value.None?;
    }
  }

  class DBActionProvider {
    /** `_ConnectionString`; null unless given. */
    const ConnectionString: Option<string>
    /** The schema the context hands over; unset until then. */
    var Schema: DBSchema?

    constructor ()
      ensures ConnectionString == None && Schema == null
    {
      ConnectionString := None;
      Schema := null;
    }

    constructor WithConnectionString(connectionString: string)
      ensures ConnectionString == Some(connectionString) && Schema == null
    {
      ConnectionString := Some(connectionString);
      Schema := null;
    }

    /** The Update predicate's loop: the key first, then every non-null
        property but the key. */
    method RunUpdatePredicate(item: Entity, pk: Option<PropertyInfo>) returns (r: Option<Entity>)
      requires Constructed(item.model, item) && WellFormed(item.model)
      ensures r == UpdatePredicate(item, pk)
    {
      var k := KeyIndex(item.model.properties, pk);
      if k.None? {
        return None;
      }
      var i := NewInstance(item.model);
      i := i.(fields := i.fields[k.value := Field(pk.value, item.fields[k.value].value)]);
      var props := item.fields;
      assert forall l :: 0 <= l < |props| && Some(props[l].prop) == pk ==> l == k.value;
      assert i.fields == PartlyCopied(props, pk, k.value, 0);
      for j := 0 to |props|
        invariant i == Entity(item.model, PartlyCopied(props, pk, k.value, j))
      {
        PartlyCopiedStep(props, pk, k.value, j);
        if props[j].value.Some? && Some(props[j].prop) != pk {
          i := i.(fields := i.fields[j := Field(props[j].prop, props[j].value)]);
        }
      }
      assert i.fields == UpdatePredicate(item, pk).value.fields;
      return Some(i);
    }

    /** `RunAction(action, item, schema)`: the key lookup comes first, so any
        action on a model without a table fails. */
    method RunAction(action: DBAction, item: Entity, schema: DBSchema) returns (r: Result<Dispatch, Cause>)
      requires Constructed(item.model, item) && WellFormed(item.model)
      ensures r == Dispatched(GetPrimaryKey(schema, item.model), action, item)
      ensures schema.Model(item.model).Failure? ==> r == Failure(Invoked(ModelUnavailable))
    {
      var pk := GetPrimaryKey(schema, item.model);
      if pk.Failure? {
        return Failure(pk.error);
      }
      match action {
        case Push =>
          r := Success(CallPush(item));
        case Remove =>
          r := Success(CallRemove(RemovePredicate(item, pk.value)));
        case Update =>
          var where := RunUpdatePredicate(item, pk.value);
          r := Success(CallUpdate(where));
        case Fetch =>
          r := Success(NoOperation);
      }
    }
  }
}
