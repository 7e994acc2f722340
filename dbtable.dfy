/** `DBTable<TModel>`: the per-model record of the primary key, the required
    properties and the ignored properties. */
module Tables {
  import opened Wrappers
  import opened Entities
  import opened ObjectExtensions

  /** What a table records, as a value. Both sets are `HashSet<MemberInfo>`,
      which accept null: a selector that resolves to no member adds `None`. */
  datatype TableConstraints = TableConstraints(
    primaryKey: Option<PropertyInfo>,
    required: set<Option<PropertyInfo>>,
    ignored: set<Option<PropertyInfo>>)

  predicate IsIdName(name: string) {
    name == "ID" || name == "Id"
  }

  /** The key the constructor picks: the first property named exactly "ID" or
      "Id", or null. */
  function DefaultKey(props: seq<PropertyInfo>): (r: Option<PropertyInfo>)
    ensures r.None? <==> forall i :: 0 <= i < |props| ==> !IsIdName(props[i].name)
    ensures r.Some? ==> exists i :: 0 <= i < |props| && props[i] == r.value && IsIdName(props[i].name)
                                     && forall j :: 0 <= j < i ==> !IsIdName(props[j].name)
  {
    if props == [] then None
    else if IsIdName(props[0].name) then Some(props[0])
    else
      var r := DefaultKey(props[1..]);
      assert forall i :: 1 <= i < |props| ==> props[i] == props[1..][i - 1];
      r
  }

  /** `HasKey`: the selected member becomes the key; no member keeps the old one. */
  function WithKey(c: TableConstraints, member: Option<PropertyInfo>): TableConstraints {
    c.(primaryKey := if member.Some? then member else c.primaryKey)
  }

  /** `Ignore`: add to the ignored set unless already there. */
  function WithIgnored(c: TableConstraints, member: Option<PropertyInfo>): TableConstraints {
    if member in c.ignored then c else c.(ignored := c.ignored + {member})
  }

  /** `IsRequired`: add to the required set unless ignored or already required. */
  function WithRequired(c: TableConstraints, member: Option<PropertyInfo>): TableConstraints {
    if member in c.ignored then c
    else if member in c.required then c
    else c.(required := c.required + {member})
  }

  lemma HasKeyReplacesOrKeeps(c: TableConstraints, s: Selector)
    ensures s.Boxed? ==> WithKey(c, SelectedMember(s)).primaryKey == Some(s.member)
    ensures !s.Boxed? ==> WithKey(c, SelectedMember(s)) == c
    ensures WithKey(c, SelectedMember(s)).required == c.required
    ensures WithKey(c, SelectedMember(s)).ignored == c.ignored
  {
  }

  lemma IgnoreOnlyAdds(c: TableConstraints, m: Option<PropertyInfo>)
    ensures WithIgnored(c, m).ignored == c.ignored + {m}
    ensures WithIgnored(c, m).required == c.required
    ensures WithIgnored(c, m).primaryKey == c.primaryKey
  {
  }

  lemma IgnoreIdempotent(c: TableConstraints, m: Option<PropertyInfo>)
    ensures WithIgnored(WithIgnored(c, m), m) == WithIgnored(c, m)
  {
  }

  lemma RequiredIdempotent(c: TableConstraints, m: Option<PropertyInfo>)
    ensures WithRequired(WithRequired(c, m), m) == WithRequired(c, m)
  {
  }

  /** An ignored member is never made required. */
  lemma IgnoredBlocksRequired(c: TableConstraints, m: Option<PropertyInfo>)
    requires m in c.ignored
    ensures WithRequired(c, m) == c
  {
  }

  /** `IsRequired` keeps the two sets apart, but `Ignore` does not remove a
      required member: requiring then ignoring puts a member in both. */
  lemma RequireThenIgnoreOverlaps(c: TableConstraints, m: Option<PropertyInfo>)
    requires m !in c.ignored
    ensures m in WithIgnored(WithRequired(c, m), m).required
    ensures m in WithIgnored(WithRequired(c, m), m).ignored
  {
  }

  lemma RequiredKeepsSetsDisjoint(c: TableConstraints, m: Option<PropertyInfo>)
    requires c.required !! c.ignored
    ensures WithRequired(c, m).required !! WithRequired(c, m).ignored
  {
  }

  /** The selector the compiler emits for `m => m.P` passed as
      `Expression<Func<TModel, object>>`: the member access is wrapped in a
      boxing conversion only when `P` has a value type. */
  function SelectorFor(p: PropertyInfo): (s: Selector)
    ensures !s.NotAMember? && s.member == p
    ensures s.Boxed? <==> IsValueType(p.propertyType)
  {
    if IsValueType(p.propertyType) then Boxed(p) else Unboxed(p)
  }

  /** A selector of a reference-typed property resolves to no member:
      `HasKey` keeps the old key, and `Ignore` and `IsRequired` record null. */
  lemma ReferenceSelectorsResolveToNull(c: TableConstraints, p: PropertyInfo)
    requires !IsValueType(p.propertyType)
    ensures WithKey(c, SelectedMember(SelectorFor(p))) == c
    ensures WithIgnored(c, SelectedMember(SelectorFor(p))).ignored == c.ignored + {None}
    ensures None !in c.ignored ==> WithRequired(c, SelectedMember(SelectorFor(p))).required == c.required + {None}
  {
  }

  class DBTable {
    /** The model type, `TModel`; the table's runtime type is `DBTable<TModel>`. */
    const Model: ModelType
    var PrimaryKey: Option<PropertyInfo>
    var RequiredProperties: set<Option<PropertyInfo>>
    var IgnoredProperties: set<Option<PropertyInfo>>

    function Constraints(): TableConstraints
      reads this
    {
      TableConstraints(PrimaryKey, RequiredProperties, IgnoredProperties)
    }

    /** Scans the properties for the conventional key name. */
    constructor (model: ModelType)
      ensures Model == model
      ensures PrimaryKey == DefaultKey(model.properties)
      ensures RequiredProperties == {} && IgnoredProperties == {}
    {
      var props := model.properties;
      var key: Option<PropertyInfo> := None;
      var i := 0;
      while i < |props|
        invariant 0 <= i <= |props|
        invariant key == None && DefaultKey(props) == DefaultKey(props[i..])
      {
        if props[i].name == "ID" || props[i].name == "Id" {
          key := Some(props[i]);
          break;
        }
        assert props[i..][1..] == props[i + 1..];
        i := i + 1;
      }
      Model := model;
      PrimaryKey := key;
      RequiredProperties := {};
      IgnoredProperties := {};
    }

    method HasKey(primaryKey: Selector)
      modifies this
      ensures Constraints() == WithKey(old(Constraints()), SelectedMember(primaryKey))
    {
      var prop := SelectedMember(primaryKey);
      PrimaryKey := if prop.Some? then prop else PrimaryKey;
    }

    /** Extracts the selected member and changes nothing. */
    function Property(property: Selector): (r: Option<PropertyInfo>)
      ensures r.Some? <==> property.Boxed?
      ensures r.Some? ==> r.value == property.member
    {
      SelectedMember(property)
    }

    method Ignore(property: Selector)
      modifies this
      ensures Constraints() == WithIgnored(old(Constraints()), SelectedMember(property))
    {
      var prop := SelectedMember(property);
      if prop in IgnoredProperties {
        return;
      }
      IgnoredProperties := IgnoredProperties + {prop};
    }

    method IsRequired(property: Selector)
      modifies this
      ensures Constraints() == WithRequired(old(Constraints()), SelectedMember(property))
    {
      var prop := SelectedMember(property);
      if prop in IgnoredProperties {
        return;
      }
      if prop in RequiredProperties {
        return;
      }
      RequiredProperties := RequiredProperties + {prop};
    }
  }
}
