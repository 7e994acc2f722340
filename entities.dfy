/** The entities the framework maps to tables, with reflection replaced by an
    explicit description of each model type: its name, its custom attributes
    and its public properties in declaration order. */
module Entities {
  import opened Wrappers

  /** The runtime types of non-null values that the literal encoders tell apart
      (`value.GetType().ToString()`), as value types. */
  datatype Primitive =
    | GuidKind
    | BoolKind
    | DateTimeOffsetKind
      /** Any other struct (int, decimal, an enum, ...), with the text its
          default instance prints as. */
    | OtherStruct(typeName: string, defaultText: string)

  /** The declared type of a property. */
  datatype TypeTag =
    | Struct(kind: Primitive)
    | NullableStruct(kind: Primitive)
    | StringType
    | ClassType(typeName: string)

  /** A boxed non-null value with its runtime type. The texts are what the
      library's formatting calls produce, taken as given: `text` is the plain
      `{value}` rendering, and for a DateTimeOffset `formatted` is the
      rendering, with the format "yyyy-MM-dd HH:mm:ss.fffffff zzz", of the
      value parsed back from `text`. */
  datatype Value =
    | GuidVal(text: string)
    | StringVal(s: string)
    | BoolVal(b: bool)
    | DateTimeOffsetVal(text: string, formatted: string)
    | OtherVal(typeName: string, text: string)

  /** The `DBName` attribute, whose settable `Name` may be null, or any other
      custom attribute. */
  datatype Attribute = DBName(name: Option<string>) | OtherAttribute(typeName: string)

  /** A property: its name, its custom attributes, its declared type, and the
      value the model's constructor or the property's initialiser assigns it,
      if any (`= ""`, `= Guid.NewGuid()`, ...). */
  datatype PropertyInfo = PropertyInfo(name: string, attributes: seq<Attribute>, propertyType: TypeTag,
                                       initializer: Option<Value>)

  /** A model type (`TModel`): its name, its custom attributes and what
      `GetProperties()` returns for it. */
  datatype ModelType = ModelType(name: string, attributes: seq<Attribute>, properties: seq<PropertyInfo>)

  /** One property of an entity and its current value; `None` is null. */
  datatype Field = Field(prop: PropertyInfo, value: Option<Value>)

  /** An instance of a model type: one field per property, in declaration order. */
  datatype Entity = Entity(model: ModelType, fields: seq<Field>)

  /** Reflection never returns one property twice. */
  predicate WellFormed(m: ModelType) {
    forall i, j :: 0 <= i < j < |m.properties| ==> m.properties[i] != m.properties[j]
  }

  /** The fields of `e` are exactly the properties of its model type. */
  predicate Conforms(e: Entity) {
    && |e.fields| == |e.model.properties|
    && forall i :: 0 <= i < |e.fields| ==> e.fields[i].prop == e.model.properties[i]
  }

  /** Why an operation failed: each constructor stands for one exception the
      source throws (or lets a library call throw). */
  datatype Cause =
    | ModelUnavailable
    | NoDBNameAttribute
    | UnsafeAction
    | RequiredValueNull
    | UpdateWithoutKey
    | EmptyWhere
    | EmptySet
    | ColumnNotFound(column: string)
    | DriverFailure(message: string)
      /** A `TargetInvocationException` from `MethodBase.Invoke`, wrapping
          what the invoked method threw as its inner exception. */
    | Invoked(inner: Cause)
  {
    /** The message of the exception, for the ones the source raises itself. */
    function Message(): string {
      match this
      case ModelUnavailable => "The provided model isn't availlable in the ContextBuilder"
      case NoDBNameAttribute => "Sequence contains no elements"
      case UnsafeAction =>
        "The DBContext does not allow unsafe code and the action that would be ran is considered unsafe\r\n"
        + "Action: trying to delete without setting the where with primary key as unique identifier"
      case RequiredValueNull => "Required values cannot be null"
      case UpdateWithoutKey =>
        "In order to update an item, the item must have a value for the primary key and the primary will be used in the where statement only."
      case EmptyWhere => "Where clause in Update cannot be null"
      case EmptySet => "Set clause in Update cannot be null"
      case ColumnNotFound(column) => column
      case DriverFailure(message) => message
      case Invoked(_) => "Exception has been thrown by the target of an invocation."
    }
  }

  /** The name of the first `DBName` among `attrs`; `First()` throws when there
      is none. A null name reads `?.Name` as null, which every statement and
      the reader's column lookup interpolate as the empty string. */
  function FirstDBName(attrs: seq<Attribute>): (r: Result<string, Cause>)
    ensures r.Failure? <==> forall i :: 0 <= i < |attrs| ==> !attrs[i].DBName?
    ensures r.Failure? ==> r.error == NoDBNameAttribute
    ensures r.Success? ==> exists i :: 0 <= i < |attrs| && attrs[i].DBName? && r.value == attrs[i].name.GetOr("")
                                       && forall j :: 0 <= j < i ==> !attrs[j].DBName?
  {
    if attrs == [] then Failure(NoDBNameAttribute)
    else if attrs[0].DBName? then Success(attrs[0].name.GetOr(""))
    else
      var r := FirstDBName(attrs[1..]);
      assert forall i :: 1 <= i < |attrs| ==> attrs[i] == attrs[1..][i - 1];
      r
  }

  /** The storage-side name of a member: its own name when it has no custom
      attribute, otherwise the name its `DBName` attribute gives. */
  function ExternalName(name: string, attributes: seq<Attribute>): (r: Result<string, Cause>)
    ensures attributes == [] ==> r == Success(name)
    ensures attributes != [] ==> r == FirstDBName(attributes)
  {
    if |attributes| > 0 then FirstDBName(attributes) else Success(name)
  }

  function ColumnName(p: PropertyInfo): Result<string, Cause> {
    ExternalName(p.name, p.attributes)
  }

  function TableName(m: ModelType): Result<string, Cause> {
    ExternalName(m.name, m.attributes)
  }

  /** The default instance of a value type (`Activator.CreateInstance`). */
  function DefaultOf(kind: Primitive): Value {
    match kind
    case GuidKind => GuidVal("00000000-0000-0000-0000-000000000000")
    case BoolKind => BoolVal(false)
    case DateTimeOffsetKind => DateTimeOffsetVal("1/1/0001 12:00:00 AM +00:00", "0001-01-01 00:00:00.0000000 +00:00")
    case OtherStruct(typeName, defaultText) => OtherVal(typeName, defaultText)
  }

  /** C#'s `default(T)` for a declared type: the default instance for a
      non-nullable value type, null otherwise. */
  function InitialValue(t: TypeTag): (r: Option<Value>)
    ensures r.Some? <==> t.Struct?
  {
    if t.Struct? then Some(DefaultOf(t.kind)) else None
  }

  /** What a property holds once `new TModel()` has run: what the constructor
      or the initialiser assigns, otherwise `default(T)`. */
  function ConstructedValue(p: PropertyInfo): (r: Option<Value>)
    ensures p.propertyType.Struct? ==> r.Some?
    ensures r.None? <==> p.initializer.None? && !p.propertyType.Struct?
  {
    if p.initializer.Some? then p.initializer else InitialValue(p.propertyType)
  }

  /** `prop.SetValue(instance, v)`: reflection stores the default instance
      when it is handed null for a non-nullable value type. */
  function Stored(p: PropertyInfo, v: Option<Value>): (r: Option<Value>)
    ensures v.Some? ==> r == v
    ensures r.None? <==> v.None? && !p.propertyType.Struct?
  {
    if v.None? then InitialValue(p.propertyType) else v
  }

  /** An instance of `m` as the runtime can hold one: one field per property
      and never null in a non-nullable value-type property. */
  predicate Constructed(m: ModelType, e: Entity) {
    && e.model == m
    && Conforms(e)
    && forall i :: 0 <= i < |e.fields| && e.fields[i].prop.propertyType.Struct? ==> e.fields[i].value.Some?
  }

  /** `new TModel()`. */
  function NewInstance(m: ModelType): (e: Entity)
    ensures Constructed(m, e)
    ensures forall i :: 0 <= i < |e.fields| ==> e.fields[i].value == ConstructedValue(m.properties[i])
  {
    Entity(m, seq(|m.properties|, i requires 0 <= i < |m.properties| =>
      Field(m.properties[i], ConstructedValue(m.properties[i]))))
  }

  /** The body of a selector lambda `m => m.X` given as an expression tree. The
      compiler wraps the member access in a `Convert` node only when the member
      has to be boxed to `object`. */
  datatype Selector =
    | Boxed(member: PropertyInfo)
    | Unboxed(member: PropertyInfo)
    | NotAMember

  /** `((e.Body as UnaryExpression)?.Operand as MemberExpression)?.Member`:
      only a boxed member access yields a member. */
  function SelectedMember(s: Selector): (r: Option<PropertyInfo>)
    ensures r.Some? <==> s.Boxed?
    ensures r.Some? ==> r.value == s.member
  {
    match s
    case Boxed(member) => Some(member)
    case _ => None
  }

  /** The operations the action provider can run. */
  datatype DBAction = Fetch | Push | Remove | Update

  /** A pending change: the action to replay and the entity it concerns. */
  datatype DBChange = DBChange(action: DBAction, value: Entity)
}
