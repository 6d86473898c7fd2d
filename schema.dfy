/**
 * The collaborators the compiler reads: GraphQL types and fields as the schema registry
 * knows them, and the parsed selection tree of one incoming query.
 */
module Schema {
  import opened Php

  /** A GraphQL output type reference: a named type, a list of a type, or a pagination type. */
  datatype TypeRef =
    | Named(name: string)
    | ListOf(inner: TypeRef)
    /** A Folklore pagination type; `items` is the type of its `items` field. */
    | Paginated(name: string, items: TypeRef)

  /**
   * What an object type's config holds under `model`: an Eloquent model instance (which may
   * use soft deletes), or some other value (a class-name string such as `Post::class`, an
   * array, an object that is not a model), which may still have a `trashed` method and on
   * which `->query()` throws.
   */
  datatype ModelConfig = ModelInstance(softDeletes: bool) | OtherValue(hasTrashedMethod: bool)

  /** The type of a field argument: the ones the compiler injects, or any declared type. */
  datatype ArgType =
    | FilterList
    | OrderList
    | IntType
    | BooleanType
    | SimplePagination
    | CursorPagination
    | Declared(typ: TypeRef)

  /** One argument definition `['name' => ..., 'type' => ...]`; the `name` entry may be absent. */
  datatype ArgMeta = ArgMeta(name: Option<string>, typ: ArgType)

  /** A field definition: its type and its `args` entry, absent when the field declares none. */
  datatype Field = Field(typ: TypeRef, args: Option<seq<(string, ArgMeta)>>)

  datatype ObjectType = ObjectType(model: Option<ModelConfig>, fields: map<string, Field>)

  /** The schema registry: object types by name. */
  type Schema = map<string, ObjectType>

  /**
   * The value node of an argument in the query text. Only scalar literals (int, float,
   * string, boolean, enum) carry a `value` property; variable references, lists, objects and
   * null do not. The parser keeps int and float literals as their text, so `5` is `JStr("5")`
   * and `-0` is the truthy `JStr("-0")`; a boolean literal is a `JBool`.
   */
  datatype ArgValue = Literal(value: Json) | Variable(name: string) | Composite

  datatype Argument = Argument(name: string, value: ArgValue)

  /** A field selection; `children` is its sub-selection, empty when it has none. */
  datatype Selection = Selection(name: string, args: seq<Argument>, children: seq<Selection>)

  /** `isset($argument->value->value)`. */
  predicate HasScalarValue(v: ArgValue) {
    v.Literal? && v.value != JNull
  }

  /** `$argument->value->value`, null when the node has no such property. */
  function ValueProperty(v: ArgValue): Json {
    if v.Literal? then v.value else JNull
  }
}
