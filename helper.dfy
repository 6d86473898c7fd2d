/**
 * The naming and type helpers shared by the Eloquent query and type classes
 * (src/Folklore/GraphQL/Eloquent/Helper.php): the reserved attribute names, the base type
 * of a pagination or list type, and the test whether a type is backed by an Eloquent model.
 */
module Helper {
  import opened Php
  import opened Schema

  // ---------------------------------------------------------------------------
  // Configuration
  // ---------------------------------------------------------------------------

  const OrderByKey := "graphql.eloquent.query.attributeName.orderBy"
  const FilterKey := "graphql.eloquent.query.attributeName.filter"
  const PaginationKey := "graphql.eloquent.query.attributeName.pagination"
  const PaginationTypeKey := "graphql.eloquent.pagination.type"
  const WithTrashedKey := "graphql.eloquent.query.attributeName.withTrashed"
  const OnlyTrashedKey := "graphql.eloquent.query.attributeName.onlyTrashed"
  const LimitKey := "graphql.eloquent.query.attributeName.limit"
  const OffsetKey := "graphql.eloquent.query.attributeName.offset"

  /**
   * The configuration repository as far as the compiler reads it: string settings by key,
   * and `graphql.eloquent.pagination.per_page` when it is set.
   */
  datatype Settings = Settings(strings: map<string, string>, perPage: Option<Json>)

  /** `config($key, $default)`. */
  function ConfigString(s: Settings, key: string, default: string): string {
    if key in s.strings then s.strings[key] else default
  }

  /** The nine trait fields `setupAttributeNames` assigns, with the three base tokens. */
  datatype AttributeNames = AttributeNames(
    baseOrderBy: string,
    orderBy: string,
    baseFilter: string,
    filter: string,
    basePagination: string,
    pagination: string,
    perPage: Json,
    paginationType: string,
    withTrashed: string,
    onlyTrashed: string,
    limit: string,
    offset: string)

  // ---------------------------------------------------------------------------
  // getBaseType
  // ---------------------------------------------------------------------------

  /** A pagination type becomes the type of its `items` field; then one list wrapper is removed. */
  function GetBaseType(t: TypeRef): TypeRef {
    var items := if t.Paginated? then t.items else t;
    if items.ListOf? then items.inner else items
  }

  /** The `name` of a type object; a list type has none, which reads as "". */
  function TypeName(t: TypeRef): string {
    match t
    case Named(n) => n
    case ListOf(_) => ""
    case Paginated(n, _) => n
  }

  /** Which wrappers GetBaseType removed: the pagination type (by name) and whether a list. */
  datatype Wrapping = Wrapping(pagination: Option<string>, list: bool)

  function WrappingOf(t: TypeRef): Wrapping {
    var items := if t.Paginated? then t.items else t;
    Wrapping(if t.Paginated? then Some(t.name) else None, items.ListOf?)
  }

  function Rewrap(base: TypeRef, w: Wrapping): TypeRef {
    var listed := if w.list then ListOf(base) else base;
    if w.pagination.Some? then Paginated(w.pagination.value, listed) else listed
  }

  /**
   * GetBaseType removes at most a pagination wrapper and then one list wrapper: wrapping
   * the base type again in what was removed gives back the original type, and a type that
   * is neither comes back unchanged.
   */
  lemma BaseTypeRewraps(t: TypeRef)
    ensures Rewrap(GetBaseType(t), WrappingOf(t)) == t
    ensures !t.Paginated? && !t.ListOf? ==> GetBaseType(t) == t
    ensures WrappingOf(t).pagination.None? <==> !t.Paginated?
  {
  }

  /** A pagination of a list of T, and a bare list of T, both have base type T. */
  lemma BaseTypeOfPaginatedList(name: string, t: TypeRef)
    ensures GetBaseType(Paginated(name, ListOf(t))) == t
    ensures GetBaseType(ListOf(t)) == t
    ensures GetBaseType(ListOf(ListOf(t))) == ListOf(t)
  {
  }

  // ---------------------------------------------------------------------------
  // isEloquentModel
  // ---------------------------------------------------------------------------

  /** `isset($type->config['model']) && $type->config['model'] instanceof Model`. */
  predicate IsEloquentModel(schema: Schema, t: TypeRef) {
    t.Named? && t.name in schema && schema[t.name].model.Some? && schema[t.name].model.value.ModelInstance?
  }

  /** `method_exists($type->config['model'], 'trashed')`: soft deletes on a model, or a `trashed` method. */
  predicate ModelHasTrashed(m: Option<ModelConfig>) {
    m.Some? && match m.value
      case ModelInstance(sd) => sd
      case OtherValue(h) => h
  }

  /** The model entry of a type's config, when the type is a known object type that has one. */
  function ModelOf(schema: Schema, t: TypeRef): Option<ModelConfig> {
    if t.Named? && t.name in schema then schema[t.name].model else None
  }

  lemma IsEloquentModelExactly(schema: Schema, t: TypeRef)
    ensures IsEloquentModel(schema, t) <==> exists sd :: ModelOf(schema, t) == Some(ModelInstance(sd))
  {
    if IsEloquentModel(schema, t) {
      var sd := ModelOf(schema, t).value.softDeletes;
      assert ModelOf(schema, t) == Some(ModelInstance(sd));
    }
  }

  // ---------------------------------------------------------------------------
  // formatVariableName
  // ---------------------------------------------------------------------------

  /**
   * `formatVariableName($variableName, $baseTypeName, $relationshipName)`; `current` is the
   * name of the caller's own base type, used when no type name is given (and then the
   * relationship name is ignored).
   */
  function FormatVariableName(variable: string, baseTypeName: Option<string>, relation: Option<string>, current: string): string {
    if baseTypeName.Some? then
      if relation.Some? then baseTypeName.value + Ucfirst(relation.value) + Ucfirst(variable)
      else baseTypeName.value + Ucfirst(variable)
    else current + Ucfirst(variable)
  }

  /** Only the first character of the relationship path is changed, so inner dots stay. */
  lemma FormatVariableNameKeepsPath(variable: string, t: string, path: string)
    requires |path| > 0
    ensures var r := FormatVariableName(variable, Some(t), Some(path), "");
      && |r| == |t| + |path| + |variable|
      && r[..|t|] == t
      && r[|t|] == UpperChar(path[0])
      && r[|t| + 1..|t| + |path|] == path[1..]
      && r[|t| + |path|..] == Ucfirst(variable)
  {
    var r := FormatVariableName(variable, Some(t), Some(path), "");
    assert r == t + Ucfirst(path) + Ucfirst(variable);
    assert (t + Ucfirst(path) + Ucfirst(variable))[|t| + 1..|t| + |path|] == Ucfirst(path)[1..];
  }

  /** With no relationship, the name is the type name followed by the capitalised token. */
  lemma FormatVariableNameOfType(variable: string, t: string, current: string, relation: Option<string>)
    requires |variable| > 0
    ensures FormatVariableName(variable, Some(t), None, current) == t + [UpperChar(variable[0])] + variable[1..]
    ensures FormatVariableName(variable, None, relation, current) == current + [UpperChar(variable[0])] + variable[1..]
  {
  }

  lemma {:induction false} ConcatMiddle(t: string, x: string, y: string, v: string)
    requires t + x + v == t + y + v
    ensures x == y
  {
    assert |x| == |y|;
    assert x == (t + x + v)[|t|..|t| + |x|];
    assert y == (t + y + v)[|t|..|t| + |y|];
  }

  /**
   * Two relationship paths under the same type give the same reserved name exactly when they
   * agree after capitalising their first character: the naming is injective up to the case
   * of that one character.
   */
  lemma FormatVariableNameCollides(variable: string, t: string, p: string, q: string, current: string)
    ensures FormatVariableName(variable, Some(t), Some(p), current) == FormatVariableName(variable, Some(t), Some(q), current)
        <==> Ucfirst(p) == Ucfirst(q)
  {
    if FormatVariableName(variable, Some(t), Some(p), current) == FormatVariableName(variable, Some(t), Some(q), current) {
      ConcatMiddle(t, Ucfirst(p), Ucfirst(q), Ucfirst(variable));
    }
  }

  /** "comments" and "Comments" are distinct relations with the same filter variable name. */
  lemma FormatVariableNameCaseCollision()
    ensures FormatVariableName("EloquentFilter", Some("Post"), Some("comments"), "")
         == FormatVariableName("EloquentFilter", Some("Post"), Some("Comments"), "")
         == "PostCommentsEloquentFilter"
  {
    FormatVariableNameCollides("EloquentFilter", "Post", "comments", "Comments", "");
  }

  predicate NameStart(c: char) {
    c == '_' || 'a' <= c <= 'z' || 'A' <= c <= 'Z'
  }

  predicate NameChar(c: char) {
    NameStart(c) || '0' <= c <= '9'
  }

  /** A GraphQL Name: `[_A-Za-z][_0-9A-Za-z]*`, the only form a query variable can be named in. */
  predicate IsGraphQLName(s: string) {
    |s| > 0 && NameStart(s[0]) && forall i :: 1 <= i < |s| ==> NameChar(s[i])
  }

  /**
   * A nested relationship path keeps its dots in the variable name built for it, so no query
   * variable can ever carry the filter or order rows of a relation two or more levels deep.
   */
  lemma NestedVariableNameIsNotGraphQLName(variable: string, t: string, path: string, k: nat)
    requires 0 < k < |path| && path[k] == '.'
    ensures !IsGraphQLName(FormatVariableName(variable, Some(t), Some(path), ""))
  {
    FormatVariableNameKeepsPath(variable, t, path);
    var r := FormatVariableName(variable, Some(t), Some(path), "");
    assert r[|t| + 1..|t| + |path|][k - 1] == path[1..][k - 1] == '.';
    assert r[|t| + k] == '.';
    assert !NameChar(r[|t| + k]);
  }

  // ---------------------------------------------------------------------------
  // setupAttributeNames
  // ---------------------------------------------------------------------------

  /**
   * `setupAttributeNames`: each name comes from configuration with its default; only the
   * filter, order-by and pagination names are prefixed (with `current`, the name of the
   * caller's base type); the trashed, limit and offset names are used as configured.
   */
  function SetupAttributeNames(s: Settings, current: string): (r: AttributeNames)
    ensures r.baseOrderBy == ConfigString(s, OrderByKey, "EloquentOrderBy")
    ensures r.baseFilter == ConfigString(s, FilterKey, "EloquentFilter")
    ensures r.basePagination == ConfigString(s, PaginationKey, "EloquentPagination")
    ensures r.perPage == (if s.perPage.Some? then s.perPage.value else JInt(10))
    ensures r.paginationType == ConfigString(s, PaginationTypeKey, "simple")
    ensures r.filter == current + Ucfirst(r.baseFilter)
    ensures r.orderBy == current + Ucfirst(r.baseOrderBy)
    ensures r.pagination == current + Ucfirst(r.basePagination)
    ensures r.withTrashed == ConfigString(s, WithTrashedKey, "EloquentWithTrashed")
    ensures r.onlyTrashed == ConfigString(s, OnlyTrashedKey, "EloquentOnlyTrashed")
    ensures r.limit == ConfigString(s, LimitKey, "EloquentLimit")
    ensures r.offset == ConfigString(s, OffsetKey, "EloquentOffset")
  {
    var baseOrderBy := ConfigString(s, OrderByKey, "EloquentOrderBy");
    var baseFilter := ConfigString(s, FilterKey, "EloquentFilter");
    var basePagination := ConfigString(s, PaginationKey, "EloquentPagination");
    AttributeNames(
      baseOrderBy, FormatVariableName(baseOrderBy, None, None, current),
      baseFilter, FormatVariableName(baseFilter, None, None, current),
      basePagination, FormatVariableName(basePagination, None, None, current),
      s.perPage.GetOr(JInt(10)),
      ConfigString(s, PaginationTypeKey, "simple"),
      ConfigString(s, WithTrashedKey, "EloquentWithTrashed"),
      ConfigString(s, OnlyTrashedKey, "EloquentOnlyTrashed"),
      ConfigString(s, LimitKey, "EloquentLimit"),
      ConfigString(s, OffsetKey, "EloquentOffset"))
  }

  /** The names an empty configuration yields: the default tokens, the three prefixed with the current type's name. */
  lemma DefaultAttributeNames(current: string)
    ensures SetupAttributeNames(Settings(map[], None), current) == AttributeNames(
      "EloquentOrderBy", current + "EloquentOrderBy",
      "EloquentFilter", current + "EloquentFilter",
      "EloquentPagination", current + "EloquentPagination",
      JInt(10), "simple",
      "EloquentWithTrashed", "EloquentOnlyTrashed", "EloquentLimit", "EloquentOffset")
  {
    UcfirstOfCapitalised("EloquentOrderBy");
    UcfirstOfCapitalised("EloquentFilter");
    UcfirstOfCapitalised("EloquentPagination");
  }

  lemma UcfirstOfCapitalised(s: string)
    requires |s| > 0 && !('a' <= s[0] <= 'z')
    ensures Ucfirst(s) == s
  {
    assert [s[0]] + s[1..] == s;
  }
}
