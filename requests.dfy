/**
 * The steps resolve applies to the base Eloquent builder (src/Folklore/GraphQL/Eloquent/Query.php):
 * eager loads with a constraint per relation (requestedRelations), the base filters
 * (requestedFilters), the base order (requestedOrders) and pagination (applyPagination).
 */
module Requests {
  import opened Php
  import opened Failures
  import opened Schema
  import opened Helper
  import opened Extract
  import opened Builder
  import opened Relations
  import opened Conditions

  /**
   * The `before…Query` methods a query class defines, keyed by lower-cased method name (PHP
   * method names ignore case), each with the value it returns. What a hook does to the
   * builder it is given is not modelled.
   */
  type Hooks = map<string, Json>

  /** What the query object brings: attribute names, schema, return type, configuration and hooks. */
  datatype QueryDef = QueryDef(
    names: AttributeNames,
    schema: Schema,
    returnType: TypeRef,
    allowedOperators: seq<string>,
    /** `$this->config['name']`, used to name the base filter variable. */
    configName: Option<string>,
    /** `$this->name`, used to name the base order variable. */
    name: Option<string>,
    hooks: Hooks)

  /** What the compiler reads from ResolveInfo: the query's field node and the request variables. */
  datatype Info = Info(field: Selection, variables: map<string, Json>)

  /** `$this->getBaseType()->name`. */
  function CurrentTypeName(q: QueryDef): string {
    TypeName(GetBaseType(q.returnType))
  }

  function QueryWalk(q: QueryDef, info: Info): Walk {
    Walk(q.names, q.schema, CurrentTypeName(q), info.variables)
  }

  // ---------------------------------------------------------------------------
  // Hook names
  // ---------------------------------------------------------------------------

  /** PHP `explode('.', $s)`: the pieces between dots, empty pieces included. */
  function Explode(s: string): (parts: seq<string>)
    ensures |parts| >= 1
  {
    if s == [] then [""]
    else
      var rest := Explode(s[1..]);
      if s[0] == '.' then [""] + rest else [[s[0]] + rest[0]] + rest[1..]
  }

  /** PHP `implode('.', $parts)`. */
  function Implode(parts: seq<string>): string
    requires |parts| >= 1
  {
    if |parts| == 1 then parts[0] else parts[0] + "." + Implode(parts[1..])
  }

  /** Exploding on dots loses nothing: the pieces join back to the path. */
  lemma {:induction false} ImplodeExplode(s: string)
    ensures Implode(Explode(s)) == s
  {
    if s != [] {
      ImplodeExplode(s[1..]);
      var rest := Explode(s[1..]);
      if s[0] == '.' {
        assert Implode(Explode(s)) == "" + "." + Implode(rest);
        assert s == "." + s[1..];
      } else {
        ImplodeExtendFirst(s[0], rest);
        assert s == [s[0]] + s[1..];
      }
    }
  }

  lemma {:induction false} ImplodeExtendFirst(c: char, parts: seq<string>)
    requires |parts| >= 1
    ensures Implode([[c] + parts[0]] + parts[1..]) == [c] + Implode(parts)
  {
    var ps := [[c] + parts[0]] + parts[1..];
    assert ps[0] == [c] + parts[0] && ps[1..] == parts[1..];
    if |parts| > 1 {
      var tail := Implode(parts[1..]);
      assert Implode(ps) == ([c] + parts[0]) + "." + tail;
      assert Implode(parts) == parts[0] + "." + tail;
      assert ([c] + parts[0]) + "." + tail == [c] + (parts[0] + "." + tail);
    }
  }

  /** No piece of an exploded path holds a dot. */
  lemma {:induction false} ExplodedPiecesHaveNoDot(s: string)
    ensures forall i :: 0 <= i < |Explode(s)| ==> '.' !in Explode(s)[i]
  {
    if s != [] {
      ExplodedPiecesHaveNoDot(s[1..]);
      var rest := Explode(s[1..]);
      if s[0] != '.' {
        assert '.' !in [s[0]] + rest[0];
      }
    }
  }

  /** The pieces concatenated, each with its first letter upper-cased. */
  function Capitalised(parts: seq<string>): string {
    if parts == [] then "" else Ucfirst(parts[0]) + Capitalised(parts[1..])
  }

  /** The hook run before a relation's constraint: `user.roles` gives `beforeUserRolesQuery`. */
  function RelationHookName(path: string): string {
    "before" + Capitalised(Explode(path)) + "Query"
  }

  /** The hook run before the base query's filters. */
  function BaseHookName(typeName: string): string {
    "before" + Ucfirst(typeName) + "Query"
  }

  /** What the hook named `name` returns, or None when the query class has no such method. */
  function HookResult(hooks: Hooks, name: string): (r: Option<Json>)
    ensures r.Some? <==> Lower(name) in hooks
  {
    var k := Lower(name);
    if k in hooks then Some(hooks[k]) else None
  }

  /**
   * `$hook(...) === null ?? true` parses as `($hook(...) === null) ?? true`: the constraint
   * of a relation runs only when its hook is absent or returns null.
   */
  predicate RelationContinues(hooks: Hooks, path: string) {
    var r := HookResult(hooks, RelationHookName(path));
    r.None? || r.value == JNull
  }

  /** `$hook(...) ?? true` read as a condition: the base filters run unless the hook returns a falsy non-null value. */
  predicate BaseContinues(hooks: Hooks, typeName: string) {
    var r := HookResult(hooks, BaseHookName(typeName));
    r.None? || r.value == JNull || ToBool(r.value)
  }

  lemma {:induction false} ExplodeWithoutDot(s: string)
    requires '.' !in s
    ensures Explode(s) == [s]
  {
    if s != [] {
      ExplodeWithoutDot(s[1..]);
      assert s == [s[0]] + s[1..];
    }
  }

  lemma {:induction false} ExplodeAtDot(a: string, b: string)
    requires '.' !in a
    ensures Explode(a + "." + b) == [a] + Explode(b)
  {
    if a == [] {
      assert (a + "." + b)[1..] == b;
    } else {
      assert (a + "." + b)[1..] == a[1..] + "." + b;
      ExplodeAtDot(a[1..], b);
      assert a == [a[0]] + a[1..];
    }
  }

  lemma ExplodeTwo(a: string, b: string)
    requires '.' !in a && '.' !in b
    ensures Explode(a + "." + b) == [a, b]
  {
    ExplodeAtDot(a, b);
    ExplodeWithoutDot(b);
  }

  lemma UcfirstAddsNoDot(b: string)
    requires '.' !in b
    ensures '.' !in Ucfirst(b)
  {
  }

  lemma CapitalisedTwo(a: string, b: string)
    ensures Capitalised([a, b]) == Ucfirst(a) + Ucfirst(b)
    ensures Capitalised([a]) == Ucfirst(a)
  {
    assert Capitalised([a, b]) == Ucfirst(a) + Capitalised([b]);
    assert Capitalised([b]) == Ucfirst(b) + Capitalised([]);
    assert Capitalised([a]) == Ucfirst(a) + Capitalised([]);
  }

  lemma UcfirstAppend(a: string, b: string)
    requires a != []
    ensures Ucfirst(a + b) == Ucfirst(a) + b
  {
  }

  /**
   * A nested path and the flat field name that spells it in camel case share one hook: both
   * `user.roles` and `userRoles` run `beforeUserRolesQuery`.
   */
  lemma RelationHookNamesCollide(a: string, b: string)
    requires a != [] && '.' !in a && '.' !in b
    ensures RelationHookName(a + "." + b) == RelationHookName(a + Ucfirst(b))
    ensures RelationHookName(a + "." + b) == "before" + Ucfirst(a) + Ucfirst(b) + "Query"
  {
    ExplodeTwo(a, b);
    UcfirstAddsNoDot(b);
    ExplodeWithoutDot(a + Ucfirst(b));
    CapitalisedTwo(a, b);
    CapitalisedTwo(a + Ucfirst(b), b);
    UcfirstAppend(a, Ucfirst(b));
  }

  // ---------------------------------------------------------------------------
  // requestedRelations
  // ---------------------------------------------------------------------------

  /** The trashed, offset and limit calls of a relation constraint: one per truthy flag, in this order. */
  function FlagOps(b: Bundle): seq<Op> {
    (if ToBool(b.withTrashed) then [WithTrashed] else [])
    + (if ToBool(b.onlyTrashed) then [OnlyTrashed] else [])
    + (if ToBool(b.offset) then [Offset(b.offset)] else [])
    + (if ToBool(b.limit) then [Limit(b.limit)] else [])
  }

  /** What the constraint closure of the relation at `path` does to the relation's query when it runs. */
  function ConstraintTrace(q: QueryDef, path: string, b: Bundle): Trace {
    if !RelationContinues(q.hooks, path) then Done([])
    else FilterTrace(q.allowedOperators, b.filter).Then(Done(OrderOps(b.orderBy) + FlagOps(b)))
  }

  /** One entry of the `with` array: a constraint closure for a relation with a bundle, else the bare path. */
  function EagerLoadOf(q: QueryDef, pair: (string, Option<Bundle>)): EagerLoad {
    if pair.1.Some? then Constrained(pair.0, ConstraintTrace(q, pair.0, pair.1.value)) else Unconstrained(pair.0)
  }

  /** The array requestedRelations gives to `with`. */
  function EagerLoads(q: QueryDef, pairs: seq<(string, Option<Bundle>)>): seq<EagerLoad> {
    if pairs == [] then [] else EagerLoads(q, pairs[..|pairs| - 1]) + [EagerLoadOf(q, pairs[|pairs| - 1])]
  }

  /** What requestedRelations does to the base builder, or the exception mapRelations throws. */
  function RelationsTrace(q: QueryDef, info: Info): Trace {
    match MapRelations(QueryWalk(q, info), q.returnType, info.field)
    case Err(f) => Thrown(f)
    case Ok(pairs) => Done([With(EagerLoads(q, pairs))])
  }

  /** `requestedRelations($info, $query)`. */
  method RequestedRelations(query: QueryBuilder, q: QueryDef, info: Info) returns (failure: Option<Failure>)
    modifies query
    ensures query.ops == old(query.ops) + RelationsTrace(q, info).ops
    ensures failure == RelationsTrace(q, info).failure
  {
    var relations := CollectRelationMap(QueryWalk(q, info), q.returnType, info.field);
    if relations.Err? {
      return Some(relations.failure);
    }
    var pairs := relations.value;
    var relationArray: seq<EagerLoad> := [];
    var i := 0;
    while i < |pairs|
      invariant 0 <= i <= |pairs|
      invariant relationArray == EagerLoads(q, pairs[..i])
    {
      assert pairs[..i + 1][..i] == pairs[..i];
      var (relation, conditions) := pairs[i];
      if conditions.Some? {
        relationArray := relationArray + [Constrained(relation, ConstraintTrace(q, relation, conditions.value))];
      } else {
        relationArray := relationArray + [Unconstrained(relation)];
      }
      i := i + 1;
    }
    assert pairs[..i] == pairs;
    query.Record(With(relationArray));
    return None;
  }

  /**
   * The `with` array has one entry per relation, in order: a constraint exactly for the
   * relations that have a bundle.
   */
  lemma {:induction false} EagerLoadsFollowPairs(q: QueryDef, pairs: seq<(string, Option<Bundle>)>)
    ensures |EagerLoads(q, pairs)| == |pairs|
    ensures forall i :: 0 <= i < |pairs| ==>
      && EagerLoads(q, pairs)[i].path == pairs[i].0
      && (EagerLoads(q, pairs)[i].Constrained? <==> pairs[i].1.Some?)
      && (pairs[i].1.Some? ==> EagerLoads(q, pairs)[i].constraint == ConstraintTrace(q, pairs[i].0, pairs[i].1.value))
  {
    if pairs != [] {
      var init := pairs[..|pairs| - 1];
      EagerLoadsFollowPairs(q, init);
      assert forall i :: 0 <= i < |init| ==> init[i] == pairs[i];
    }
  }

  /** A relation hook that returns anything but null, `true` included, leaves the relation unconstrained. */
  lemma RelationHookResultStopsConstraint(q: QueryDef, path: string, b: Bundle, v: Json)
    requires HookResult(q.hooks, RelationHookName(path)) == Some(v) && v != JNull
    ensures ConstraintTrace(q, path, b) == Done([])
  {
  }

  /**
   * A constraint that runs applies the filter conditions, then the order rows, then the flags;
   * a failing condition throws before any order or flag call.
   */
  lemma ConstraintCallOrder(q: QueryDef, path: string, b: Bundle)
    requires RelationContinues(q.hooks, path)
    ensures var f := FilterTrace(q.allowedOperators, b.filter);
      && (f.failure.None? ==> ConstraintTrace(q, path, b) == Done(f.ops + OrderOps(b.orderBy) + FlagOps(b)))
      && (f.failure.Some? ==> ConstraintTrace(q, path, b) == f)
  {
  }

  /** The position of a flag call among the four the constraint can make. */
  function FlagRank(op: Op): nat {
    match op
    case WithTrashed => 0
    case OnlyTrashed => 1
    case Offset(_) => 2
    case Limit(_) => 3
    case _ => 4
  }

  /** Each flag call is made exactly when its flag is truthy, with the flag's own value. */
  lemma FlagOpsExactly(b: Bundle)
    ensures WithTrashed in FlagOps(b) <==> ToBool(b.withTrashed)
    ensures OnlyTrashed in FlagOps(b) <==> ToBool(b.onlyTrashed)
    ensures Offset(b.offset) in FlagOps(b) <==> ToBool(b.offset)
    ensures Limit(b.limit) in FlagOps(b) <==> ToBool(b.limit)
    ensures forall op :: op in FlagOps(b) ==> op in [WithTrashed, OnlyTrashed, Offset(b.offset), Limit(b.limit)]
  {
    var w: seq<Op> := if ToBool(b.withTrashed) then [WithTrashed] else [];
    var o: seq<Op> := if ToBool(b.onlyTrashed) then [OnlyTrashed] else [];
    var f: seq<Op> := if ToBool(b.offset) then [Offset(b.offset)] else [];
    var l: seq<Op> := if ToBool(b.limit) then [Limit(b.limit)] else [];
    assert FlagOps(b) == w + o + f + l;
    assert forall op :: op in FlagOps(b) <==> op in w || op in o || op in f || op in l;
  }

  predicate RanksIncrease(ops: seq<Op>) {
    forall i, j :: 0 <= i < j < |ops| ==> FlagRank(ops[i]) < FlagRank(ops[j])
  }

  lemma RanksIncreaseAppend(a: seq<Op>, b: seq<Op>, k: nat)
    requires RanksIncrease(a) && RanksIncrease(b)
    requires forall i :: 0 <= i < |a| ==> FlagRank(a[i]) < k
    requires forall j :: 0 <= j < |b| ==> k <= FlagRank(b[j])
    ensures RanksIncrease(a + b)
  {
    forall i, j | 0 <= i < j < |a + b|
      ensures FlagRank((a + b)[i]) < FlagRank((a + b)[j])
    {
      if j < |a| {
        assert (a + b)[i] == a[i] && (a + b)[j] == a[j];
      } else if i >= |a| {
        assert (a + b)[i] == b[i - |a|] && (a + b)[j] == b[j - |a|];
      } else {
        assert (a + b)[i] == a[i] && (a + b)[j] == b[j - |a|];
      }
    }
  }

  /** A flag call list of at most one call whose ranks sit in [lo, hi). */
  lemma RanksOfOne(x: seq<Op>, lo: nat, hi: nat)
    requires |x| <= 1 && (x != [] ==> lo <= FlagRank(x[0]) < hi)
    ensures RanksIncrease(x)
    ensures forall i :: 0 <= i < |x| ==> lo <= FlagRank(x[i]) < hi
  {
  }

  lemma RanksOfFour(w: seq<Op>, o: seq<Op>, f: seq<Op>, l: seq<Op>)
    requires RanksIncrease(w) && RanksIncrease(o) && RanksIncrease(f) && RanksIncrease(l)
    requires forall i :: 0 <= i < |w| ==> FlagRank(w[i]) < 1
    requires forall i :: 0 <= i < |o| ==> 1 <= FlagRank(o[i]) < 2
    requires forall i :: 0 <= i < |f| ==> 2 <= FlagRank(f[i]) < 3
    requires forall i :: 0 <= i < |l| ==> 3 <= FlagRank(l[i])
    ensures RanksIncrease(w + o + f + l)
  {
    RanksIncreaseAppend(w, o, 1);
    var wo := w + o;
    assert forall i :: 0 <= i < |wo| ==> FlagRank(wo[i]) < 2 by {
      forall i | 0 <= i < |wo| ensures FlagRank(wo[i]) < 2 {
        if i < |w| { assert wo[i] == w[i]; } else { assert wo[i] == o[i - |w|]; }
      }
    }
    RanksIncreaseAppend(wo, f, 2);
    var wof := wo + f;
    assert forall i :: 0 <= i < |wof| ==> FlagRank(wof[i]) < 3 by {
      forall i | 0 <= i < |wof| ensures FlagRank(wof[i]) < 3 {
        if i < |wo| { assert wof[i] == wo[i]; } else { assert wof[i] == f[i - |wo|]; }
      }
    }
    RanksIncreaseAppend(wof, l, 3);
  }

  /** The flag calls come in the source's fixed order: withTrashed, onlyTrashed, offset, limit. */
  lemma FlagOpsInOrder(b: Bundle)
    ensures RanksIncrease(FlagOps(b))
  {
    var w: seq<Op> := if ToBool(b.withTrashed) then [WithTrashed] else [];
    var o: seq<Op> := if ToBool(b.onlyTrashed) then [OnlyTrashed] else [];
    var f: seq<Op> := if ToBool(b.offset) then [Offset(b.offset)] else [];
    var l: seq<Op> := if ToBool(b.limit) then [Limit(b.limit)] else [];
    assert FlagOps(b) == w + o + f + l;
    RanksOfOne(w, 0, 1);
    RanksOfOne(o, 1, 2);
    RanksOfOne(f, 2, 3);
    RanksOfOne(l, 3, 4);
    RanksOfFour(w, o, f, l);
  }

  // ---------------------------------------------------------------------------
  // requestedFilters and requestedOrders
  // ---------------------------------------------------------------------------

  /** The base filter variable, named after `config['name']`. */
  function BaseFilterVariable(q: QueryDef): string {
    FormatVariableName(q.names.baseFilter, q.configName, None, CurrentTypeName(q))
  }

  /** The base order variable, named after the query's `name`. */
  function BaseOrderVariable(q: QueryDef): string {
    FormatVariableName(q.names.baseOrderBy, q.name, None, CurrentTypeName(q))
  }

  /** The base conditions: those named by the field's arguments, then those of the base filter variable. */
  function FilterArguments(q: QueryDef, info: Info): Result<seq<Row>> {
    var byName := FilterArgumentsByName(q.names, info.field, info.variables);
    var byVariable :- ArgumentsFromVariable(q.names, info.variables, BaseFilterVariable(q));
    Ok(byName + byVariable)
  }

  /** What requestedFilters does to the base builder. */
  function FiltersTrace(q: QueryDef, info: Info): Trace {
    match FilterArguments(q, info)
    case Err(f) => Thrown(f)
    case Ok(arguments) => if arguments == [] then Done([]) else FilterTrace(q.allowedOperators, arguments)
  }

  /** `requestedFilters($info, $eloquentQuery)`. */
  method RequestedFilters(query: QueryBuilder, q: QueryDef, info: Info) returns (failure: Option<Failure>)
    modifies query
    ensures query.ops == old(query.ops) + FiltersTrace(q, info).ops
    ensures failure == FiltersTrace(q, info).failure
  {
    var argumentsByName := ExtractFilterArgumentsByName(q.names, info.field, info.variables);
    var argumentsByEloquentFilter := ExtractArgumentsFromVariable(q.names, info.variables, BaseFilterVariable(q));
    if argumentsByEloquentFilter.Err? {
      return Some(argumentsByEloquentFilter.failure);
    }
    var arguments := argumentsByName + argumentsByEloquentFilter.value;
    if arguments != [] {
      failure := ApplyFilterToQuery(query, q.allowedOperators, arguments);
    } else {
      failure := None;
    }
  }

  /**
   * The base filters throw, before any call, when the filter variable is not an array;
   * otherwise every condition, by name first, is applied in order up to the first that throws.
   */
  lemma FiltersApplyEveryCondition(q: QueryDef, info: Info)
    ensures var v := BaseFilterVariable(q);
      IssetVariable(info.variables, v) && !info.variables[v].JArr? ==>
        FiltersTrace(q, info) == Thrown(ArgumentListNotArray(v))
    ensures FilterArguments(q, info).Ok? ==>
      var args := FilterArguments(q, info).value;
      var t := FiltersTrace(q, info);
      && FilterArgumentsByName(q.names, info.field, info.variables) <= args
      && |t.ops| <= |args|
      && (forall i :: 0 <= i < |t.ops| ==> ConditionOp(q.allowedOperators, args[i]) == Ok(t.ops[i]))
      && (t.failure.None? ==> |t.ops| == |args|)
      && (t.failure.Some? ==> |t.ops| < |args| && ConditionOp(q.allowedOperators, args[|t.ops|]) == Err(t.failure.value))
  {
    VariableShapeChecks(q.names, info.variables, BaseFilterVariable(q));
    if FilterArguments(q, info).Ok? {
      FilterTraceStopsAtFirstFailure(q.allowedOperators, FilterArguments(q, info).value);
    }
  }

  /** The base filter variable is `<config name><Filter name>`, or named after the base type without a config name. */
  lemma BaseFilterVariableName(q: QueryDef)
    requires |q.names.baseFilter| > 0
    ensures q.configName.Some? ==> BaseFilterVariable(q) == q.configName.value + Ucfirst(q.names.baseFilter)
    ensures q.configName.None? ==> BaseFilterVariable(q) == CurrentTypeName(q) + Ucfirst(q.names.baseFilter)
  {
  }

  /** The base order rows, read from the base order variable. */
  function OrderRows(q: QueryDef, info: Info): Result<seq<Row>> {
    ArgumentsFromVariable(q.names, info.variables, BaseOrderVariable(q))
  }

  /** What requestedOrders does to the base builder. */
  function OrdersTrace(q: QueryDef, info: Info): Trace {
    match OrderRows(q, info)
    case Err(f) => Thrown(f)
    case Ok(rows) => if rows == [] then Done([]) else Done(OrderOps(rows))
  }

  /** `requestedOrders($info, $eloquentQuery)`. */
  method RequestedOrders(query: QueryBuilder, q: QueryDef, info: Info) returns (failure: Option<Failure>)
    modifies query
    ensures query.ops == old(query.ops) + OrdersTrace(q, info).ops
    ensures failure == OrdersTrace(q, info).failure
  {
    var argumentsByEloquentOrder := ExtractArgumentsFromVariable(q.names, info.variables, BaseOrderVariable(q));
    if argumentsByEloquentOrder.Err? {
      return Some(argumentsByEloquentOrder.failure);
    }
    if argumentsByEloquentOrder.value != [] {
      ApplyOrderToQuery(query, argumentsByEloquentOrder.value);
    }
    return None;
  }

  /** The base order never throws once its rows are read, and orders by each row in turn. */
  lemma OrdersFollowRows(q: QueryDef, info: Info)
    ensures !IssetVariable(info.variables, BaseOrderVariable(q)) ==> OrdersTrace(q, info) == Done([])
    ensures OrderRows(q, info).Ok? ==>
      var rows := OrderRows(q, info).value;
      var t := OrdersTrace(q, info);
      && t.failure.None?
      && |t.ops| == |rows|
      && (forall i :: 0 <= i < |rows| ==> t.ops[i] == OrderBy(rows[i].name, rows[i].value))
  {
    VariableShapeChecks(q.names, info.variables, BaseOrderVariable(q));
    if OrderRows(q, info).Ok? {
      OrderOpsInListOrder(OrderRows(q, info).value);
    }
  }

  // ---------------------------------------------------------------------------
  // applyPagination
  // ---------------------------------------------------------------------------

  /** The pagination variable, named after the base type. */
  function PaginationVariable(q: QueryDef): string {
    FormatVariableName(q.names.basePagination, None, None, CurrentTypeName(q))
  }

  /** The `paginate` call applyPagination makes. */
  function PaginationCall(q: QueryDef, vars: map<string, Json>): Op {
    var v := PaginationVariable(q);
    if q.names.paginationType != "cursor" && IssetVariable(vars, v) then
      Paginate(Coalesce(vars[v], "perPage", q.names.perPage), Coalesce(vars[v], "page", JInt(0)))
    else Paginate(q.names.perPage, JInt(0))
  }

  /** `applyPagination($info, $eloquentQuery)`. */
  method ApplyPagination(query: QueryBuilder, q: QueryDef, info: Info)
    modifies query
    ensures query.ops == old(query.ops) + [PaginationCall(q, info.variables)]
  {
    var variables := info.variables;
    var paginationVariableName := PaginationVariable(q);
    if q.names.paginationType != "cursor" && IssetVariable(variables, paginationVariableName) {
      var pagination := variables[paginationVariableName];
      query.Record(Paginate(Coalesce(pagination, "perPage", q.names.perPage), Coalesce(pagination, "page", JInt(0))));
      return;
    }
    query.Record(Paginate(q.names.perPage, JInt(0)));
  }

  /**
   * The simple strategy (any type but "cursor") reads `perPage` and `page` from a set pagination
   * variable, each on its own: an entry that is missing or null, or a variable that is not an
   * array, gives the configured page size and page 0 in its place. The cursor strategy and an
   * unset variable give the configured page size and page 0.
   */
  lemma PaginationReadsVariable(q: QueryDef, vars: map<string, Json>, p: Json)
    ensures var v := PaginationVariable(q);
      var perPage := if p.JArr? then Get(p.entries, StrKey("perPage")) else None;
      var page := if p.JArr? then Get(p.entries, StrKey("page")) else None;
      q.names.paginationType != "cursor" && p != JNull ==>
        PaginationCall(q, vars[v := p]) == Paginate(
          if perPage.Some? && perPage.value != JNull then perPage.value else q.names.perPage,
          if page.Some? && page.value != JNull then page.value else JInt(0))
    ensures q.names.paginationType == "cursor" ==> PaginationCall(q, vars) == Paginate(q.names.perPage, JInt(0))
    ensures !IssetVariable(vars, PaginationVariable(q)) ==> PaginationCall(q, vars) == Paginate(q.names.perPage, JInt(0))
  {
    var v := PaginationVariable(q);
    assert IssetVariable(vars[v := p], v) <==> p != JNull;
  }

  /** The pagination variable is the base type's name followed by the capitalised pagination name. */
  lemma PaginationVariableName(q: QueryDef)
    requires |q.names.basePagination| > 0
    ensures PaginationVariable(q) == CurrentTypeName(q) + Ucfirst(q.names.basePagination)
  {
  }
}
