/**
 * `resolve($root, $args, $context, $info)` and `applyFilters` (src/Folklore/GraphQL/Eloquent/Query.php):
 * the builder calls that compile one GraphQL query field into one Eloquent query. What the
 * final `paginate` or `first` call returns is not modelled; the calls are.
 */
module Resolve {
  import opened Php
  import opened Failures
  import opened Schema
  import opened Helper
  import opened Builder
  import opened Relations
  import opened Conditions
  import opened Requests
  import opened Extract

  /** The call that fetches the result: `paginate` for a pagination type, `first` otherwise. */
  function FetchOp(q: QueryDef, info: Info): (op: Op)
    ensures op.Paginate? <==> q.returnType.Paginated?
    ensures op.First? <==> !q.returnType.Paginated?
  {
    if q.returnType.Paginated? then PaginationCall(q, info.variables) else First
  }

  /** The base filters, then the base order, the second only when the first did not throw. */
  function BaseFiltersTrace(q: QueryDef, info: Info): Trace {
    FiltersTrace(q, info).Then(OrdersTrace(q, info))
  }

  /** What applyFilters does: the relations, then the base filters, then the base order, up to the first exception. */
  function FiltersOfQuery(q: QueryDef, info: Info): Trace {
    RelationsTrace(q, info).Then(BaseFiltersTrace(q, info))
  }

  /** What resolve does to the builder of the base type's model, or the exception it throws. */
  function ResolveTrace(q: QueryDef, info: Info): Trace {
    var t := GetBaseType(q.returnType);
    if ModelOf(q.schema, t).None? then Thrown(ModelNotConfigured(TypeName(t)))
    else if ModelOf(q.schema, t).value.OtherValue? then Thrown(ModelNotQueryable(TypeName(t)))
    else
      var applied := if BaseContinues(q.hooks, TypeName(t)) then FiltersOfQuery(q, info) else Done([]);
      applied.Then(Done([FetchOp(q, info)]))
  }

  /** Two steps run one after the other, the second only when the first did not throw. */
  lemma ThenTwo(a: Trace, b: Trace)
    ensures a.Then(b) == if a.failure.Some? then a else Trace(a.ops + b.ops, b.failure)
  {
  }

  /** requestedFilters, then requestedOrders unless the filters threw. */
  method ApplyBaseFilters(query: QueryBuilder, q: QueryDef, info: Info) returns (failure: Option<Failure>)
    modifies query
    ensures query.ops == old(query.ops) + BaseFiltersTrace(q, info).ops
    ensures failure == BaseFiltersTrace(q, info).failure
  {
    ghost var before := query.ops;
    ghost var filters, orders := FiltersTrace(q, info), OrdersTrace(q, info);
    assert BaseFiltersTrace(q, info) == filters.Then(orders);
    failure := RequestedFilters(query, q, info);
    if failure.Some? {
      return;
    }
    failure := RequestedOrders(query, q, info);
    ThenAfter(before, filters, orders, query.ops);
  }

  /** The calls recorded by two steps in a row, the first of which did not throw. */
  lemma ThenAfter(before: seq<Op>, a: Trace, b: Trace, after: seq<Op>)
    requires a.failure.None? && after == before + a.ops + b.ops
    ensures after == before + a.Then(b).ops && a.Then(b).failure == b.failure
  {
  }

  /** `applyFilters($info, $eloquentQuery)`. */
  method ApplyFilters(query: QueryBuilder, q: QueryDef, info: Info) returns (failure: Option<Failure>)
    modifies query
    ensures query.ops == old(query.ops) + FiltersOfQuery(q, info).ops
    ensures failure == FiltersOfQuery(q, info).failure
  {
    ghost var before := query.ops;
    ghost var relations, filters := RelationsTrace(q, info), BaseFiltersTrace(q, info);
    assert FiltersOfQuery(q, info) == relations.Then(filters);
    failure := RequestedRelations(query, q, info);
    if failure.Some? {
      return;
    }
    failure := ApplyBaseFilters(query, q, info);
    ThenAfter(before, relations, filters, query.ops);
  }

  /**
   * `resolve($root, $args, $context, $info)`: no builder when the base type's `model` entry is
   * missing or is not a model instance; otherwise a fresh builder holding every call made on it.
   */
  method Resolve(q: QueryDef, info: Info) returns (query: QueryBuilder?, failure: Option<Failure>)
    ensures failure == ResolveTrace(q, info).failure
    ensures query == null <==> !IsEloquentModel(q.schema, GetBaseType(q.returnType))
    ensures query != null ==> fresh(query) && query.ops == ResolveTrace(q, info).ops
  {
    var t := GetBaseType(q.returnType);
    if ModelOf(q.schema, t).None? {
      return null, Some(ModelNotConfigured(TypeName(t)));
    }
    if ModelOf(q.schema, t).value.OtherValue? {
      return null, Some(ModelNotQueryable(TypeName(t)));
    }
    query := new QueryBuilder();
    ghost var applied := if BaseContinues(q.hooks, TypeName(t)) then FiltersOfQuery(q, info) else Done([]);
    assert ResolveTrace(q, info) == applied.Then(Done([FetchOp(q, info)]));
    if BaseContinues(q.hooks, TypeName(t)) {
      failure := ApplyFilters(query, q, info);
      if failure.Some? {
        return;
      }
    }
    assert query.ops == applied.ops && applied.failure.None?;
    if q.returnType.Paginated? {
      ApplyPagination(query, q, info);
    } else {
      query.Record(First);
    }
    failure := None;
  }

  /** An exception resolve throws itself, about the base type's `model` entry. */
  predicate ModelFailure(f: Option<Failure>) {
    f.Some? && (f.value.ModelNotConfigured? || f.value.ModelNotQueryable?)
  }

  /**
   * A base type whose `model` entry is missing, or is set to something other than a model
   * instance, throws before any call is made; the exceptions about the `model` entry come
   * from nowhere else.
   */
  lemma ResolveRequiresModel(q: QueryDef, info: Info)
    ensures var t := GetBaseType(q.returnType);
      ModelOf(q.schema, t).None? ==> ResolveTrace(q, info) == Thrown(ModelNotConfigured(TypeName(t)))
    ensures var t := GetBaseType(q.returnType);
      ModelOf(q.schema, t).Some? && ModelOf(q.schema, t).value.OtherValue? ==>
        ResolveTrace(q, info) == Thrown(ModelNotQueryable(TypeName(t)))
    ensures ModelFailure(ResolveTrace(q, info).failure) <==> !IsEloquentModel(q.schema, GetBaseType(q.returnType))
  {
    var t := GetBaseType(q.returnType);
    if IsEloquentModel(q.schema, t) {
      ModelInstanceNoModelFailure(q, info);
    } else {
      assert ModelOf(q.schema, t).None? || ModelOf(q.schema, t).value.OtherValue?;
    }
  }

  lemma ModelInstanceNoModelFailure(q: QueryDef, info: Info)
    requires IsEloquentModel(q.schema, GetBaseType(q.returnType))
    ensures !ModelFailure(ResolveTrace(q, info).failure)
  {
    var t := GetBaseType(q.returnType);
    var applied := if BaseContinues(q.hooks, TypeName(t)) then FiltersOfQuery(q, info) else Done([]);
    assert ResolveTrace(q, info) == applied.Then(Done([FetchOp(q, info)]));
    FiltersOfQueryNoModelFailure(q, info);
  }

  /** The exception a result carries, if any. */
  function FailureOf<T>(r: Result<T>): Option<Failure> {
    if r.Err? then Some(r.failure) else None
  }

  lemma FiltersOfQueryNoModelFailure(q: QueryDef, info: Info)
    ensures !ModelFailure(FiltersOfQuery(q, info).failure)
  {
    RelationsNoModelFailure(q, info);
    FiltersNoModelFailure(q, info);
    OrdersNoModelFailure(q, info);
  }

  lemma {:induction false} FormattedRowsNoModelFailure(names: AttributeNames, variable: string, entries: seq<(Key, Json)>)
    ensures !ModelFailure(FailureOf(FormattedRows(names, variable, entries)))
  {
    if entries != [] {
      FormattedRowsNoModelFailure(names, variable, entries[..|entries| - 1]);
    }
  }

  lemma ArgumentsNoModelFailure(names: AttributeNames, vars: map<string, Json>, variable: string)
    ensures !ModelFailure(FailureOf(ArgumentsFromVariable(names, vars, variable)))
  {
    if IssetVariable(vars, variable) && vars[variable].JArr? {
      FormattedRowsNoModelFailure(names, variable, vars[variable].entries);
    }
  }

  lemma BundleNoModelFailure(w: Walk, node: Selection, path: string)
    ensures !ModelFailure(FailureOf(BundleFor(w, node, path)))
  {
    ArgumentsNoModelFailure(w.names, w.vars, RelationFilterVariable(w, path));
    ArgumentsNoModelFailure(w.names, w.vars, RelationOrderVariable(w, path));
  }

  lemma {:induction false} MapRelationArgumentsNoModelFailure(w: Walk, sels: seq<Selection>, nodeType: TypeRef, out: seq<(string, Bundle)>, prefix: string)
    ensures !ModelFailure(FailureOf(MapRelationArguments(w, sels, nodeType, out, prefix)))
    decreases sels, 1
  {
    if sels != [] {
      MapFirstNoModelFailure(w, sels, nodeType, out, prefix);
      var out1 := MapFirstRelationArguments(w, sels, nodeType, out, prefix);
      if out1.Ok? {
        MapRelationArgumentsNoModelFailure(w, sels[1..], nodeType, out1.value, prefix);
      }
    }
  }

  lemma {:induction false} MapFirstNoModelFailure(w: Walk, sels: seq<Selection>, nodeType: TypeRef, out: seq<(string, Bundle)>, prefix: string)
    requires sels != []
    ensures !ModelFailure(FailureOf(MapFirstRelationArguments(w, sels, nodeType, out, prefix)))
    decreases sels, 0
  {
    var node := sels[0];
    if node.children != [] {
      var fieldName := JoinPath(prefix, node.name);
      var field := LookupField(w.schema, nodeType, node.name);
      if field.Ok? {
        BundleNoModelFailure(w, node, fieldName);
        if DeclaresArguments(field.value) && BundleFor(w, node, fieldName).Ok? {
          MapRelationArgumentsNoModelFailure(w, node.children, GetBaseType(field.value.typ), Put(out, fieldName, BundleFor(w, node, fieldName).value), fieldName);
        } else if !DeclaresArguments(field.value) {
          MapRelationArgumentsNoModelFailure(w, node.children, GetBaseType(field.value.typ), out, fieldName);
        }
      }
    }
  }

  lemma {:induction false} GetRelationsNoModelFailure(schema: Schema, sels: seq<Selection>, nodeType: TypeRef, acc: seq<string>, prefix: string)
    ensures !ModelFailure(FailureOf(GetRelations(schema, sels, nodeType, acc, prefix)))
    decreases sels, 1
  {
    if sels != [] {
      GetFirstNoModelFailure(schema, sels, nodeType, acc, prefix);
      var acc1 := GetFirstRelations(schema, sels, nodeType, acc, prefix);
      if acc1.Ok? {
        GetRelationsNoModelFailure(schema, sels[1..], nodeType, acc1.value, prefix);
      }
    }
  }

  lemma {:induction false} GetFirstNoModelFailure(schema: Schema, sels: seq<Selection>, nodeType: TypeRef, acc: seq<string>, prefix: string)
    requires sels != []
    ensures !ModelFailure(FailureOf(GetFirstRelations(schema, sels, nodeType, acc, prefix)))
    decreases sels, 0
  {
    var node := sels[0];
    if node.children != [] {
      var fieldName := JoinPath(prefix, node.name);
      var field := LookupField(schema, nodeType, node.name);
      if field.Ok? {
        GetRelationsNoModelFailure(schema, node.children, GetBaseType(field.value.typ), acc + [fieldName], fieldName);
      }
    }
  }

  lemma RelationsNoModelFailure(q: QueryDef, info: Info)
    ensures !ModelFailure(RelationsTrace(q, info).failure)
  {
    var w := QueryWalk(q, info);
    var sels := RelationRoots(q.returnType, info.field);
    if sels.Ok? {
      MapRelationArgumentsNoModelFailure(w, sels.value, GetBaseType(q.returnType), [], "");
      GetRelationsNoModelFailure(w.schema, sels.value, GetBaseType(q.returnType), [], "");
    }
  }

  lemma FiltersNoModelFailure(q: QueryDef, info: Info)
    ensures !ModelFailure(FiltersTrace(q, info).failure)
  {
    ArgumentsNoModelFailure(q.names, info.variables, BaseFilterVariable(q));
    FiltersApplyEveryCondition(q, info);
    var t := FiltersTrace(q, info);
    if FilterArguments(q, info).Ok? && t.failure.Some? {
      ConditionNoModelFailure(q.allowedOperators, FilterArguments(q, info).value[|t.ops|]);
    }
  }

  lemma ConditionNoModelFailure(allowedOperators: seq<string>, c: Row)
    ensures !ModelFailure(FailureOf(ConditionOp(allowedOperators, c)))
  {
  }

  lemma OrdersNoModelFailure(q: QueryDef, info: Info)
    ensures !ModelFailure(OrdersTrace(q, info).failure)
  {
    ArgumentsNoModelFailure(q.names, info.variables, BaseOrderVariable(q));
  }

  /**
   * A resolve that does not throw ends with exactly one fetching call, `paginate` exactly for
   * a pagination type; an exception in the filters means no fetch at all.
   */
  lemma ResolveEndsWithFetch(q: QueryDef, info: Info)
    ensures var r := ResolveTrace(q, info);
      r.failure.None? ==>
        && |r.ops| >= 1
        && r.ops[|r.ops| - 1] == FetchOp(q, info)
        && (r.ops[|r.ops| - 1].Paginate? <==> q.returnType.Paginated?)
        && (forall i :: 0 <= i < |r.ops| - 1 ==> !r.ops[i].Paginate? && !r.ops[i].First?)
    ensures var r := ResolveTrace(q, info);
      r.failure.Some? ==> forall i :: 0 <= i < |r.ops| ==> !r.ops[i].Paginate? && !r.ops[i].First?
  {
    FiltersMakeNoFetch(q, info);
  }

  predicate NoFetch(ops: seq<Op>) {
    forall i :: 0 <= i < |ops| ==> !ops[i].Paginate? && !ops[i].First?
  }

  lemma NoFetchThen(a: Trace, b: Trace)
    requires NoFetch(a.ops) && NoFetch(b.ops)
    ensures NoFetch(a.Then(b).ops)
  {
    if a.failure.None? {
      var ops := a.ops + b.ops;
      forall i | 0 <= i < |ops| ensures !ops[i].Paginate? && !ops[i].First? {
        if i >= |a.ops| { assert ops[i] == b.ops[i - |a.ops|]; }
      }
    }
  }

  /** None of the filtering steps fetches. */
  lemma FiltersMakeNoFetch(q: QueryDef, info: Info)
    ensures NoFetch(FiltersOfQuery(q, info).ops)
  {
    var r, f, o := RelationsTrace(q, info), FiltersTrace(q, info), OrdersTrace(q, info);
    NoFetchInFilters(q, info);
    NoFetchInOrders(q, info);
    assert NoFetch(r.ops);
    NoFetchThen(f, o);
    NoFetchThen(r, f.Then(o));
  }

  lemma NoFetchInFilters(q: QueryDef, info: Info)
    ensures forall i :: 0 <= i < |FiltersTrace(q, info).ops| ==>
      !FiltersTrace(q, info).ops[i].Paginate? && !FiltersTrace(q, info).ops[i].First?
  {
    FiltersApplyEveryCondition(q, info);
    if FilterArguments(q, info).Ok? {
      var args := FilterArguments(q, info).value;
      var t := FiltersTrace(q, info);
      forall i | 0 <= i < |t.ops| ensures !t.ops[i].Paginate? && !t.ops[i].First? {
        ConditionOpIsCondition(q.allowedOperators, args[i]);
      }
    }
  }

  lemma NoFetchInOrders(q: QueryDef, info: Info)
    ensures forall i :: 0 <= i < |OrdersTrace(q, info).ops| ==> OrdersTrace(q, info).ops[i].OrderBy?
  {
    OrdersFollowRows(q, info);
  }

  /**
   * A base hook that returns a falsy value other than null skips the relations, filters and
   * order; the result is still fetched. A hook that returns null acts as no hook.
   */
  lemma BaseHookSkipsFilters(q: QueryDef, info: Info, v: Json)
    requires IsEloquentModel(q.schema, GetBaseType(q.returnType))
    requires HookResult(q.hooks, BaseHookName(TypeName(GetBaseType(q.returnType)))) == Some(v)
    ensures v != JNull && !ToBool(v) ==> ResolveTrace(q, info) == Done([FetchOp(q, info)])
    ensures v == JNull ==> ResolveTrace(q, info) == ResolveTrace(q.(hooks := q.hooks - {Lower(BaseHookName(TypeName(GetBaseType(q.returnType))))}), info)
  {
    var k := Lower(BaseHookName(TypeName(GetBaseType(q.returnType))));
    var q' := q.(hooks := q.hooks - {k});
    assert HookResult(q'.hooks, BaseHookName(TypeName(GetBaseType(q.returnType)))) == None;
    if v == JNull {
      ConstraintsIgnoreBaseHook(q, info, k);
    }
  }

  /** Removing the base hook changes nothing in the filtering steps when the relation hooks stay. */
  lemma ConstraintsIgnoreBaseHook(q: QueryDef, info: Info, k: string)
    requires k in q.hooks && q.hooks[k] == JNull
    ensures FiltersOfQuery(q, info) == FiltersOfQuery(q.(hooks := q.hooks - {k}), info)
  {
    var q' := q.(hooks := q.hooks - {k});
    forall path ensures RelationContinues(q.hooks, path) == RelationContinues(q'.hooks, path) {
    }
    EagerLoadsSameUnderHooks(q, q', info);
  }

  lemma EagerLoadsSameUnderHooks(q: QueryDef, q': QueryDef, info: Info)
    requires q' == q.(hooks := q'.hooks)
    requires forall path :: RelationContinues(q.hooks, path) == RelationContinues(q'.hooks, path)
    ensures RelationsTrace(q, info) == RelationsTrace(q', info)
  {
    var m := MapRelations(QueryWalk(q, info), q.returnType, info.field);
    if m.Ok? {
      EagerLoadsAgree(q, q', m.value);
    }
  }

  lemma {:induction false} EagerLoadsAgree(q: QueryDef, q': QueryDef, pairs: seq<(string, Option<Bundle>)>)
    requires q' == q.(hooks := q'.hooks)
    requires forall path :: RelationContinues(q.hooks, path) == RelationContinues(q'.hooks, path)
    ensures EagerLoads(q, pairs) == EagerLoads(q', pairs)
  {
    if pairs != [] {
      EagerLoadsAgree(q, q', pairs[..|pairs| - 1]);
    }
  }

  /** requestedRelations makes exactly one call, `with`, or throws before making any. */
  lemma RelationsMakeOneWith(q: QueryDef, info: Info)
    ensures var r := RelationsTrace(q, info);
      && (r.failure.None? ==> exists loads :: r.ops == [With(loads)])
      && (r.failure.Some? ==> r.ops == [])
  {
    var m := MapRelations(QueryWalk(q, info), q.returnType, info.field);
    if m.Ok? {
      assert RelationsTrace(q, info).ops == [With(EagerLoads(q, m.value))];
    }
  }

  lemma ResolveTraceWhenFiltering(q: QueryDef, info: Info)
    requires IsEloquentModel(q.schema, GetBaseType(q.returnType))
    requires BaseContinues(q.hooks, TypeName(GetBaseType(q.returnType)))
    ensures ResolveTrace(q, info) == RelationsTrace(q, info).Then(FiltersTrace(q, info).Then(OrdersTrace(q, info))).Then(Done([FetchOp(q, info)]))
  {
  }

  /** Three steps and a call that cannot throw, each run only when the ones before it did not throw. */
  lemma StepsThenFetch(r: Trace, f: Trace, o: Trace, fetch: Trace)
    requires fetch.failure.None?
    ensures var t := r.Then(f.Then(o)).Then(fetch);
      && (r.failure.None? && f.failure.None? && o.failure.None? ==> t == Done(r.ops + f.ops + o.ops + fetch.ops))
      && (r.failure.Some? ==> t == r)
      && (r.failure.None? && f.failure.Some? ==> t == Trace(r.ops + f.ops, f.failure))
      && (r.failure.None? && f.failure.None? && o.failure.Some? ==> t == Trace(r.ops + f.ops + o.ops, o.failure))
  {
  }

  /**
   * With the hook letting filters run and no exception, the calls are: one `with`, the base
   * conditions, the base order, then the fetch. An exception in a step ends the calls there,
   * without a fetch.
   */
  lemma ResolveCallOrder(q: QueryDef, info: Info)
    requires IsEloquentModel(q.schema, GetBaseType(q.returnType))
    requires BaseContinues(q.hooks, TypeName(GetBaseType(q.returnType)))
    ensures var r, f, o := RelationsTrace(q, info), FiltersTrace(q, info), OrdersTrace(q, info);
      && (r.failure.None? && f.failure.None? && o.failure.None? ==>
            ResolveTrace(q, info) == Done(r.ops + f.ops + o.ops + [FetchOp(q, info)]))
      && (r.failure.Some? ==> ResolveTrace(q, info) == r)
      && (r.failure.None? && f.failure.Some? ==> ResolveTrace(q, info) == Trace(r.ops + f.ops, f.failure))
      && (r.failure.None? && f.failure.None? && o.failure.Some? ==> ResolveTrace(q, info) == Trace(r.ops + f.ops + o.ops, o.failure))
  {
    ResolveTraceWhenFiltering(q, info);
    StepsThenFetch(RelationsTrace(q, info), FiltersTrace(q, info), OrdersTrace(q, info), Done([FetchOp(q, info)]));
  }
}
