/**
 * The condition interpreter of the Eloquent query (src/Folklore/GraphQL/Eloquent/Query.php):
 * `applyFilterToQuery` checks each filter row's operator against the configured allow-list
 * and turns it into one builder call, and `applyOrderToQuery` turns each order row into an
 * `orderBy` call.
 */
module Conditions {
  import opened Php
  import opened Failures
  import opened Extract
  import opened Builder

  /** `$whereOperators`: the operators passed straight to `where`, compared in their exact case. */
  const WhereOperators: seq<string> := ["=", "<>", "!=", ">", "<", ">=", "<=", "BETWEEN", "LIKE", "IN"]

  /** `array_map('strtolower', $this->allowedOperators)`. */
  function LowerAll(words: seq<string>): (r: seq<string>)
    ensures |r| == |words|
    ensures forall i :: 0 <= i < |words| ==> r[i] == Lower(words[i])
  {
    if words == [] then [] else [Lower(words[0])] + LowerAll(words[1..])
  }

  /**
   * `strtolower($condition['operator'])`: a scalar is converted to its string first; an array
   * gives null, which compares like "" against the strings it meets.
   */
  function LowerOperator(operator: Json): string {
    Lower(if operator.JArr? then "" else ToStr(operator))
  }

  /**
   * `$condition['value'][$key]`: an array's entry (null when missing), the first character of
   * a non-empty string ("" for the empty string), null for any other scalar or a float; a
   * timestamp object cannot be indexed.
   */
  function ValueAt(value: Cell, key: string): Result<Json> {
    match value
    case TimestampOf(_) => Err(ObjectUsedAsArray)
    case FloatOf(_) => Ok(JNull)
    case Plain(j) =>
      Ok(match j
        case JArr(e) => Get(e, StrKey(key)).GetOr(JNull)
        case JStr(s) => JStr(if s == "" then "" else [s[0]])
        case _ => JNull)
  }

  /** `$condition['value'][$key] ?? $default`: only a set array entry is taken; a timestamp object still cannot be indexed. */
  function ValueAtOr(value: Cell, key: string, default: Json): Result<Json> {
    match value
    case TimestampOf(_) => Err(ObjectUsedAsArray)
    case FloatOf(_) => Ok(default)
    case Plain(j) => Ok(Coalesce(j, key, default))
  }

  /**
   * The builder call one condition makes, or the exception it throws: the allow-list test on
   * the lower-cased operator, the exact-case where test, then the switch on the lower-cased
   * operator, whose last two mixed-case labels no lower-cased operator can equal.
   */
  function ConditionOp(allowedOperators: seq<string>, c: Row): Result<Op> {
    var lowered := LowerOperator(c.operator);
    if lowered !in LowerAll(allowedOperators) then Err(OperatorForbidden(c.operator))
    else if LooselyIn(c.operator, WhereOperators) then Ok(Where(c.name, c.operator, c.value, c.join))
    else RelationConditionOp(lowered, c)
  }

  /** The switch on the lower-cased operator of an allowed condition that is not a where. */
  function RelationConditionOp(lowered: string, c: Row): Result<Op> {
    if lowered == "has" then
      var relation :- ValueAt(c.value, "relation");
      var operator :- ValueAtOr(c.value, "operator", JStr(">="));
      var count :- ValueAtOr(c.value, "count", JInt(1));
      Ok(Has(relation, operator, count, c.join))
    else if lowered == "doesnthave" then
      var relation :- ValueAt(c.value, "relation");
      Ok(DoesntHave(relation, c.join))
    else if lowered == "wheredoesnthave" then Ok(WhereDoesntHave(c.name))
    else if lowered == "orWhereDoesntHave" then Ok(OrWhereDoesntHave(c.name))
    else if lowered == "wherehas" then
      var operator :- ValueAtOr(c.value, "operator", JStr(">="));
      var count :- ValueAtOr(c.value, "count", JInt(1));
      Ok(WhereHas(c.name, operator, count))
    else if lowered == "orWhereHas" then
      var operator :- ValueAtOr(c.value, "operator", JStr(">="));
      var count :- ValueAtOr(c.value, "count", JInt(1));
      Ok(OrWhereHas(c.name, operator, count))
    else Err(OperatorNotProcessed(c.operator))
  }

  function OpTrace(r: Result<Op>): Trace {
    if r.Ok? then Done([r.value]) else Thrown(r.failure)
  }

  /** The outcome of each condition on its own. */
  function ConditionResults(allowedOperators: seq<string>, conditions: seq<Row>): (r: seq<Result<Op>>)
    ensures |r| == |conditions|
    ensures forall i :: 0 <= i < |conditions| ==> r[i] == ConditionOp(allowedOperators, conditions[i])
  {
    seq(|conditions|, i requires 0 <= i < |conditions| => ConditionOp(allowedOperators, conditions[i]))
  }

  /** A loop that makes one call per outcome, in order, and ends at the first exception. */
  function TraceOf(outcomes: seq<Result<Op>>): Trace {
    if outcomes == [] then Done([])
    else TraceOf(outcomes[..|outcomes| - 1]).Then(OpTrace(outcomes[|outcomes| - 1]))
  }

  /** What applyFilterToQuery does to its builder: the conditions in order, up to the first that throws. */
  function FilterTrace(allowedOperators: seq<string>, conditions: seq<Row>): Trace {
    TraceOf(ConditionResults(allowedOperators, conditions))
  }

  /** The `orderBy(name, value)` calls applyOrderToQuery makes. */
  function OrderOps(orderList: seq<Row>): seq<Op> {
    if orderList == [] then []
    else OrderOps(orderList[..|orderList| - 1]) + [OrderBy(orderList[|orderList| - 1].name, orderList[|orderList| - 1].value)]
  }

  // ---------------------------------------------------------------------------
  // Properties of one condition
  // ---------------------------------------------------------------------------

  /** An operator is forbidden exactly when no configured operator matches it ignoring case. */
  lemma ForbiddenExactly(allowedOperators: seq<string>, c: Row)
    ensures ConditionOp(allowedOperators, c) == Err(OperatorForbidden(c.operator)) <==>
      forall i :: 0 <= i < |allowedOperators| ==> Lower(allowedOperators[i]) != LowerOperator(c.operator)
  {
    var lowered := LowerOperator(c.operator);
    var allowed := LowerAll(allowedOperators);
    RelationConditionNeverForbidden(lowered, c);
    if lowered in allowed {
      var i :| 0 <= i < |allowed| && allowed[i] == lowered;
      assert Lower(allowedOperators[i]) == lowered;
    }
  }

  /** An allowed where-operator written in its exact case makes exactly one `where` call with the row's fields. */
  lemma WhereOperatorEmitsWhere(allowedOperators: seq<string>, c: Row, k: nat)
    requires k < |WhereOperators| && c.operator == JStr(WhereOperators[k])
    requires Lower(WhereOperators[k]) in LowerAll(allowedOperators)
    ensures ConditionOp(allowedOperators, c) == Ok(Where(c.name, c.operator, c.value, c.join))
  {
  }

  /**
   * A lower-case spelling of a letter where-operator passes a case-insensitive allow-list but
   * fails the exact-case where test, and no switch label handles it.
   */
  lemma LowerCaseWordOperatorNotProcessed(allowedOperators: seq<string>, c: Row, word: string)
    requires word == "like" || word == "between" || word == "in"
    requires c.operator == JStr(word) && word in LowerAll(allowedOperators)
    ensures ConditionOp(allowedOperators, c) == Err(OperatorNotProcessed(c.operator))
  {
    LowerCaseWords(word);
    LetterWordIsNotWhere(word);
    LetterWordIsNoLabel(word, c);
  }

  lemma LetterWordIsNotWhere(word: string)
    requires word == "like" || word == "between" || word == "in"
    ensures !LooselyIn(JStr(word), WhereOperators)
  {
    forall i | 0 <= i < |WhereOperators| ensures WhereOperators[i] != word {
    }
  }

  lemma LetterWordIsNoLabel(word: string, c: Row)
    requires word == "like" || word == "between" || word == "in"
    ensures RelationConditionOp(word, c) == Err(OperatorNotProcessed(c.operator))
  {
  }

  lemma LowerCaseWords(word: string)
    requires word == "like" || word == "between" || word == "in"
    ensures LowerOperator(JStr(word)) == word
  {
    LowerOfLowerCase(word);
  }

  lemma {:induction false} LowerOfLowerCase(s: string)
    requires forall i :: 0 <= i < |s| ==> 'a' <= s[i] <= 'z'
    ensures Lower(s) == s
  {
    if s != [] {
      LowerOfLowerCase(s[1..]);
      assert [s[0]] + s[1..] == s;
    }
  }

  /** The switch never throws the allow-list's exception. */
  lemma RelationConditionNeverForbidden(lowered: string, c: Row)
    ensures RelationConditionOp(lowered, c).Err? ==> !RelationConditionOp(lowered, c).failure.OperatorForbidden?
  {
  }

  /** `has` on an array value without `operator` and `count` entries counts at least one. */
  lemma HasDefaults(allowedOperators: seq<string>, c: Row, entries: seq<(Key, Json)>)
    requires c.operator == JStr("has") && "has" in LowerAll(allowedOperators)
    requires c.value == Plain(JArr(entries))
    requires StrKey("operator") !in KeysOf(entries) && StrKey("count") !in KeysOf(entries)
    ensures ConditionOp(allowedOperators, c) == Ok(Has(Get(entries, StrKey("relation")).GetOr(JNull), JStr(">="), JInt(1), c.join))
  {
    assert LowerOperator(c.operator) == "has";
    assert !LooselyIn(c.operator, WhereOperators) by {
      forall i | 0 <= i < |WhereOperators| ensures !LooseEqualsWord(c.operator, WhereOperators[i]) {
        assert WhereOperators[i] != "has";
      }
    }
  }

  /** A relation operator whose value is a timestamp throws before any call: the object cannot be indexed. */
  lemma TimestampValueCannotBeIndexed(allowedOperators: seq<string>, c: Row, source: Json)
    requires c.value == TimestampOf(source)
    requires LowerOperator(c.operator) in ["has", "doesnthave", "wherehas"] && LowerOperator(c.operator) in LowerAll(allowedOperators)
    requires !LooselyIn(c.operator, WhereOperators)
    ensures ConditionOp(allowedOperators, c) == Err(ObjectUsedAsArray)
  {
  }

  /**
   * A condition throws "allowed but not processed" exactly when its operator passes the
   * allow-list, is not a where-operator in its exact case, and matches none of the four
   * lower-case switch labels: `orwherehas`, `ilike` or `not in` among the allowed operators
   * all end there.
   */
  lemma NotProcessedExactly(allowedOperators: seq<string>, c: Row)
    ensures ConditionOp(allowedOperators, c) == Err(OperatorNotProcessed(c.operator)) <==>
      && LowerOperator(c.operator) in LowerAll(allowedOperators)
      && !LooselyIn(c.operator, WhereOperators)
      && LowerOperator(c.operator) !in ["has", "doesnthave", "wheredoesnthave", "wherehas"]
  {
    LoweredIsNotMixedCase(if c.operator.JArr? then "" else ToStr(c.operator));
  }

  /** The mixed-case `orWhereHas` and `orWhereDoesntHave` labels are never reached. */
  lemma OrBranchesUnreachable(allowedOperators: seq<string>, c: Row)
    ensures ConditionOp(allowedOperators, c).Ok? ==> !ConditionOp(allowedOperators, c).value.OrWhereHas?
    ensures ConditionOp(allowedOperators, c).Ok? ==> !ConditionOp(allowedOperators, c).value.OrWhereDoesntHave?
  {
    LoweredIsNotMixedCase(if c.operator.JArr? then "" else ToStr(c.operator));
    OrCallsNeedMixedCase(LowerOperator(c.operator), c);
  }

  /** The switch makes an `orWhereHas` or `orWhereDoesntHave` call only on its mixed-case label. */
  lemma OrCallsNeedMixedCase(lowered: string, c: Row)
    ensures RelationConditionOp(lowered, c).Ok? && RelationConditionOp(lowered, c).value.OrWhereHas? ==> lowered == "orWhereHas"
    ensures RelationConditionOp(lowered, c).Ok? && RelationConditionOp(lowered, c).value.OrWhereDoesntHave? ==> lowered == "orWhereDoesntHave"
  {
  }

  /** No lower-cased string equals a label with an upper-case letter at index 2. */
  lemma LoweredIsNotMixedCase(s: string)
    ensures Lower(s) != "orWhereHas" && Lower(s) != "orWhereDoesntHave"
  {
    if |Lower(s)| > 2 {
      LowerHasNoUpperCase(s, 2);
      assert "orWhereHas"[2] == 'W' && "orWhereDoesntHave"[2] == 'W';
    }
  }

  /** The builder calls a condition can make. */
  predicate IsConditionCall(op: Op) {
    op.Where? || op.Has? || op.DoesntHave? || op.WhereHas? || op.WhereDoesntHave? || op.OrWhereHas? || op.OrWhereDoesntHave?
  }

  /** A condition only ever makes a where or relation-existence call. */
  lemma ConditionOpIsCondition(allowedOperators: seq<string>, c: Row)
    ensures ConditionOp(allowedOperators, c).Ok? ==> IsConditionCall(ConditionOp(allowedOperators, c).value)
  {
  }

  // ---------------------------------------------------------------------------
  // Properties of the loops
  // ---------------------------------------------------------------------------

  /**
   * A list of outcomes traced in order keeps the calls of the leading successes and ends with
   * the first error, if there is one.
   */
  lemma {:induction false} TraceOfStopsAtFirstFailure(outcomes: seq<Result<Op>>)
    ensures var t := TraceOf(outcomes);
      && |t.ops| <= |outcomes|
      && (forall i :: 0 <= i < |t.ops| ==> outcomes[i] == Ok(t.ops[i]))
      && (t.failure.None? ==> |t.ops| == |outcomes|)
      && (t.failure.Some? ==> |t.ops| < |outcomes| && outcomes[|t.ops|] == Err(t.failure.value))
  {
    if outcomes != [] {
      var n := |outcomes|;
      var init := outcomes[..n - 1];
      TraceOfStopsAtFirstFailure(init);
      var t0 := TraceOf(init);
      var t := TraceOf(outcomes);
      assert forall i :: 0 <= i < n - 1 ==> init[i] == outcomes[i];
      if t0.failure.None? && outcomes[n - 1].Ok? {
        assert t.ops == t0.ops + [outcomes[n - 1].value];
      }
    }
  }

  /**
   * applyFilterToQuery makes one call per condition, in order, and stops at the first
   * condition that throws, with that condition's exception.
   */
  lemma FilterTraceStopsAtFirstFailure(allowedOperators: seq<string>, conditions: seq<Row>)
    ensures var t := FilterTrace(allowedOperators, conditions);
      && |t.ops| <= |conditions|
      && (forall i :: 0 <= i < |t.ops| ==> ConditionOp(allowedOperators, conditions[i]) == Ok(t.ops[i]))
      && (t.failure.None? ==> |t.ops| == |conditions|)
      && (t.failure.Some? ==> |t.ops| < |conditions| && ConditionOp(allowedOperators, conditions[|t.ops|]) == Err(t.failure.value))
  {
    TraceOfStopsAtFirstFailure(ConditionResults(allowedOperators, conditions));
  }

  /** applyOrderToQuery makes one `orderBy(name, value)` call per row, in list order. */
  lemma {:induction false} OrderOpsInListOrder(orderList: seq<Row>)
    ensures |OrderOps(orderList)| == |orderList|
    ensures forall i :: 0 <= i < |orderList| ==> OrderOps(orderList)[i] == OrderBy(orderList[i].name, orderList[i].value)
  {
    if orderList != [] {
      var init := orderList[..|orderList| - 1];
      OrderOpsInListOrder(init);
      assert forall i :: 0 <= i < |init| ==> init[i] == orderList[i];
    }
  }

  /** `applyFilterToQuery($query, $conditions)`: the conditions applied to `query` in order. */
  method ApplyFilterToQuery(query: QueryBuilder, allowedOperators: seq<string>, conditions: seq<Row>) returns (failure: Option<Failure>)
    modifies query
    ensures query.ops == old(query.ops) + FilterTrace(allowedOperators, conditions).ops
    ensures failure == FilterTrace(allowedOperators, conditions).failure
  {
    var i := 0;
    while i < |conditions|
      invariant 0 <= i <= |conditions|
      invariant FilterTrace(allowedOperators, conditions[..i]).failure.None?
      invariant query.ops == old(query.ops) + FilterTrace(allowedOperators, conditions[..i]).ops
    {
      FilterTraceStep(allowedOperators, conditions, i);
      var step := ConditionOp(allowedOperators, conditions[i]);
      ghost var prev := FilterTrace(allowedOperators, conditions[..i]);
      if step.Err? {
        FilterTraceKeepsFailure(allowedOperators, conditions, i + 1);
        return Some(step.failure);
      }
      assert FilterTrace(allowedOperators, conditions[..i + 1]) == Done(prev.ops + [step.value]);
      query.Record(step.value);
      i := i + 1;
    }
    assert conditions[..i] == conditions;
    return None;
  }

  lemma FilterTraceStep(allowedOperators: seq<string>, conditions: seq<Row>, i: nat)
    requires i < |conditions|
    ensures FilterTrace(allowedOperators, conditions[..i + 1]) == FilterTrace(allowedOperators, conditions[..i]).Then(OpTrace(ConditionOp(allowedOperators, conditions[i])))
  {
    var rs := ConditionResults(allowedOperators, conditions[..i + 1]);
    assert rs[..i] == ConditionResults(allowedOperators, conditions[..i]);
  }

  /** Once a prefix of the conditions throws, the remaining ones add nothing. */
  lemma {:induction false} FilterTraceKeepsFailure(allowedOperators: seq<string>, conditions: seq<Row>, n: nat)
    requires n <= |conditions| && FilterTrace(allowedOperators, conditions[..n]).failure.Some?
    ensures FilterTrace(allowedOperators, conditions) == FilterTrace(allowedOperators, conditions[..n])
    decreases |conditions| - n
  {
    if n < |conditions| {
      FilterTraceStep(allowedOperators, conditions, n);
      FilterTraceKeepsFailure(allowedOperators, conditions, n + 1);
    } else {
      assert conditions[..n] == conditions;
    }
  }

  /** `applyOrderToQuery($query, $orderList)`. */
  method ApplyOrderToQuery(query: QueryBuilder, orderList: seq<Row>)
    modifies query
    ensures query.ops == old(query.ops) + OrderOps(orderList)
  {
    var i := 0;
    while i < |orderList|
      invariant 0 <= i <= |orderList|
      invariant query.ops == old(query.ops) + OrderOps(orderList[..i])
    {
      assert orderList[..i + 1][..i] == orderList[..i];
      query.Record(OrderBy(orderList[i].name, orderList[i].value));
      i := i + 1;
    }
    assert orderList[..i] == orderList;
  }
}
