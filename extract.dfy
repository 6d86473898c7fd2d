/**
 * The argument extractor of the Eloquent query (src/Folklore/GraphQL/Eloquent/Query.php):
 * value casting, literal arguments by name, filter rows from a node's own arguments, and
 * filter or order rows from one named query variable.
 */
module Extract {
  import opened Php
  import opened Failures
  import opened Schema
  import opened Helper

  /**
   * One filter or order row as the source builds it, a PHP array with `name`, `value`,
   * `operator` and `join`; an entry the source never set reads as null.
   */
  datatype Row = Row(name: Json, value: Cell, operator: Json, join: Json)

  const DefaultOperator := "="
  const DefaultJoin := "AND"

  /** `isset($variables[$name])`. */
  predicate IssetVariable(vars: map<string, Json>, name: string) {
    name in vars && vars[name] != JNull
  }

  /** `isset($j[$key])`, with the entry when it is set: only an array has string offsets that are set. */
  function Isset(j: Json, key: string): Option<Json> {
    if j.JArr? then
      var v := Get(j.entries, StrKey(key));
      if v.Some? && v.value != JNull then v else None
    else None
  }

  /** `$j[$key] ?? $default`. */
  function Coalesce(j: Json, key: string, default: Json): Json {
    Isset(j, key).GetOr(default)
  }

  // ---------------------------------------------------------------------------
  // castValue
  // ---------------------------------------------------------------------------

  /**
   * `castValue($value, $cast)`: a switch with loose comparison over 'float', 'integer',
   * 'boolean', 'timestamp'; everything else, a missing hint included, converts to string.
   * The float and timestamp results stay opaque.
   */
  function CastValue(value: Json, cast: Json): Cell {
    if LooseEqualsWord(cast, "float") then FloatOf(value)
    else if LooseEqualsWord(cast, "integer") then Plain(JInt(ToInt(value)))
    else if LooseEqualsWord(cast, "boolean") then Plain(JBool(ToBool(value)))
    else if LooseEqualsWord(cast, "timestamp") then TimestampOf(value)
    else Plain(JStr(ToStr(value)))
  }

  /** With a string hint, each of the four names selects its conversion, and any other converts to string. */
  lemma CastValueByHint(value: Json, hint: string)
    ensures hint == "integer" ==> CastValue(value, JStr(hint)) == Plain(JInt(ToInt(value)))
    ensures hint == "boolean" ==> CastValue(value, JStr(hint)) == Plain(JBool(ToBool(value)))
    ensures hint == "float" ==> CastValue(value, JStr(hint)) == FloatOf(value)
    ensures hint == "timestamp" ==> CastValue(value, JStr(hint)) == TimestampOf(value)
    ensures hint !in ["integer", "boolean", "float", "timestamp"] ==> CastValue(value, JStr(hint)) == Plain(JStr(ToStr(value)))
    ensures CastValue(value, JNull) == Plain(JStr(ToStr(value)))
  {
  }

  /** An integer sent as its decimal text comes back as that integer under the `integer` hint. */
  lemma CastIntegerRoundTrip(n: int)
    ensures CastValue(JStr(IntToString(n)), JStr("integer")) == Plain(JInt(n))
  {
    StringToIntOfIntToString(n);
  }

  /** The `boolean` hint follows PHP truthiness: "true" and also "false" become true, "0" and "" false. */
  lemma CastBooleanOfText()
    ensures CastValue(JStr("true"), JStr("boolean")) == Plain(JBool(true))
    ensures CastValue(JStr("false"), JStr("boolean")) == Plain(JBool(true))
    ensures CastValue(JStr("0"), JStr("boolean")) == Plain(JBool(false))
    ensures CastValue(JStr(""), JStr("boolean")) == Plain(JBool(false))
  {
  }

  /** Without a hint a value is stringified: true becomes "1", an integer its decimal text. */
  lemma CastDefaultStringifies(n: int)
    ensures CastValue(JBool(true), JNull) == Plain(JStr("1"))
    ensures CastValue(JInt(n), JNull) == Plain(JStr(IntToString(n)))
    ensures CastValue(JStr("x"), JStr("text")) == Plain(JStr("x"))
  {
  }

  // ---------------------------------------------------------------------------
  // extractArgumentByName
  // ---------------------------------------------------------------------------

  function FirstValueNamed(args: seq<Argument>, name: string, default: Json): Json {
    if args == [] then default
    else if args[0].name == name then ValueProperty(args[0].value)
    else FirstValueNamed(args[1..], name, default)
  }

  /** `extractArgumentByName($node, $name, $default)`. */
  function ExtractArgumentByName(node: Selection, name: string, default: Json): Json {
    FirstValueNamed(node.args, name, default)
  }

  /** Index `i` holds the first argument with that name. */
  predicate FirstNamed(args: seq<Argument>, name: string, i: int) {
    0 <= i < |args| && args[i].name == name && forall j :: 0 <= j < i ==> args[j].name != name
  }

  lemma {:induction false} FirstValueNamedFirstMatch(args: seq<Argument>, name: string, default: Json)
    ensures (forall i :: 0 <= i < |args| ==> args[i].name != name) ==> FirstValueNamed(args, name, default) == default
    ensures forall i :: FirstNamed(args, name, i) ==> FirstValueNamed(args, name, default) == ValueProperty(args[i].value)
  {
    if args != [] && args[0].name != name {
      FirstValueNamedFirstMatch(args[1..], name, default);
      forall i | FirstNamed(args, name, i)
        ensures FirstValueNamed(args, name, default) == ValueProperty(args[i].value)
      {
        assert FirstNamed(args[1..], name, i - 1) by {
          forall j | 0 <= j < i - 1 ensures args[1..][j].name != name {
            assert args[1..][j] == args[j + 1];
          }
        }
      }
      if forall i :: 0 <= i < |args| ==> args[i].name != name {
        assert forall i :: 0 <= i < |args[1..]| ==> args[1..][i] == args[i + 1];
      }
    }
  }

  /**
   * The literal argument value looked up by name is the `value` property of the FIRST argument
   * of the node with that name (null for a variable reference or a composite value), and the
   * default when no argument has it.
   */
  lemma ExtractArgumentByNameFirstMatch(node: Selection, name: string, default: Json)
    ensures (forall i :: 0 <= i < |node.args| ==> node.args[i].name != name) ==> ExtractArgumentByName(node, name, default) == default
    ensures forall i :: FirstNamed(node.args, name, i) ==> ExtractArgumentByName(node, name, default) == ValueProperty(node.args[i].value)
  {
    FirstValueNamedFirstMatch(node.args, name, default);
  }

  // ---------------------------------------------------------------------------
  // extractFilterArgumentsByName
  // ---------------------------------------------------------------------------

  /** Arguments the by-name extraction skips: the trashed, limit and offset names, and any name containing a base token. */
  predicate Bypassed(names: AttributeNames, argName: string) {
    || argName == names.withTrashed
    || argName == names.onlyTrashed
    || argName == names.limit
    || argName == names.offset
    || Contains(argName, names.baseOrderBy)
    || Contains(argName, names.baseFilter)
    || Contains(argName, names.basePagination)
  }

  /**
   * The `$arguments` array built from a node's own arguments, one at a time: a kept argument
   * with a scalar literal contributes that literal; any other kept argument contributes the
   * variable named like the ARGUMENT, when that variable is set.
   */
  function NamedValues(names: AttributeNames, args: seq<Argument>, vars: map<string, Json>): seq<(Key, Json)> {
    if args == [] then []
    else
      var prev := NamedValues(names, args[..|args| - 1], vars);
      var a := args[|args| - 1];
      if Bypassed(names, a.name) then prev
      else if HasScalarValue(a.value) then Put(prev, StrKey(a.name), a.value.value)
      else if IssetVariable(vars, a.name) then Put(prev, StrKey(a.name), vars[a.name])
      else prev
  }

  /** The entries `foreach` visits: those of an array, none for any other value. */
  function EntriesOf(j: Json): seq<(Key, Json)> {
    if j.JArr? then j.entries else []
  }

  /** `$arguments` as a whole: the node's own arguments, or when it has none, the variable named like the field. */
  function ArgumentsOfNode(names: AttributeNames, node: Selection, vars: map<string, Json>): seq<(Key, Json)> {
    if |node.args| > 0 then NamedValues(names, node.args, vars)
    else if IssetVariable(vars, node.name) then EntriesOf(vars[node.name])
    else []
  }

  function DefaultRow(e: (Key, Json)): Row {
    Row(KeyValue(e.0), Plain(e.1), JStr(DefaultOperator), JStr(DefaultJoin))
  }

  function DefaultRows(entries: seq<(Key, Json)>): (rows: seq<Row>)
    ensures |rows| == |entries|
    ensures forall i :: 0 <= i < |rows| ==> rows[i] == DefaultRow(entries[i])
  {
    if entries == [] then [] else DefaultRows(entries[..|entries| - 1]) + [DefaultRow(entries[|entries| - 1])]
  }

  /**
   * The rows `extractFilterArgumentsByName` returns. Every row is an equality test joined by
   * AND whose value is taken uncast.
   */
  function FilterArgumentsByName(names: AttributeNames, node: Selection, vars: map<string, Json>): (rows: seq<Row>)
    ensures forall i :: 0 <= i < |rows| ==>
      rows[i].operator == JStr(DefaultOperator) && rows[i].join == JStr(DefaultJoin) && rows[i].value.Plain?
  {
    DefaultRows(ArgumentsOfNode(names, node, vars))
  }

  method ExtractFilterArgumentsByName(names: AttributeNames, node: Selection, vars: map<string, Json>) returns (rows: seq<Row>)
    ensures rows == FilterArgumentsByName(names, node, vars)
  {
    var arguments: seq<(Key, Json)> := [];
    if |node.args| > 0 {
      arguments := CollectNamedValues(names, node.args, vars);
    } else if IssetVariable(vars, node.name) {
      arguments := EntriesOf(vars[node.name]);
    }
    rows := [];
    var j := 0;
    while j < |arguments|
      invariant 0 <= j <= |arguments|
      invariant rows == DefaultRows(arguments[..j])
    {
      assert arguments[..j + 1][..j] == arguments[..j];
      rows := rows + [DefaultRow(arguments[j])];
      j := j + 1;
    }
    assert arguments[..|arguments|] == arguments;
  }

  /** The loop over the node's arguments that fills `$arguments`. */
  method CollectNamedValues(names: AttributeNames, args: seq<Argument>, vars: map<string, Json>) returns (arguments: seq<(Key, Json)>)
    ensures arguments == NamedValues(names, args, vars)
  {
    arguments := [];
    var i := 0;
    while i < |args|
      invariant 0 <= i <= |args|
      invariant arguments == NamedValues(names, args[..i], vars)
    {
      var a := args[i];
      assert args[..i + 1][..i] == args[..i];
      if !Bypassed(names, a.name) {
        if !HasScalarValue(a.value) {
          if IssetVariable(vars, a.name) {
            arguments := Put(arguments, StrKey(a.name), vars[a.name]);
          }
        } else {
          arguments := Put(arguments, StrKey(a.name), a.value.value);
        }
      }
      i := i + 1;
    }
    assert args[..|args|] == args;
  }

  lemma {:induction false} NamedValuesKeys(names: AttributeNames, args: seq<Argument>, vars: map<string, Json>, k: Key)
    requires k in KeysOf(NamedValues(names, args, vars))
    ensures exists i :: 0 <= i < |args| && k == StrKey(args[i].name) && !Bypassed(names, args[i].name)
  {
    if args != [] {
      var prev := NamedValues(names, args[..|args| - 1], vars);
      var a := args[|args| - 1];
      if k in KeysOf(prev) {
        NamedValuesKeys(names, args[..|args| - 1], vars, k);
        var i :| 0 <= i < |args| - 1 && k == StrKey(args[..|args| - 1][i].name) && !Bypassed(names, args[..|args| - 1][i].name);
        assert args[..|args| - 1][i] == args[i];
      } else {
        assert k == StrKey(a.name) && !Bypassed(names, a.name);
      }
    }
  }

  lemma {:induction false} KeyInKeysOf(entries: seq<(Key, Json)>, i: nat)
    requires i < |entries|
    ensures entries[i].0 in KeysOf(entries)
  {
    if i > 0 { KeyInKeysOf(entries[1..], i - 1); }
  }

  /**
   * A node that has arguments yields one row per kept argument name: every row is named
   * after one of the node's own arguments, and none after a bypassed one.
   */
  lemma FilterRowsNameKeptArguments(names: AttributeNames, node: Selection, vars: map<string, Json>, r: nat)
    requires |node.args| > 0 && r < |FilterArgumentsByName(names, node, vars)|
    ensures exists i :: 0 <= i < |node.args| && !Bypassed(names, node.args[i].name) &&
                        FilterArgumentsByName(names, node, vars)[r].name == JStr(node.args[i].name)
  {
    var entries := NamedValues(names, node.args, vars);
    KeyInKeysOf(entries, r);
    NamedValuesKeys(names, node.args, vars, entries[r].0);
  }

  lemma {:induction false} NamedValuesIgnoresOtherVariables(names: AttributeNames, args: seq<Argument>, vars: map<string, Json>, x: string, v: Json)
    requires forall i :: 0 <= i < |args| ==> args[i].name != x
    ensures NamedValues(names, args, vars) == NamedValues(names, args, vars[x := v])
  {
    if args != [] {
      NamedValuesIgnoresOtherVariables(names, args[..|args| - 1], vars, x, v);
    }
  }

  /**
   * The variable named like the field is read only when the node has no arguments of its
   * own: with arguments present, changing that variable changes nothing (unless an argument
   * itself bears the field's name).
   */
  lemma FieldVariableOnlyWithoutArguments(names: AttributeNames, node: Selection, vars: map<string, Json>, v: Json)
    ensures |node.args| == 0 ==>
      FilterArgumentsByName(names, node, vars) == (if IssetVariable(vars, node.name) then DefaultRows(EntriesOf(vars[node.name])) else [])
    ensures |node.args| > 0 && (forall i :: 0 <= i < |node.args| ==> node.args[i].name != node.name) ==>
      FilterArgumentsByName(names, node, vars) == FilterArgumentsByName(names, node, vars[node.name := v])
  {
    if |node.args| > 0 && (forall i :: 0 <= i < |node.args| ==> node.args[i].name != node.name) {
      NamedValuesIgnoresOtherVariables(names, node.args, vars, node.name, v);
    }
  }

  /** An inline argument `status: $s` is looked up as the variable "status", not as "s". */
  lemma VariableArgumentReadByArgumentName(names: AttributeNames, s: Json)
    requires !Bypassed(names, "status") && s != JNull
    ensures FilterArgumentsByName(names, Selection("posts", [Argument("status", Variable("s"))], []), map["s" := JStr("x")]) == []
    ensures FilterArgumentsByName(names, Selection("posts", [Argument("status", Variable("s"))], []), map["status" := s])
         == [Row(JStr("status"), Plain(s), JStr("="), JStr("AND"))]
  {
    var node := Selection("posts", [Argument("status", Variable("s"))], []);
    assert node.args[..0] == [];
    assert NamedValues(names, node.args, map["s" := JStr("x")]) == [];
    var e := [(StrKey("status"), s)];
    assert NamedValues(names, node.args, map["status" := s]) == e;
    assert e[..0] == [];
  }

  // ---------------------------------------------------------------------------
  // extractArgumentsFromVariable
  // ---------------------------------------------------------------------------

  /** A variable is filter-kind when its name contains the base filter token. */
  predicate FilterKind(names: AttributeNames, variable: string) {
    Contains(variable, names.baseFilter)
  }

  /** A variable is order-kind when its name contains the base order-by token. */
  predicate OrderKind(names: AttributeNames, variable: string) {
    Contains(variable, names.baseOrderBy)
  }

  /** The formatted row for entry `key => row` of variable `variable`. */
  function FormatRow(names: AttributeNames, variable: string, key: Key, row: Json): Result<Row> {
    var name := Isset(row, "name");
    if name.None? then Err(NameMissing(variable, key))
    else
      var base := Row(name.value, Plain(JNull), JNull, JNull);
      var filtered :-
        if FilterKind(names, variable) then
          var value := Isset(row, "value");
          if value.None? then Err(ValueMissing(variable, key))
          else Ok(Row(name.value, CastValue(value.value, Coalesce(row, "cast", JNull)),
                      Coalesce(row, "operator", JStr(DefaultOperator)), Coalesce(row, "join", JStr(DefaultJoin))))
        else Ok(base);
      if OrderKind(names, variable) then Ok(filtered.(value := Plain(Coalesce(row, "value", JStr("asc")))))
      else Ok(filtered)
  }

  /** The rows of the entries, in order, each formatted row pushed twice; the first bad entry fails. */
  function FormattedRows(names: AttributeNames, variable: string, entries: seq<(Key, Json)>): Result<seq<Row>> {
    if entries == [] then Ok([])
    else
      var prev :- FormattedRows(names, variable, entries[..|entries| - 1]);
      var last := entries[|entries| - 1];
      var row :- FormatRow(names, variable, last.0, last.1);
      Ok(prev + [row, row])
  }

  /** What `extractArgumentsFromVariable($variables, $variable)` returns or throws. */
  function ArgumentsFromVariable(names: AttributeNames, vars: map<string, Json>, variable: string): Result<seq<Row>> {
    if !IssetVariable(vars, variable) then Ok([])
    else if !vars[variable].JArr? then Err(ArgumentListNotArray(variable))
    else FormattedRows(names, variable, vars[variable].entries)
  }

  method ExtractArgumentsFromVariable(names: AttributeNames, vars: map<string, Json>, variable: string) returns (r: Result<seq<Row>>)
    ensures r == ArgumentsFromVariable(names, vars, variable)
  {
    if !(|vars| > 0 && IssetVariable(vars, variable)) {
      return Ok([]);
    }
    var argumentList := vars[variable];
    if !argumentList.JArr? {
      return Err(ArgumentListNotArray(variable));
    }
    var entries := argumentList.entries;
    var finalArguments: seq<Row> := [];
    var i := 0;
    while i < |entries|
      invariant 0 <= i <= |entries|
      invariant FormattedRows(names, variable, entries[..i]) == Ok(finalArguments)
    {
      assert entries[..i + 1][..i] == entries[..i];
      var formatted := FormatArgumentRow(names, variable, entries[i].0, entries[i].1);
      if formatted.Err? {
        FormattedRowsFailAt(names, variable, entries, i);
        return Err(formatted.failure);
      }
      assert entries[..i + 1][i] == entries[i];
      ghost var before := finalArguments;
      finalArguments := finalArguments + [formatted.value];
      finalArguments := finalArguments + [formatted.value];
      assert finalArguments == before + [formatted.value, formatted.value];
      i := i + 1;
    }
    assert entries[..|entries|] == entries;
    r := Ok(finalArguments);
  }

  /** The body of the loop over the variable's entries: one entry checked and formatted. */
  method FormatArgumentRow(names: AttributeNames, variable: string, key: Key, argumentRow: Json) returns (r: Result<Row>)
    ensures r == FormatRow(names, variable, key, argumentRow)
  {
    var name := Isset(argumentRow, "name");
    if name.None? {
      return Err(NameMissing(variable, key));
    }
    var formatted := Row(name.value, Plain(JNull), JNull, JNull);
    if FilterKind(names, variable) {
      var value := Isset(argumentRow, "value");
      if value.None? {
        return Err(ValueMissing(variable, key));
      }
      formatted := Row(name.value, CastValue(value.value, Coalesce(argumentRow, "cast", JNull)),
        Coalesce(argumentRow, "operator", JStr(DefaultOperator)), Coalesce(argumentRow, "join", JStr(DefaultJoin)));
    }
    if OrderKind(names, variable) {
      formatted := formatted.(value := Plain(Coalesce(argumentRow, "value", JStr("asc"))));
    }
    r := Ok(formatted);
  }

  lemma {:induction false} FormattedRowsFailAt(names: AttributeNames, variable: string, entries: seq<(Key, Json)>, i: nat)
    requires i < |entries|
    requires FormattedRows(names, variable, entries[..i]).Ok?
    requires FormatRow(names, variable, entries[i].0, entries[i].1).Err?
    ensures FormattedRows(names, variable, entries) == Err(FormatRow(names, variable, entries[i].0, entries[i].1).failure)
  {
    if i + 1 == |entries| {
      assert entries[..|entries| - 1] == entries[..i];
    } else {
      assert entries[..|entries| - 1][..i] == entries[..i];
      FormattedRowsFailAt(names, variable, entries[..|entries| - 1], i);
    }
  }

  /** A variable that is not set (or null) yields no rows; one that is set but not an array fails. */
  lemma VariableShapeChecks(names: AttributeNames, vars: map<string, Json>, variable: string)
    ensures !IssetVariable(vars, variable) ==> ArgumentsFromVariable(names, vars, variable) == Ok([])
    ensures IssetVariable(vars, variable) && !vars[variable].JArr? ==>
      ArgumentsFromVariable(names, vars, variable) == Err(ArgumentListNotArray(variable))
  {
  }

  /** An entry is rejected when it has no name, or, in a filter-kind variable, no value. */
  predicate BadEntry(names: AttributeNames, variable: string, row: Json) {
    Isset(row, "name").None? || (FilterKind(names, variable) && Isset(row, "value").None?)
  }

  /** Entry `i` is the first bad one. */
  predicate FirstBad(names: AttributeNames, variable: string, entries: seq<(Key, Json)>, i: int) {
    0 <= i < |entries| && BadEntry(names, variable, entries[i].1) &&
    forall j :: 0 <= j < i ==> !BadEntry(names, variable, entries[j].1)
  }

  lemma FormatRowFailsExactly(names: AttributeNames, variable: string, key: Key, row: Json)
    ensures FormatRow(names, variable, key, row).Err? <==> BadEntry(names, variable, row)
    ensures Isset(row, "name").None? ==> FormatRow(names, variable, key, row) == Err(NameMissing(variable, key))
    ensures Isset(row, "name").Some? && BadEntry(names, variable, row) ==>
      FormatRow(names, variable, key, row) == Err(ValueMissing(variable, key))
  {
  }

  /**
   * The rows fail exactly when some entry is bad: an entry without a name, or a filter entry
   * without a value, is never dropped silently.
   */
  lemma {:induction false} FormattedRowsFailure(names: AttributeNames, variable: string, entries: seq<(Key, Json)>)
    ensures FormattedRows(names, variable, entries).Err? <==> exists i :: 0 <= i < |entries| && BadEntry(names, variable, entries[i].1)
  {
    if entries != [] {
      var init := entries[..|entries| - 1];
      var last := entries[|entries| - 1];
      FormattedRowsFailure(names, variable, init);
      FormatRowFailsExactly(names, variable, last.0, last.1);
      assert forall i :: 0 <= i < |init| ==> init[i] == entries[i];
      if exists i :: 0 <= i < |entries| && BadEntry(names, variable, entries[i].1) {
        var i :| 0 <= i < |entries| && BadEntry(names, variable, entries[i].1);
        if i < |init| {
          assert BadEntry(names, variable, init[i].1);
        }
      }
    }
  }

  /** The failure is that of the first bad entry. */
  lemma FormattedRowsFirstFailure(names: AttributeNames, variable: string, entries: seq<(Key, Json)>)
    ensures forall i :: FirstBad(names, variable, entries, i) ==>
      FormattedRows(names, variable, entries) == FormatRow(names, variable, entries[i].0, entries[i].1).PropagateFailure()
  {
    forall i | FirstBad(names, variable, entries, i)
      ensures FormattedRows(names, variable, entries) == FormatRow(names, variable, entries[i].0, entries[i].1).PropagateFailure()
    {
      FailureOfFirstBad(names, variable, entries, i);
    }
  }

  lemma {:induction false} FailureOfFirstBad(names: AttributeNames, variable: string, entries: seq<(Key, Json)>, i: int)
    requires FirstBad(names, variable, entries, i)
    ensures FormattedRows(names, variable, entries) == FormatRow(names, variable, entries[i].0, entries[i].1).PropagateFailure()
  {
    var init := entries[..|entries| - 1];
    FormatRowFailsExactly(names, variable, entries[i].0, entries[i].1);
    if i < |init| {
      assert init[i] == entries[i];
      assert forall j :: 0 <= j < i ==> init[j] == entries[j];
      FailureOfFirstBad(names, variable, init, i);
    } else {
      FormattedRowsFailure(names, variable, init);
      forall j | 0 <= j < |init| ensures !BadEntry(names, variable, init[j].1) {
        assert init[j] == entries[j];
      }
    }
  }

  /**
   * On success every entry gives one formatted row, and that row is pushed twice:
   * rows 2i and 2i+1 are both the formatting of entry i.
   */
  lemma {:induction false} FormattedRowsTwice(names: AttributeNames, variable: string, entries: seq<(Key, Json)>)
    requires FormattedRows(names, variable, entries).Ok?
    ensures var rows := FormattedRows(names, variable, entries).value;
      && |rows| == 2 * |entries|
      && forall i :: 0 <= i < |entries| ==>
        FormatRow(names, variable, entries[i].0, entries[i].1).Ok?
        && rows[2 * i] == rows[2 * i + 1] == FormatRow(names, variable, entries[i].0, entries[i].1).value
  {
    if entries != [] {
      var init := entries[..|entries| - 1];
      FormattedRowsTwice(names, variable, init);
      assert forall i :: 0 <= i < |init| ==> init[i] == entries[i];
    }
  }

  /**
   * A row of a filter-kind (and not order-kind) variable carries the cast value and the given
   * operator and join, `=` and `AND` when absent; a row of an order-kind (and not
   * filter-kind) variable carries its value uncast, `asc` when absent.
   */
  lemma FormatRowDefaults(names: AttributeNames, variable: string, key: Key, row: Json)
    requires FormatRow(names, variable, key, row).Ok?
    ensures var r := FormatRow(names, variable, key, row).value;
      && Isset(row, "name") == Some(r.name)
      && (FilterKind(names, variable) && !OrderKind(names, variable) ==>
            && r.value == CastValue(Isset(row, "value").value, Coalesce(row, "cast", JNull))
            && r.operator == Coalesce(row, "operator", JStr("="))
            && r.join == Coalesce(row, "join", JStr("AND")))
      && (OrderKind(names, variable) && !FilterKind(names, variable) ==>
           r.value == Plain(Coalesce(row, "value", JStr("asc"))) && r.operator == JNull && r.join == JNull)
  {
  }
}
