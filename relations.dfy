/**
 * The relation walk of the Eloquent query (src/Folklore/GraphQL/Eloquent/Query.php): the
 * per-path argument bundles of `mapRelationArguments`, the relation paths of `getRelations`,
 * and their merge in `mapRelations`. Each accumulator-threading walk is related to a
 * reference definition that builds the same paths from path segments.
 */
module Relations {
  import opened Php
  import opened Failures
  import opened Schema
  import opened Helper
  import opened Extract

  /** The array recorded for one relation path. */
  datatype Bundle = Bundle(filter: seq<Row>, orderBy: seq<Row>, withTrashed: Json, onlyTrashed: Json, limit: Json, offset: Json)

  /** What the walk reads besides the selections: names, schema, the query's base type name and the variables. */
  datatype Walk = Walk(names: AttributeNames, schema: Schema, queryTypeName: string, vars: map<string, Json>)

  /** `$nodeType->getField($name)`, which throws for a field the type does not define. */
  function LookupField(schema: Schema, t: TypeRef, name: string): (r: Result<Field>)
    ensures r.Ok? <==> t.Named? && t.name in schema && name in schema[t.name].fields
    ensures r.Ok? ==> r.value == schema[t.name].fields[name]
  {
    if t.Named? && t.name in schema && name in schema[t.name].fields then Ok(schema[t.name].fields[name])
    else Err(UnknownField(TypeName(t), name))
  }

  /** `empty($prefix) ? $name : "{$prefix}.{$name}"`. */
  function JoinPath(prefix: string, name: string): string {
    if EmptyString(prefix) then name else prefix + "." + name
  }

  /** `!empty($field->args)`. */
  predicate DeclaresArguments(f: Field) {
    f.args.Some? && |f.args.value| > 0
  }

  /** The variable holding a relation's filter rows: query base type, then the path, then the filter token. */
  function RelationFilterVariable(w: Walk, path: string): string {
    FormatVariableName(w.names.baseFilter, Some(w.queryTypeName), Some(path), w.queryTypeName)
  }

  /** The variable holding a relation's order rows. */
  function RelationOrderVariable(w: Walk, path: string): string {
    FormatVariableName(w.names.baseOrderBy, Some(w.queryTypeName), Some(path), w.queryTypeName)
  }

  /** The bundle recorded for `node` at `path`, or the exception its variables raise. */
  function BundleFor(w: Walk, node: Selection, path: string): Result<Bundle> {
    var byName := FilterArgumentsByName(w.names, node, w.vars);
    var byFilter :- ArgumentsFromVariable(w.names, w.vars, RelationFilterVariable(w, path));
    var byOrder :- ArgumentsFromVariable(w.names, w.vars, RelationOrderVariable(w, path));
    Ok(Bundle(byName + byFilter, byOrder,
      ExtractArgumentByName(node, w.names.withTrashed, JBool(false)),
      ExtractArgumentByName(node, w.names.onlyTrashed, JBool(false)),
      ExtractArgumentByName(node, w.names.limit, JBool(false)),
      ExtractArgumentByName(node, w.names.offset, JBool(false))))
  }

  // ---------------------------------------------------------------------------
  // The two walks as the source writes them
  // ---------------------------------------------------------------------------

  /**
   * `mapRelationArguments($selections, $nodeType, $variables, $out, $prefix)`: visit every
   * selection in turn, threading the bundle array through.
   */
  function MapRelationArguments(w: Walk, sels: seq<Selection>, nodeType: TypeRef, out: seq<(string, Bundle)>, prefix: string): Result<seq<(string, Bundle)>>
    decreases sels, 1
  {
    if sels == [] then Ok(out)
    else
      var out1 :- MapFirstRelationArguments(w, sels, nodeType, out, prefix);
      MapRelationArguments(w, sels[1..], nodeType, out1, prefix)
  }

  /**
   * One iteration of mapRelationArguments, for the first selection: a selection with a
   * sub-selection records a bundle under its path when its field declares arguments, then
   * the walk descends when the field's base type is model-backed.
   */
  function MapFirstRelationArguments(w: Walk, sels: seq<Selection>, nodeType: TypeRef, out: seq<(string, Bundle)>, prefix: string): Result<seq<(string, Bundle)>>
    requires sels != []
    decreases sels, 0
  {
    var node := sels[0];
    if node.children == [] then Ok(out)
    else
      var fieldName := JoinPath(prefix, node.name);
      var field :- LookupField(w.schema, nodeType, node.name);
      var out2 :-
        if DeclaresArguments(field) then
          var b :- BundleFor(w, node, fieldName);
          Ok(Put(out, fieldName, b))
        else Ok(out);
      var newNodeType := GetBaseType(field.typ);
      if IsEloquentModel(w.schema, newNodeType) then MapRelationArguments(w, node.children, newNodeType, out2, fieldName)
      else Ok(out2)
  }

  /**
   * `getRelations($selections, $nodeType, $relationsList, $prefix)`: visit every selection in
   * turn, threading the list of relation paths through.
   */
  function GetRelations(schema: Schema, sels: seq<Selection>, nodeType: TypeRef, acc: seq<string>, prefix: string): Result<seq<string>>
    decreases sels, 1
  {
    if sels == [] then Ok(acc)
    else
      var acc1 :- GetFirstRelations(schema, sels, nodeType, acc, prefix);
      GetRelations(schema, sels[1..], nodeType, acc1, prefix)
  }

  /**
   * One iteration of getRelations, for the first selection: a selection with a sub-selection
   * whose field's base type is model-backed appends its path, and the walk descends there.
   */
  function GetFirstRelations(schema: Schema, sels: seq<Selection>, nodeType: TypeRef, acc: seq<string>, prefix: string): Result<seq<string>>
    requires sels != []
    decreases sels, 0
  {
    var node := sels[0];
    if node.children == [] then Ok(acc)
    else
      var fieldName := JoinPath(prefix, node.name);
      var field :- LookupField(schema, nodeType, node.name);
      var fieldType := GetBaseType(field.typ);
      if IsEloquentModel(schema, fieldType) then GetRelations(schema, node.children, fieldType, acc + [fieldName], fieldName)
      else Ok(acc)
  }

  /** getRelations with its foreach loop; the recursion into a relation's sub-selection is a recursive call. */
  method CollectRelations(schema: Schema, sels: seq<Selection>, nodeType: TypeRef, relationsList: seq<string>, prefix: string) returns (r: Result<seq<string>>)
    ensures r == GetRelations(schema, sels, nodeType, relationsList, prefix)
    decreases sels
  {
    var relations := relationsList;
    var i := 0;
    while i < |sels|
      invariant 0 <= i <= |sels|
      invariant GetRelations(schema, sels, nodeType, relationsList, prefix) == GetRelations(schema, sels[i..], nodeType, relations, prefix)
    {
      assert sels[i..][0] == sels[i] && sels[i..][1..] == sels[i + 1..];
      var node := sels[i];
      if node.children != [] {
        var fieldName := JoinPath(prefix, node.name);
        var field := LookupField(schema, nodeType, node.name);
        if field.Err? {
          return Err(field.failure);
        }
        var fieldType := GetBaseType(field.value.typ);
        if IsEloquentModel(schema, fieldType) {
          relations := relations + [fieldName];
          var below := CollectRelations(schema, node.children, fieldType, relations, fieldName);
          if below.Err? {
            return Err(below.failure);
          }
          relations := below.value;
        }
      }
      i := i + 1;
    }
    return Ok(relations);
  }

  /** mapRelationArguments with its foreach loop; the recursion into a model-backed field is a recursive call. */
  method CollectRelationArguments(w: Walk, sels: seq<Selection>, nodeType: TypeRef, outputArgumentList: seq<(string, Bundle)>, prefix: string) returns (r: Result<seq<(string, Bundle)>>)
    ensures r == MapRelationArguments(w, sels, nodeType, outputArgumentList, prefix)
    decreases sels
  {
    var out := outputArgumentList;
    var i := 0;
    while i < |sels|
      invariant 0 <= i <= |sels|
      invariant MapRelationArguments(w, sels, nodeType, outputArgumentList, prefix) == MapRelationArguments(w, sels[i..], nodeType, out, prefix)
    {
      assert sels[i..][0] == sels[i] && sels[i..][1..] == sels[i + 1..];
      var node := sels[i];
      if node.children != [] {
        var fieldName := JoinPath(prefix, node.name);
        var field := LookupField(w.schema, nodeType, node.name);
        if field.Err? {
          return Err(field.failure);
        }
        if DeclaresArguments(field.value) {
          var bundle := BundleFor(w, node, fieldName);
          if bundle.Err? {
            return Err(bundle.failure);
          }
          out := Put(out, fieldName, bundle.value);
        }
        var newNodeType := GetBaseType(field.value.typ);
        if IsEloquentModel(w.schema, newNodeType) {
          var below := CollectRelationArguments(w, node.children, newNodeType, out, fieldName);
          if below.Err? {
            return Err(below.failure);
          }
          out := below.value;
        }
      }
      i := i + 1;
    }
    return Ok(out);
  }

  // ---------------------------------------------------------------------------
  // Reference definitions on path segments
  // ---------------------------------------------------------------------------

  /** The dotted path of a list of field names, as the walks join them. */
  function Dotted(segs: seq<string>): string {
    if segs == [] then "" else JoinPath(Dotted(segs[..|segs| - 1]), segs[|segs| - 1])
  }

  lemma DottedSnoc(base: seq<string>, n: string)
    ensures Dotted(base + [n]) == JoinPath(Dotted(base), n)
  {
    assert (base + [n])[..|base|] == base;
  }

  function DottedAll(ps: seq<seq<string>>): (r: seq<string>)
    ensures |r| == |ps|
  {
    if ps == [] then [] else [Dotted(ps[0])] + DottedAll(ps[1..])
  }

  lemma {:induction false} DottedAllAppend(a: seq<seq<string>>, b: seq<seq<string>>)
    ensures DottedAll(a + b) == DottedAll(a) + DottedAll(b)
  {
    if a == [] {
      assert a + b == b;
    } else {
      assert (a + b)[1..] == a[1..] + b;
      DottedAllAppend(a[1..], b);
    }
  }

  /**
   * The relation paths below `base`, in the order the source visits them: a model-backed
   * selection gives its own path, then the paths below it.
   */
  function RelationPaths(schema: Schema, sels: seq<Selection>, nodeType: TypeRef, base: seq<string>): Result<seq<seq<string>>>
    decreases sels, 1
  {
    if sels == [] then Ok([])
    else
      var here :- FirstRelationPaths(schema, sels, nodeType, base);
      var rest :- RelationPaths(schema, sels[1..], nodeType, base);
      Ok(here + rest)
  }

  /** The relation paths the first selection contributes. */
  function FirstRelationPaths(schema: Schema, sels: seq<Selection>, nodeType: TypeRef, base: seq<string>): Result<seq<seq<string>>>
    requires sels != []
    decreases sels, 0
  {
    var node := sels[0];
    if node.children == [] then Ok([])
    else
      var field :- LookupField(schema, nodeType, node.name);
      var fieldType := GetBaseType(field.typ);
      if IsEloquentModel(schema, fieldType) then
        var below :- RelationPaths(schema, node.children, fieldType, base + [node.name]);
        Ok([base + [node.name]] + below)
      else Ok([])
  }

  /** getRelations is the accumulator form of the reference: it appends the dotted reference paths. */
  lemma {:induction false} GetRelationsIsRelationPaths(schema: Schema, sels: seq<Selection>, nodeType: TypeRef, acc: seq<string>, base: seq<string>)
    ensures GetRelations(schema, sels, nodeType, acc, Dotted(base)).Ok? <==> RelationPaths(schema, sels, nodeType, base).Ok?
    ensures RelationPaths(schema, sels, nodeType, base).Ok? ==>
      GetRelations(schema, sels, nodeType, acc, Dotted(base)).value == acc + DottedAll(RelationPaths(schema, sels, nodeType, base).value)
    decreases sels, 1
  {
    if sels == [] {
      assert acc + DottedAll([]) == acc;
    } else {
      GetFirstRelationsIsFirstRelationPaths(schema, sels, nodeType, acc, base);
      var here := FirstRelationPaths(schema, sels, nodeType, base);
      if here.Ok? {
        var acc1 := acc + DottedAll(here.value);
        assert GetFirstRelations(schema, sels, nodeType, acc, Dotted(base)) == Ok(acc1);
        assert GetRelations(schema, sels, nodeType, acc, Dotted(base)) == GetRelations(schema, sels[1..], nodeType, acc1, Dotted(base));
        GetRelationsIsRelationPaths(schema, sels[1..], nodeType, acc1, base);
        var rest := RelationPaths(schema, sels[1..], nodeType, base);
        if rest.Ok? {
          assert RelationPaths(schema, sels, nodeType, base) == Ok(here.value + rest.value);
          DottedAllAppend(here.value, rest.value);
          assert acc1 + DottedAll(rest.value) == acc + DottedAll(here.value + rest.value);
        }
      }
    }
  }

  lemma {:induction false} GetFirstRelationsIsFirstRelationPaths(schema: Schema, sels: seq<Selection>, nodeType: TypeRef, acc: seq<string>, base: seq<string>)
    requires sels != []
    ensures GetFirstRelations(schema, sels, nodeType, acc, Dotted(base)).Ok? <==> FirstRelationPaths(schema, sels, nodeType, base).Ok?
    ensures FirstRelationPaths(schema, sels, nodeType, base).Ok? ==>
      GetFirstRelations(schema, sels, nodeType, acc, Dotted(base)).value == acc + DottedAll(FirstRelationPaths(schema, sels, nodeType, base).value)
    decreases sels, 0
  {
    var node := sels[0];
    if node.children == [] {
      assert acc + DottedAll([]) == acc;
    } else {
      var field := LookupField(schema, nodeType, node.name);
      if field.Ok? {
        var fieldType := GetBaseType(field.value.typ);
        if IsEloquentModel(schema, fieldType) {
          var b' := base + [node.name];
          DottedSnoc(base, node.name);
          GetRelationsIsRelationPaths(schema, node.children, fieldType, acc + [Dotted(b')], b');
          var below := RelationPaths(schema, node.children, fieldType, b');
          if below.Ok? {
            DottedAllAppend([b'], below.value);
          }
        } else {
          assert acc + DottedAll([]) == acc;
        }
      }
    }
  }

  /**
   * A path of field names from `t` along which every field exists and has a model-backed base
   * type: the only kind of path getRelations reports.
   */
  predicate ModelPath(schema: Schema, t: TypeRef, segs: seq<string>)
    decreases |segs|
  {
    segs == [] ||
    (LookupField(schema, t, segs[0]).Ok? &&
     var ft := GetBaseType(LookupField(schema, t, segs[0]).value.typ);
     IsEloquentModel(schema, ft) && ModelPath(schema, ft, segs[1..]))
  }

  /** Every path extends `base` by a model path from `t`. */
  predicate ModelPathsBelow(schema: Schema, t: TypeRef, ps: seq<seq<string>>, base: seq<string>) {
    forall p :: p in ps ==> |p| > |base| && p[..|base|] == base && ModelPath(schema, t, p[|base|..])
  }

  /** Every path strictly extends the base, and each deeper path's parent was reported before it. */
  predicate PrefixClosed(ps: seq<seq<string>>, base: seq<string>) {
    forall i :: 0 <= i < |ps| ==> Extends(ps[i], base) && (|ps[i]| > |base| + 1 ==> ParentBefore(ps, i))
  }

  predicate Extends(p: seq<string>, base: seq<string>) {
    |p| > |base| && p[..|base|] == base
  }

  /** The parent of the `i`-th path occurs before it. */
  predicate ParentBefore(ps: seq<seq<string>>, i: int)
    requires 0 <= i < |ps|
  {
    |ps[i]| > 0 && exists j :: 0 <= j < i && ps[j] == ps[i][..|ps[i]| - 1]
  }

  lemma PrefixClosedAppend(a: seq<seq<string>>, b: seq<seq<string>>, base: seq<string>)
    requires PrefixClosed(a, base) && PrefixClosed(b, base)
    ensures PrefixClosed(a + b, base)
  {
    var all := a + b;
    forall i | 0 <= i < |all| ensures Extends(all[i], base) && (|all[i]| > |base| + 1 ==> ParentBefore(all, i)) {
      if i < |a| {
        assert all[i] == a[i];
        if |a[i]| > |base| + 1 {
          assert ParentBefore(a, i);
          var j :| 0 <= j < i && a[j] == a[i][..|a[i]| - 1];
          assert all[j] == a[j];
        }
      } else {
        var k := i - |a|;
        assert all[i] == b[k];
        if |b[k]| > |base| + 1 {
          assert ParentBefore(b, k);
          var j :| 0 <= j < k && b[j] == b[k][..|b[k]| - 1];
          assert all[j + |a|] == b[j];
        }
      }
    }
  }

  lemma PrefixClosedNode(n: string, below: seq<seq<string>>, base: seq<string>)
    requires PrefixClosed(below, base + [n])
    ensures PrefixClosed([base + [n]] + below, base)
  {
    var b' := base + [n];
    var here := [b'] + below;
    assert b'[..|base|] == base;
    forall i | 0 <= i < |here| ensures Extends(here[i], base) && (|here[i]| > |base| + 1 ==> ParentBefore(here, i)) {
      if i > 0 {
        var s := below[i - 1];
        assert here[i] == s;
        assert Extends(s, b');
        assert s[..|base|] == s[..|b'|][..|base|];
        if |s| == |b'| + 1 {
          assert here[0] == s[..|s| - 1];
        } else {
          assert ParentBefore(below, i - 1);
          var j :| 0 <= j < i - 1 && below[j] == s[..|s| - 1];
          assert here[j + 1] == below[j];
        }
      }
    }
  }

  lemma ModelPathsNode(schema: Schema, t: TypeRef, n: string, below: seq<seq<string>>, base: seq<string>)
    requires LookupField(schema, t, n).Ok?
    requires IsEloquentModel(schema, GetBaseType(LookupField(schema, t, n).value.typ))
    requires ModelPathsBelow(schema, GetBaseType(LookupField(schema, t, n).value.typ), below, base + [n])
    ensures ModelPathsBelow(schema, t, [base + [n]] + below, base)
  {
    var b' := base + [n];
    var ft := GetBaseType(LookupField(schema, t, n).value.typ);
    forall p | p in [b'] + below ensures |p| > |base| && p[..|base|] == base && ModelPath(schema, t, p[|base|..]) {
      if p == b' {
        assert p[|base|..] == [n];
        assert ModelPath(schema, ft, p[|base|..][1..]);
      } else {
        assert p in below;
        assert p[..|base|] == p[..|b'|][..|base|];
        assert p[|base|..][1..] == p[|b'|..];
        assert p[|base|..][0] == n;
      }
    }
  }

  /** The reference paths are prefix-closed model paths below `base`. */
  lemma {:induction false} RelationPathsShape(schema: Schema, sels: seq<Selection>, nodeType: TypeRef, base: seq<string>)
    requires RelationPaths(schema, sels, nodeType, base).Ok?
    ensures PrefixClosed(RelationPaths(schema, sels, nodeType, base).value, base)
    ensures ModelPathsBelow(schema, nodeType, RelationPaths(schema, sels, nodeType, base).value, base)
    decreases sels, 1
  {
    if sels != [] {
      var here := FirstRelationPaths(schema, sels, nodeType, base).value;
      var rest := RelationPaths(schema, sels[1..], nodeType, base).value;
      FirstRelationPathsShape(schema, sels, nodeType, base);
      RelationPathsShape(schema, sels[1..], nodeType, base);
      PrefixClosedAppend(here, rest, base);
    }
  }

  lemma {:induction false} FirstRelationPathsShape(schema: Schema, sels: seq<Selection>, nodeType: TypeRef, base: seq<string>)
    requires sels != [] && FirstRelationPaths(schema, sels, nodeType, base).Ok?
    ensures PrefixClosed(FirstRelationPaths(schema, sels, nodeType, base).value, base)
    ensures ModelPathsBelow(schema, nodeType, FirstRelationPaths(schema, sels, nodeType, base).value, base)
    decreases sels, 0
  {
    var node := sels[0];
    if node.children != [] {
      var field := LookupField(schema, nodeType, node.name).value;
      var fieldType := GetBaseType(field.typ);
      if IsEloquentModel(schema, fieldType) {
        var below := RelationPaths(schema, node.children, fieldType, base + [node.name]).value;
        RelationPathsShape(schema, node.children, fieldType, base + [node.name]);
        PrefixClosedNode(node.name, below, base);
        ModelPathsNode(schema, nodeType, node.name, below, base);
      }
    }
  }

  /**
   * getRelations reports only paths of model-backed fields, and the set is prefix-closed:
   * a path two or more levels deep is its parent's path, a dot and a field name, and the
   * parent was reported before it.
   */
  lemma GetRelationsModelPathsPrefixClosed(schema: Schema, sels: seq<Selection>, nodeType: TypeRef)
    requires GetRelations(schema, sels, nodeType, [], "").Ok?
    ensures exists ps: seq<seq<string>> ::
      && GetRelations(schema, sels, nodeType, [], "").value == DottedAll(ps)
      && PrefixClosed(ps, [])
      && forall p :: p in ps ==> ModelPath(schema, nodeType, p)
  {
    GetRelationsIsRelationPaths(schema, sels, nodeType, [], []);
    var ps := RelationPaths(schema, sels, nodeType, []).value;
    RelationPathsShape(schema, sels, nodeType, []);
    forall p | p in ps ensures ModelPath(schema, nodeType, p) {
      assert p[0..] == p;
    }
    assert [] + DottedAll(ps) == DottedAll(ps);
  }

  /** A dotted path at depth two or more is its parent's dotted path, a dot and the last field name. */
  lemma DottedChild(p: seq<string>)
    requires |p| >= 2 && !EmptyString(Dotted(p[..|p| - 1]))
    ensures Dotted(p) == Dotted(p[..|p| - 1]) + "." + p[|p| - 1]
  {
  }

  // ---------------------------------------------------------------------------
  // The bundles as a reference list
  // ---------------------------------------------------------------------------

  /** The bundles below `base`, in visiting order, keyed by path segments. */
  function BundlePaths(w: Walk, sels: seq<Selection>, nodeType: TypeRef, base: seq<string>): Result<seq<(seq<string>, Bundle)>>
    decreases sels, 1
  {
    if sels == [] then Ok([])
    else
      var here :- FirstBundlePaths(w, sels, nodeType, base);
      var rest :- BundlePaths(w, sels[1..], nodeType, base);
      Ok(here + rest)
  }

  /** The bundles the first selection contributes: its own, then those below it. */
  function FirstBundlePaths(w: Walk, sels: seq<Selection>, nodeType: TypeRef, base: seq<string>): Result<seq<(seq<string>, Bundle)>>
    requires sels != []
    decreases sels, 0
  {
    var node := sels[0];
    if node.children == [] then Ok([])
    else
      var path := base + [node.name];
      var field :- LookupField(w.schema, nodeType, node.name);
      var own :-
        if DeclaresArguments(field) then
          var b :- BundleFor(w, node, Dotted(path));
          Ok([(path, b)])
        else Ok([]);
      var newNodeType := GetBaseType(field.typ);
      if IsEloquentModel(w.schema, newNodeType) then
        var below :- BundlePaths(w, node.children, newNodeType, path);
        Ok(own + below)
      else Ok(own)
  }

  /** `$out[$path] = $bundle` for each reference entry in turn. */
  function PutAll(out: seq<(string, Bundle)>, bs: seq<(seq<string>, Bundle)>): seq<(string, Bundle)>
    decreases |bs|
  {
    if bs == [] then out else PutAll(Put(out, Dotted(bs[0].0), bs[0].1), bs[1..])
  }

  lemma {:induction false} PutAllAppend(out: seq<(string, Bundle)>, a: seq<(seq<string>, Bundle)>, b: seq<(seq<string>, Bundle)>)
    ensures PutAll(out, a + b) == PutAll(PutAll(out, a), b)
    decreases |a|
  {
    if a != [] {
      assert (a + b)[1..] == a[1..] + b;
      PutAllAppend(Put(out, Dotted(a[0].0), a[0].1), a[1..], b);
    } else {
      assert a + b == b;
    }
  }

  /** mapRelationArguments is the accumulator form of the reference: it writes the reference bundles in order. */
  lemma {:induction false} MapRelationArgumentsIsBundlePaths(w: Walk, sels: seq<Selection>, nodeType: TypeRef, out: seq<(string, Bundle)>, base: seq<string>)
    ensures MapRelationArguments(w, sels, nodeType, out, Dotted(base)).Ok? <==> BundlePaths(w, sels, nodeType, base).Ok?
    ensures BundlePaths(w, sels, nodeType, base).Ok? ==>
      MapRelationArguments(w, sels, nodeType, out, Dotted(base)).value == PutAll(out, BundlePaths(w, sels, nodeType, base).value)
    decreases sels, 1
  {
    if sels != [] {
      MapFirstIsFirstBundlePaths(w, sels, nodeType, out, base);
      var here := FirstBundlePaths(w, sels, nodeType, base);
      if here.Ok? {
        var out1 := PutAll(out, here.value);
        assert MapFirstRelationArguments(w, sels, nodeType, out, Dotted(base)) == Ok(out1);
        assert MapRelationArguments(w, sels, nodeType, out, Dotted(base)) == MapRelationArguments(w, sels[1..], nodeType, out1, Dotted(base));
        MapRelationArgumentsIsBundlePaths(w, sels[1..], nodeType, out1, base);
        var rest := BundlePaths(w, sels[1..], nodeType, base);
        if rest.Ok? {
          assert BundlePaths(w, sels, nodeType, base) == Ok(here.value + rest.value);
          PutAllAppend(out, here.value, rest.value);
        }
      }
    }
  }

  lemma {:induction false} MapFirstIsFirstBundlePaths(w: Walk, sels: seq<Selection>, nodeType: TypeRef, out: seq<(string, Bundle)>, base: seq<string>)
    requires sels != []
    ensures MapFirstRelationArguments(w, sels, nodeType, out, Dotted(base)).Ok? <==> FirstBundlePaths(w, sels, nodeType, base).Ok?
    ensures FirstBundlePaths(w, sels, nodeType, base).Ok? ==>
      MapFirstRelationArguments(w, sels, nodeType, out, Dotted(base)).value == PutAll(out, FirstBundlePaths(w, sels, nodeType, base).value)
    decreases sels, 0
  {
    var node := sels[0];
    if node.children != [] {
      var path := base + [node.name];
      DottedSnoc(base, node.name);
      var field := LookupField(w.schema, nodeType, node.name);
      if field.Ok? {
        var b := BundleFor(w, node, Dotted(path));
        if !DeclaresArguments(field.value) || b.Ok? {
          var own: seq<(seq<string>, Bundle)> := if DeclaresArguments(field.value) then [(path, b.value)] else [];
          var out2 := if DeclaresArguments(field.value) then Put(out, Dotted(path), b.value) else out;
          assert PutAll(out, own) == out2 by {
            if DeclaresArguments(field.value) {
              assert own[1..] == [];
            }
          }
          var newNodeType := GetBaseType(field.value.typ);
          if IsEloquentModel(w.schema, newNodeType) {
            MapRelationArgumentsIsBundlePaths(w, node.children, newNodeType, out2, path);
            var below := BundlePaths(w, node.children, newNodeType, path);
            if below.Ok? {
              PutAllAppend(out, own, below.value);
            }
          }
        }
      }
    }
  }

  /**
   * A path that gets a bundle: every field along it exists, every field before the last has a
   * model-backed base type, and the last field declares at least one argument.
   */
  predicate BundlePath(schema: Schema, t: TypeRef, segs: seq<string>)
    decreases |segs|
  {
    |segs| >= 1 && LookupField(schema, t, segs[0]).Ok? &&
    var field := LookupField(schema, t, segs[0]).value;
    if |segs| == 1 then DeclaresArguments(field)
    else IsEloquentModel(schema, GetBaseType(field.typ)) && BundlePath(schema, GetBaseType(field.typ), segs[1..])
  }

  /** Every path that gets a bundle extends `base` by a bundle path from `t`. */
  predicate BundlePathsBelow(schema: Schema, t: TypeRef, bs: seq<(seq<string>, Bundle)>, base: seq<string>) {
    forall e :: e in bs ==> Extends(e.0, base) && BundlePath(schema, t, e.0[|base|..])
  }

  lemma BundlePathsNode(schema: Schema, t: TypeRef, n: string, own: seq<(seq<string>, Bundle)>, below: seq<(seq<string>, Bundle)>, base: seq<string>)
    requires LookupField(schema, t, n).Ok?
    requires IsEloquentModel(schema, GetBaseType(LookupField(schema, t, n).value.typ))
    requires BundlePathsBelow(schema, t, own, base)
    requires BundlePathsBelow(schema, GetBaseType(LookupField(schema, t, n).value.typ), below, base + [n])
    ensures BundlePathsBelow(schema, t, own + below, base)
  {
    var path := base + [n];
    forall e | e in below ensures Extends(e.0, base) && BundlePath(schema, t, e.0[|base|..]) {
      assert e.0[..|base|] == e.0[..|path|][..|base|];
      assert path[..|base|] == base;
      assert e.0[|base|..][1..] == e.0[|path|..];
      assert e.0[|base|..][0] == n;
    }
  }

  lemma {:induction false} BundlePathsDeclareArguments(w: Walk, sels: seq<Selection>, nodeType: TypeRef, base: seq<string>)
    requires BundlePaths(w, sels, nodeType, base).Ok?
    ensures BundlePathsBelow(w.schema, nodeType, BundlePaths(w, sels, nodeType, base).value, base)
    decreases sels, 1
  {
    if sels != [] {
      FirstBundlePathsDeclareArguments(w, sels, nodeType, base);
      BundlePathsDeclareArguments(w, sels[1..], nodeType, base);
      assert BundlePaths(w, sels, nodeType, base).value == FirstBundlePaths(w, sels, nodeType, base).value + BundlePaths(w, sels[1..], nodeType, base).value;
    }
  }

  lemma {:induction false} FirstBundlePathsDeclareArguments(w: Walk, sels: seq<Selection>, nodeType: TypeRef, base: seq<string>)
    requires sels != [] && FirstBundlePaths(w, sels, nodeType, base).Ok?
    ensures BundlePathsBelow(w.schema, nodeType, FirstBundlePaths(w, sels, nodeType, base).value, base)
    decreases sels, 0
  {
    var node := sels[0];
    if node.children != [] {
      var path := base + [node.name];
      var field := LookupField(w.schema, nodeType, node.name).value;
      var own: seq<(seq<string>, Bundle)> := if DeclaresArguments(field) then [(path, BundleFor(w, node, Dotted(path)).value)] else [];
      assert path[|base|..] == [node.name];
      assert path[..|base|] == base;
      assert BundlePathsBelow(w.schema, nodeType, own, base);
      var newNodeType := GetBaseType(field.typ);
      if IsEloquentModel(w.schema, newNodeType) {
        BundlePathsDeclareArguments(w, node.children, newNodeType, path);
        BundlePathsNode(w.schema, nodeType, node.name, own, BundlePaths(w, node.children, newNodeType, path).value, base);
      }
    }
  }

  /**
   * mapRelationArguments records a bundle only for a path whose field declares arguments, and
   * descends only through model-backed fields.
   */
  lemma MapRelationArgumentsOnlyDeclaredFields(w: Walk, sels: seq<Selection>, nodeType: TypeRef)
    requires MapRelationArguments(w, sels, nodeType, [], "").Ok?
    ensures exists bs: seq<(seq<string>, Bundle)> ::
      && MapRelationArguments(w, sels, nodeType, [], "").value == PutAll([], bs)
      && forall e :: e in bs ==> BundlePath(w.schema, nodeType, e.0)
  {
    MapRelationArgumentsIsBundlePaths(w, sels, nodeType, [], []);
    var bs := BundlePaths(w, sels, nodeType, []).value;
    BundlePathsDeclareArguments(w, sels, nodeType, []);
    forall e | e in bs ensures BundlePath(w.schema, nodeType, e.0) {
      assert e.0[0..] == e.0;
    }
  }

  /**
   * A bundle's filter rows are the by-name rows followed by the rows of the relation's filter
   * variable; its order rows are those of the order variable; the trashed, limit and offset
   * entries are the literal arguments of those names, false when absent.
   */
  lemma BundleForParts(w: Walk, node: Selection, path: string)
    requires BundleFor(w, node, path).Ok?
    ensures var b := BundleFor(w, node, path).value;
      var byName := FilterArgumentsByName(w.names, node, w.vars);
      && ArgumentsFromVariable(w.names, w.vars, RelationFilterVariable(w, path)).Ok?
      && ArgumentsFromVariable(w.names, w.vars, RelationOrderVariable(w, path)).Ok?
      && b.filter[..|byName|] == byName
      && b.filter[|byName|..] == ArgumentsFromVariable(w.names, w.vars, RelationFilterVariable(w, path)).value
      && b.orderBy == ArgumentsFromVariable(w.names, w.vars, RelationOrderVariable(w, path)).value
      && ((forall i :: 0 <= i < |node.args| ==> node.args[i].name != w.names.limit) ==> b.limit == JBool(false))
      && ((forall i :: 0 <= i < |node.args| ==> node.args[i].name != w.names.withTrashed) ==> b.withTrashed == JBool(false))
  {
    ExtractArgumentByNameFirstMatch(node, w.names.limit, JBool(false));
    ExtractArgumentByNameFirstMatch(node, w.names.withTrashed, JBool(false));
  }

  /** A trashed flag given through a variable reads as null, which no later test treats as true. */
  lemma VariableFlagReadsNull(w: Walk, node: Selection, path: string, v: string)
    requires |node.args| > 0 && node.args[0] == Argument(w.names.withTrashed, Variable(v))
    requires BundleFor(w, node, path).Ok?
    ensures BundleFor(w, node, path).value.withTrashed == JNull
  {
    ExtractArgumentByNameFirstMatch(node, w.names.withTrashed, JBool(false));
    assert FirstNamed(node.args, w.names.withTrashed, 0);
  }

  /** The variable names for a relation use the query's base type at every depth. */
  lemma RelationVariableNames(w: Walk, path: string)
    ensures RelationFilterVariable(w, path) == w.queryTypeName + Ucfirst(path) + Ucfirst(w.names.baseFilter)
    ensures RelationOrderVariable(w, path) == w.queryTypeName + Ucfirst(path) + Ucfirst(w.names.baseOrderBy)
  {
  }

  /**
   * The two walks disagree: a field that declares arguments but whose type has no model gets
   * a bundle and no relation, and a model-backed field without arguments gets a relation and no
   * bundle.
   */
  lemma WalksDisagree(names: AttributeNames)
    ensures var schema := map[
        "Post" := ObjectType(Some(ModelInstance(false)), map[
          "meta" := Field(Named("Meta"), Some([("locale", ArgMeta(None, IntType))])),
          "author" := Field(Named("User"), None)]),
        "Meta" := ObjectType(None, map["title" := Field(Named("String"), None)]),
        "User" := ObjectType(Some(ModelInstance(false)), map["id" := Field(Named("Int"), None)])];
      var sels := [
        Selection("meta", [], [Selection("title", [], [])]),
        Selection("author", [], [Selection("id", [], [])])];
      var w := Walk(names, schema, "Post", map[]);
      && GetRelations(schema, sels, Named("Post"), [], "") == Ok(["author"])
      && MapRelationArguments(w, sels, Named("Post"), [], "").Ok?
      && KeysOf(MapRelationArguments(w, sels, Named("Post"), [], "").value) == ["meta"]
  {
    var schema := map[
        "Post" := ObjectType(Some(ModelInstance(false)), map[
          "meta" := Field(Named("Meta"), Some([("locale", ArgMeta(None, IntType))])),
          "author" := Field(Named("User"), None)]),
        "Meta" := ObjectType(None, map["title" := Field(Named("String"), None)]),
        "User" := ObjectType(Some(ModelInstance(false)), map["id" := Field(Named("Int"), None)])];
    var sels := [
        Selection("meta", [], [Selection("title", [], [])]),
        Selection("author", [], [Selection("id", [], [])])];
    var w := Walk(names, schema, "Post", map[]);
    assert !IsEloquentModel(schema, Named("Meta"));
    assert IsEloquentModel(schema, Named("User"));
    assert sels[1..][1..] == [];
    var idSel := [Selection("id", [], [])];
    assert GetRelations(schema, idSel, Named("User"), ["author"], "author") == Ok(["author"]) by {
      assert idSel[1..] == [];
    }
    assert sels[1..][0].children == idSel;
    assert JoinPath("", "author") == "author";
    assert LookupField(schema, Named("Post"), "author") == Ok(Field(Named("User"), None));
    assert GetBaseType(Named("User")) == Named("User");
    assert [] + ["author"] == ["author"];
    assert GetFirstRelations(schema, sels[1..], Named("Post"), [], "") == Ok(["author"]);
    assert GetRelations(schema, sels, Named("Post"), [], "") == GetRelations(schema, sels[1..], Named("Post"), [], "");
    var b := BundleFor(w, sels[0], "meta");
    assert b.Ok?;
    assert MapRelationArguments(w, sels, Named("Post"), [], "") == MapRelationArguments(w, sels[1..], Named("Post"), [("meta", b.value)], "");
  }

  // ---------------------------------------------------------------------------
  // mapRelations
  // ---------------------------------------------------------------------------

  /** `collect($relations)->unique()`: the first occurrence of each path, in order. */
  function Unique(s: seq<string>): seq<string> {
    if s == [] then []
    else
      var u := Unique(s[..|s| - 1]);
      if s[|s| - 1] in u then u else u + [s[|s| - 1]]
  }

  /** The index of the first occurrence of `x` in `s`. */
  function IndexOf(s: seq<string>, x: string): (i: nat)
    requires x in s
    ensures i < |s| && s[i] == x && x !in s[..i]
  {
    if s[0] == x then 0 else 1 + IndexOf(s[1..], x)
  }

  lemma {:induction false} IndexOfPrefix(s: seq<string>, n: nat, x: string)
    requires n <= |s| && x in s[..n]
    ensures IndexOf(s, x) == IndexOf(s[..n], x)
  {
    assert s[..n][..IndexOf(s[..n], x)] == s[..IndexOf(s[..n], x)];
  }

  /**
   * The unique paths are exactly the paths, without repetition, in the order of their first
   * occurrence.
   */
  lemma {:induction false} UniqueFirstOccurrences(s: seq<string>)
    ensures forall x :: x in Unique(s) <==> x in s
    ensures forall i, j :: 0 <= i < j < |Unique(s)| ==> Unique(s)[i] != Unique(s)[j]
    ensures forall i, j :: 0 <= i < j < |Unique(s)| ==> IndexOf(s, Unique(s)[i]) < IndexOf(s, Unique(s)[j])
  {
    if s != [] {
      var init := s[..|s| - 1];
      var x := s[|s| - 1];
      UniqueFirstOccurrences(init);
      var u := Unique(init);
      assert s == init + [x];
      forall y | y in u ensures IndexOf(s, y) == IndexOf(init, y) {
        IndexOfPrefix(s, |s| - 1, y);
      }
      if x !in u {
        assert x !in init;
        assert IndexOf(s, x) == |s| - 1;
        var v := u + [x];
        forall i, j | 0 <= i < j < |v| ensures IndexOf(s, v[i]) < IndexOf(s, v[j]) {
          if j == |v| - 1 {
            assert v[i] in u;
            assert IndexOf(init, v[i]) < |init|;
          }
        }
      }
    }
  }

  /** The selections both walks start from: the query's own, or for a pagination type those of its first selection. */
  function RelationRoots(returnType: TypeRef, top: Selection): (r: Result<seq<Selection>>)
    ensures r.Ok? ==> r.value != []
    ensures r.Err? <==> top.children == [] || (returnType.Paginated? && top.children[0].children == [])
  {
    if top.children == [] then Err(SelectionSetMissing)
    else if returnType.Paginated? then
      if top.children[0].children == [] then Err(SelectionSetMissing)
      else Ok(top.children[0].children)
    else Ok(top.children)
  }

  /** Each unique relation path with its bundle; None where the source maps to `[]`. */
  function PairWithBundles(paths: seq<string>, bundles: seq<(string, Bundle)>): (r: seq<(string, Option<Bundle>)>)
    ensures |r| == |paths|
    ensures forall i :: 0 <= i < |paths| ==> r[i] == (paths[i], Get(bundles, paths[i]))
  {
    if paths == [] then [] else [(paths[0], Get(bundles, paths[0]))] + PairWithBundles(paths[1..], bundles)
  }

  /** What `mapRelations($info, $variables)` returns or throws, for the query field `top`. */
  function MapRelations(w: Walk, returnType: TypeRef, top: Selection): Result<seq<(string, Option<Bundle>)>> {
    var nodeType := GetBaseType(returnType);
    var sels :- RelationRoots(returnType, top);
    var arguments :- MapRelationArguments(w, sels, nodeType, [], "");
    var relations :- GetRelations(w.schema, sels, nodeType, [], "");
    Ok(PairWithBundles(Unique(relations), arguments))
  }

  /**
   * mapRelations gives one entry per distinct relation path, in first-occurrence order, each
   * with the bundle recorded under that path, or none.
   */
  lemma MapRelationsPairsUniquePaths(w: Walk, returnType: TypeRef, top: Selection)
    requires MapRelations(w, returnType, top).Ok?
    ensures var sels := RelationRoots(returnType, top).value;
      var relations := GetRelations(w.schema, sels, GetBaseType(returnType), [], "").value;
      var arguments := MapRelationArguments(w, sels, GetBaseType(returnType), [], "").value;
      var r := MapRelations(w, returnType, top).value;
      && (forall i :: 0 <= i < |r| ==> r[i].1 == Get(arguments, r[i].0))
      && (forall p :: p in relations <==> exists i :: 0 <= i < |r| && r[i].0 == p)
      && (forall i, j :: 0 <= i < j < |r| ==> r[i].0 != r[j].0)
      && (forall i, j :: 0 <= i < j < |r| ==> IndexOf(relations, r[i].0) < IndexOf(relations, r[j].0))
  {
    var sels := RelationRoots(returnType, top).value;
    var relations := GetRelations(w.schema, sels, GetBaseType(returnType), [], "").value;
    UniqueFirstOccurrences(relations);
    var u := Unique(relations);
    var r := MapRelations(w, returnType, top).value;
    forall p ensures p in relations <==> exists i :: 0 <= i < |r| && r[i].0 == p {
      if p in relations {
        var i :| 0 <= i < |u| && u[i] == p;
        assert r[i].0 == p;
      }
    }
  }

  /** `mapRelations($info, $variables)` as the source runs it: both walks, then the pairing. */
  method CollectRelationMap(w: Walk, returnType: TypeRef, top: Selection) returns (r: Result<seq<(string, Option<Bundle>)>>)
    ensures r == MapRelations(w, returnType, top)
  {
    var nodeType := GetBaseType(returnType);
    var roots := RelationRoots(returnType, top);
    if roots.Err? {
      return Err(roots.failure);
    }
    var arguments := CollectRelationArguments(w, roots.value, nodeType, [], "");
    if arguments.Err? {
      return Err(arguments.failure);
    }
    var relations := CollectRelations(w.schema, roots.value, nodeType, [], "");
    if relations.Err? {
      return Err(relations.failure);
    }
    return Ok(PairWithBundles(Unique(relations.value), arguments.value));
  }
}
