/**
 * `processArgs` of the Eloquent query (src/Folklore/GraphQL/Eloquent/Query.php): the query's
 * declared arguments are copied after a check against the reserved names, and the reserved
 * filter, order, limit, offset, trashed and pagination arguments are injected after them.
 */
module QueryArgs {
  import opened Php
  import opened Failures
  import opened Schema
  import opened Helper

  /** An `args` array: argument key to definition, in order. */
  type ArgMap = seq<(string, ArgMeta)>

  /** The five names a declared argument may not use; the trashed names are not among them. */
  function ReservedNames(names: AttributeNames): seq<string> {
    [names.filter, names.orderBy, names.pagination, names.limit, names.offset]
  }

  /** `in_array($argumentMeta['name'], ...)`: an absent name reads as null, which loosely equals only "". */
  predicate NameIsReserved(names: AttributeNames, name: Option<string>) {
    if name.None? then "" in ReservedNames(names) else name.value in ReservedNames(names)
  }

  /** A declared argument collides when its key or its `name` is reserved. */
  predicate Conflicts(names: AttributeNames, entry: (string, ArgMeta)) {
    entry.0 in ReservedNames(names) || NameIsReserved(names, entry.1.name)
  }

  /** The key of the first colliding argument, the one the loop throws on. */
  function FirstConflict(names: AttributeNames, args: ArgMap): Option<string> {
    if args == [] then None
    else
      var prev := FirstConflict(names, args[..|args| - 1]);
      if prev.Some? then prev
      else if Conflicts(names, args[|args| - 1]) then Some(args[|args| - 1].0)
      else None
  }

  /** `$newArgs[$argumentKey] = $argumentMeta` for each declared argument in turn. */
  function CopiedArgs(args: ArgMap): ArgMap {
    if args == [] then [] else Put(CopiedArgs(args[..|args| - 1]), args[|args| - 1].0, args[|args| - 1].1)
  }

  function Reserved(name: string, typ: ArgType): ArgMeta {
    ArgMeta(Some(name), typ)
  }

  /** The pagination argument's type: cursor for the `cursor` strategy, simple for any other. */
  function PaginationArgType(names: AttributeNames): ArgType {
    if names.paginationType == "cursor" then CursorPagination else SimplePagination
  }

  /** Filter, order-by, limit and offset, injected always and in that order. */
  function InjectAlways(names: AttributeNames, a: ArgMap): ArgMap {
    var a1 := Put(a, names.filter, Reserved(names.filter, FilterList));
    var a2 := Put(a1, names.orderBy, Reserved(names.orderBy, OrderList));
    var a3 := Put(a2, names.limit, Reserved(names.limit, IntType));
    Put(a3, names.offset, Reserved(names.offset, IntType))
  }

  /** The trashed pair, when the base type's model has a `trashed` method. */
  function InjectTrashed(names: AttributeNames, model: Option<ModelConfig>, a: ArgMap): ArgMap {
    if ModelHasTrashed(model) then
      Put(Put(a, names.withTrashed, Reserved(names.withTrashed, BooleanType)), names.onlyTrashed, Reserved(names.onlyTrashed, BooleanType))
    else a
  }

  /** The pagination argument, for a pagination result type. */
  function InjectPagination(names: AttributeNames, returnType: TypeRef, a: ArgMap): ArgMap {
    if returnType.Paginated? then Put(a, names.pagination, Reserved(names.pagination, PaginationArgType(names))) else a
  }

  /** The injection after the copy. */
  function Injected(names: AttributeNames, model: Option<ModelConfig>, returnType: TypeRef, a: ArgMap): ArgMap {
    InjectPagination(names, returnType, InjectTrashed(names, model, InjectAlways(names, a)))
  }

  /** What `processArgs($args)` returns or throws, for a query of type `returnType`. */
  function ProcessedArgs(names: AttributeNames, schema: Schema, returnType: TypeRef, args: ArgMap): Result<ArgMap> {
    match FirstConflict(names, args)
    case Some(k) => Err(ReservedArgumentName(k))
    case None => Ok(Injected(names, ModelOf(schema, GetBaseType(returnType)), returnType, CopiedArgs(args)))
  }

  method ProcessArgs(names: AttributeNames, schema: Schema, returnType: TypeRef, args: ArgMap) returns (r: Result<ArgMap>)
    ensures r == ProcessedArgs(names, schema, returnType, args)
  {
    var copy := CopyDeclaredArgs(names, args);
    if copy.Err? {
      return copy;
    }
    var newArgs := copy.value;
    ghost var copied := newArgs;
    newArgs := Put(newArgs, names.filter, Reserved(names.filter, FilterList));
    newArgs := Put(newArgs, names.orderBy, Reserved(names.orderBy, OrderList));
    newArgs := Put(newArgs, names.limit, Reserved(names.limit, IntType));
    newArgs := Put(newArgs, names.offset, Reserved(names.offset, IntType));
    assert newArgs == InjectAlways(names, copied);
    ghost var always := newArgs;
    if ModelHasTrashed(ModelOf(schema, GetBaseType(returnType))) {
      newArgs := Put(newArgs, names.withTrashed, Reserved(names.withTrashed, BooleanType));
      newArgs := Put(newArgs, names.onlyTrashed, Reserved(names.onlyTrashed, BooleanType));
    }
    assert newArgs == InjectTrashed(names, ModelOf(schema, GetBaseType(returnType)), always);
    if returnType.Paginated? {
      if names.paginationType == "cursor" {
        newArgs := Put(newArgs, names.pagination, Reserved(names.pagination, CursorPagination));
      } else {
        newArgs := Put(newArgs, names.pagination, Reserved(names.pagination, SimplePagination));
      }
    }
    r := Ok(newArgs);
  }

  /** The loop of processArgs: each declared argument is checked, then copied. */
  method CopyDeclaredArgs(names: AttributeNames, args: ArgMap) returns (r: Result<ArgMap>)
    ensures r == match FirstConflict(names, args) case Some(k) => Err(ReservedArgumentName(k)) case None => Ok(CopiedArgs(args))
  {
    var newArgs: ArgMap := [];
    var i := 0;
    while i < |args|
      invariant 0 <= i <= |args|
      invariant FirstConflict(names, args[..i]) == None
      invariant newArgs == CopiedArgs(args[..i])
    {
      assert args[..i + 1][..i] == args[..i];
      var (argumentKey, argumentMeta) := args[i];
      if argumentKey in ReservedNames(names) || NameIsReserved(names, argumentMeta.name) {
        FirstConflictPersists(names, args, i + 1);
        return Err(ReservedArgumentName(argumentKey));
      }
      newArgs := Put(newArgs, argumentKey, argumentMeta);
      i := i + 1;
    }
    assert args[..|args|] == args;
    r := Ok(newArgs);
  }

  lemma {:induction false} FirstConflictPersists(names: AttributeNames, args: ArgMap, n: nat)
    requires n <= |args| && FirstConflict(names, args[..n]).Some?
    ensures FirstConflict(names, args) == FirstConflict(names, args[..n])
  {
    if n < |args| {
      assert args[..|args| - 1][..n] == args[..n];
      FirstConflictPersists(names, args[..|args| - 1], n);
    } else {
      assert args[..n] == args;
    }
  }

  /** Entry `i` is the first colliding one. */
  predicate FirstConflicting(names: AttributeNames, args: ArgMap, i: int) {
    0 <= i < |args| && Conflicts(names, args[i]) && forall j :: 0 <= j < i ==> !Conflicts(names, args[j])
  }

  lemma {:induction false} FirstConflictFindsFirst(names: AttributeNames, args: ArgMap)
    ensures FirstConflict(names, args).None? <==> forall i :: 0 <= i < |args| ==> !Conflicts(names, args[i])
    ensures forall i :: FirstConflicting(names, args, i) ==> FirstConflict(names, args) == Some(args[i].0)
  {
    if args != [] {
      var init := args[..|args| - 1];
      FirstConflictFindsFirst(names, init);
      assert forall i :: 0 <= i < |init| ==> init[i] == args[i];
      forall i | FirstConflicting(names, args, i) ensures FirstConflict(names, args) == Some(args[i].0) {
        if i < |init| {
          assert FirstConflicting(names, init, i);
        }
      }
    }
  }

  /**
   * processArgs fails exactly when some declared argument's key or name is one of the five
   * reserved names, and then it names the key of the first such argument.
   */
  lemma ProcessArgsRejectsReservedNames(names: AttributeNames, schema: Schema, returnType: TypeRef, args: ArgMap)
    ensures ProcessedArgs(names, schema, returnType, args).Err? <==> exists i :: 0 <= i < |args| && Conflicts(names, args[i])
    ensures forall i :: FirstConflicting(names, args, i) ==>
      ProcessedArgs(names, schema, returnType, args) == Err(ReservedArgumentName(args[i].0))
  {
    FirstConflictFindsFirst(names, args);
  }

  /** Copying a PHP array (whose keys are distinct) entry by entry gives the same array. */
  lemma CopiedArgsIdentity(args: ArgMap)
    requires UniqueKeys(args)
    ensures CopiedArgs(args) == args
  {
    CopiedIsMerged(args);
    MergeArgsOfNewKeys([], args);
  }

  lemma {:induction false} CopiedIsMerged(args: ArgMap)
    ensures CopiedArgs(args) == MergeArgs([], args)
  {
    if args != [] {
      CopiedIsMerged(args[..|args| - 1]);
    }
  }


  /** The seven argument names are pairwise distinct, as they are with the default configuration. */
  predicate DistinctNames(names: AttributeNames) {
    var all := [names.filter, names.orderBy, names.pagination, names.limit, names.offset, names.withTrashed, names.onlyTrashed];
    forall i, j :: 0 <= i < j < |all| ==> all[i] != all[j]
  }

  lemma DistinctNamesFacts(names: AttributeNames)
    requires DistinctNames(names)
    ensures names.filter != names.orderBy && names.filter != names.pagination && names.filter != names.limit
    ensures names.filter != names.offset && names.filter != names.withTrashed && names.filter != names.onlyTrashed
    ensures names.orderBy != names.pagination && names.orderBy != names.limit && names.orderBy != names.offset
    ensures names.orderBy != names.withTrashed && names.orderBy != names.onlyTrashed
    ensures names.pagination != names.limit && names.pagination != names.offset
    ensures names.pagination != names.withTrashed && names.pagination != names.onlyTrashed
    ensures names.limit != names.offset && names.limit != names.withTrashed && names.limit != names.onlyTrashed
    ensures names.offset != names.withTrashed && names.offset != names.onlyTrashed
    ensures names.withTrashed != names.onlyTrashed
  {
    var all := [names.filter, names.orderBy, names.pagination, names.limit, names.offset, names.withTrashed, names.onlyTrashed];
    assert all[0] != all[1] && all[0] != all[2] && all[0] != all[3] && all[0] != all[4] && all[0] != all[5] && all[0] != all[6];
    assert all[1] != all[2] && all[1] != all[3] && all[1] != all[4] && all[1] != all[5] && all[1] != all[6];
    assert all[2] != all[3] && all[2] != all[4] && all[2] != all[5] && all[2] != all[6];
    assert all[3] != all[4] && all[3] != all[5] && all[3] != all[6];
    assert all[4] != all[5] && all[4] != all[6] && all[5] != all[6];
  }

  /** With an empty configuration the seven names are distinct, whatever the current type is called. */
  lemma DefaultNamesDistinct(current: string)
    ensures DistinctNames(SetupAttributeNames(Settings(map[], None), current))
  {
    DefaultAttributeNames(current);
    var names := SetupAttributeNames(Settings(map[], None), current);
    var all := [names.filter, names.orderBy, names.pagination, names.limit, names.offset, names.withTrashed, names.onlyTrashed];
    EndsWith(current, "EloquentFilter");
    EndsWith(current, "EloquentOrderBy");
    EndsWith(current, "EloquentPagination");
    var last := ['r', 'y', 'n', 't', 't', 'd', 'd'];
    assert forall i :: 0 <= i < 7 ==> |all[i]| > 0 && all[i][|all[i]| - 1] == last[i];
    forall i, j | 0 <= i < j < 7 ensures all[i] != all[j] {
      if i == 3 && j == 4 {
        assert |all[i]| != |all[j]|;
      } else if i == 5 && j == 6 {
        assert all[i][8] != all[j][8];
      } else {
        assert last[i] != last[j];
      }
    }
  }

  lemma EndsWith(c: string, s: string)
    requires |s| > 0
    ensures |c + s| > 0 && (c + s)[|c + s| - 1] == s[|s| - 1]
  {
  }

  /**
   * A lookup in the injected array: the last injection of the key wins, and a key that is not
   * injected reads as in the array injected into.
   */
  function InjectedLookup(names: AttributeNames, model: Option<ModelConfig>, returnType: TypeRef, a: ArgMap, q: string): Option<ArgMeta> {
    if returnType.Paginated? && q == names.pagination then Some(Reserved(names.pagination, PaginationArgType(names)))
    else if ModelHasTrashed(model) && q == names.onlyTrashed then Some(Reserved(names.onlyTrashed, BooleanType))
    else if ModelHasTrashed(model) && q == names.withTrashed then Some(Reserved(names.withTrashed, BooleanType))
    else if q == names.offset then Some(Reserved(names.offset, IntType))
    else if q == names.limit then Some(Reserved(names.limit, IntType))
    else if q == names.orderBy then Some(Reserved(names.orderBy, OrderList))
    else if q == names.filter then Some(Reserved(names.filter, FilterList))
    else Get(a, q)
  }

  lemma InjectAlwaysLookup(names: AttributeNames, a: ArgMap, q: string)
    ensures KeysOf(a) <= KeysOf(InjectAlways(names, a))
    ensures Get(InjectAlways(names, a), q) ==
      if q == names.offset then Some(Reserved(names.offset, IntType))
      else if q == names.limit then Some(Reserved(names.limit, IntType))
      else if q == names.orderBy then Some(Reserved(names.orderBy, OrderList))
      else if q == names.filter then Some(Reserved(names.filter, FilterList))
      else Get(a, q)
  {
    var a1 := Put(a, names.filter, Reserved(names.filter, FilterList));
    var a2 := Put(a1, names.orderBy, Reserved(names.orderBy, OrderList));
    var a3 := Put(a2, names.limit, Reserved(names.limit, IntType));
    assert InjectAlways(names, a) == Put(a3, names.offset, Reserved(names.offset, IntType));
    PutKeepsKeys(a, names.filter, Reserved(names.filter, FilterList));
    PutKeepsKeys(a1, names.orderBy, Reserved(names.orderBy, OrderList));
    PutKeepsKeys(a2, names.limit, Reserved(names.limit, IntType));
    PutKeepsKeys(a3, names.offset, Reserved(names.offset, IntType));
    GetAfterPut(a, names.filter, Reserved(names.filter, FilterList), q);
    GetAfterPut(a1, names.orderBy, Reserved(names.orderBy, OrderList), q);
    GetAfterPut(a2, names.limit, Reserved(names.limit, IntType), q);
    GetAfterPut(a3, names.offset, Reserved(names.offset, IntType), q);
  }

  lemma PutKeepsKeys(a: ArgMap, k: string, v: ArgMeta)
    ensures KeysOf(a) <= KeysOf(Put(a, k, v))
  {
  }

  lemma InjectTrashedLookup(names: AttributeNames, model: Option<ModelConfig>, a: ArgMap, q: string)
    ensures KeysOf(a) <= KeysOf(InjectTrashed(names, model, a))
    ensures Get(InjectTrashed(names, model, a), q) ==
      if ModelHasTrashed(model) && q == names.onlyTrashed then Some(Reserved(names.onlyTrashed, BooleanType))
      else if ModelHasTrashed(model) && q == names.withTrashed then Some(Reserved(names.withTrashed, BooleanType))
      else Get(a, q)
  {
    if ModelHasTrashed(model) {
      var t := Put(a, names.withTrashed, Reserved(names.withTrashed, BooleanType));
      GetAfterPut(a, names.withTrashed, Reserved(names.withTrashed, BooleanType), q);
      GetAfterPut(t, names.onlyTrashed, Reserved(names.onlyTrashed, BooleanType), q);
    }
  }

  lemma InjectPaginationLookup(names: AttributeNames, returnType: TypeRef, a: ArgMap, q: string)
    ensures KeysOf(a) <= KeysOf(InjectPagination(names, returnType, a))
    ensures Get(InjectPagination(names, returnType, a), q) ==
      if returnType.Paginated? && q == names.pagination then Some(Reserved(names.pagination, PaginationArgType(names)))
      else Get(a, q)
  {
    if returnType.Paginated? {
      GetAfterPut(a, names.pagination, Reserved(names.pagination, PaginationArgType(names)), q);
    }
  }

  /** Reading the injected array: the reserved entries the source injects, and the rest as before. */
  lemma GetInjected(names: AttributeNames, model: Option<ModelConfig>, returnType: TypeRef, a: ArgMap, q: string)
    ensures KeysOf(a) <= KeysOf(Injected(names, model, returnType, a))
    ensures Get(Injected(names, model, returnType, a), q) == InjectedLookup(names, model, returnType, a, q)
  {
    var a4 := InjectAlways(names, a);
    var a5 := InjectTrashed(names, model, a4);
    InjectAlwaysLookup(names, a, q);
    InjectTrashedLookup(names, model, a4, q);
    InjectPaginationLookup(names, returnType, a5, q);
  }

  /** On success, the result is the injection into the declared arguments themselves. */
  lemma ProcessedArgsValue(names: AttributeNames, schema: Schema, returnType: TypeRef, args: ArgMap)
    requires UniqueKeys(args) && ProcessedArgs(names, schema, returnType, args).Ok?
    ensures ProcessedArgs(names, schema, returnType, args).value == Injected(names, ModelOf(schema, GetBaseType(returnType)), returnType, args)
    ensures forall k :: k in KeysOf(args) ==> k !in ReservedNames(names)
  {
    CopiedArgsIdentity(args);
    FirstConflictFindsFirst(names, args);
    DeclaredKeysNotReserved(names, args);
  }

  lemma DeclaredKeysNotReserved(names: AttributeNames, args: ArgMap)
    requires forall i :: 0 <= i < |args| ==> !Conflicts(names, args[i])
    ensures forall k :: k in KeysOf(args) ==> k !in ReservedNames(names)
  {
    forall k | k in KeysOf(args) ensures k !in ReservedNames(names) {
      var j :| 0 <= j < |args| && KeysOf(args)[j] == k;
      KeysOfIndex(args, j);
      assert !Conflicts(names, args[j]);
    }
  }

  /**
   * On success the declared arguments come first, in their order, and keep their definitions,
   * except that one under a trashed name is replaced when the trashed pair is injected.
   */
  lemma ProcessArgsKeepsDeclared(names: AttributeNames, schema: Schema, returnType: TypeRef, args: ArgMap, k: string)
    requires UniqueKeys(args)
    requires ProcessedArgs(names, schema, returnType, args).Ok?
    ensures KeysOf(args) <= KeysOf(ProcessedArgs(names, schema, returnType, args).value)
    ensures k in KeysOf(args) && (k == names.withTrashed || k == names.onlyTrashed ==> !ModelHasTrashed(ModelOf(schema, GetBaseType(returnType)))) ==>
      Get(ProcessedArgs(names, schema, returnType, args).value, k) == Get(args, k)
  {
    var model := ModelOf(schema, GetBaseType(returnType));
    ProcessedArgsValue(names, schema, returnType, args);
    GetInjected(names, model, returnType, args, k);
    if k in KeysOf(args) {
      assert k !in ReservedNames(names);
      assert k != names.filter && k != names.orderBy && k != names.pagination && k != names.limit && k != names.offset;
      assert InjectedLookup(names, model, returnType, args, k) == Get(args, k) || k == names.withTrashed || k == names.onlyTrashed;
    }
  }

  /**
   * On success filter, order-by, limit and offset are always injected, and the trashed pair
   * when the base model has `trashed`.
   */
  lemma ProcessArgsInjectsReserved(names: AttributeNames, schema: Schema, returnType: TypeRef, args: ArgMap)
    requires DistinctNames(names) && UniqueKeys(args)
    requires ProcessedArgs(names, schema, returnType, args).Ok?
    ensures var r := ProcessedArgs(names, schema, returnType, args).value;
      && Get(r, names.filter) == Some(Reserved(names.filter, FilterList))
      && Get(r, names.orderBy) == Some(Reserved(names.orderBy, OrderList))
      && Get(r, names.limit) == Some(Reserved(names.limit, IntType))
      && Get(r, names.offset) == Some(Reserved(names.offset, IntType))
      && (ModelHasTrashed(ModelOf(schema, GetBaseType(returnType))) ==>
            && Get(r, names.withTrashed) == Some(Reserved(names.withTrashed, BooleanType))
            && Get(r, names.onlyTrashed) == Some(Reserved(names.onlyTrashed, BooleanType)))
  {
    var model := ModelOf(schema, GetBaseType(returnType));
    ProcessedArgsValue(names, schema, returnType, args);
    DistinctNamesFacts(names);
    GetInjected(names, model, returnType, args, names.filter);
    GetInjected(names, model, returnType, args, names.orderBy);
    GetInjected(names, model, returnType, args, names.limit);
    GetInjected(names, model, returnType, args, names.offset);
    GetInjected(names, model, returnType, args, names.withTrashed);
    GetInjected(names, model, returnType, args, names.onlyTrashed);
  }

  /**
   * On success there is a pagination argument exactly for a pagination result type, and it has
   * the cursor type only under the cursor strategy.
   */
  lemma ProcessArgsInjectsPagination(names: AttributeNames, schema: Schema, returnType: TypeRef, args: ArgMap)
    requires DistinctNames(names) && UniqueKeys(args)
    requires ProcessedArgs(names, schema, returnType, args).Ok?
    ensures var r := ProcessedArgs(names, schema, returnType, args).value;
      && (Get(r, names.pagination).Some? <==> returnType.Paginated?)
      && (returnType.Paginated? ==> Get(r, names.pagination) == Some(Reserved(names.pagination, PaginationArgType(names))))
  {
    ProcessedArgsValue(names, schema, returnType, args);
    DistinctNamesFacts(names);
    GetInjected(names, ModelOf(schema, GetBaseType(returnType)), returnType, args, names.pagination);
  }

  /**
   * The trashed names are not reserved: an argument declared under one is accepted, and it
   * is silently replaced by the injected boolean argument when the base model has `trashed`.
   */
  lemma TrashedNameSilentlyReplaced(names: AttributeNames, schema: Schema, returnType: TypeRef, m: ArgMeta)
    requires DistinctNames(names) && !NameIsReserved(names, m.name)
    ensures var r := ProcessedArgs(names, schema, returnType, [(names.withTrashed, m)]);
      && r.Ok?
      && (ModelHasTrashed(ModelOf(schema, GetBaseType(returnType))) ==>
            Get(r.value, names.withTrashed) == Some(Reserved(names.withTrashed, BooleanType)))
      && (!ModelHasTrashed(ModelOf(schema, GetBaseType(returnType))) ==> Get(r.value, names.withTrashed) == Some(m))
  {
    var args := [(names.withTrashed, m)];
    DistinctNamesFacts(names);
    assert args[..0] == [];
    assert !Conflicts(names, args[0]);
    assert FirstConflict(names, args) == None;
    assert CopiedArgs(args) == args;
    var model := ModelOf(schema, GetBaseType(returnType));
    assert ProcessedArgs(names, schema, returnType, args) == Ok(Injected(names, model, returnType, args));
    GetInjected(names, model, returnType, args, names.withTrashed);
  }
}
