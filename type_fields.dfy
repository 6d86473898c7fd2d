/**
 * `processFields` of the Eloquent object type (src/Folklore/GraphQL/Eloquent/Type.php): every
 * field whose base type is model-backed gets the filter, order, limit and offset arguments,
 * and the trashed pair when the owning type's own model supports soft deletion.
 */
module TypeFields {
  import opened Php
  import opened Schema
  import opened Helper
  import opened QueryArgs

  /** A type's `fields` array: field key to definition, in order. */
  type FieldMap = seq<(string, Field)>

  /** What processFields reads of the type object besides its fields: names, schema, `name` and own model. */
  datatype OwnerType = OwnerType(names: AttributeNames, schema: Schema, name: string, model: Option<ModelConfig>)

  /** The filter argument of field `key`: the type name, the capitalised key, the capitalised filter token. */
  function FieldFilterName(o: OwnerType, key: string): string {
    FormatVariableName(o.names.baseFilter, Some(o.name), Some(key), o.name)
  }

  function FieldOrderName(o: OwnerType, key: string): string {
    FormatVariableName(o.names.baseOrderBy, Some(o.name), Some(key), o.name)
  }

  /** The entries of the `$injectedArgs` literal and the two trashed assignments, in source order. */
  function InjectedEntries(o: OwnerType, key: string): ArgMap {
    var f := FieldFilterName(o, key);
    var ob := FieldOrderName(o, key);
    [(f, Reserved(f, FilterList)), (ob, Reserved(ob, OrderList)),
     (o.names.limit, Reserved(o.names.limit, IntType)), (o.names.offset, Reserved(o.names.offset, IntType))]
    + (if ModelHasTrashed(o.model) then
         [(o.names.withTrashed, Reserved(o.names.withTrashed, BooleanType)),
          (o.names.onlyTrashed, Reserved(o.names.onlyTrashed, BooleanType))]
       else [])
  }

  /** The `$injectedArgs` array: its entries written one by one, a repeated key overwriting in place. */
  function InjectedArgs(o: OwnerType, key: string): ArgMap {
    MergeArgs([], InjectedEntries(o, key))
  }

  /** One field after processFields. */
  function ProcessedField(o: OwnerType, key: string, f: Field): Field {
    if IsEloquentModel(o.schema, GetBaseType(f.typ)) then
      var injected := InjectedArgs(o, key);
      f.(args := Some(if f.args.Some? then MergeArgs(f.args.value, injected) else injected))
    else f
  }

  /** `$newFields[$fieldKey] = $fieldMeta` for each field in turn. */
  function ProcessedFields(o: OwnerType, fields: FieldMap): FieldMap {
    if fields == [] then []
    else
      var last := fields[|fields| - 1];
      Put(ProcessedFields(o, fields[..|fields| - 1]), last.0, ProcessedField(o, last.0, last.1))
  }

  /** The body of processFields' loop for one field. */
  method ProcessField(o: OwnerType, fieldKey: string, field: Field) returns (fieldMeta: Field)
    ensures fieldMeta == ProcessedField(o, fieldKey, field)
  {
    fieldMeta := field;
    var t := GetBaseType(fieldMeta.typ);
    if IsEloquentModel(o.schema, t) {
      var injectedArgs := InjectedArgs(o, fieldKey);
      if fieldMeta.args.Some? {
        fieldMeta := fieldMeta.(args := Some(MergeArgs(fieldMeta.args.value, injectedArgs)));
      } else {
        fieldMeta := fieldMeta.(args := Some(injectedArgs));
      }
    }
  }

  /** `processFields($fields)`. */
  method ProcessFields(o: OwnerType, fields: FieldMap) returns (newFields: FieldMap)
    ensures newFields == ProcessedFields(o, fields)
  {
    newFields := [];
    var i := 0;
    while i < |fields|
      invariant 0 <= i <= |fields|
      invariant newFields == ProcessedFields(o, fields[..i])
    {
      assert fields[..i + 1][..i] == fields[..i];
      var fieldMeta := ProcessField(o, fields[i].0, fields[i].1);
      newFields := Put(newFields, fields[i].0, fieldMeta);
      i := i + 1;
    }
    assert fields[..i] == fields;
  }

  // ---------------------------------------------------------------------------
  // Properties
  // ---------------------------------------------------------------------------

  /**
   * processFields keeps every field key, in input order, and each field reads as the
   * processed version of the input field under the same key.
   */
  lemma {:induction false} ProcessFieldsKeepsKeys(o: OwnerType, fields: FieldMap)
    requires UniqueKeys(fields)
    ensures KeysOf(ProcessedFields(o, fields)) == KeysOf(fields)
    ensures forall k :: Get(ProcessedFields(o, fields), k) == (if Get(fields, k).Some? then Some(ProcessedField(o, k, Get(fields, k).value)) else None)
  {
    if fields != [] {
      var init, last := fields[..|fields| - 1], fields[|fields| - 1];
      LastKeyIsNew(fields);
      ProcessFieldsKeepsKeys(o, init);
      var p := ProcessedFields(o, init);
      var v := ProcessedField(o, last.0, last.1);
      PutNewKeyAppends(p, last.0, v);
      KeysOfAppend(init, [last]);
      forall k ensures Get(ProcessedFields(o, fields), k) ==
        (if Get(fields, k).Some? then Some(ProcessedField(o, k, Get(fields, k).value)) else None)
      {
        GetAfterPut(p, last.0, v, k);
        GetSnoc(init, last, k);
      }
    }
  }

  /** A field whose base type is not model-backed is copied unchanged. */
  lemma NonModelFieldUnchanged(o: OwnerType, key: string, f: Field)
    requires !IsEloquentModel(o.schema, GetBaseType(f.typ))
    ensures ProcessedField(o, key, f) == f
  {
  }

  /** The six injected names are pairwise distinct. */
  predicate InjectedNamesDistinct(o: OwnerType, key: string) {
    var all := [FieldFilterName(o, key), FieldOrderName(o, key), o.names.limit, o.names.offset, o.names.withTrashed, o.names.onlyTrashed];
    forall i, j :: 0 <= i < j < |all| ==> all[i] != all[j]
  }

  /** The filter and order arguments of field `key` on type `name`. */
  lemma FieldArgumentNames(o: OwnerType, key: string)
    ensures FieldFilterName(o, key) == o.name + Ucfirst(key) + Ucfirst(o.names.baseFilter)
    ensures FieldOrderName(o, key) == o.name + Ucfirst(key) + Ucfirst(o.names.baseOrderBy)
  {
  }

  lemma InjectedEntriesDistinct(o: OwnerType, key: string)
    requires InjectedNamesDistinct(o, key)
    ensures UniqueKeys(InjectedEntries(o, key))
  {
    var e := InjectedEntries(o, key);
    var all := [FieldFilterName(o, key), FieldOrderName(o, key), o.names.limit, o.names.offset, o.names.withTrashed, o.names.onlyTrashed];
    assert forall i :: 0 <= i < |e| ==> e[i].0 == all[i];
  }

  /**
   * With distinct names, a model-backed field gets the type-prefixed filter and order
   * arguments, limit and offset, in that order, then the trashed pair exactly when the owning
   * type's own model has `trashed`; nothing is overwritten.
   */
  lemma InjectedArgsContents(o: OwnerType, key: string)
    requires InjectedNamesDistinct(o, key)
    ensures InjectedArgs(o, key) == InjectedEntries(o, key)
    ensures UniqueKeys(InjectedArgs(o, key))
    ensures |InjectedArgs(o, key)| == if ModelHasTrashed(o.model) then 6 else 4
  {
    InjectedEntriesDistinct(o, key);
    MergeArgsOfNewKeys([], InjectedEntries(o, key));
  }

  /**
   * A model-backed field without `args` ends up with exactly the injected arguments; one with
   * `args` keeps its own arguments first, except where an injected argument has the same key.
   */
  lemma ModelFieldArguments(o: OwnerType, key: string, f: Field)
    requires IsEloquentModel(o.schema, GetBaseType(f.typ))
    requires InjectedNamesDistinct(o, key)
    ensures ProcessedField(o, key, f).typ == f.typ
    ensures f.args.None? ==> ProcessedField(o, key, f).args == Some(InjectedEntries(o, key))
    ensures f.args.Some? ==>
      var r := ProcessedField(o, key, f).args.value;
      && KeysOf(f.args.value) <= KeysOf(r)
      && (forall k :: Get(r, k) == if k in KeysOf(InjectedEntries(o, key)) then Get(InjectedEntries(o, key), k) else Get(f.args.value, k))
  {
    InjectedArgsContents(o, key);
    if f.args.Some? {
      MergeArgsLookup(f.args.value, InjectedEntries(o, key));
    }
  }

  /** The keys of the injected entries, in order. */
  lemma InjectedEntriesKeys(o: OwnerType, key: string)
    ensures KeysOf(InjectedEntries(o, key)) ==
      [FieldFilterName(o, key), FieldOrderName(o, key), o.names.limit, o.names.offset]
      + (if ModelHasTrashed(o.model) then [o.names.withTrashed, o.names.onlyTrashed] else [])
  {
    var names := [FieldFilterName(o, key), FieldOrderName(o, key), o.names.limit, o.names.offset]
      + (if ModelHasTrashed(o.model) then [o.names.withTrashed, o.names.onlyTrashed] else []);
    var e := InjectedEntries(o, key);
    assert forall i :: 0 <= i < |e| ==> e[i].0 == names[i];
    KeysOfNamed(e, names);
  }

  /**
   * The trashed arguments a model-backed field ends up with follow the owning type's own
   * model, not the model of the field's type, unless the field declared them itself.
   */
  lemma TrashedFollowsOwnModel(o: OwnerType, key: string, f: Field)
    requires IsEloquentModel(o.schema, GetBaseType(f.typ))
    requires InjectedNamesDistinct(o, key)
    ensures var r := ProcessedField(o, key, f).args.value;
      && (o.names.withTrashed in KeysOf(r) <==> ModelHasTrashed(o.model) || (f.args.Some? && o.names.withTrashed in KeysOf(f.args.value)))
      && (o.names.onlyTrashed in KeysOf(r) <==> ModelHasTrashed(o.model) || (f.args.Some? && o.names.onlyTrashed in KeysOf(f.args.value)))
  {
    ModelFieldArguments(o, key, f);
    TrashedInjectedExactly(o, key);
    var inj := InjectedEntries(o, key);
    if f.args.Some? {
      var r := ProcessedField(o, key, f).args.value;
      assert Get(r, o.names.withTrashed).Some? <==> Get(inj, o.names.withTrashed).Some? || Get(f.args.value, o.names.withTrashed).Some?;
      assert Get(r, o.names.onlyTrashed).Some? <==> Get(inj, o.names.onlyTrashed).Some? || Get(f.args.value, o.names.onlyTrashed).Some?;
    }
  }

  /** The trashed pair is among the injected keys exactly when the owning type's model has `trashed`. */
  lemma TrashedInjectedExactly(o: OwnerType, key: string)
    requires InjectedNamesDistinct(o, key)
    ensures o.names.withTrashed in KeysOf(InjectedEntries(o, key)) <==> ModelHasTrashed(o.model)
    ensures o.names.onlyTrashed in KeysOf(InjectedEntries(o, key)) <==> ModelHasTrashed(o.model)
  {
    InjectedEntriesKeys(o, key);
    var all := [FieldFilterName(o, key), FieldOrderName(o, key), o.names.limit, o.names.offset, o.names.withTrashed, o.names.onlyTrashed];
    assert all[4] != all[0] && all[4] != all[1] && all[4] != all[2] && all[4] != all[3];
    assert all[5] != all[0] && all[5] != all[1] && all[5] != all[2] && all[5] != all[3];
  }
}
