# The query-plan compiler of the GraphQL Eloquent integration, in Dafny

The Laravel GraphQL Eloquent integration turns a GraphQL query into calls on an Eloquent query
builder. An Eloquent query class gets reserved arguments injected into its declared ones:
filter, order-by, limit, offset, the trashed pair and pagination. When a query is resolved,
the class reads its field node and the request's variables. It then puts together:

- the eager loads of the selected relations, each with a constraint built from that relation's
  own arguments and variables;
- the filter conditions and order rows of the base model;
- a final `paginate` or `first` call.

An Eloquent object type likewise injects the filter, order, limit, offset and trashed arguments
into its model-backed fields.

This project models that compiler over plain values:

- a GraphQL schema is a map from type names to object types, with their models and fields;
- a selection is a tree of field nodes, each with its arguments;
- the request's variables are JSON values;
- PHP's ordered arrays are sequences of key/value pairs;
- the Eloquent builder is a class that records the calls made on it, in order.

Exceptions are `Failure` values. An operation that can throw returns a `Result`, or a
`Trace`: the calls it made, and the exception it ended with, if any.

Modules, one file each:

- `Php`: ordered arrays, and the PHP casts and comparisons the source relies on.
- `Failures`: the exceptions.
- `Schema`: types and fields.
- `Builder`: the recorded builder calls.
- `Helper`: name setup, base types, variable names, model detection.
- `Extract`: casting values, arguments by name, rows from variables.
- `QueryArgs`: processArgs.
- `Relations`: the two traversals of the selection tree, and their pairing.
- `Conditions`: applying filter conditions and order rows.
- `Requests`: the relation constraints, base filters, base order and pagination.
- `Resolve`: resolve.
- `TypeFields`: processFields of the object type.

## Where the model follows the code rather than the documented intent

Each of these is proved about the model:

- Every row read from a filter or order variable is pushed twice
  (`Extract.FormattedRowsTwice`). This follows `src/Folklore/GraphQL/Eloquent/Query.php:349-350`.
- A relation hook that returns anything but null stops that relation's constraint, `true`
  included (`Requests.RelationHookResultStopsConstraint`).
- The base hook stops the filters only when it returns a non-null falsy value.
- The relations traversal and the arguments traversal select different fields
  (`Relations.WalksDisagree`):
  - a field that declares arguments gets a bundle even when its type has no model;
  - a model-backed field without arguments never gets one.
- The switch over relation operators compares a lower-cased operator with the labels
  `orWhereHas` and `orWhereDoesntHave`, so those two branches are unreachable
  (`Conditions.OrBranchesUnreachable`).
- The where-operator test is case-sensitive but the allow-list test is not. So `like`,
  `between` and `in` in lower case reach the "allowed but not processed" exception.
- The trashed names are not reserved. An argument declared under one is silently replaced
  (`QueryArgs.TrashedNameSilentlyReplaced`).
- A trashed flag given through a variable reads as null (`Relations.VariableFlagReadsNull`).
- The variable names of nested relations contain dots, so no GraphQL variable can supply them
  (`Helper.NestedVariableNameIsNotGraphQLName`).
- `user.roles` and `userRoles` share one hook name.
- "comments" and "Comments" share one variable name.
- A list-typed query also ends with `first()`, not a fetch of its collection (`Resolve.FetchOp`).
- The limit, offset and trashed arguments injected into the query itself are never applied to
  the base query: its calls are the relations, the base conditions, the base order and the
  fetch only (`Resolve.ResolveCallOrder`).
- An exception inside a relation constraint does not stop resolve: the constraint's calls and
  exception are held inside that relation's `with` entry and surface only when the fetch runs
  the eager load (`Requests.EagerLoadsFollowPairs`).
- Cursor pagination is not implemented: it falls back to `paginate(perPage, 0)`.
- The page defaults to 0.

## Model

| member | source | states |
|---|---|---|
| Helper.SetupAttributeNames | src/Folklore/GraphQL/Eloquent/Helper.php:105-129 | the three base tokens, the per-page size (10), the pagination strategy ("simple") and the trashed, limit and offset names are each read from configuration, with their defaults; the filter, order-by and pagination names are the current type's name followed by the capitalised base token |
| Helper.DefaultAttributeNames | src/Folklore/GraphQL/Eloquent/Helper.php:105-129 | with an empty configuration: the default tokens, per-page 10, the simple strategy, and the three prefixed names built on the current type's name |
| Helper.BaseTypeRewraps | src/Folklore/GraphQL/Eloquent/Helper.php:137-151 | the base type strips at most one pagination wrapper and then one list wrapper; re-wrapping it in what was stripped gives back the original type; a bare type is its own base type |
| Helper.BaseTypeOfPaginatedList | src/Folklore/GraphQL/Eloquent/Helper.php:137-151 | a pagination of a list of T, and a list of T, both have base type T; a list of lists loses only one level |
| Helper.IsEloquentModelExactly | src/Folklore/GraphQL/Eloquent/Helper.php:179-182 | a type is model-backed exactly when its configuration holds a model instance |
| Helper.FormatVariableNameKeepsPath | src/Folklore/GraphQL/Eloquent/Helper.php:160-171 | with a type and a relationship, the name is the type name, the path with only its first character upper-cased, then the capitalised token; inner dots stay |
| Helper.FormatVariableNameOfType | src/Folklore/GraphQL/Eloquent/Helper.php:160-171 | without a relationship, the name is the type name followed by the capitalised token; without a type name, the current base type's name is used |
| Helper.FormatVariableNameCollides | src/Folklore/GraphQL/Eloquent/Helper.php:160-171 | two relationship paths under one type share a variable name exactly when they agree once their first characters are capitalised |
| Helper.FormatVariableNameCaseCollision | src/Folklore/GraphQL/Eloquent/Helper.php:164 | "comments" and "Comments" on Post share the name "PostCommentsEloquentFilter" |
| Helper.NestedVariableNameIsNotGraphQLName | src/Folklore/GraphQL/Eloquent/Helper.php:164 | the variable name of a relationship path that contains a dot is not a valid GraphQL name |
| Extract.CastValueByHint | src/Folklore/GraphQL/Eloquent/Query.php:184-199 | each of integer, boolean, float and timestamp selects its conversion; any other hint, and no hint, converts to a string |
| Extract.CastIntegerRoundTrip | src/Folklore/GraphQL/Eloquent/Query.php:189-190 | the decimal text of an integer, under the integer hint, gives back that integer |
| Extract.CastBooleanOfText | src/Folklore/GraphQL/Eloquent/Query.php:191-192 | the boolean hint follows PHP truthiness: "true" and "false" are both true, "0" and "" are false |
| Php.IntCastOfExponentForm | src/Folklore/GraphQL/Eloquent/Query.php:189-190 | a string of digits, `e`, and digits casts to the first number times ten to the power of the second, as PHP 7.1 reads a numeric string through float |
| Php.IntCastOfExponentText | src/Folklore/GraphQL/Eloquent/Query.php:189-190 | "1e3" casts to 1000 |
| Php.IntCastOfFractionExponentText | src/Folklore/GraphQL/Eloquent/Query.php:189-190 | "1.5e3" casts to 1500 |
| Php.IntCastOfNegativeFractionText | src/Folklore/GraphQL/Eloquent/Query.php:189-190 | "-1.9" casts to -1: the fraction is truncated toward zero |
| Extract.CastDefaultStringifies | src/Folklore/GraphQL/Eloquent/Query.php:195-197 | without a hint, true becomes "1" and an integer becomes its decimal text; an unknown hint keeps a string unchanged |
| Extract.ExtractArgumentByNameFirstMatch | src/Folklore/GraphQL/Eloquent/Query.php:210-223 | the FIRST argument with the name gives the value, null for a variable or composite value; with no such argument, the default |
| Extract.FilterArgumentsByName | src/Folklore/GraphQL/Eloquent/Query.php:232-289 | every row it returns is an equality test joined by AND, with an uncast value |
| Extract.ExtractFilterArgumentsByName | src/Folklore/GraphQL/Eloquent/Query.php:232-289 | returns exactly the rows of FilterArgumentsByName |
| Extract.CollectNamedValues | src/Folklore/GraphQL/Eloquent/Query.php:237-267 | the argument loop builds exactly the keyed values NamedValues describes |
| Extract.NamedValuesKeys | src/Folklore/GraphQL/Eloquent/Query.php:238-266 | every collected key is the name of one of the node's arguments that is not bypassed |
| Extract.FilterRowsNameKeptArguments | src/Folklore/GraphQL/Eloquent/Query.php:240-285 | for a node with arguments, every row is named after one of its own arguments that is not bypassed |
| Extract.FieldVariableOnlyWithoutArguments | src/Folklore/GraphQL/Eloquent/Query.php:237-271 | the variable named like the field is read exactly when the node has no arguments; otherwise changing it changes nothing |
| Extract.VariableArgumentReadByArgumentName | src/Folklore/GraphQL/Eloquent/Query.php:257-261 | an argument `status: $s` is looked up as the variable "status", not as "s" |
| Extract.ExtractArgumentsFromVariable | src/Folklore/GraphQL/Eloquent/Query.php:299-357 | returns exactly ArgumentsFromVariable, including its exceptions |
| Extract.FormatArgumentRow | src/Folklore/GraphQL/Eloquent/Query.php:313-350 | one entry checked and formatted exactly as FormatRow describes |
| Extract.VariableShapeChecks | src/Folklore/GraphQL/Eloquent/Query.php:302-307 | an unset or null variable gives no rows; a set variable that is not an array throws |
| Extract.FormatRowFailsExactly | src/Folklore/GraphQL/Eloquent/Query.php:313-330 | an entry fails exactly when it is bad: no name, or a filter-kind entry without a value; each case throws its own exception |
| Extract.FormattedRowsFailure | src/Folklore/GraphQL/Eloquent/Query.php:312-351 | the variable's rows fail exactly when some entry is bad; no bad entry is dropped silently |
| Extract.FormattedRowsFirstFailure | src/Folklore/GraphQL/Eloquent/Query.php:312-351 | the exception is the one of the first bad entry |
| Extract.FormattedRowsFailAt | src/Folklore/GraphQL/Eloquent/Query.php:312-351 | an entry that fails after a prefix that succeeded decides the result |
| Extract.FormattedRowsTwice | src/Folklore/GraphQL/Eloquent/Query.php:349-350 | on success there are two rows per entry: rows 2i and 2i+1 are both the formatting of entry i |
| Extract.FormatRowDefaults | src/Folklore/GraphQL/Eloquent/Query.php:318-346 | a filter row has the cast value, the operator defaulting to "=" and the join to "AND"; an order row has its value defaulting to "asc", and no operator or join |
| QueryArgs.ProcessArgs | src/Folklore/GraphQL/Eloquent/Query.php:81-175 | returns exactly ProcessedArgs: the reserved-name check, the copy, then the injections |
| QueryArgs.CopyDeclaredArgs | src/Folklore/GraphQL/Eloquent/Query.php:86-110 | throws for the first conflicting argument, naming its key; otherwise returns the arguments copied entry by entry |
| QueryArgs.ProcessArgsRejectsReservedNames | src/Folklore/GraphQL/Eloquent/Query.php:86-107 | processArgs throws exactly when some argument's key or name is one of the five reserved names; the exception names the first such argument's key |
| QueryArgs.CopiedArgsIdentity | src/Folklore/GraphQL/Eloquent/Query.php:109 | copying an array with distinct keys, entry by entry, gives the same array |
| QueryArgs.DefaultNamesDistinct | src/Folklore/GraphQL/Eloquent/Helper.php:105-129 | with an empty configuration, the seven reserved names are pairwise distinct whatever the current type is called |
| QueryArgs.GetInjected | src/Folklore/GraphQL/Eloquent/Query.php:117-172 | reading the injected array gives the reserved entries where injected, the declared arguments elsewhere, and no declared key is lost |
| QueryArgs.ProcessedArgsValue | src/Folklore/GraphQL/Eloquent/Query.php:81-175 | on success the result is the injection into the declared arguments themselves, and no declared key is reserved |
| QueryArgs.ProcessArgsKeepsDeclared | src/Folklore/GraphQL/Eloquent/Query.php:109-153 | on success every declared argument is kept with its definition, except one under a trashed name when the trashed pair is injected |
| QueryArgs.ProcessArgsInjectsReserved | src/Folklore/GraphQL/Eloquent/Query.php:117-153 | on success filter, order-by, limit and offset are injected with their types, and the trashed pair when the base model has `trashed` |
| QueryArgs.ProcessArgsInjectsPagination | src/Folklore/GraphQL/Eloquent/Query.php:155-172 | there is a pagination argument exactly for a pagination result type; it has the cursor type only under the cursor strategy |
| QueryArgs.TrashedNameSilentlyReplaced | src/Folklore/GraphQL/Eloquent/Query.php:91-104 | an argument under a trashed name is accepted; it is replaced by the injected boolean when the model has `trashed`, and kept otherwise |
| Relations.LookupField | src/Folklore/GraphQL/Eloquent/Query.php:376 | field lookup succeeds exactly for a field the named type defines, and gives that field |
| Relations.CollectRelations | src/Folklore/GraphQL/Eloquent/Query.php:438-468 | returns exactly GetRelations |
| Relations.CollectRelationArguments | src/Folklore/GraphQL/Eloquent/Query.php:370-428 | returns exactly MapRelationArguments |
| Relations.GetRelationsIsRelationPaths | src/Folklore/GraphQL/Eloquent/Query.php:438-468 | the accumulator walk appends the dotted paths of a recursive reference definition, and fails exactly when that definition fails |
| Relations.GetRelationsModelPathsPrefixClosed | src/Folklore/GraphQL/Eloquent/Query.php:443-463 | getRelations reports only paths of model-backed fields; every parent path is reported before its children |
| Relations.MapRelationArgumentsIsBundlePaths | src/Folklore/GraphQL/Eloquent/Query.php:370-428 | the accumulator walk writes, in order, the bundles of a recursive reference definition, and fails exactly when that definition fails |
| Relations.MapRelationArgumentsOnlyDeclaredFields | src/Folklore/GraphQL/Eloquent/Query.php:373-424 | a bundle is recorded only for a field that declares arguments; the walk descends only through model-backed fields |
| Relations.BundleForParts | src/Folklore/GraphQL/Eloquent/Query.php:379-407 | a bundle's filter rows are the by-name rows followed by the rows of the relation's filter variable; its order rows come from the order variable; its limit and trashed entries default to false |
| Relations.VariableFlagReadsNull | src/Folklore/GraphQL/Eloquent/Query.php:403 | a trashed flag passed as a variable reads as null |
| Relations.RelationVariableNames | src/Folklore/GraphQL/Eloquent/Query.php:382-399 | a relation's variable names are built on the query's base type name at every depth |
| Relations.WalksDisagree | src/Folklore/GraphQL/Eloquent/Query.php:373-463 | on an example schema, a field that declares arguments but has no model gets a bundle and no relation, and a model-backed field without arguments gets a relation and no bundle |
| Relations.UniqueFirstOccurrences | src/Folklore/GraphQL/Eloquent/Query.php:499-500 | the de-duplicated paths are exactly the paths, without repetition, in first-occurrence order |
| Relations.RelationRoots | src/Folklore/GraphQL/Eloquent/Query.php:479-497 | the walks start from the field's selections, or for a pagination type from those of its first selection; the step fails exactly when a selection is missing |
| Relations.PairWithBundles | src/Folklore/GraphQL/Eloquent/Query.php:501-503 | each path is paired with the bundle recorded under it, or none |
| Relations.MapRelationsPairsUniquePaths | src/Folklore/GraphQL/Eloquent/Query.php:477-504 | mapRelations gives each distinct relation path once, in first-occurrence order, with its bundle or none |
| Relations.CollectRelationMap | src/Folklore/GraphQL/Eloquent/Query.php:477-504 | returns exactly MapRelations |
| Conditions.ForbiddenExactly | src/Folklore/GraphQL/Eloquent/Query.php:515-521 | an operator is forbidden exactly when no configured operator matches it, ignoring case |
| Conditions.WhereOperatorEmitsWhere | src/Folklore/GraphQL/Eloquent/Query.php:523-526 | an allowed where-operator in its exact case makes one `where` call with the row's name, operator, value and join |
| Conditions.NotProcessedExactly | src/Folklore/GraphQL/Eloquent/Query.php:521-563 | a condition throws "allowed but not processed" exactly when its operator passes the allow-list, is not a where-operator in its exact case, and matches none of the four lower-case labels |
| Conditions.LowerCaseWordOperatorNotProcessed | src/Folklore/GraphQL/Eloquent/Query.php:521-563 | lower-case like, between and in pass the allow-list but throw "allowed but not processed" |
| Conditions.HasDefaults | src/Folklore/GraphQL/Eloquent/Query.php:530-537 | `has` without operator and count entries checks for at least one |
| Conditions.TimestampValueCannotBeIndexed | src/Folklore/GraphQL/Eloquent/Query.php:530-560 | a relation operator whose value is a timestamp object throws before any call |
| Conditions.OrBranchesUnreachable | src/Folklore/GraphQL/Eloquent/Query.php:547-561 | no condition ever makes an orWhereHas or orWhereDoesntHave call |
| Conditions.ConditionOpIsCondition | src/Folklore/GraphQL/Eloquent/Query.php:520-568 | a succeeding condition makes only a where call or a relation-existence call |
| Conditions.FilterTraceStopsAtFirstFailure | src/Folklore/GraphQL/Eloquent/Query.php:520-569 | one call per condition, in order, up to the first condition that throws; that condition's exception ends the trace |
| Conditions.OrderOpsInListOrder | src/Folklore/GraphQL/Eloquent/Query.php:581-588 | one `orderBy(name, value)` call per row, in list order |
| Conditions.ApplyFilterToQuery | src/Folklore/GraphQL/Eloquent/Query.php:513-572 | the builder gains exactly the filter trace's calls, and the method returns its exception |
| Conditions.ApplyOrderToQuery | src/Folklore/GraphQL/Eloquent/Query.php:581-588 | the builder gains exactly the order calls |
| Requests.ImplodeExplode | src/Folklore/GraphQL/Eloquent/Query.php:635 | splitting a relation path on dots loses nothing: the pieces join back to the path |
| Requests.ExplodedPiecesHaveNoDot | src/Folklore/GraphQL/Eloquent/Query.php:635 | no piece holds a dot |
| Requests.HookResult | src/Folklore/GraphQL/Eloquent/Query.php:636-637 | a hook result exists exactly when the class has the method, matched ignoring case |
| Requests.RelationHookNamesCollide | src/Folklore/GraphQL/Eloquent/Query.php:635 | `a.b` and `aB` run the same hook, `beforeABQuery` |
| Requests.RequestedRelations | src/Folklore/GraphQL/Eloquent/Query.php:619-682 | the builder gains exactly the relations trace's calls, and the method returns its exception |
| Requests.EagerLoadsFollowPairs | src/Folklore/GraphQL/Eloquent/Query.php:625-677 | the `with` array has one entry per relation, in order, constrained exactly for a relation with a bundle |
| Requests.RelationHookResultStopsConstraint | src/Folklore/GraphQL/Eloquent/Query.php:636-641 | a relation hook returning anything but null, true included, leaves the relation unconstrained |
| Requests.ConstraintCallOrder | src/Folklore/GraphQL/Eloquent/Query.php:641-668 | a constraint applies the filter conditions, then the order rows, then the flags; a failing condition throws before any order or flag call |
| Requests.FlagOpsExactly | src/Folklore/GraphQL/Eloquent/Query.php:650-668 | each flag call is made exactly when its flag is truthy, with the flag's own value, and no other call is made |
| Requests.FlagOpsInOrder | src/Folklore/GraphQL/Eloquent/Query.php:650-668 | the flag calls come in the fixed order withTrashed, onlyTrashed, offset, limit |
| Requests.RequestedFilters | src/Folklore/GraphQL/Eloquent/Query.php:691-714 | the builder gains exactly the base filters trace's calls, and the method returns its exception |
| Requests.FiltersApplyEveryCondition | src/Folklore/GraphQL/Eloquent/Query.php:691-714 | a filter variable that is not an array throws before any call; otherwise every condition, by-name rows first, is applied in order up to the first that throws |
| Requests.BaseFilterVariableName | src/Folklore/GraphQL/Eloquent/Query.php:700-706 | the base filter variable is the configured name followed by the capitalised filter token, or the base type's name without a configured name |
| Requests.RequestedOrders | src/Folklore/GraphQL/Eloquent/Query.php:723-737 | the builder gains exactly the base orders trace's calls, and the method returns its exception |
| Requests.OrdersFollowRows | src/Folklore/GraphQL/Eloquent/Query.php:723-737 | an unset order variable makes no call; once the rows are read, there is one orderBy per row, in order, and nothing throws |
| Requests.ApplyPagination | src/Folklore/GraphQL/Eloquent/Query.php:746-770 | the builder gains exactly one paginate call |
| Requests.PaginationReadsVariable | src/Folklore/GraphQL/Eloquent/Query.php:751-769 | for any set pagination variable, the simple strategy takes perPage and page from it, each on its own, with the configured page size and page 0 in place of an entry that is missing or null, or of a variable that is not an array; the cursor strategy and an unset variable give the configured page size and page 0 |
| Requests.PaginationVariableName | src/Folklore/GraphQL/Eloquent/Query.php:749 | the pagination variable is the base type's name followed by the capitalised pagination token |
| Resolve.FetchOp | src/Folklore/GraphQL/Eloquent/Query.php:828-833 | the fetch is paginate exactly for a pagination type, and first otherwise |
| Resolve.ApplyBaseFilters | src/Folklore/GraphQL/Eloquent/Query.php:785-788 | requestedFilters, then requestedOrders unless the filters threw; the builder gains exactly those calls |
| Resolve.ApplyFilters | src/Folklore/GraphQL/Eloquent/Query.php:779-789 | the builder gains exactly the calls of relations, filters and orders, each run only when the step before did not throw |
| Resolve.Resolve | src/Folklore/GraphQL/Eloquent/Query.php:801-835 | there is no builder exactly when the base type's `model` entry is missing or is not a model instance; otherwise a fresh builder holds exactly the resolve trace's calls, and the method returns its exception |
| Resolve.ResolveRequiresModel | src/Folklore/GraphQL/Eloquent/Query.php:803-810 | a missing `model` entry throws the configuration exception naming the type, and a set entry that is not a model instance throws at `->query()`, both before any call; resolve throws these exactly when the entry is not a model instance |
| Resolve.ResolveEndsWithFetch | src/Folklore/GraphQL/Eloquent/Query.php:801-835 | a resolve that does not throw ends with exactly one fetch, paginate exactly for a pagination type; after an exception there is no fetch |
| Resolve.BaseHookSkipsFilters | src/Folklore/GraphQL/Eloquent/Query.php:810-824 | for a model instance, a base hook returning a non-null falsy value leaves only the fetch; one returning null acts as no hook |
| Resolve.ConstraintsIgnoreBaseHook | src/Folklore/GraphQL/Eloquent/Query.php:815-817 | removing a base hook that returns null changes none of the filtering steps |
| Resolve.EagerLoadsSameUnderHooks | src/Folklore/GraphQL/Eloquent/Query.php:636-641 | two hook tables that agree on every relation make the same relations trace |
| Resolve.RelationsMakeOneWith | src/Folklore/GraphQL/Eloquent/Query.php:679 | requestedRelations makes exactly one `with` call, or throws before any call |
| Resolve.ResolveCallOrder | src/Folklore/GraphQL/Eloquent/Query.php:801-835 | for a model instance with the filters running: one `with`, the base conditions, the base order, then the fetch; an exception in a step ends the calls there |
| TypeFields.ProcessField | src/Folklore/GraphQL/Eloquent/Type.php:41-99 | one field processed exactly as ProcessedField describes |
| TypeFields.ProcessFields | src/Folklore/GraphQL/Eloquent/Type.php:34-105 | returns exactly ProcessedFields |
| TypeFields.ProcessFieldsKeepsKeys | src/Folklore/GraphQL/Eloquent/Type.php:38-104 | every field key is kept in input order, and each field is the processed input field under the same key |
| TypeFields.NonModelFieldUnchanged | src/Folklore/GraphQL/Eloquent/Type.php:41-44 | a field whose base type has no model is copied unchanged |
| TypeFields.FieldArgumentNames | src/Folklore/GraphQL/Eloquent/Type.php:45-54 | a field's filter and order arguments are the type name, the capitalised field key, then the capitalised token |
| TypeFields.InjectedArgsContents | src/Folklore/GraphQL/Eloquent/Type.php:56-91 | with distinct names there are filter, order, limit and offset, in that order, then the trashed pair exactly when the owning model has `trashed`; nothing is overwritten |
| TypeFields.InjectedEntriesKeys | src/Folklore/GraphQL/Eloquent/Type.php:56-91 | the injected keys, in order |
| TypeFields.ModelFieldArguments | src/Folklore/GraphQL/Eloquent/Type.php:93-98 | a model-backed field without args gets exactly the injected arguments; one with args keeps its own keys, and each injected key replaces its value |
| TypeFields.TrashedFollowsOwnModel | src/Folklore/GraphQL/Eloquent/Type.php:79-98 | a field gets the trashed arguments exactly when the owning type's own model has `trashed`, or when it declared them itself; the field type's model does not decide |
| TypeFields.TrashedInjectedExactly | src/Folklore/GraphQL/Eloquent/Type.php:80-91 | the trashed pair is injected exactly when the owning type's model has `trashed` |

## Left out

- Floating point and timestamps: the `float` and `timestamp` casts yield opaque values (`FloatOf`, `TimestampOf`), since conversion rules and dates are outside the model.
- Variables never hold floats: `Json` has no float case, so a JSON number with a fraction given as a variable (an argument value at `src/Folklore/GraphQL/Eloquent/Query.php:259-261`, or an entry of the variable named after the field) is not modelled.
- Integers are unbounded; PHP's platform integer width and its float overflow behaviour are not modelled.
- Numeric-string comparison is not modelled: PHP's loose `==` between a string and the source's fixed words is modelled as exact string equality, and an integer against them as a comparison with 0.
- The target is PHP 7.1 to 7.4. There `(int)` reads a numeric string in fraction or exponent form through float, and an integer compared loosely with a word compares with 0 (`0 == "LIKE"` holds). PHP 8 changed that comparison, and its native `str_contains` rejects the array needle of `src/Folklore/GraphQL/Eloquent/Query.php:249-254`; PHP 8 is not modelled. The model computes that number exactly and truncates it. It does not model float rounding: a text such as "2.99999999999999999" is 3 in PHP and 2 here.
- Strings are sequences of Unicode characters. PHP's string offset (the first character `ValueAt` takes of a string value), `ucfirst` and `strtolower` work on bytes, so on a multibyte value the model takes a whole character where PHP takes one byte.
- Argument and field keys are strings. An argument array written in list form would have integer keys, and PHP 7's loose `in_array` would then reject key 0, because `0 == "PostEloquentFilter"` holds. That case is not modelled.
- Laravel plumbing is not modelled: the query's constructor (`src/Folklore/GraphQL/Eloquent/Query.php:34-42`), configuration reading beyond the names, and the facade lookups of GraphQL types. Types are modelled by their structure.
- The validator (`src/Folklore/GraphQL/Eloquent/Query.php:44-72`) and its rules are left out: they are Laravel validation, not query planning.
- Resolve.Resolve: every `model` entry that is not a model instance is modelled as throwing at `->query()`. An object that is not a model but has a `query()` method of its own, which would return some other builder, is not modelled.
- Hook side effects on the builder are not modelled; a hook is represented by the value it returns.
- The closure passed to whereHas and whereDoesntHave is not modelled; the model records the outer call and goes on to the next condition. In the program, Eloquent runs the closure inside that call to build the subquery. The closure reads `$condition`, which it does not capture. Laravel's error handler turns the undefined-variable notice into an exception. Without that handler, the closure would pass null to `applyFilterToQuery`, whose `array` parameter rejects it with a TypeError. So an allowed `wherehas` or `wheredoesnthave` condition throws in the program from inside the call, and no later condition runs. Eloquent is not part of this model.
- Fragments and inline fragments in selections are left out; a selection is a field node.
- Executing the query and its results are left out: the builder only records calls.
- `fieldNodes[0]` is taken to be present, and a Type's `attributes['name']` to be set; the source relies on both.
- A null allowed-operators configuration is not modelled; the list is a parameter.
- array_merge renumbers integer keys; argument and field keys are strings here, so the renumbering never applies.
- applyWithTrashedToQuery (`src/Folklore/GraphQL/Eloquent/Query.php:596-599`) and applyOnlyTrashedToQuery (`src/Folklore/GraphQL/Eloquent/Query.php:607-610`) are each one builder call, folded into `Requests.FlagOps`.
- PHP notices (an undefined index) are modelled as null, as PHP reads them; the notice-to-exception handler of a Laravel app is not modelled.
