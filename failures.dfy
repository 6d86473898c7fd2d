/** The exceptions the Eloquent query compiler throws, and a result type that carries them. */
module Failures {
  import opened Php

  datatype Failure =
    /** processArgs: a declared argument uses a reserved name. */
    | ReservedArgumentName(key: string)
    /** extractArgumentsFromVariable: the variable is set but is not an array. */
    | ArgumentListNotArray(variable: string)
    /** extractArgumentsFromVariable: row `index` of the variable has no `name`. */
    | NameMissing(variable: string, index: Key)
    /** extractArgumentsFromVariable: row `index` of a filter variable has no `value`. */
    | ValueMissing(variable: string, index: Key)
    /** getField on an object type that has no such field (or on an unknown type). */
    | UnknownField(typeName: string, field: string)
    /** The relation walk starts from a sub-selection the query lacks: the query field's own, or for a pagination type its first selection's. */
    | SelectionSetMissing
    /** applyFilterToQuery: the operator is not in the configured allow-list. */
    | OperatorForbidden(operator: Json)
    /** applyFilterToQuery: the operator is allowed but no branch handles it. */
    | OperatorNotProcessed(operator: Json)
    /** An array offset read on a timestamp object, which is not array-accessible. */
    | ObjectUsedAsArray
    /** resolve: the base type of the query has no `model` entry in its config. */
    | ModelNotConfigured(typeName: string)
    /** resolve: the base type's `model` entry is set but is not a model instance, so `->query()` on it throws. */
    | ModelNotQueryable(typeName: string)

  datatype Result<+T> = Ok(value: T) | Err(failure: Failure) {
    predicate IsFailure() {
      Err?
    }

    function PropagateFailure<U>(): Result<U>
      requires Err?
    {
      Err(failure)
    }

    function Extract(): T
      requires Ok?
    {
      value
    }
  }
}
