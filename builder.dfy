/**
 * The Eloquent query builder as the compiler drives it: every call it makes on a builder is
 * recorded, in order, as one operation. Executing the query is not modelled.
 */
module Builder {
  import opened Php
  import opened Failures

  /** One call on an Eloquent builder, with the arguments it was given. */
  datatype Op =
    | Where(column: Json, operator: Json, value: Cell, join: Json)
    | OrderBy(column: Json, direction: Cell)
    | Has(relation: Json, operator: Json, count: Json, join: Json)
    | DoesntHave(relation: Json, join: Json)
    /** The outer call only: the constraint closure passed along with it is not modelled. */
    | WhereHas(relation: Json, operator: Json, count: Json)
    | WhereDoesntHave(relation: Json)
    | OrWhereHas(relation: Json, operator: Json, count: Json)
    | OrWhereDoesntHave(relation: Json)
    | WithTrashed
    | OnlyTrashed
    | Offset(n: Json)
    | Limit(n: Json)
    /** `with($relationArray)`: the eager loads, in the array's order. */
    | With(loads: seq<EagerLoad>)
    /** `paginate($perPage, ['*'], 'page', $page)`. */
    | Paginate(perPage: Json, page: Json)
    | First

  /**
   * One entry of the array given to `with`: a bare relation path, or a path with a constraint
   * closure, represented by what the closure does to the relation's query when it runs.
   */
  datatype EagerLoad = Unconstrained(path: string) | Constrained(path: string, constraint: Trace)

  /** The calls a piece of code makes on one builder, and the exception it ends with, if any. */
  datatype Trace = Trace(ops: seq<Op>, failure: Option<Failure>) {
    /** This trace followed by `next`, which runs only when this one did not throw. */
    function Then(next: Trace): Trace {
      if failure.Some? then this else Trace(ops + next.ops, next.failure)
    }
  }

  function Done(ops: seq<Op>): Trace {
    Trace(ops, None)
  }

  function Thrown(f: Failure): Trace {
    Trace([], Some(f))
  }

  /** A builder that records the calls made on it. */
  class QueryBuilder {
    var ops: seq<Op>

    constructor()
      ensures ops == []
    {
      ops := [];
    }

    method Record(op: Op)
      modifies this
      ensures ops == old(ops) + [op]
    {
      ops := ops + [op];
    }

    method RecordAll(more: seq<Op>)
      modifies this
      ensures ops == old(ops) + more
    {
      var i := 0;
      while i < |more|
        invariant 0 <= i <= |more|
        invariant ops == old(ops) + more[..i]
      {
        Record(more[i]);
        assert more[..i + 1] == more[..i] + [more[i]];
        i := i + 1;
      }
      assert more[..|more|] == more;
    }
  }
}
