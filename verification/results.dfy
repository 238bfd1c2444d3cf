/** Failure-compatible wrappers for the resolver. The Python code signals its failures by
    raising (a failed `assert`, a `KeyError`); here each failure is a value of `Error`. */
module Results {

  /** A value that may be absent, as a Python `Optional[...]` field. */
  datatype Option<+T> = None | Some(value: T) {

    /** The carried value, or `default` when absent (`x if x is not None else default`). */
    function GetOr(default: T): T {
      match this
      case Some(v) => v
      case None => default
    }
  }

  /** The ways resolving one lockfile can fail. */
  datatype Error =
      /** The parsed document has no `package` array (`tree['package']` raises `KeyError`). */
    | MissingPackageTable
      /** The identity table would file two records under `key` (one of the `assert`s fails). */
    | AmbiguousIdentity(key: string)
      /** A dependency reference is not a key of the identity table (`dep_by_key[dep]` raises `KeyError`). */
    | UnresolvedDependency(reference: string)

  /** Either a value or the error that stopped the computation; usable with `:-`. */
  datatype Result<+T> = Ok(value: T) | Err(error: Error) {

    predicate IsFailure() {
      Err?
    }

    function PropagateFailure<U>(): Result<U>
      requires Err?
    {
      Err(error)
    }

    function Extract(): T
      requires Ok?
    {
      value
    }
  }
}
