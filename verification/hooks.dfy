/** What the hooks see of the host framework: the hook object and the
    exceptions the core throws. */
module Hooks {
  import opened Wrappers
  import opened Values

  /** A key as `feathers-commons`' `each` passes it to its callback: a
      property name for an object, a numeric index for an array. */
  datatype Key = Name(name: string) | Index(index: nat)

  /** The exceptions the core raises. */
  datatype Failure =
      /** `errors.BadRequest('You are not allowed to perform $search on field ' + key)`. */
    | BadRequest(field: Key)
      /** The `TypeError` of `escape-string-regexp` for a search value that is
          not a string. */
    | ExpectedString
      /** The legacy predicate calling `.match` on a property value that is
          not a string. */
    | MatchOnNonString(key: string)

  /** The parts of a feathers hook object the hooks read and write:
      `hook.method` (`methodName`), `hook.id` (`Null` when there is none) and
      `hook.params.query` (`None` when absent). */
  datatype Hook = Hook(methodName: string, id: Value, query: Option<seq<Prop>>)
}
