/** Values shared by every part of the test driver: an optional value, a
    value-or-exception result, and the exceptions the driver can end with. */
module Errors {

  datatype Option<+T> = None | Some(value: T)

  /** A Kotlin expression that either yields a value or throws. */
  datatype Result<+T> = Ok(value: T) | Err(error: Failure)

  /** The exceptions a run of `doTest` can raise, one constructor per
      distinct throw site (or kind of throw) in the driver. */
  datatype Failure =
    /** Gson refuses a conversion (`getAsBoolean`/`getAsString` on a JSON
        null, an object, or an array that does not hold exactly one element). */
    | JsonConversion(what: string)
    /** A required string member of a JSON object is absent. */
    | MissingMember(name: string)
    /** A member that must hold a JSON object holds something else (a failed cast). */
    | NotAnObject(name: string)
    /** A failed `require`, or a null passed where a value is required. */
    | RequirementFailed(what: string)
    /** `Map.getValue` on a key the map does not hold. */
    | MissingKey(key: string)
    /** `sourceRoots.first()` on a module without source roots. */
    | NoSourceRoot(moduleName: string)
    /** `error("File … not found")`. */
    | FileNotFound(message: string)
    /** Anything the resolution engine throws. */
    | ResolutionError(cause: string)
    /** `toString!!` on a null list of inheritors. */
    | NullInheritors
    /** The inheritor names differ from the baseline, order ignored. */
    | BaselineMismatch(expected: multiset<string>, actual: multiset<string>)
    /** The test passed although the structure declares `"fails": true`. */
    | UnexpectedlyPassing(message: string)
}
