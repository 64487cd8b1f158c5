/** Optional values and the error outcomes of the reader's services. */
module Wrappers {

  /** A value that may be absent; stands for a nullable Java reference or an `Optional`. */
  datatype Option<+T> = None | Some(value: T) {
    function GetOr(default: T): T {
      match this
      case Some(v) => v
      case None => default
    }
  }

  /** Why an operation failed: one case per exception the services let escape. */
  datatype Failure =
    | NotFound        // "Bookmark not found", "PDF document not found with id"
    | NullKey         // a null key, or a null map, handed to a map operation
    | NegativeLimit   // Stream.limit with a negative size
    | InvalidFolder   // setMasterFolder on a missing path or a non-directory
    | Rejected        // a task handed to an executor that was shut down
    | NullExecutor    // a task handed to a null executor: NullPointerException
    | ReadFailure     // IOException from the page-text extractor
    | InvalidPattern  // PatternSyntaxException: String.split given a query that is not a regular expression
    | WalkFailure     // UncheckedIOException: Files.walk failed inside the folder tree
    | InvalidPath     // InvalidPathException: Paths.get rejected the folder path
    | NullName        // NullPointerException: getFileName() of a path without a name, such as a file-system root

  datatype Result<+T> = Ok(value: T) | Err(failure: Failure)

  /** Outcome of an operation that returns nothing on success. */
  datatype Outcome = Done | Failed(failure: Failure)

  function Min(a: int, b: int): int { if a <= b then a else b }
  function Max(a: int, b: int): int { if a >= b then a else b }
}
