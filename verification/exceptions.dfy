/**
 * The failures the query engine reports to its callers, and the result type
 * that carries either a value or one of them.
 */
module Exceptions {

  /** Request-scoped failures; none of them is fatal to the service. */
  datatype ServiceError =
    /** Kotlin `require` failed (IllegalArgumentException): bad paging arguments. */
    | InvalidArgument(message: string)
    /** A catalog is loaded, but the criteria matched nothing. */
    | NoObjectsFound(message: string)
    /** The requested page index is not below the number of pages. */
    | PageOutOfBounds(pageIndex: int, numberOfPages: int)
    /** No catalog entry carries the requested name. */
    | ObjectNotFound(objectName: string)

  datatype Result<+T> = Ok(value: T) | Err(error: ServiceError)

}
