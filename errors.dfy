/** The failures of the memory manager (the exceptions of src/error) and the
    result types that carry them. */
module Errors {

  datatype Error =
    | ProcessTooLarge          // ProcessTooLargeException: size above the configured maximum
    | InsufficientMemory       // InsufficientMemoryException: fewer free frames than pages needed
    | UnsupportedId            // UnsupportedIdException: id below the counter, or not in the table
    | UnavailableProcessSpace  // UnavailableProcessSpaceException: the process table is full
    | NullDereference          // a NullPointerException from reading an empty table slot

  datatype Result<T> = Success(value: T) | Failure(error: Error)

  datatype Outcome = Pass | Fail(error: Error)
}
