/** Option, lookup and result types shared by the services and the routes. */
module Common {

  datatype Option<T> = None | Some(value: T)

  /** Outcome of a query that expects at most one row (`scalar_one_or_none`):
      no row, exactly one row, or more than one row (the query raises). */
  datatype Lookup<T> = Missing | Found(value: T) | Multiple

  /** The error conditions a route can end in. */
  datatype Error =
    | NotFound         // HTTP 404
    | Conflict         // HTTP 400, a unit name already taken
    | Invalid          // HTTP 422, a query parameter outside its declared bounds
    | MultipleResults  // an uncaught MultipleResultsFound, HTTP 500
    | QueryFailed      // the database rejects the query, HTTP 500

  datatype Result<T> = Ok(value: T) | Err(error: Error)

  function Min(a: int, b: int): int
  {
    if a <= b then a else b
  }
}
