/** Optional values, the error kinds the schedule builder can stop with, and a
    failure-compatible Result carrying one of them. */
module Results {

  datatype Option<+T> = None | Some(value: T)

  /** Every way the source aborts: its assertions and the exceptions raised
      by indexing and time parsing, each turned into a reported value. */
  datatype Error =
    | NotRectangular              // rows of the grid differ in length, or there is no row at all
    | MissingRow                  // a column exists but the grid has no time row (IndexError)
    | BadHeading(heading: string) // a column heading with fewer than three tokens
    | BadTime(text: string)       // a time label that is not "H:MM AM/PM"
    | TimeOutOfRange(minute: int) // a minute outside one day, given to a clock format
    | LunchAtEnd                  // merging a column whose last block is a lunch (IndexError)

  datatype Result<+T> = Success(value: T) | Failure(error: Error) {
    predicate IsFailure() { Failure? }

    function PropagateFailure<U>(): Result<U>
      requires Failure?
    {
      Failure(error)
    }

    function Extract(): T
      requires Success?
    {
      value
    }
  }

  /** The outcome of an operation that produces no value. */
  datatype Outcome = Pass | Fail(error: Error)
}
