/**
 Results of operations, and the exceptions they raise, as data.
 */
module Outcomes {

  datatype Error =
    | InsufficientAvailability
    | IntegrityError
    | ValidationError
    | KeyConflict
    | KeyInProgress
    | DoesNotExist
    | TransitionNotAllowed
    | InvalidRequest
    | QuoteRejected
    | InvalidOperation
    | CurrencyMismatch
    | InvalidPriceBreakdown
    | RatePlanNotActive
    | OverlappingRateOverride

  datatype Result<+T> = Ok(value: T) | Err(error: Error)
  {
    predicate IsFailure() {
      Err?
    }

    function PropagateFailure<U>(): Result<U>
      requires Err?
    {
      Err(error)
    }

    function Extract(): T
      requires Ok?
    {
      value
    }
  }

  datatype Option<+T> = None | Some(value: T)
}
