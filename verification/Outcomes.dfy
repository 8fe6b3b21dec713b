/** What a Python call can end in: a value, or one of the exceptions the modelled code raises. */
module Outcomes {
  datatype Option<+T> = None | Some(value: T)

  datatype Error =
    | KeyError
    | TypeError
    | AttributeError
    | ValidationError
    | InvalidRequestParameter
    | MissingConfigurationValue
    | PendingRequestAlreadyExists
    | NoExistingRequest
    | NoMatchingRequest
    | InvalidStatus
    | UpdaterRequired
    | ExpiredData
    | DataNotRetrievable
    | NoSuchObject

  datatype Result<+T> = Ok(value: T) | Err(error: Error) {
    predicate IsFailure() { Err? }

    function PropagateFailure<U>(): Result<U>
      requires Err?
    {
      Err(error)
    }

    function Extract(): T
      requires Ok?
    {
      value
    }
  }
}
