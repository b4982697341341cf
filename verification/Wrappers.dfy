/** Option and Result, shared by every other module. */
module Wrappers {

  datatype Option<+T> = None | Some(value: T)

  /** Why an engine operation stopped.  The program reports these as error text;
      here each kind of error is a constructor. */
  datatype Failure =
    | MalformedTrailer     // an object id in a trailer does not parse
    | HistoryRewritten     // the last synced commit left the first-parent chain
    | EmptyPath            // a path with no components
    | MissingSource        // `move`/`copy` of an absent entry
    | InvalidRegex
    | MissingDestination   // the destination is absent or is not a directory
    | PatchRejected        // a patch does not apply
    | AgentFailed          // the runner or its verifier gave up
    | NothingToLayerOn     // a tip layer without any mirror commit
    | MissingBlob          // content that the store does not hold
    | MalformedBlob        // content that does not decode
    | MissingDirectory     // a Tree message without a directory it refers to
    | NoOutput             // a remote action that left nothing to fetch
    | ExecutionFailed      // the server or the harness reported an error

  datatype Result<+T> = Ok(value: T) | Err(error: Failure) {
    predicate IsFailure() {
      Err?
    }

    function PropagateFailure<U>(): Result<U>
      requires Err?
    {
      Err(error)
    }

    function Extract(): T
      requires Ok?
    {
      value
    }
  }
}
