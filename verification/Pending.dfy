// common/a2a/server.py, A2APendingState, with the payload shapes of common/a2a/models.py: the cell a
// background task writes its outcome into and /a2a/await reads it from.

module Pending {
  import opened Common

  datatype ResultPayload = ResultPayload(tokenJti: string, tokenExp: int, tokenIat: int)

  // Free-text reasons are left out; the reasons the code branches on are kept.
  datatype ErrorPayload = ErrorPayload(errorId: string, reason: string)

  // What an await finds once completion is set.
  datatype Report = Result(payload: ResultPayload) | Error(error: ErrorPayload) | Nothing

  class PendingState {
    const authReqId: string
    var result: Option<ResultPayload>
    var error: Option<ErrorPayload>
    var completion: bool
    var cancelEvent: bool

    constructor (id: string)
      ensures authReqId == id && Fresh()
    {
      authReqId := id;
      result := None;
      error := None;
      completion := false;
      cancelEvent := false;
    }

    // As registered: nothing reported, nobody has cancelled.
    predicate Fresh()
      reads this
    {
      result == None && error == None && !completion && !cancelEvent
    }

    // The result outranks the error, as in the await handler.
    function Reported(): Report
      reads this
    {
      if result.Some? then Result(result.value)
      else if error.Some? then Error(error.value)
      else Nothing
    }
  }
}
