/** Optional values, and results that may be one of the exceptions the allocator raises. */
module Outcomes {
  datatype Option<+T> = None | Some(value: T)

  datatype Error =
    | NoNodes
    | NonPositiveCapacity
    | NotEnoughCapacity
    | NegativeRemaining
    | EmptyRange
    | UnknownNode
    | NoLayers
    | UnknownRequest
    | EmptyPrompt
    | NoNewTokens
    | NothingToSend
    | MixedStatus
    | NotSendable

  datatype Result<+T> = Ok(value: T) | Raise(error: Error)
}
