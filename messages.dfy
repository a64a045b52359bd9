/** The protobuf messages of the greeting service and the two error payloads
    it attaches to a failed call, as plain values. */
module Messages {

  /** HelloRequest: either name may be the empty string (protobuf's default). */
  datatype HelloRequest = HelloRequest(firstName: string, lastName: string)

  /** HelloResponse: one formatted greeting. */
  datatype HelloResponse = HelloResponse(greeting: string)

  /** HelloResponseSummary: the repeated `greeting` field, in order. */
  datatype HelloResponseSummary = HelloResponseSummary(greeting: seq<string>)

  /** The only status code the service produces. */
  datatype StatusCode = InvalidArgument

  /** The numeric value of INVALID_ARGUMENT in google.rpc.Code. */
  const InvalidArgumentNumber: int := 3

  /** The repository's own error payload, carried in trailing metadata. */
  datatype ErrorResponse = ErrorResponse(error: string)

  /** google.rpc.ErrorInfo: a detail payload naming the reason of a failure. */
  datatype ErrorInfo = ErrorInfo(reason: string)

  /** google.rpc.Status: numeric code, message and typed details. */
  datatype RpcStatus = RpcStatus(code: int, message: string, details: seq<ErrorInfo>)

  /** What a handler passes to `onError`.
      WithMetadata: an io.grpc status (code and description) raised with one
      metadata entry holding an ErrorResponse.
      WithRichStatus: a google.rpc.Status turned into a runtime exception. */
  datatype StatusError =
    | WithMetadata(code: StatusCode, description: string, errorResponse: ErrorResponse)
    | WithRichStatus(status: RpcStatus)

  /** One call on a response observer. */
  datatype Event<T> = Next(value: T) | Error(error: StatusError) | Completed
  {
    /** onError and onCompleted both end a gRPC call. */
    predicate IsTerminal() { Error? || Completed? }
  }

  /** A trace that a gRPC call accepts: exactly one terminal event, and it is
      the last one. */
  predicate ClosesOnce<T>(events: seq<Event<T>>)
  {
    && |events| > 0
    && events[|events| - 1].IsTerminal()
    && forall i | 0 <= i < |events| - 1 :: !events[i].IsTerminal()
  }

  /** The events up to and including the first terminal one: what a call
      actually carries when the observer throws at any event after it. */
  function Delivered<T>(events: seq<Event<T>>): (r: seq<Event<T>>)
    ensures r <= events
    ensures forall i | 0 <= i < |r| - 1 :: !r[i].IsTerminal()
    ensures |r| < |events| ==> |r| > 0 && r[|r| - 1].IsTerminal()
  {
    if events == [] then []
    else if events[0].IsTerminal() then [events[0]]
    else [events[0]] + Delivered(events[1..])
  }
}
