/** The response side of a call: a StreamObserver that records, in order,
    every event a handler hands to it. */
module Observers {
  import opened Messages

  class ResponseObserver<T> {
    /** Every onNext / onError / onCompleted received so far, oldest first. */
    var events: seq<Event<T>>

    constructor ()
      ensures events == []
    {
      events := [];
    }

    method OnNext(value: T)
      modifies this
      ensures events == old(events) + [Next(value)]
    {
      events := events + [Next(value)];
    }

    method OnError(error: StatusError)
      modifies this
      ensures events == old(events) + [Error(error)]
    {
      events := events + [Error(error)];
    }

    method OnCompleted()
      modifies this
      ensures events == old(events) + [Completed]
    {
      events := events + [Completed];
    }
  }
}
