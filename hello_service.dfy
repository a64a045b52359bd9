/** HelloServiceImpl: the four handlers of the greeting service. Each handler
    writes to a ResponseObserver, whose recorded events are the observable
    behaviour; the specification functions below give each handler's events
    as a value, and the lemmas state what those events are. */
module HelloService {
  import opened Messages
  import opened Observers

  /** The four salutations of the server-stream and bidi handlers, in order. */
  const Salutations: seq<string> := ["hello", "hola", "bonjour", "guten tag"]

  /** The error for a missing first name: INVALID_ARGUMENT with a description,
      plus an ErrorResponse in the trailing metadata. */
  const FirstNameError: StatusError :=
    WithMetadata(InvalidArgument, "Did not provide first name", ErrorResponse("No first name"))

  /** The error for a missing last name: a rich google.rpc.Status with one
      ErrorInfo detail. */
  const LastNameError: StatusError :=
    WithRichStatus(RpcStatus(InvalidArgumentNumber, "Missing last name", [ErrorInfo("Last name missing")]))

  // ---------------------------------------------------------------------------
  // Formatting

  /** The greeting: salutation, first name and last name, each separated from
      the next by exactly one space. */
  function BuildGreeting(greeting: string, firstName: string, lastName: string): (r: string)
    ensures |r| == |greeting| + |firstName| + |lastName| + 2
    ensures r[..|greeting|] == greeting
    ensures r[|greeting|] == ' '
    ensures r[|greeting| + 1..|greeting| + 1 + |firstName|] == firstName
    ensures r[|greeting| + 1 + |firstName|] == ' '
    ensures r[|greeting| + 2 + |firstName|..] == lastName
  {
    greeting + " " + firstName + " " + lastName
  }

  /** BuildGreeting loses nothing: once the lengths of the salutation and of
      the first name are known, all three parts are recovered from the text. */
  lemma BuildGreetingInjective(g: string, f: string, l: string, g': string, f': string, l': string)
    requires |g| == |g'| && |f| == |f'|
    requires BuildGreeting(g, f, l) == BuildGreeting(g', f', l')
    ensures g == g' && f == f' && l == l'
  {
  }

  // ---------------------------------------------------------------------------
  // Unary call: hello

  /** The events `hello` emits for one request. */
  function HelloEvents(request: HelloRequest): (r: seq<Event<HelloResponse>>)
    // the greeting and the completion always close the trace, whatever the checks found
    ensures |r| >= 2
    ensures r[|r| - 2] == Next(HelloResponse(BuildGreeting("Hello", request.firstName, request.lastName)))
    ensures r[|r| - 1] == Completed
    // one error per failed check, first-name check first
    ensures |r| == 2 + (if request.firstName == "" then 1 else 0) + (if request.lastName == "" then 1 else 0)
    ensures request.firstName == "" ==> r[0] == Error(FirstNameError)
    ensures request.firstName != "" && request.lastName == "" ==> r[0] == Error(LastNameError)
    ensures request.firstName == "" && request.lastName == "" ==> r[1] == Error(LastNameError)
    ensures forall i | 0 <= i < |r| - 2 :: r[i].Error?
  {
    (if request.firstName == "" then [Error(FirstNameError)] else [])
    + (if request.lastName == "" then [Error(LastNameError)] else [])
    + [Next(HelloResponse(BuildGreeting("Hello", request.firstName, request.lastName))), Completed]
  }

  /** The unary handler: both checks run in turn, neither returns, and the
      greeting is sent and the call completed in every case. */
  method Hello(request: HelloRequest, responseObserver: ResponseObserver<HelloResponse>)
    modifies responseObserver
    ensures responseObserver.events == old(responseObserver.events) + HelloEvents(request)
  {
    if request.firstName == "" {
      responseObserver.OnError(FirstNameError);
    }
    if request.lastName == "" {
      responseObserver.OnError(LastNameError);
    }
    var greeting := BuildGreeting("Hello", request.firstName, request.lastName);
    responseObserver.OnNext(HelloResponse(greeting));
    responseObserver.OnCompleted();
  }

  /** With both names present, `hello` answers "Hello <first> <last>" and
      completes, with no error. */
  lemma HelloSucceeds(request: HelloRequest)
    requires request.firstName != "" && request.lastName != ""
    ensures HelloEvents(request) == [Next(HelloResponse("Hello " + request.firstName + " " + request.lastName)), Completed]
  {
    assert "Hello" + " " == "Hello ";
  }

  /** An error is emitted exactly when a name is missing. */
  lemma HelloErrorIff(request: HelloRequest)
    ensures (exists i | 0 <= i < |HelloEvents(request)| :: HelloEvents(request)[i].Error?)
            <==> (request.firstName == "" || request.lastName == "")
  {
    var r := HelloEvents(request);
    if request.firstName == "" || request.lastName == "" {
      assert r[0].Error?;
    }
  }

  /** The trace of `hello` is one that a gRPC call accepts (one terminal event,
      at the end) exactly when both names are present: otherwise onError is
      followed by further calls on the same, already closed, call. */
  lemma HelloClosesOnceIff(request: HelloRequest)
    ensures ClosesOnce(HelloEvents(request)) <==> (request.firstName != "" && request.lastName != "")
  {
  }

  /** What the caller of `hello` receives once the call is closed by the first
      terminal event: the first-name error, else the last-name error, else the
      greeting and the completion. */
  lemma HelloDelivered(request: HelloRequest)
    ensures Delivered(HelloEvents(request))
            == if request.firstName == "" then [Error(FirstNameError)]
               else if request.lastName == "" then [Error(LastNameError)]
               else [Next(HelloResponse(BuildGreeting("Hello", request.firstName, request.lastName))), Completed]
  {
  }

  // ---------------------------------------------------------------------------
  // Server-streaming call: helloServerStream

  /** One greeting response per salutation, in the salutations' order. */
  function Responses(salutations: seq<string>, firstName: string, lastName: string): (r: seq<Event<HelloResponse>>)
    ensures |r| == |salutations|
    ensures forall i | 0 <= i < |r| :: r[i] == Next(HelloResponse(BuildGreeting(salutations[i], firstName, lastName)))
  {
    if salutations == [] then []
    else [Next(HelloResponse(BuildGreeting(salutations[0], firstName, lastName)))]
         + Responses(salutations[1..], firstName, lastName)
  }

  /** Responding to one more salutation appends one response at the end. */
  lemma ResponsesAppend(salutations: seq<string>, s: string, firstName: string, lastName: string)
    ensures Responses(salutations + [s], firstName, lastName)
            == Responses(salutations, firstName, lastName) + [Next(HelloResponse(BuildGreeting(s, firstName, lastName)))]
  {
  }

  /** The events `helloServerStream` emits: no validation, four greetings, one
      completion. */
  function ServerStreamEvents(request: HelloRequest): (r: seq<Event<HelloResponse>>)
    ensures |r| == |Salutations| + 1 == 5
    ensures forall i | 0 <= i < |Salutations| ::
              r[i] == Next(HelloResponse(BuildGreeting(Salutations[i], request.firstName, request.lastName)))
    ensures r[|Salutations|] == Completed
    ensures ClosesOnce(r)
  {
    Responses(Salutations, request.firstName, request.lastName) + [Completed]
  }

  /** The server-stream handler: one onNext per salutation, then onCompleted. */
  method HelloServerStream(request: HelloRequest, responseObserver: ResponseObserver<HelloResponse>)
    modifies responseObserver
    ensures responseObserver.events == old(responseObserver.events) + ServerStreamEvents(request)
  {
    var firstName := request.firstName;
    var lastName := request.lastName;
    var greetings := Salutations;
    ghost var start := responseObserver.events;
    for i := 0 to |greetings|
      invariant responseObserver.events == start + Responses(greetings[..i], firstName, lastName)
    {
      var greeting := greetings[i];
      var response := HelloResponse(BuildGreeting(greeting, firstName, lastName));
      ResponsesAppend(greetings[..i], greeting, firstName, lastName);
      assert greetings[..i + 1] == greetings[..i] + [greeting];
      responseObserver.OnNext(response);
    }
    assert greetings[..|greetings|] == greetings;
    responseObserver.OnCompleted();
  }

  /** For any names, the four greetings in order: "hello", "hola", "bonjour",
      "guten tag", each followed by the same first and last name. */
  lemma ServerStreamGreetings(request: HelloRequest)
    ensures ServerStreamEvents(request)
            == [ Next(HelloResponse("hello " + request.firstName + " " + request.lastName)),
                 Next(HelloResponse("hola " + request.firstName + " " + request.lastName)),
                 Next(HelloResponse("bonjour " + request.firstName + " " + request.lastName)),
                 Next(HelloResponse("guten tag " + request.firstName + " " + request.lastName)),
                 Completed ]
  {
    var f, l := request.firstName, request.lastName;
    var r := ServerStreamEvents(request);
    assert r[0] == Next(HelloResponse(BuildGreeting(Salutations[0], f, l)));
    assert "hello" + " " == "hello ";
    assert r[1] == Next(HelloResponse(BuildGreeting(Salutations[1], f, l)));
    assert "hola" + " " == "hola ";
    assert r[2] == Next(HelloResponse(BuildGreeting(Salutations[2], f, l)));
    assert "bonjour" + " " == "bonjour ";
    assert r[3] == Next(HelloResponse(BuildGreeting(Salutations[3], f, l)));
    assert "guten tag" + " " == "guten tag ";
  }

  // ---------------------------------------------------------------------------
  // Client-streaming call: helloClientStream

  /** The entry the client-stream handler records for one request. */
  function PersonName(request: HelloRequest): (r: string)
    ensures |r| == |request.firstName| + 1 + |request.lastName|
    ensures r[..|request.firstName|] == request.firstName
    ensures r[|request.firstName|] == ' '
    ensures r[|request.firstName| + 1..] == request.lastName
  {
    request.firstName + " " + request.lastName
  }

  /** A bidi or server-stream greeting is the salutation followed by the
      entry the client stream would record for the same request. */
  lemma GreetingIsSalutationAndPerson(salutation: string, request: HelloRequest)
    ensures BuildGreeting(salutation, request.firstName, request.lastName)
            == salutation + " " + PersonName(request)
  {
  }

  /** The accumulated list for the requests received so far, in arrival order. */
  function People(requests: seq<HelloRequest>): (r: seq<string>)
    ensures |r| == |requests|
    ensures forall i | 0 <= i < |r| :: r[i] == PersonName(requests[i])
  {
    if requests == [] then [] else [PersonName(requests[0])] + People(requests[1..])
  }

  /** One more request adds its entry at the end and keeps the others. */
  lemma PeopleAppend(requests: seq<HelloRequest>, request: HelloRequest)
    ensures People(requests + [request]) == People(requests) + [PersonName(request)]
  {
  }

  /** The request observer returned by `helloClientStream`. */
  class ClientStreamObserver {
    /** The names seen so far, in arrival order. */
    var peopleWhoSaidHello: seq<string>
    /** Where the summary goes. */
    const responseObserver: ResponseObserver<HelloResponseSummary>
    /** The requests received by onNext so far. */
    ghost var received: seq<HelloRequest>

    ghost predicate Valid()
      reads this
    {
      peopleWhoSaidHello == People(received)
    }

    constructor (responseObserver: ResponseObserver<HelloResponseSummary>)
      ensures Valid()
      ensures this.responseObserver == responseObserver
      ensures received == [] && peopleWhoSaidHello == []
    {
      this.responseObserver := responseObserver;
      peopleWhoSaidHello := [];
      received := [];
    }

    /** Records "<first> <last>" at the end of the list; emits nothing. */
    method OnNext(helloRequest: HelloRequest)
      requires Valid()
      modifies this
      ensures Valid()
      ensures received == old(received) + [helloRequest]
      ensures peopleWhoSaidHello == old(peopleWhoSaidHello) + [PersonName(helloRequest)]
    {
      var person := helloRequest.firstName + " " + helloRequest.lastName;
      PeopleAppend(received, helloRequest);
      peopleWhoSaidHello := peopleWhoSaidHello + [person];
      received := received + [helloRequest];
    }

    /** An upstream failure is only logged: nothing is emitted and the list
        is kept as it is. */
    method OnError()
      requires Valid()
      ensures Valid()
      ensures unchanged(this) && unchanged(responseObserver)
    {
    }

    /** Sends the accumulated list as one summary, then completes. */
    method OnCompleted()
      requires Valid()
      modifies responseObserver
      ensures Valid() && unchanged(this)
      ensures responseObserver.events
              == old(responseObserver.events) + [Next(HelloResponseSummary(People(received))), Completed]
    {
      var res := HelloResponseSummary(peopleWhoSaidHello);
      responseObserver.OnNext(res);
      responseObserver.OnCompleted();
    }
  }

  /** The client-stream handler: a fresh observer with an empty list, owned by
      this call alone. */
  method HelloClientStream(responseObserver: ResponseObserver<HelloResponseSummary>)
    returns (requestObserver: ClientStreamObserver)
    ensures fresh(requestObserver) && requestObserver.Valid()
    ensures requestObserver.responseObserver == responseObserver
    ensures requestObserver.received == [] && requestObserver.peopleWhoSaidHello == []
  {
    requestObserver := new ClientStreamObserver(responseObserver);
  }

  /** "person" with last names A to D, in that order, is summarised as
      the four entries in arrival order. */
  lemma ClientStreamPersons()
    ensures People([HelloRequest("person", "A"), HelloRequest("person", "B"),
                    HelloRequest("person", "C"), HelloRequest("person", "D")])
            == ["person A", "person B", "person C", "person D"]
  {
    var requests := [HelloRequest("person", "A"), HelloRequest("person", "B"),
                     HelloRequest("person", "C"), HelloRequest("person", "D")];
    var r := People(requests);
    assert r[0] == PersonName(requests[0]) == "person A";
    assert r[1] == PersonName(requests[1]) == "person B";
    assert r[2] == PersonName(requests[2]) == "person C";
    assert r[3] == PersonName(requests[3]) == "person D";
  }

  // ---------------------------------------------------------------------------
  // Bidirectional-streaming call: helloStream

  /** A salutation index is one that Random.nextInt(4) can return. */
  predicate ValidChoices(choices: seq<nat>)
  {
    forall i | 0 <= i < |choices| :: choices[i] < |Salutations|
  }

  /** The responses of a bidi call to `requests`, where `choices` are the
      random salutation indexes drawn for them. */
  function BidiResponses(requests: seq<HelloRequest>, choices: seq<nat>): (r: seq<Event<HelloResponse>>)
    requires |choices| == |requests| && ValidChoices(choices)
    ensures |r| == |requests|
    ensures forall i | 0 <= i < |r| ::
              r[i] == Next(HelloResponse(BuildGreeting(Salutations[choices[i]], requests[i].firstName, requests[i].lastName)))
  {
    if requests == [] then []
    else [Next(HelloResponse(BuildGreeting(Salutations[choices[0]], requests[0].firstName, requests[0].lastName)))]
         + BidiResponses(requests[1..], choices[1..])
  }

  /** One more request adds exactly its own response at the end. */
  lemma BidiResponsesAppend(requests: seq<HelloRequest>, choices: seq<nat>, request: HelloRequest, choice: nat)
    requires |choices| == |requests| && ValidChoices(choices) && choice < |Salutations|
    ensures ValidChoices(choices + [choice])
    ensures BidiResponses(requests + [request], choices + [choice])
            == BidiResponses(requests, choices)
               + [Next(HelloResponse(BuildGreeting(Salutations[choice], request.firstName, request.lastName)))]
  {
  }

  /** Every bidi response greets its own request with one of the four
      salutations. */
  lemma BidiResponseIsSomeSalutation(requests: seq<HelloRequest>, choices: seq<nat>, i: nat)
    requires |choices| == |requests| && ValidChoices(choices) && i < |requests|
    ensures exists s | s in Salutations ::
              BidiResponses(requests, choices)[i] == Next(HelloResponse(s + " " + PersonName(requests[i])))
  {
    var s := Salutations[choices[i]];
    GreetingIsSalutationAndPerson(s, requests[i]);
    assert BidiResponses(requests, choices)[i] == Next(HelloResponse(s + " " + PersonName(requests[i])));
  }

  /** The request observer returned by `helloStream`. The generator of
      `random` is replaced by the index it draws, passed to OnNext. */
  class BidiStreamObserver {
    const greetings: seq<string>
    const responseObserver: ResponseObserver<HelloResponse>
    /** The events the response observer held when the call opened. */
    ghost const initial: seq<Event<HelloResponse>>
    /** The requests received and the indexes drawn for them, so far. */
    ghost var received: seq<HelloRequest>
    ghost var chosen: seq<nat>

    /** The response observer holds one response per request received. */
    ghost predicate Valid()
      reads this, responseObserver
    {
      && greetings == Salutations
      && |chosen| == |received| && ValidChoices(chosen)
      && responseObserver.events == initial + BidiResponses(received, chosen)
    }

    constructor (responseObserver: ResponseObserver<HelloResponse>)
      ensures Valid()
      ensures this.responseObserver == responseObserver
      ensures initial == responseObserver.events
      ensures received == [] && chosen == []
    {
      greetings := Salutations;
      this.responseObserver := responseObserver;
      initial := responseObserver.events;
      received, chosen := [], [];
    }

    /** Answers one request at once, with the salutation at index `choice`. */
    method OnNext(helloRequest: HelloRequest, choice: nat)
      requires Valid() && choice < |greetings|
      modifies this, responseObserver
      ensures Valid()
      ensures received == old(received) + [helloRequest] && chosen == old(chosen) + [choice]
      ensures responseObserver.events
              == old(responseObserver.events)
                 + [Next(HelloResponse(BuildGreeting(Salutations[choice], helloRequest.firstName, helloRequest.lastName)))]
    {
      var res := HelloResponse(BuildGreeting(greetings[choice], helloRequest.firstName, helloRequest.lastName));
      BidiResponsesAppend(received, chosen, helloRequest, choice);
      responseObserver.OnNext(res);
      received, chosen := received + [helloRequest], chosen + [choice];
    }

    /** An upstream failure is only logged: nothing is emitted. */
    method OnError()
      requires Valid()
      ensures Valid()
      ensures unchanged(this) && unchanged(responseObserver)
    {
    }

    /** Forwards the completion; no summary is sent. */
    method OnCompleted()
      requires Valid()
      modifies responseObserver
      ensures unchanged(this)
      ensures responseObserver.events == initial + BidiResponses(received, chosen) + [Completed]
    {
      responseObserver.OnCompleted();
    }
  }

  /** The bidi handler: a fresh request observer on the given response
      observer. */
  method HelloStream(responseObserver: ResponseObserver<HelloResponse>)
    returns (requestObserver: BidiStreamObserver)
    ensures fresh(requestObserver) && requestObserver.Valid()
    ensures requestObserver.responseObserver == responseObserver
    ensures requestObserver.initial == responseObserver.events
    ensures requestObserver.received == [] && requestObserver.chosen == []
  {
    requestObserver := new BidiStreamObserver(responseObserver);
  }
}
