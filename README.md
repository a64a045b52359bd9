# Greeting service model

A Dafny model of `HelloServiceImpl`, the server side of a small gRPC greeting
service. The service has four handlers, one for each gRPC call shape:

- `hello` (unary): validates the request, then answers "Hello <first> <last>".
- `helloServerStream`: answers one request with four greetings, one per
  salutation ("hello", "hola", "bonjour", "guten tag").
- `helloClientStream`: collects "<first> <last>" for every request it
  receives. When the client completes, it sends one summary with the list.
- `helloStream` (bidirectional): answers every request at once, with a
  randomly chosen salutation.

gRPC's `StreamObserver` is modelled as `Observers.ResponseObserver<T>`. It
records every `onNext`, `onError` and `onCompleted` call it receives as an
`Event` (`Next`, `Error`, `Completed`), in order. Each handler is a method
that updates that record in place. A specification function gives the events
each handler emits (`HelloEvents`, `ServerStreamEvents`, `BidiResponses`) or,
for the client stream, the accumulated list (`People`). Each method is proved
to append exactly those events, or to keep its list equal to that value.
The lemmas then state what the events are. The request observers that
`helloClientStream` and `helloStream` return become the classes
`ClientStreamObserver` and `BidiStreamObserver`. Each class holds the
handler's own state, plus ghost fields that record the requests received.

The two error payloads are plain values (`Messages.StatusError`):
- A missing first name raises `INVALID_ARGUMENT` with the description "Did not
  provide first name". The trailing metadata carries an `ErrorResponse` whose
  error is "No first name".
- A missing last name raises a `google.rpc.Status` with code 3, message
  "Missing last name" and one `ErrorInfo` detail whose reason is "Last name
  missing".

The unary handler is modelled as written. Both checks run and neither one
returns. A request with a missing name therefore yields one or two `Error`
events, then a `Next` and a `Completed`. A request missing both names gets the
first-name error, then the last-name error, then the greeting and the
completion. `ClosesOnce` describes a trace that gRPC accepts: exactly one
terminal event, at the end. `HelloService.HelloClosesOnceIff` proves that
`hello` produces such a trace only when both names are present.
`Messages.Delivered` cuts a trace after its first terminal event, and
`HelloService.HelloDelivered` states what the caller of `hello` receives.

The client-stream observer's `onError` only logs. The list stays as it is and
nothing is sent.

## Model

| member | source | states |
|---|---|---|
| HelloService.BuildGreeting | src/main/java/server/HelloServiceImpl.java:133-135 | the greeting is the salutation, one space, the first name, one space, the last name: its length and each part at its position, for all strings including empty ones |
| HelloService.BuildGreetingInjective | src/main/java/server/HelloServiceImpl.java:133-135 | given the lengths of the salutation and the first name, the three parts are recovered uniquely from a greeting |
| HelloService.HelloEvents | src/main/java/server/HelloServiceImpl.java:26-54 | events of `hello`: one error per missing name, first-name error before last-name error, errors only before the greeting, and the trace always ends with Next(greeting "Hello f l") and Completed |
| HelloService.Hello | src/main/java/server/HelloServiceImpl.java:26-54 | the unary handler appends exactly HelloEvents(request) to the response observer |
| HelloService.HelloSucceeds | src/main/java/server/HelloServiceImpl.java:29-53 | with both names present the trace is exactly [Next("Hello " + f + " " + l), Completed] |
| HelloService.HelloErrorIff | src/main/java/server/HelloServiceImpl.java:29-48 | an Error event occurs if and only if the first or the last name is empty |
| HelloService.HelloClosesOnceIff | src/main/java/server/HelloServiceImpl.java:29-53 | the trace has exactly one terminal event, as its last event, if and only if both names are present |
| HelloService.HelloDelivered | src/main/java/server/HelloServiceImpl.java:29-53 | cut at its first terminal event, the trace is the first-name error if the first name is empty, else the last-name error if the last name is empty, else the greeting "Hello f l" and Completed |
| HelloService.Responses | src/main/java/server/HelloServiceImpl.java:62-70 | one Next per salutation, in order, the i-th greeting built from the i-th salutation and the same names |
| HelloService.ResponsesAppend | src/main/java/server/HelloServiceImpl.java:62-70 | handling one more salutation appends its response and keeps the earlier ones |
| HelloService.ServerStreamEvents | src/main/java/server/HelloServiceImpl.java:57-72 | events of `helloServerStream`: five events, four greetings in salutation order then Completed, no Error (no validation), one terminal event at the end |
| HelloService.HelloServerStream | src/main/java/server/HelloServiceImpl.java:57-72 | the forEach loop appends exactly ServerStreamEvents(request) to the response observer |
| HelloService.ServerStreamGreetings | src/main/java/server/HelloServiceImpl.java:62-71 | for any names the events are "hello f l", "hola f l", "bonjour f l", "guten tag f l", then Completed |
| HelloService.PersonName | src/main/java/server/HelloServiceImpl.java:82 | the client-stream entry is the first name, one space, the last name |
| HelloService.GreetingIsSalutationAndPerson | src/main/java/server/HelloServiceImpl.java:133-135 | a greeting is its salutation, a space, and the client-stream entry for the same names |
| HelloService.People | src/main/java/server/HelloServiceImpl.java:78-84 | the accumulated list has one entry per request received, in arrival order |
| HelloService.PeopleAppend | src/main/java/server/HelloServiceImpl.java:81-84 | one more request appends its entry at the end and leaves the earlier entries unchanged |
| HelloService.ClientStreamObserver.constructor | src/main/java/server/HelloServiceImpl.java:77-78 | a new per-call observer starts with an empty list and the given response observer |
| HelloService.ClientStreamObserver.OnNext | src/main/java/server/HelloServiceImpl.java:81-84 | appends "first last" to the list, keeps the list equal to People(received), emits nothing |
| HelloService.ClientStreamObserver.OnError | src/main/java/server/HelloServiceImpl.java:87-89 | emits nothing and leaves the list unchanged |
| HelloService.ClientStreamObserver.OnCompleted | src/main/java/server/HelloServiceImpl.java:92-97 | emits exactly one summary equal to the list of all requests in arrival order, then Completed |
| HelloService.HelloClientStream | src/main/java/server/HelloServiceImpl.java:75-99 | returns a fresh observer, owned by this call, with an empty list |
| HelloService.ClientStreamPersons | src/main/java/server/HelloServiceImpl.java:81-84 | requests "person" A, B, C, D accumulate to ["person A", "person B", "person C", "person D"] |
| HelloService.BidiResponses | src/main/java/server/HelloServiceImpl.java:109-119 | N requests give N responses, the i-th greeting the i-th request with the salutation drawn for it |
| HelloService.BidiResponsesAppend | src/main/java/server/HelloServiceImpl.java:109-119 | one more request appends exactly its own response |
| HelloService.BidiResponseIsSomeSalutation | src/main/java/server/HelloServiceImpl.java:105-119 | every bidi response is one of the four salutations, a space, and the request's "first last" |
| HelloService.BidiStreamObserver.constructor | src/main/java/server/HelloServiceImpl.java:104-106 | the observer uses the four salutations and the given response observer, nothing received yet |
| HelloService.BidiStreamObserver.OnNext | src/main/java/server/HelloServiceImpl.java:109-119 | emits exactly one Next with the salutation at the drawn index (0 <= index < 4), keeping one response per request received |
| HelloService.BidiStreamObserver.OnError | src/main/java/server/HelloServiceImpl.java:122-124 | emits nothing |
| HelloService.BidiStreamObserver.OnCompleted | src/main/java/server/HelloServiceImpl.java:127-129 | forwards a single Completed after the responses, with no summary |
| HelloService.HelloStream | src/main/java/server/HelloServiceImpl.java:102-131 | returns a fresh request observer bound to the given response observer |

## Left out

- The client (`GrpcClient`): it builds the channel, creates the stubs, sleeps
  between sends, waits on latches and prints. It has no logic of its own.
  Its error decoding goes through gRPC library calls that are not part of
  this model.
- gRPC and protobuf internals are not modelled. This covers metadata keys
  (`ProtoUtils.keyForProto`), `Any.pack`, `StatusProto.toStatusRuntimeException`,
  the message builders and serialisation. Their results appear as plain
  datatype values inside an `Error` event. An `ErrorInfo` detail is held
  directly rather than packed in an `Any`.
- The framework's reaction to events sent after the call has closed is not
  modelled. grpc-java's server-side response observer throws
  `IllegalStateException` at the first call after a terminal event, and that
  exception ends `hello` there. With one name missing, `hello` never reaches
  `onCompleted`. With both names missing, it never builds the greeting.
  `HelloEvents` is the sequence the handler produces against an observer that
  never throws. `HelloEvents(request)[0]` is the error the client actually
  receives, and `HelloDelivered` gives the whole prefix that gRPC delivers.
- `java.util.Random`: the generator is replaced by the index it draws, given
  to `BidiStreamObserver.OnNext` as `choice`. The model only assumes what
  `nextInt(4)` guarantees: `0 <= choice < 4`.
- Logging in the two `onError` callbacks (console output) is left out.
- Threading and concurrency between callbacks are left out. Each request
  observer is modelled as a sequence of method calls on its own object.
