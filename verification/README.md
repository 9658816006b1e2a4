# Socket.IO-Java Flash socket transport, modelled in Dafny

This project models the core of the Flash socket transport of Socket.IO-Java and
the transport lifecycle base class it inherits:

- **AbstractTransport** (`abstract_transport.dfy`). `init(ServletConfig)` stores the
  servlet configuration and derives the configuration scoped to the transport's type
  label, then runs the `init()` hook. `newHandler` gets a handler from the handler
  provider and binds the session to it. The file also covers `toString`,
  `setTransportHandlerProvider` and the default no-op `init()` and `destroy()`.
- **HTTP dispatch** (`flash_dispatch.dfy`). `FlashSocketTransport.handle` routes a
  request by its method and path info. The request is rejected with 400, gets the
  `WebSocketMain.swf` resource, or goes to the WebSocket delegate. Java's
  `String.split("/")` is modelled exactly in `java_text.dfy`.
- **Policy request protocol** (`policy_protocol.dfy`). This is what each connection
  task does. It reads characters until a 0 or until the buffer passes 22 characters,
  decides whether to reply, writes the cross-domain policy document, and closes the
  socket.
- **Policy server** (`policy_server.dfy`). `startFlashPolicyServer` opens and binds
  the listener and submits the acceptor. The acceptor's loop and its exit rule are
  modelled, and so is `stopFlashPolicyServer`. Threads and `Future`s are replaced by
  tagged outcomes.
- **Flash transport lifecycle** (`flash_socket.dfy`). The `init()` hook runs through
  the base class template. It reads the four settings and the delegate, rejects a
  missing delegate, and starts the policy server only when host, domain and ports
  are all set. `destroy()` stops the server.

Objects are immutable values. An operation that can throw returns the state it
leaves behind together with the exception it threw (`Step`). I/O and environment
behaviour are parameters:
- each read the client delivers (`seq<ReadValue>`);
- which socket step fails (`SocketFault`, `ConnectionFaults`);
- what the acceptor meets at each turn (`AcceptEvent`);
- what waiting on its `Future` yields (`WaitOutcome`);
- the configuration and handler-provider lookups (function parameters);
- the platform line separator.

Behaviour of the code worth noting:
- A policy-server port outside 0..65535 makes `new InetSocketAddress` throw
  `IllegalArgumentException`. That is not an `IOException`, so it escapes `init`.
  Other start failures are swallowed.
- A start failure after `ServerSocketChannel.open()` (a failed bind, for one) leaves
  the listener field set and no acceptor. `destroy` then closes the listener and
  returns normally.
- On the normal path each connection is closed twice: once in the `try` and once in
  `finally`. After a setup, read or output-stream failure it is closed once, in
  `finally`. A failure of the first `close` is caught too, so that path still makes
  two close attempts.
- The request is read as characters through an `InputStreamReader`, not as bytes.
  End of stream (-1) does not stop the loop. It is appended as U+FFFF.
- The reply is written with `println`, so the platform line separator comes before
  the terminating NUL.
- A GET whose path is made only of slashes (`//`) throws
  `ArrayIndexOutOfBoundsException` instead of answering 400 (see Findings).

## Model

| member | source | states |
|---|---|---|
| `AbstractTransport.Init` | core/src/main/java/com/glines/socketio/server/AbstractTransport.java:43-47 | with the default hook, `init(config)` never throws; afterwards the servlet config is stored and the scoped config is built from that servlet config and this transport's type label; the label and provider are kept |
| `AbstractTransport.DefaultHooksChangeNothing` | core/src/main/java/com/glines/socketio/server/AbstractTransport.java:38-58 | the default `init()` hook and `destroy()` leave the transport unchanged, so `init` then `destroy` yields exactly the configured state |
| `AbstractTransport.NewHandler` | core/src/main/java/com/glines/socketio/server/AbstractTransport.java:60-64 | the provider is queried with the requested class and this transport's type label; when the provider is present and returns a handler, that handler comes back with the given session bound; a missing provider or a null handler is a null dereference |
| `AbstractTransport.NewHandlerAttachesSession` | core/src/main/java/com/glines/socketio/server/AbstractTransport.java:60-64 | the handler returned is the provider's handler, unchanged except that its session is set |
| `AbstractTransport.SetTransportHandlerProvider` | core/src/main/java/com/glines/socketio/server/AbstractTransport.java:71-74 | the stored provider becomes the given one (possibly null), and no other field changes |
| `AbstractTransport.ToStringIsTypeLabel` | core/src/main/java/com/glines/socketio/server/AbstractTransport.java:66-69 | the string form of a transport is its type label after construction, after `init`, after provider injection and after `destroy` |
| `FlashDispatch.Handle` | core/src/main/java/com/glines/socketio/server/transport/FlashSocketTransport.java:111-133 | a null, empty or "/" path is rejected with status 400 and the message "Invalid <label> transport request", and so is every non-GET request; a served swf always has content type `application/x-shockwave-flash` |
| `FlashDispatch.BadRequestIff` | core/src/main/java/com/glines/socketio/server/transport/FlashSocketTransport.java:112-132 | 400 happens exactly when the path is missing, empty or "/", or the method is not GET, or the stripped path has a first segment other than the type label |
| `FlashDispatch.IndexOutOfBoundsIff` | core/src/main/java/com/glines/socketio/server/transport/FlashSocketTransport.java:116-118 | `parts[0]` throws exactly for a GET whose path, after one leading slash is removed, is non-empty and made only of slashes |
| `FlashDispatch.DelegateIff` | core/src/main/java/com/glines/socketio/server/transport/FlashSocketTransport.java:116-120 | a request goes to the delegate if and only if it is a GET with a present path whose stripped form is not only slashes, has the type label as its first segment, and differs from `<label>/WebSocketMain.swf` |
| `FlashDispatch.ServeSwfIff` | core/src/main/java/com/glines/socketio/server/transport/FlashSocketTransport.java:116-130 | for a label without a slash, the swf is served exactly to a GET whose stripped path is `<label>/WebSocketMain.swf`, and such a request is never delegated |
| `FlashDispatch.SlashesOnlyPathThrows` | core/src/main/java/com/glines/socketio/server/transport/FlashSocketTransport.java:112-118 | a GET with path "//" gets past the empty-path check and then fails on `parts[0]` |
| `FlashDispatch.HandleChecked` | core/src/main/java/com/glines/socketio/server/transport/FlashSocketTransport.java:111-133 | routing with a path that has no first segment rejected as 400: never throws, agrees with `handle` wherever `handle` does not throw, and rejects exactly the malformed or mismatched requests |
| `JavaText.SplitEmptyIff` | core/src/main/java/com/glines/socketio/server/transport/FlashSocketTransport.java:117 | `split("/")` returns no pieces exactly when the string is non-empty and made only of slashes |
| `JavaText.SplitHead` | core/src/main/java/com/glines/socketio/server/transport/FlashSocketTransport.java:117-118 | when `split("/")` returns pieces, the first one is the text before the first slash |
| `JavaText.JoinSegments` | core/src/main/java/com/glines/socketio/server/transport/FlashSocketTransport.java:117 | joining the pieces between slashes (empty pieces included) with "/" gives back the original string |
| `JavaText.SegmentsOfJoin` | core/src/main/java/com/glines/socketio/server/transport/FlashSocketTransport.java:117 | cutting a "/"-joined list of slash-free pieces gives back the same pieces |
| `JavaText.ToJChar` | core/src/main/java/com/glines/socketio/server/transport/FlashSocketTransport.java:164 | the cast `(char) c` keeps the value of a real character and keeps the low 16 bits in general, so -1 becomes U+FFFF |
| `PolicyProtocol.ReadFrom` | core/src/main/java/com/glines/socketio/server/transport/FlashSocketTransport.java:163-165 | each turn of the read loop reads first and then tests; the buffer only grows, by the characters read, never past 23 characters; one read more than the buffer length is made; an early stop is caused by a 0 |
| `PolicyProtocol.ReadRequest` | core/src/main/java/com/glines/socketio/server/transport/FlashSocketTransport.java:160-165 | the buffer holds the characters read before the first 0 and is cut at 23; the 0 is not kept; at most 24 reads are made; reads after the end of the stream are -1 and are kept |
| `PolicyProtocol.StopsAtFirstNul` | core/src/main/java/com/glines/socketio/server/transport/FlashSocketTransport.java:163-165 | a 0 among the first 23 reads ends the loop: the buffer is exactly the characters before it, and that 0 was the last read |
| `PolicyProtocol.EndOfStreamDoesNotStop` | core/src/main/java/com/glines/socketio/server/transport/FlashSocketTransport.java:161-165 | a client that closes at once is read 24 times and leaves 23 copies of U+FFFF in the buffer |
| `JavaText.FoldCaseMatchesVariants` | core/src/main/java/com/glines/socketio/server/transport/FlashSocketTransport.java:166 | case folding makes a code unit equal to an ASCII character if and only if the unit is the character, its other case, or one of the non-ASCII units Java folds onto it (U+0130 and U+0131 for i, U+017F for s, U+212A for k) |
| `JavaText.EqualsIgnoreCaseIff` | core/src/main/java/com/glines/socketio/server/transport/FlashSocketTransport.java:166 | `equalsIgnoreCase` against ASCII text holds if and only if the lengths agree and every code unit is a case variant of the text's character at the same place |
| `JavaText.CaseVariantsMatch` | core/src/main/java/com/glines/socketio/server/transport/FlashSocketTransport.java:166 | ASCII text equals itself ignoring case, and so does any copy with some letters switched to the other case |
| `PolicyProtocol.ReplyDecision` | core/src/main/java/com/glines/socketio/server/transport/FlashSocketTransport.java:166-167 | the server decides to answer if and only if the request buffer is a code-unit-wise case variant of `<policy-file-request/>` or both domain and ports are set |
| `PolicyProtocol.PolicyRequestIsAscii` | core/src/main/java/com/glines/socketio/server/transport/FlashSocketTransport.java:140 | the request literal is 22 ASCII characters with no NUL |
| `PolicyProtocol.PolicyRequestAnswered` | core/src/main/java/com/glines/socketio/server/transport/FlashSocketTransport.java:163-172 | `<policy-file-request/>` in any case mix, followed by a 0, is read as exactly itself and is answered with the policy document whatever the configuration |
| `PolicyProtocol.ServeConnection` | core/src/main/java/com/glines/socketio/server/transport/FlashSocketTransport.java:157-182 | the socket is closed once or twice on every path, and exactly once when setup fails, a read fails, or the output stream fails on the way to a reply; a reply is sent if and only if no setup, read or output failure happens and the request matches case-insensitively or domain and ports are both set, and the reply is exactly the policy document |
| `PolicyProtocol.PolicyTextRoundTrip` | core/src/main/java/com/glines/socketio/server/transport/FlashSocketTransport.java:169-170 | the domain and ports are inserted verbatim: a document built from values without a double quote parses back to those values |
| `PolicyProtocol.ParsedTextIsPolicyText` | core/src/main/java/com/glines/socketio/server/transport/FlashSocketTransport.java:169-170 | every text the parser accepts is the document written for the values it returns |
| `PolicyProtocol.PolicyTextEndsWithOneNul` | core/src/main/java/com/glines/socketio/server/transport/FlashSocketTransport.java:169-171 | the document ends with a NUL after the line separator, and it has no other NUL when the domain, ports and separator have none |
| `PolicyServer.Start` | core/src/main/java/com/glines/socketio/server/transport/FlashSocketTransport.java:139-148 | the acceptor is submitted exactly when nothing fails; it then listens bound to the configured host and port; a port outside 0..65535 throws `IllegalArgumentException` unless opening or address reuse failed first; every other failure is an `IOException`; a failed open leaves the server unchanged |
| `PolicyServer.AcceptLoop` | core/src/main/java/com/glines/socketio/server/transport/FlashSocketTransport.java:151-191 | each accepted connection gets its own connection task, in accept order; the loop runs as long as it only accepts; it returns normally on the interrupt flag or a closed channel; any other accept failure ends it with an `IllegalStateException` whose cause is the `IOException` |
| `PolicyServer.Await` | core/src/main/java/com/glines/socketio/server/transport/FlashSocketTransport.java:205-211 | waiting on a finished acceptor yields a normal finish exactly when its task returned, and the task's exception when it threw |
| `PolicyServer.Stop` | core/src/main/java/com/glines/socketio/server/transport/FlashSocketTransport.java:196-216 | the listener, if any, is closed first, and the acceptor, if any, is awaited after; with no acceptor nothing is thrown; otherwise only a normal finish returns normally; a failure is rethrown as `IllegalStateException` with the original cause; an interrupted wait sets the interrupt flag and throws; an acceptor still not done throws |
| `PolicyServer.ClosingStopsAcceptor` | core/src/main/java/com/glines/socketio/server/transport/FlashSocketTransport.java:186-187 | once the channel is closed the acceptor always stops; if it had only accepted connections until then, it returns normally having served the same connections |
| `PolicyServer.CleanShutdown` | core/src/main/java/com/glines/socketio/server/transport/FlashSocketTransport.java:196-216 | an acceptor stopped by closing its channel lets shutdown return without throwing |
| `PolicyServer.AcceptFailureSurfacesAtShutdown` | core/src/main/java/com/glines/socketio/server/transport/FlashSocketTransport.java:188-211 | an accept failure other than closure reaches the caller of shutdown as an `IllegalStateException`; its cause is the acceptor's `IllegalStateException`, which is in turn caused by the `IOException` |
| `FlashSocket.ReadSettings` | core/src/main/java/com/glines/socketio/server/transport/FlashSocketTransport.java:74-77 | domain, ports and host are read under their parameter names; the port defaults to 843 |
| `FlashSocket.InitFlash` | core/src/main/java/com/glines/socketio/server/transport/FlashSocketTransport.java:73-98 | the hook runs after the template stored both configs, so it never dereferences null; a missing delegate throws `TransportInitializationException` with nothing started; otherwise a start is attempted only when host, domain and ports are all set; `IOException`s from the start are swallowed; a fault-free start with a valid port leaves a bound listener and an acceptor, and an acceptor appears only after such a start |
| `FlashSocket.Destroy` | core/src/main/java/com/glines/socketio/server/transport/FlashSocketTransport.java:100-103 | destroying a transport with no policy server does nothing and throws nothing |
| `FlashSocket.DestroyAfterFailedInit` | core/src/main/java/com/glines/socketio/server/transport/FlashSocketTransport.java:88-103 | after `init` failed for want of a delegate, `destroy` closes nothing and throws nothing |
| `FlashSocket.DestroyAfterFailedStart` | core/src/main/java/com/glines/socketio/server/transport/FlashSocketTransport.java:91-103 | when the policy server fails to start, `init` throws nothing except `IllegalArgumentException` for an out-of-range port; no acceptor exists; `destroy` closes the listener unless `open` itself failed, and returns normally |
| `FlashSocket.RunningServerAlwaysReplies` | core/src/main/java/com/glines/socketio/server/transport/FlashSocketTransport.java:91-172 | a policy server started by `init` has its domain and ports set, so every connection without I/O failure gets the policy document, whatever the client sent, and is closed |
| `FlashSocket.FullLifecycle` | core/src/main/java/com/glines/socketio/server/transport/FlashSocketTransport.java:91-216 | a fully configured transport starts its server; its acceptor serves every connection; `destroy` closes the channel, then awaits the acceptor, which has returned; `destroy` returns normally |

## Left out

- Servlet request and response objects are left out. A route names what `handle` does
  (status and message of `sendError`, content type and resource name), not the bytes.
  The swf copy (`IO.copy`), its class-loader lookup and the swallowed copy failure
  are opaque I/O.
- The WebSocket delegate's own `handle` is not part of this model. Routing to it is
  an outcome.
- `ServletBasedSocketIOConfig` is not part of this model. Its lookups are function
  parameters. `getInt(key, 843)` is modelled as "absent means 843"; what it does with
  a malformed number is not modelled.
- `TransportType` is not part of this model. The type label is a field.
  `FlashDispatch.ServeSwfIff` assumes the label has no slash.
- `TransportHandlerProvider.get` is a function parameter. A handler subclass that
  overrides `setSession` is not modelled: the default just stores the session.
- `AbstractTransportHandler` is not modelled. It only stores its config and session.
  The getters `getServletConfig` and `getConfig` are plain field reads.
- Socket mechanics and charset decoding are not modelled. Reads are the already
  decoded characters. A failed step is a tag: the `IO` reasons in `PolicyServer.Start`
  name the step and are not JDK messages.
- Concurrency is not modelled: the executor, thread scheduling, the parallel running
  of connection tasks, `RejectedExecutionException` and `CancellationException`. Each
  connection's outcome is computed on its own. The acceptor's own `interrupt()` calls
  on exit only touch its pool thread and are not modelled.
- A client that stops sending without a 0 and without closing keeps its task blocked
  in `read` forever. The model cannot express this: past the given reads the stream
  has ended.
- Close failures (of a connection or of the listener) are caught and ignored, so they
  have no outcome in the model.
- Logging is not modelled.
- JavaText.FoldCase: Java's full `Character.toUpperCase`/`toLowerCase` tables are not
  modelled. Only ASCII capitals and the four non-ASCII code units that Java maps onto
  ASCII letters are folded. `JavaText.EqualsIgnoreCaseIff` states the resulting match
  against ASCII text, which is the only comparison made.
- The reply is encoded by the `PrintWriter` in the platform's default charset. The model
  stops at the characters written, not the bytes on the wire.
- Paths, configuration values and the reply text are Dafny strings, which are sequences
  of Unicode code points. A supplementary character is one element here but two `char`s
  in Java, and a lone surrogate cannot be represented. Only the request buffer is
  modelled as UTF-16 code units.

## Findings

| source | as written | input that shows it | evidently intended | confidence | as-written member | corrected member |
|---|---|---|---|---|---|---|
| core/src/main/java/com/glines/socketio/server/transport/FlashSocketTransport.java:112-118 | the guard rejects only a null, empty or "/" path; after one slash is stripped, `path.split("/")[0]` is read without checking that there are pieces | GET with path info "//": it strips to "/", which splits into an empty array, and `parts[0]` throws `ArrayIndexOutOfBoundsException` | every malformed path is answered 400 "Invalid transport request" | medium, not executed | `FlashDispatch.SlashesOnlyPathThrows` (on `FlashDispatch.Handle`) | `FlashDispatch.HandleChecked` |
