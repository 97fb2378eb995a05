# An HTTP/1.1 server engine, modelled and proved in Dafny

The model covers the hand-written state machines and codecs of the embedded HTTP server: the connection engine over an
adversarial transport, the wake-up protocol between publisher threads and a reactor, the incremental request parser,
server-sent events, routing, admission, the response encoder, and the codecs and bit arithmetic. Every method that the
server writes as a loop or as an update of fields is a Dafny method over fields, arrays or buffers, proved against a
specification; the laws are lemmas about those specifications or invariants kept by every method.

## Layout

| file | what it holds |
|---|---|
| Text.dfy, Bits.dfy | searching, splitting, numerals; powers of two, masks and shifts as arithmetic |
| Messages.dfy, RequestFields.dfy, RequestParser.dfy, RequestViews.dfy | the request parser: field lines, the one-shot meaning, and the incremental class with borrowed views |
| Refusals.dfy, RequestPaths.dfy | which refusals later bytes cannot undo, and which paths a parsed request can carry |
| Pipeline.dfy, OneShot.dfy | repeated parsing of a byte stream, and the incremental parser as one parse of the whole text |
| Buffer.dfy, Transport.dfy, Connection.dfy, Finality.dfy, HeldBytes.dfy | the buffer, the two transports, the six-state engine, what its refusals say of the stream, and a turn that ends with a request held inside OpenSSL |
| WakeProtocol.dfy, WakeLiveness.dfy, StreamDrives.dfy | the wake-up protocol: its invariant, what fair executions bring about, and the engine's stream history as one of its schedules |
| SseFrames.dfy, SseSubscriber.dfy, StreamDelivery.dfy | event-stream frames, the bounded queue, and both together as a client sees them |
| RoutePatterns.dfy, Router.dfy, Reachability.dfy, UnreachableRoutes.dfy | routing, which registrations some request can reach, and some that none can |
| AllowField.dfy, Admission.dfy | the Allow field and admission tokens |
| FieldLines.dfy, ResponseHead.dfy, ResponseRoundTrip.dfy, DistinctNames.dfy, WirePromise.dfy | response heads, written and read back |
| Utf8.dfy, JsonText.dfy, DistinguishedNames.dfy, Cidr.dfy, VectorScan.dfy | codecs and bit arithmetic |

## Conventions

* A text is a sequence of characters, one for each byte; UTF-8, JSON, addresses and the vector scan use numbers below 256.
* A search that finds nothing answers the length of the text where the C++ code has `npos`.
* The network, OpenSSL, handlers, stream sources, the compressor, the media-type test, `inet_pton` and the clock are
  adversaries or parameters. Where a call could go on for ever because an adversary never stops (interrupted system
  calls, arriving bytes, pulls that always have data), a counter of any size bounds how often; nothing else depends on it.
* The connection engine's ghost fields hold its whole past: one history of payloads wholly written and of what happened
  to stream sources, and the dialogue of bytes received, requests dispatched, answers queued and bytes refused. `Valid()`
  ties the real fields to them, so each method's `ensures Valid()` is a statement about whole runs; `Connections.Serve`
  runs any sequence of events and `Connections.AnyRun` destroys the connection behind it. The two-state predicates that
  `Lawful()` collects say what is kept from the start of such a run to its end.
* The engine holds the incremental parser itself and hands it the buffer's bytes at whatever address they lie.
  `Parsing()` says that the parser has seen a prefix of them.
* The reactor and its publishers are a state machine whose actions are the critical sections, eventfd operations and
  atomic loads; `Run` executes any schedule of them. Liveness is stated over endless schedules. `WakeLiveness.Fair` asks
  that the reactor is not stopped, that each of its turns ends (so no source outruns its socket for ever), that a raised
  eventfd is reported at last, and that publishers finish what they do; it asks nothing of when anything happens.
* `request.hpp` line 102 says that the path is percent-decoded. The code rejects a path with `%` in it instead
  (`path_is_canonical`), and the model follows the code.
* A proper prefix of an accepted request does not always ask for more data: when the request line has exactly the
  maximum length and the buffer ends between its CR and its LF, the parser answers TargetTooLong.
  `RequestParsing.ProperPrefix` gives the exact condition, `RequestParsing.BoundaryIsReached` shows that every accepted
  request meets it under a tight limit, and `Refusals.LineAtTheLimit` is a request that does. It is also the one way in
  which later bytes undo a refusal, but for a lone CR that the limits already refuse (`Refusals.RefusalIsFinal`).
* The emitted field names are not always distinct: a Content-Encoding that the handler set to the empty text does not
  stop the encoder from adding its own. `DistinctNames.NamesAreDistinct` gives the exact condition and
  `DistinctNames.EmptyEncodingIsDoubled` a response that meets it.
* A turn can end by asking for readability although no read has blocked: when its eighth answer, or the answer to a body
  that ended with the buffer, leaves the buffer empty. Decrypted bytes may then wait inside OpenSSL, where no readiness
  event shows them. `Connection.WaitsFor` says that these are the only such turns, and that in all others nothing is held;
  `HeldBytes.TurnEndsWithRequestHeld` is a record of nine requests of which the last is held so.
* A route can be registered and never answer. Registration refuses equal patterns only, and a pattern's own rules
  exclude some but not all segments that no request can carry. `Reachability.RouteIsReachable` gives the exact condition,
  over the paths that parsed requests carry (`RequestPaths.CarriedPaths`). The methods of `UnreachableRoutes` perform such
  registrations: a renamed capture, a wildcard whose paths the routes before it use up, and a literal segment with `%` in
  it; `UnreachableRoutes.SuchPatterns` names some of their patterns.

## Model

| member | source | states |
|---|---|---|
| Connections.AnyRun | src/connection.cpp:66-101 | after any sequence of events and destruction: accepted bytes are the finished payloads in order and a prefix of one more, no retry ever differed, the dispatched requests are the stream's own and what was refused is what follows them, every source was attached directly after the response that announces it was written, pulled only while attached and detached exactly once; an unanswered request is armed for no later than its first byte's budget, and a stalled stream's deadline has not moved |
| Connections.Serve | src/connection.cpp:70-101 | however many events there are: an unanswered request keeps its deadline, a stream that gets no byte out keeps the one armed when it first blocked, nothing is answered behind a refusal, and closing is final |
| Connections.LawfulLifeIsOrderly | src/connection.cpp:275-290 | a lawful past has each attachment directly behind the writing of the response that announces the source just taken, pulls only from an attached source that has not finished, and each piece that a pull brought as the very next thing written, unless the source is released first |
| Connections.DetachedOnce | src/connection.cpp:565-572 | a lawful past has as many detachments as takings, but for a source still held |
| Connections.Connection.Step | src/connection.cpp:70-101 | an epoll event keeps the whole invariant and the run's laws, answers at most nine requests, and answers an interest that fits: it waits for what the blocked call needs, never leaves unsent bytes without a write in sight, and between requests waits for bytes after a read that blocked, with nothing held decrypted, exactly unless the turn is over |
| Connections.Connection.OnStreamNotified | src/connection.cpp:507-511 | a notification keeps the invariant and the run's laws, and does nothing outside Streaming |
| Connections.Connection.OnDeadlineExpired | src/connection.cpp:513-538 | an expired deadline answers exactly once while a request is being read, and otherwise closes |
| Connections.Connection.Destroy | src/connection.cpp:66-68 | destruction leaves no source attached or held |
| Connections.Connection.constructor | src/connection.cpp:54-64 | a new connection over the request parser satisfies the invariant |
| Connections.Connection.Shake | src/connection.cpp:103-123 | success enters ReadingHeaders with its deadline, and nothing else changes the state |
| Connections.Connection.DriveHandshake | src/connection.cpp:103-123 | only a successful handshake leaves Handshaking, and it does; otherwise the answer waits for what the handshake needs |
| Connections.Connection.DriveReadHeaders | src/connection.cpp:125-188 | at most eight pipelined requests are answered in one turn, buffered bytes ask for another, and a plain wait follows a read that blocked exactly unless eight were answered |
| Connections.Connection.DriveReadBody | src/connection.cpp:190-224 | the body phase keeps the request deadline until the answer, and stays only when a read blocked |
| Connections.Connection.ParseBuffered | src/connection.cpp:135-136 | the incremental parser, on the bytes buffered now, answers what one parse of them answers |
| Connections.Connection.Receive | src/connection.cpp:167-176 | received bytes lengthen the buffer only; the first of a request start its absolute budget |
| Connections.Connection.AdoptRequest | src/connection.cpp:226-235 | the next request of the stream is dispatched and exactly its bytes are consumed |
| Connections.Connection.Respond | src/connection.cpp:137-152 | a whole request is dispatched and answered once; a refused one is recorded with its reason and answered once |
| Connections.Connection.DispatchAndSerialize | src/connection.cpp:440-483 | one whole response is queued, with the head that promises what will be done, and its source is taken |
| Connections.Connection.SerializeError | src/connection.cpp:485-496 | an error response is queued once, never promises keep-alive, and the parser starts afresh |
| Connections.Connection.DriveWrite | src/connection.cpp:237-327 | a response leaves Writing only when it is wholly on the wire, and then returns to reading exactly when its head promised keep-alive |
| Connections.Connection.EndExchange | src/connection.cpp:291-327 | reuse happens exactly under the condition the head was written for |
| Connections.Connection.PrepareNext | src/connection.cpp:317-324 | buffered bytes of the next request start their budget now, and only they; no byte is lost to reclaiming |
| Connections.Connection.AttachStream | src/connection.cpp:275-290 | a source is attached only when the last payload written is the response that announces it |
| Connections.Connection.DriveStream | src/connection.cpp:329-424 | chunks go out whole and in order, a stalled write's deadline is armed once, and the stream goes quiet only with nothing left to send |
| Connections.Connection.FlushOnce | src/connection.cpp:337-373 | one attempt: progress restarts the deadline, a block arms it once, a failure closes |
| Connections.Connection.PullNext | src/connection.cpp:384-423 | a source is pulled only while attached and never after it finished |
| Connections.Connection.FlushStep | src/connection.cpp:242-273 | exactly the bytes the transport took are passed over |
| Connections.Connection.BeginClose | src/connection.cpp:498-505 | closing releases the source once; closing again changes nothing |
| Connections.Connection.DriveClose | src/connection.cpp:426-438 | draining reads at most four times, writes nothing and is done |
| Connections.Connection.EnterState | src/connection.cpp:540-563 | each state gets its own time, capped by the request deadline |
| Connections.Connection.StartBudget | src/connection.cpp:171-176 | the first byte starts the absolute budget and caps the header timeout; later bytes change neither |
| Connections.Connection.AwaitProgress | src/connection.cpp:356-363 | a blocked stream write gets the write timeout when it first blocks, and keeps that deadline |
| Connections.Connection.Fill | src/connection.cpp:158-176 | one read: a block answers what it waits for, an end closes, bytes join the buffer |
| Connections.Connection.ReleaseStreamSource | src/connection.cpp:565-572 | a held source is detached exactly once |
| Finality.EngineRefusedForGood | src/connection.cpp:146-153 | what a connection refused is refused for good: its stream, with whatever follows, holds no request beyond the dispatched ones, unless the refusal is the one that reopens |
| OneShots.ParseThrough | src/request.cpp:732-756 | a request read through the views that the incremental parser hands out is the request of the one-shot parse |
| OneShots.OneShotIsStable | src/request.cpp:904-908 | the request parser's successes are not undone by later bytes |
| Transports.Transport.WriteVectors | src/socket.cpp:443-484 | the reported count is exactly what the kernel took, in order, across interrupts, short writes and batches; less than everything only when the kernel's latest answer was a short count, a block or a failure |
| Transports.Transport.PlainWritev | src/plain_transport.cpp:58-67 | over a plain socket the taken bytes are a prefix of the pieces, and a block and a failure are told apart |
| Transports.Transport.TlsWritev | src/tls_transport.cpp:369-395 | a blocked write that is retried with the same bytes reuses the same storage: no byte is repeated or skipped, and the different-buffer error is not reached |
| Transports.Transport.Writev | src/tls_transport.cpp:178-200 | the contract the engine relies on for both transports |
| Transports.Transport.CoalesceIntoScratch | src/tls_transport.cpp:202-215 | the scratch holds the pieces, joined |
| Transports.BuildBatch | src/connection.cpp:247-259 | the skipping loop builds those pieces, up to the batch capacity |
| Buffers.Buffer.WritableTail | src/internal/buffer.hpp:23-27 | room is made without touching the readable bytes |
| Buffers.Buffer.Commit | src/internal/buffer.hpp:29-31 | committed bytes are appended |
| Buffers.Buffer.Consume | src/internal/buffer.hpp:37-41 | exactly the consumed prefix disappears |
| Buffers.Buffer.CompactAndReclaim | src/internal/buffer.hpp:53-63 | reclaiming keeps the readable bytes and bounds the capacity |
| Buffers.Buffer.Append | src/internal/buffer.hpp:70-74 | appended bytes follow the readable ones |
| Pipeline.SplitsExtend | src/connection.cpp:125-188 | bytes that arrive later change no request found so far |
| Pipeline.SplitsNext | src/connection.cpp:226-235 | taking a request off the buffer is one step of the repeated parse |
| Pipeline.SplitsAgree | src/connection.cpp:125-235 | chunking independence: any two ways of reading one stream agree as far as both go |
| Pipeline.SplitsConserve | src/internal/buffer.hpp:33-41 | consumed and buffered bytes are the received bytes |
| RequestParsing.SuccessIsStable | src/request.cpp:732-756 | a successful parse is unchanged by any further bytes |
| RequestParsing.ProperPrefix | src/request.cpp:758-779 | a proper prefix of an accepted request needs more data, except exactly at the line-length boundary |
| RequestParsing.BoundaryIsReached | src/request.cpp:764-768 | every accepted request shows that exception under the limit its line just meets |
| Refusals.RefusalIsFinal | src/request.cpp:758-779 | a refusal is a refusal of every continuation exactly unless the bytes end between CR and LF of a line that just meets the limit, or are a lone CR |
| Refusals.LineAtTheLimit | src/request.cpp:764-768 | a shortest request, accepted under a line limit of 14, whose prefix of 15 bytes is refused |
| RequestParsing.ConsumedBytesSuffice | src/request.cpp:748-756 | an accepted request is determined by its consumed bytes |
| RequestParsing.ParseHead | src/request.cpp:758-847 | every view of the head lies inside it, and the decoded query fits the space reserved for it |
| RequestParsing.ParseRequest | src/request.cpp:904-908 | consumed bytes exist, and the body begins inside them |
| RequestParsing.PathIsCanonical | src/request.cpp:196-212 | the segment loop decides the declarative rule: rooted, no escapes, no empty or dot segments |
| RequestParsing.DecodeComponentInto | src/request.cpp:166-194 | the in-place loop appends exactly the decoded component, or fails where decoding does |
| Fields.ParseHeaderFields | src/request.cpp:337-374 | the loop answers what reading the lines one by one answers, errors included |
| Fields.ResolveContentLength | src/request.cpp:394-426 | the loop answers the declarative length rule |
| Fields.ContentLengthMeaning | src/request.cpp:378-426 | a length is accepted exactly when no Transfer-Encoding is present and all Content-Length fields are canonical numerals of one number within the limit |
| Fields.TrimCutsBlanks | src/request.cpp:116-122 | only outer blanks are cut, all of them |
| RequestViews.RequestParser.Parse | src/request.cpp:732-756 | incremental equals one-shot: any growing prefixes, in a buffer that moves, give the fresh parse's result, and every view handed out reads as its text |
| RequestViews.RequestParser.Finish | src/request.cpp:739-756 | a complete head waits for its body and then hands the request out once |
| RequestViews.HandedOutDenotes | src/request.cpp:748-756 | the request handed out reads as the one-shot request |
| RequestViews.RememberBufferOffsets | src/request.cpp:849-871 | exactly the borrowed views get offsets |
| RequestViews.RebaseBorrowedViews | src/request.cpp:873-889 | all borrowed views follow the buffer |
| WakeProtocol.NoLostWakeup | src/reactor.cpp:78-94 | for any number of publishers and any schedule: a reactor that is blocked with no signal under way has no streaming connection with queued frames or a closed subscriber that is not itself waiting to write; pending ids are distinct |
| WakeProtocol.StepKeeps | src/reactor.cpp:149-223 | every atomic step keeps the inductive invariant |
| WakeProtocol.RunKeeps | src/reactor.cpp:149-223 | and so does every schedule |
| WakeProtocol.NotificationReachesItsMaker | src/reactor.cpp:229-233 | a notification drives the connection that made its id, and ids are unique |
| WakeProtocol.StaleIdStaysStale | src/reactor.cpp:410-428 | an id whose stream is over never names a connection again, even when its descriptor is reused |
| WakeProtocol.LateNotificationIsDropped | src/reactor.cpp:370-392 | a notification still under way when its connection closes drives nothing, whatever is scheduled in between |
| WakeLiveness.WaitingStreamIsPulled | src/reactor.cpp:163-206 | in every fair execution, a streaming connection with something to deliver that is not itself waiting to write is pulled at some later point and given frames or the end, unless its stream closes first |
| WakeLiveness.RestIsFair | src/reactor.cpp:163-206 | fairness can be had: every finite schedule that ends at rest begins a fair execution |
| StreamDrives.HistoryIsSchedule | src/connection.cpp:329-424 | the engine's writes and pulls of a stream are a schedule of the protocol, however publishers and blocked writes intervene, and lead to the corresponding state |
| StreamDrives.EngineIsMirrored | src/connection.cpp:329-424 | a streaming connection in any run is the protocol's connection after that schedule, waiting to write exactly while the engine has something queued |
| StreamDrives.PullAgrees | src/connection.cpp:384-423 | a source can be pulled in the engine exactly when it can in the protocol, and the drive goes on, ends or closes the stream in both |
| HeldBytes.TurnEndsWithRequestHeld | src/connection.cpp:184-187 | of nine requests in one TLS record the first eight fill a read and end the turn with an empty buffer, and the ninth is held decrypted |
| SseQueue.QueueOptimality | src/sse.cpp:147-260 | in every run an open subscriber's queue is the longest suffix of what was queued since the last pull that fits the budget, its size is exact, and delivery keeps order |
| SseQueue.ClosedForGood | src/sse.cpp:245-249 | a subscriber closed by an enqueue stays closed and empty |
| SseQueue.EnqueueCloses | src/sse.cpp:175-199 | the fourth dropping enqueue between pulls closes, and nothing else but an oversized frame does |
| SseQueue.LongestFitIsLongest | src/sse.cpp:183-189 | dropping the oldest frames one by one leaves the longest suffix that fits |
| SseQueue.SseSubscriber.EnqueueFrame | src/sse.cpp:175-199 | the critical section computes the specified queue |
| SseQueue.SseSubscriber.PullFrames | src/sse.cpp:147-159 | all queued frames are handed out, whole and in order |
| SseQueue.SseSubscriber.MaybeHeartbeat | src/sse.cpp:217-237 | a heartbeat is queued only when due, and closes a subscriber it does not fit |
| SseQueue.SseSubscriber.Close | src/sse.cpp:201-210 | closing keeps the queued frames for the next pull |
| SseFrames.RoundTrip | src/sse.cpp:51-126 | the concatenation of frames decodes, by section 9.2.6 of the WHATWG HTML standard, to one event per event frame, in order, with normalised names and line ends |
| SseFrames.BuildEventFrame | src/sse.cpp:109-118 | the printing loops print the frame |
| SseFrames.EventFrameSize | src/sse.cpp:81-107 | the size predicted by the separate loop is the printed size, or none exactly when it exceeds the limit |
| SseFrames.LinesNormalize | src/sse.cpp:51-65 | splitting at CR, LF and CRLF and joining is newline normalisation |
| StreamDelivery.ClientSeesPublishedEvents | src/sse.cpp:147-199 | in any run the bytes pulled decode to the events of whole published frames, in order |
| Routing.Router.Dispatch | src/router.cpp:325-414 | index and compiled segments give the answer that the declarative match over all registrations calls for |
| Routing.AnswerIsUnique | src/router.cpp:325-414 | there is only one such answer |
| Routing.AllowIsExact | src/router.cpp:409-410 | a 405 allows exactly the methods that would reach a handler or an asset |
| Routing.LiteralRoutesAreNotShadowed | src/router.cpp:239-262 | no registration shadows a literal one: asked for its own pattern, the router answers with it |
| RequestPaths.CarriedPaths | src/request.cpp:252-289 | the paths that parsed requests carry are exactly the canonical ones whose characters a target may hold before its query, with any method |
| RequestPaths.RequestableIsParsed | src/request.cpp:758-847 | for each such path there is a request line that the parser accepts with it |
| Reachability.RouteIsReachable | src/router.cpp:168-262 | a registration answers some request with a method exactly when its literal segments can be carried and one of its shapes is taken by no literal route with that method and no earlier dynamic one |
| Reachability.LiteralRouteIsReachable | src/router.cpp:239-262 | a literal registration answers some request exactly when its segments can be carried |
| Reachability.CoveringIsExact | src/router.cpp:343-366 | the segment-by-segment test of covering decides whether one pattern matches every path that another does |
| UnreachableRoutes.RegisterRenamedCapture | src/router.cpp:235-252 | two registrations that differ in the name of a capture both succeed, and the second never answers |
| UnreachableRoutes.RegisterUsedUpStar | src/router.cpp:235-252 | a wildcard registered behind a literal route, a capture and a longer wildcard succeeds, and no request reaches it |
| UnreachableRoutes.RegisterEscaped | src/router.cpp:168-181 | a literal segment with an escape character is registered, and no request reaches it |
| Routing.Router.AddRoute | src/router.cpp:168-262 | each error exactly when the code reports it, and otherwise one more registration; a failed call changes nothing |
| Routing.Router.Insert | src/router.cpp:254-262 | a new route keeps the index complete and in order |
| Routing.Router.Overlaps | src/router.cpp:235-252 | looking only under the pattern's key or among the dynamic routes finds every clash |
| Routing.Router.AddMount | src/router.cpp:288-306 | a mount's prefix is literal, rooted and ends in a slash |
| Routing.Router.SetFallback | src/router.cpp:316-324 | there is one fallback |
| Routing.Router.SearchExact | src/router.cpp:374-381 | the index finds the first literal route that takes the request, or all their methods |
| Routing.Router.SearchDynamic | src/router.cpp:383-391 | the walk over dynamic routes finds the first that takes it, or all their methods |
| Routing.Router.SearchMounts | src/router.cpp:393-407 | the first mount with the asset answers GET and HEAD only |
| RoutePatterns.MatchCompiled | src/router.cpp:343-366 | the walk over compiled segments decides the segment-by-segment match and finds its captures, never more than eight |
| RoutePatterns.LiteralMatchIsEquality | src/router.cpp:105-116 | without captures and wildcard a pattern matches exactly itself |
| RoutePatterns.CapturesRebuildPath | src/router.cpp:343-366 | captures put back into the pattern rebuild the path |
| RoutePatterns.IsValidRoutePattern | include/erikslund/http/router.hpp:61-88 | the cursor loop decides validity: every segment of a kind allowed there, at most eight captures |
| RoutePatterns.CompileSegments | src/router.cpp:186-233 | compilation gives one entry for each constraining segment, and knows wildcard and captures |
| AllowFields.AllowFieldValue | src/router.cpp:50-60 | the loop lists the allowed methods in the fixed order |
| AllowFields.AllowFieldReadsBack | src/router.cpp:50-60 | a reader of the Allow field finds exactly the allowed methods |
| AllowFields.ListReadsBack | src/request.cpp:147-158 | a written list reads back as its members |
| Admission.ServerState.Admit | src/server_state.cpp:36-54 | admission within both limits, each rejection exactly when its limit is reached, counts exact |
| Admission.ServerState.Release | src/server_state.cpp:56-75 | one slot goes back; the guards against underflow and missing entries never fire |
| Admission.ConnectionAdmission.Move | src/server_state.cpp:18-20 | a moved slot is the same slot |
| Admission.ConnectionAdmission.Assign | src/server_state.cpp:22-30 | move assignment gives the old slot back and takes the other over; self-assignment keeps it |
| Admission.ConnectionAdmission.Release | src/server_state.cpp:32-37 | releasing twice releases once |
| Admission.Perform | src/server_state.cpp:18-75 | every operation keeps counts equal to live tokens, without zero entries |
| Admission.AnyRun | src/server_state.cpp:12-75 | after any operations and the destruction of all tokens nothing is counted |
| ResponseRoundTrip.HeadRoundTrip | src/response_encoder.cpp:160-242 | an encoded head ends once, its fields read back in order, and the request parser's own rules recover the body length and the keep-alive promise |
| ResponseRoundTrip.HeadEndsOnce | src/response_encoder.cpp:181-242 | the only blank line is the last |
| ResponseRoundTrip.HeadReadsBack | src/response_encoder.cpp:188-242 | names and trimmed values read back |
| ResponseRoundTrip.FramingFieldsAreUnique | src/response_encoder.cpp:227-240 | exactly one Connection, exactly one Content-Length unless streaming or bodiless, never Transfer-Encoding |
| ResponseRoundTrip.LengthReadsBack | src/response_encoder.cpp:227-240 | the announced length is the body's |
| ResponseRoundTrip.PromiseReadsBack | src/response_encoder.cpp:227-240 | a reader keeps the connection exactly when promised |
| DistinctNames.NamesAreDistinct | src/response_encoder.cpp:188-242 | no two emitted fields have one name, in any case, exactly unless an answer is compressed whose handler declared an empty Content-Encoding |
| DistinctNames.EmptyEncodingIsDoubled | src/response_encoder.cpp:169-197 | such a response, with two Content-Encoding fields |
| ResponseHeads.EncodeResponse | src/response_encoder.cpp:160-242 | the appending code writes that head, and picks body and suppression |
| ResponseHeads.HeaderTable.SetHeader | src/response.cpp:190-208 | a field that could split the response is dropped; otherwise its name, in any case, has the new value and no other name changed |
| ResponseHeads.IsValidFieldName | src/response.cpp:56-66 | exactly the non-empty tokens |
| ResponseHeads.IsValidFieldValue | src/response.cpp:68-75 | exactly the texts without control characters but tab |
| ResponseHeads.FindHeader | src/response.cpp:183-188 | a value of that name, or none has it |
| ResponseHeads.ListNames | src/response_encoder.cpp:90-102 | the shrinking view finds a member of the list |
| ResponseHeads.MergedVaryLists | src/response_encoder.cpp:104-115 | the merged Vary names Accept-Encoding and keeps what was declared |
| FieldLines.FieldsReadBack | src/request.cpp:337-374 | any written fields read back |
| FieldLines.OnlyEndTerminates | src/response_encoder.cpp:69-74 | valid fields cannot end the head early |
| WirePromise.QueuedResponseReads | src/connection.cpp:440-483 | what a client reads in a queued response is what the connection's record says it promised, and the body's length |
| Utf8.ValidatorIsExact | src/text.cpp:84-118 | length k is accepted exactly when those k bytes encode one Unicode scalar value (section 4 of RFC 3629) |
| Utf8.AcceptedEncodes | src/text.cpp:84-118 | the value an accepted sequence encodes |
| Utf8.EncodedAccepted | src/text.cpp:84-118 | every encoded value is accepted |
| JsonText.JsonEscape | src/text.cpp:155-175 | the loop writes the escaped text |
| JsonText.AppendUtf8OrReplacement | src/text.cpp:120-130 | one valid sequence, or the replacement character for one byte |
| JsonText.UnescapeEscaped | src/text.cpp:155-175 | reading the escaped text (section 7 of RFC 8259) gives the input with ill-formed bytes replaced |
| JsonText.JsonRoundTrip | src/text.cpp:155-175 | and the input itself exactly when it was well formed |
| JsonText.EscapedIsWellFormed | src/text.cpp:155-175 | the output is well-formed UTF-8 for any input |
| JsonText.RepairIsExact | src/text.cpp:120-130 | repair changes exactly the ill-formed texts |
| DistinguishedNames.ClientIdentityHasAttribute | include/erikslund/http/tls.hpp:82-139 | the answer is membership in the decoded attribute list up to the first malformed component |
| DistinguishedNames.MatchValue | include/erikslund/http/tls.hpp:109-133 | a value agrees exactly when all of its decoded text does |
| DistinguishedNames.EscapeEqualsInsideValues | src/tls_transport.cpp:260-285 | the flag loop writes the escaped text |
| DistinguishedNames.EscapingKeepsAttributes | src/tls_transport.cpp:260-285 | escaping changes no attribute, for any text |
| DistinguishedNames.EscapingKeepsAnswers | src/tls_transport.cpp:260-285 | the test answers the same before and after escaping |
| DistinguishedNames.EscapedIsPlain | src/tls_transport.cpp:260-285 | after escaping each component has at most one plain equals sign, and text that is so already stays |
| Cidr.MatchesRule | src/cidr.cpp:166-185 | bytes and mask decide equality of the first p bits as numbers |
| Cidr.ClearHostBits | src/cidr.cpp:117-128 | the in-place loop gives the cleared address |
| Cidr.ClearedRoundsDown | src/cidr.cpp:117-128 | clearing rounds the number down to a multiple of the block size |
| Cidr.ClearedCoversTheSame | src/cidr.cpp:117-128 | clearing changes nothing a rule covers |
| Cidr.LongerPrefixCoversLess | src/cidr.cpp:166-185 | a longer prefix covers a subset |
| Cidr.Ipv4EntryIsMappedRule | src/cidr.cpp:110-115 | an IPv4 /p entry is the mapped /(96+p) rule |
| Cidr.ParseEntry | src/cidr.cpp:130-164 | each error as the code reports it, and otherwise a rule that stands for the entry |
| Cidr.FlagIsExact | src/cidr.cpp:161-163 | the IPv4 flag is set exactly when everything covered is an IPv4 address |
| Cidr.Allows | src/cidr.cpp:215-226 | an empty list and local peers are allowed, and otherwise exactly the covered addresses |
| VectorScan.ScanSimd | bench/scan_bench.cpp:117-169 | for any lane width the vector scan finds the first terminator and the flag of the bytes before it |
| VectorScan.ScanBytewise | bench/scan_bench.cpp:78-90 | so does the scalar scan |
| VectorScan.ScanLibrary | bench/scan_bench.cpp:92-101 | and the library scan |
| VectorScan.ScansAgree | bench/scan_bench.cpp:78-169 | hence all three agree on every block |

## Left out

- System calls, epoll registration, descriptors and signals: oracles; the eventfd is a counter.
- Reactor threads: the interleaving model has one reactor, as each connection belongs to one; the mutexes are the steps' boundaries, and memory ordering is not modelled.
- Allocation failure: `notify_stream` gives up when the pending list cannot grow, and the TLS scratch cannot be filled when memory runs out; both are assumed not to happen.
- Wrap-around of 64-bit stream ids and of counters of connections and bytes: they are unbounded.
- Addresses of I/O vectors: the engine's vectors are contents, so aliasing between the write buffer and the vectors is not modelled; addresses matter, and are modelled, in the TLS scratch record and in the parser's borrowed views.
- `TlsTransport::write` (the single-buffer path), shutdown, ALPN, certificates and OpenSSL's error queue: the engine writes only through `writev`.
- Conditional requests and the choice of a handler inside the connection engine: the handler's reply is arbitrary there; the encoder and the router are modelled on their own.
- `Accept-Encoding` quality values, media types and zlib: parameters of the encoder.
- Middleware: dispatch is modelled past it.
- The list of subscribers of a channel, its limit, and the heartbeat thread's schedule: publishers, heartbeats and subscriptions happen in any order instead.
- The order of the flat maps of headers and routes: any order of headers is allowed, and the exact index is a map.
- `inet_pton` and `inet_ntop`: an arbitrary address parser that maps dotted quads into the IPv4 range.
- HTML and Prometheus escaping, which replace single characters, and dates, ETags and number formatting, which print one value: they keep no state and share none with the rest.
- Configuration, logging, metrics, status pages, TLS reload and server start-up: plumbing.
- Connections.Connection.Handle: says only that a reply has a head; which reply a handler gives is its own affair.
- Transports.Transport.Read: reads any bytes up to the room and holds back any part of a record; the peer and the sizes of TLS records are not modelled.
