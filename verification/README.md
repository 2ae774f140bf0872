# A verified model of tinyhttp, its coroutine runtime and its shared-memory map

The repository contains a small HTTP server. A worker waits on epoll and gives each
connection a coroutine of its own; the coroutine reads a request from a growing buffer,
yielding after every `recv`, and writes a response back. A separate library keeps a map in
a shared memory segment, with a bump allocator under an interprocess mutex.

The model has three parts.

* **Runtime and worker.** `Coroutines` is the runtime: the map of active routines, the
  list of finished nodes that are used again, the current routine. A routine body is any
  function from the inputs of its segments so far (injected exceptions included) to what
  the last segment does. `CoroutineRuns` is about whole runs: routines do not interfere,
  recycled nodes cannot be told from fresh ones, a kill is sticky. `Descriptors` and
  `EpollWorkers` add the kernel's tables and the worker; `WorkerRuns` proves that the
  client map, the coroutine map, the interest set and the open descriptors stay in step.
* **Requests and responses.** `Text`, `Tables`, `UrlCodec`, `Protocol`, `QueryParameters`,
  `HeaderFields` and `RequestLines` hold the parsers and printers; `Requests` is one parse
  of a whole byte string; `Connections` and `RequestReader` are the incremental reader;
  `ResponseSender` and `Responses` are the way back. `ServedRequests` runs the reader as a
  coroutine among others, and `ClientRoutines` the whole routine of a client, reader,
  change of events and sender, as the handler of the worker: this joins the two parts.
  `WatchedClients` says what epoll watches each client for, and `AnsweredClients` when the
  events that it reports are enough for an answer.
* **Shared memory.** `Arenas` is the allocator, `Mutexes` the semaphore, `SharedMaps` one
  operation of the map, `SharedMapRuns` any number of processes whose operations are cut
  into single steps and interleaved freely.

Code that changes state is written as classes and loops and tied to a function of the old
state (`DoCreate`, `Drive`, `Transmit`, `DoLoop`, `Apply` ...); the theorems are about those
functions, over all inputs and all runs. A byte is a `char`. What the environment
does is a script: chunks of received bytes, sizes of accepted writes, resumes and injected
exceptions, epoll batches, answers of `accept` and `epoll_ctl`, the order in which a hash
table is walked. The theorems hold for every such script; where one needs more, it says what:
a scheduler that resumes plainly and often enough (`Attentive`) where something is to come
about, and a kernel that reports and hands out what it can (`PossibleRun`) for the worker.

Some properties are false of the code as one would first state them. For these the project
gives the exact condition under which they hold:

* Printing a request and reading it back returns it if and only if its line has the shape that
  the parser produces (known method and version, a query split off at the first `?`, parameters
  that fit its syntax; `RequestLines.ParsedLineIsShaped`), the printed target holds no blank,
  `%`, `+` or CRLF, the header entries are clean and the body has the announced length; whatever
  bytes follow the request, and however they are delivered (`RequestLines.LineRoundTrip`,
  `HeaderFields.HeadersRoundTrip`, `QueryParameters.QueryRoundTrip`, `Requests.RequestRoundTrip`,
  `RequestReader.RequestArrives`). `GET /a%20b HTTP/1.1` is accepted and does not print back to
  itself (`RequestLines.EscapedBlankIsLost`).
* The sending loop erases from its buffer what it offered, not what the socket took, but
  counts what the socket took. When it returns, exactly the response was sent; but it
  returns, under any scheduler that keeps resuming it, if and only if no offer was ever
  taken in part (`ResponseSender.ReturnsExactlyOnWholeTakes`, with `ShortTakeExample`).
* `read_body` yields after the `recv` that takes the last byte of the body. With everything
  in its buffer it then waits for an event that a level-triggered epoll does not report: a
  request that comes in pieces, from a peer that then waits, is answered if and only if its
  head was not complete before the last piece (`AnsweredClients.AnsweredIffHeadCameLast`,
  with `BodySentApartIsNotAnswered`). Further bytes or the end of the stream wake it again.
* `deallocate` compares the address with the free pointer, not with the end of the block, so
  nothing the arena returned is ever reclaimed; it moves the pointer if and only if it is given
  the free pointer itself (`Arenas.OnlyTheFreePointerMoves`, with `ForeignAddressOverlaps`).
* `kill` is written to end its target and to throw the given exception. It ends it if and only if
  the routine has no body, was never entered, or its body does not yield on the injected
  exception (`CoroutineRuns.KillEndsItsTarget`, with `SurvivedKill`, a body that catches it and
  waits on). A survivor gets the exception again at each resume (`DoomedSegmentIsInjected`).

`dafny verify dfyconfig.toml` checks the whole project.

## Model

| member | source | states |
|---|---|---|
| `Coroutines.Ordinator.CreateRoutine` | lib/coroutine/src/coroutine.cpp:65-80 | the new runtime state: a fresh node, or the last finished one reset; on an id that is active the map is unchanged and the node taken is lost |
| `Coroutines.Ordinator.SwapInto` | lib/coroutine/src/coroutine.cpp:176-191 | one switch runs one segment of that routine alone, with a pending exception injected, or skips a body killed before its first segment |
| `Coroutines.Ordinator.ResumeRoutine` | lib/coroutine/src/coroutine.cpp:82-117 | status, rethrown exception, removal from the map and keeping of the node within the list's bound, for every id including 0 and unknown ones |
| `Coroutines.Ordinator.KillRoutine` | lib/coroutine/src/coroutine.cpp:119-139 | which exception the caller gets in each case, and the state left behind |
| `Coroutines.Ordinator.SetFreelistMaxSize` | lib/coroutine/src/coroutine.cpp:163-172 | the bound is set and the list cut to it |
| `CoroutineRuns.StepKeepsValid` | lib/coroutine/src/coroutine.cpp:19-80 | every operation leaves main current, no finished routine active, no two nodes on one stack, the list within its bound |
| `CoroutineRuns.RunKeepsValid` | lib/coroutine/src/coroutine.cpp:19-172 | the same after every run of allowed operations, each of which is answered |
| `CoroutineRuns.StepIsLocal` | lib/coroutine/src/coroutine.cpp:65-157 | an operation treats its own routine as a routine without a runtime around it would be treated, and no other routine changes |
| `CoroutineRuns.RoutinesDoNotInterfere` | lib/coroutine/src/coroutine.cpp:65-157 | in every run the answers and the routine of one id are those of its own operations run alone |
| `CoroutineRuns.ResumesRunSegmentsInOrder` | lib/coroutine/src/coroutine.cpp:94-116 | the k-th resume runs exactly the k-th yield-to-yield segment of the body and reports how it ended |
| `CoroutineRuns.RecyclingIsInvisible` | lib/coroutine/src/coroutine.cpp:50-80 | over every run the recycling runtime answers like one that builds every routine afresh, and leaves the same active routines |
| `CoroutineRuns.NodesAreReused` | lib/coroutine/src/coroutine.cpp:65-110 | an ended routine leaves its node at the end of the list if there is room and nothing else does; a creation takes that last node with its stack, and allocates one only from an empty list; a bound keeps the first nodes |
| `CoroutineRuns.StacksMatchTheMostActive` | lib/coroutine/src/coroutine.cpp:65-110 | without a bound no stack is wasted: over every run that creates no active id, the stacks allocated are as many as the most routines ever active at once |
| `CoroutineRuns.KillThrowsOrDooms` | lib/coroutine/src/coroutine.cpp:119-157 | a kill ends its target exactly when the body dies of the injected exception or never runs, and then throws; otherwise it fails and the exception stays pending |
| `CoroutineRuns.KillEndsItsTarget` | lib/coroutine/src/coroutine.cpp:119-139 | the same condition in any valid state of the runtime, for leaving the map, for throwing and for failing |
| `CoroutineRuns.SurvivedKill` | lib/coroutine/src/coroutine.cpp:136-157 | the concrete body that catches the exception and yields: the kill fails and the routine is still resumed |
| `CoroutineRuns.DoomedSegmentIsInjected` | lib/coroutine/src/coroutine.cpp:151-157 | each later resume of a survivor injects the exception again: it throws or yields, nothing else |
| `CoroutineRuns.KilledNeverFinishes` | lib/coroutine/src/coroutine.cpp:119-157 | one id alone: after a kill no resume finishes until the id is created anew |
| `CoroutineRuns.KillIsSticky` | lib/coroutine/src/coroutine.cpp:119-157 | the same over every run of the runtime with other routines in between |
| `Descriptors.Descriptor.MoveFrom` | lib/unixprimwrap/src/descriptor.cpp:43-50 | a move closes exactly what the target owned, carries the descriptor over and leaves the source empty; self-move changes nothing |
| `Descriptors.Descriptor.Close` | lib/unixprimwrap/src/descriptor.cpp:74-81 | closing gives up one open file once, and is harmless on an empty owner |
| `Descriptors.Descriptor.Extract` | lib/unixprimwrap/src/descriptor.cpp:68-72 | hands the descriptor out and owns nothing afterwards |
| `EpollWorkers.EpollWorker.AddToEventLoop` | lib/tinyhttp/src/epoll_worker.cpp:72-93 | registered client and watched descriptor, or both undone and the connection back with the caller |
| `EpollWorkers.EpollWorker.ChangeEvent` | lib/tinyhttp/src/epoll_worker.cpp:95-105 | recorded and watched events change together or not at all |
| `EpollWorkers.EpollWorker.CloseConnection` | lib/tinyhttp/src/epoll_worker.cpp:107-117 | the client leaves the map, its descriptor is closed and no longer watched; a missing client is the failed lookup |
| `EpollWorkers.EpollWorker.AcceptConnection` | lib/tinyhttp/src/epoll_worker.cpp:119-177 | all answers of `accept` and of the calls after it; a routine is created even when the registration failed; what it has to come to is said by `WorkerRuns.AcceptKeepsCoherence` |
| `EpollWorkers.EpollWorker.HandleClient` | lib/tinyhttp/src/epoll_worker.cpp:215-244 | hang-up kills and closes, otherwise resume and close unless the routine waits; which exceptions are absorbed and which escape |
| `EpollWorkers.EpollWorker.EventLoop` | lib/tinyhttp/src/epoll_worker.cpp:179-209 | the whole loop is the fold of the batches, each the fold of its events, up to an escaping exception |
| `WorkerRuns.ClientEventKeepsCoherence` | lib/tinyhttp/src/epoll_worker.cpp:215-244 | one client event keeps the maps and the kernel in step, drops no other client and fails no lookup |
| `WorkerRuns.AcceptKeepsCoherence` | lib/tinyhttp/src/epoll_worker.cpp:119-177 | one acceptance ends the worker if and only if `accept`, `fcntl` or `getsockname` failed, with that reason and no file left open; otherwise it keeps maps and kernel in step and adds exactly the new client, watched for input, with an unentered routine of its own, or nothing; a failed registration leaves an unentered routine that the next use of the descriptor takes over as if new |
| `WorkerRuns.BatchKeepsCoherence` | lib/tinyhttp/src/epoll_worker.cpp:199-244 | at every point of a batch each client not yet handled is in both maps, whatever was accepted or closed before |
| `WorkerRuns.LoopStaysCoherent` | lib/tinyhttp/src/epoll_worker.cpp:179-252 | at every loop head of every run, and where the stop flag ends it: clients have routines that wait at a yield or their start, entered routines have clients, the interest set and the open descriptors mirror the clients; no lookup ever fails; an exception ends the loop on a ready event only if it is not of the I/O kinds and the handler may throw it, and on a hang-up only if the handler does not let the kill through |
| `WorkerRuns.LoopIsToBlame` | lib/tinyhttp/src/epoll_worker.cpp:119-209 | over every run: a loop that goes on met no failing wait and no bad acceptance; one that ended for one of these did meet it |
| `WorkerRuns.IoFaultsNeverEndTheLoop` | lib/tinyhttp/src/epoll_worker.cpp:179-244 | over every run with a handler that throws I/O exceptions only and lets kills through, nothing but a failing wait or a bad acceptance that was met ends the loop |
| `WorkerRuns.RunGrowsHistory` | lib/tinyhttp/src/epoll_worker.cpp:179-244 | over every run the routine of a client that stays has been resumed with exactly what the events naming it brought, in order |
| `ClientRoutines.WhatEndsTheWorker` | lib/tinyhttp/src/epoll_worker.cpp:179-273 | in every run with the client routine as handler, what ends the loop is a failing wait or a bad acceptance that was met, a malformed request or an exception of the server; never a hang-up, and never a routine that survives one |
| `ClientRoutines.HowATurnEnds` | lib/tinyhttp/src/epoll_worker.cpp:215-244 | what a turn of a client comes to: an I/O fault or a return costs its own connection and no more, any other exception ends the worker; so a request that is not HTTP does end it |
| `ClientRoutines.EachConnectionIsServed` | lib/tinyhttp/src/epoll_worker.cpp:246-273 | in every run of the worker with this routine as handler: a client's routine that finishes has read the request its own bytes hold and its socket has taken exactly the server's answer; one that throws has its bytes, the server or its socket as the reason; one that waits has lost nothing |
| `ClientRoutines.ReadingEnds` | lib/tinyhttp/src/epoll_worker.cpp:254 | once the arrivals decide, as many turns as they can take `recv` calls end the reading |
| `ClientRoutines.WritingEnds` | lib/tinyhttp/src/epoll_worker.cpp:267 | a routine that writes to a socket which takes offers whole returns, after at most one turn an offer and one for each time the socket had no room |
| `ClientRoutines.RoutineAnswers` | lib/tinyhttp/src/epoll_worker.cpp:246-273 | the bound for one routine: after the turn by which an answerable request is there, one turn for each `recv` call it can take, each idle send and each offer of the answer, when no send is taken in part; by then it has returned with exactly the answer taken |
| `ClientRoutines.EachConnectionIsAnswered` | lib/tinyhttp/src/epoll_worker.cpp:179-273 | at any point of any run of the worker, resuming a client whose bytes hold an answerable request and whose sends were never taken in part either finishes its routine with exactly the answer taken by its socket, or leaves it waiting below that bound; it never throws |
| `AnsweredClients.EveryAnswerIsReached` | lib/tinyhttp/src/epoll_worker.cpp:179-273 | such runs exist, from the acceptance on: whatever answerable request a connection first brings, a possible run of turns with room for one offer ends by finishing its routine with exactly the answer; before each of its turns the client is watched for input while its routine reads and for output while it writes, and a turn with room is one that a level-triggered epoll reports exactly if the routine is not stalled with the whole request in its buffer |
| `AnsweredClients.AnsweredIffHeadCameLast` | lib/tinyhttp/src/epoll_worker.cpp:296-320 | a request comes in pieces of one `recv` each and its peer then waits: events that epoll reports bring the answer if and only if the head was still incomplete before the last piece; otherwise no event of the client is ever reported again |
| `AnsweredClients.BodySentApartIsNotAnswered` | lib/tinyhttp/src/epoll_worker.cpp:305-317 | so a printed request whose head and body come apart is read whole and not answered while its peer waits |
| `AnsweredClients.RoomIsReported` | lib/tinyhttp/src/epoll_worker.cpp:296-320 | when a routine whose request has arrived can still be woken without further bytes: exactly if it is not stalled |
| `WatchedClients.ClientsAreWatched` | lib/tinyhttp/src/epoll_worker.cpp:119-273 | at every loop head of every run, epoll watches each client for input while its routine reads, and once it writes for output if `epoll_ctl` worked in the turn that completed the request, for input if not |
| `WatchedClients.TurnWatches` | lib/tinyhttp/src/epoll_worker.cpp:95-105 | one turn: the `change_event` calls of the segment take the client from what it was watched for to what it has to be watched for next |
| `ClientRoutines.NoConnectionIsKeptWaiting` | lib/tinyhttp/src/epoll_worker.cpp:179-273 | in every run a connection that the worker still has stayed below that bound, and below the reader's own one where its bytes call for an exception or a refusal |
| `ClientRoutines.RoutineIsInStep` | lib/tinyhttp/src/epoll_worker.cpp:246-273 | at every yield: reading, buffer and queue hold what arrived; writing, the request is the expected one and taken bytes and buffer make up its answer unless a gap has opened |
| `ClientRoutines.WritingIsTransmit` | lib/tinyhttp/src/epoll_worker.cpp:388-409 | the segments that write, driven by a scheduler, are the sending loop |
| `ClientRoutines.ReadingIsDrive` | lib/tinyhttp/src/epoll_worker.cpp:246-273 | the segments that read, driven by a scheduler, are the reader, followed by what its request calls for |
| `ClientRoutines.ReadingChangesOnce` | lib/tinyhttp/src/epoll_worker.cpp:254-256 | under any scheduler the routine asks for output exactly once if its request is read, and for nothing otherwise |
| `ClientRoutines.ClientRoutine` | lib/tinyhttp/src/epoll_worker.cpp:246-273 | the method has the outcome, the accepted bytes and the `change_event` calls of these segments, also when it is killed or left waiting; when it returns the answer to the stream's request was sent whole and output asked for once |
| `WorkerRuns.StartIsCoherent` | lib/tinyhttp/src/epoll_worker.cpp:54-70 | the state in which the loop starts satisfies that invariant |
| `UrlCodec.DecodeUrl` | lib/tinyhttp/src/utils.cpp:36-67 | the loop computes the recursive decoding, with a cut-off escape emptying the result |
| `UrlCodec.DecodeInvertsEncoders` | lib/tinyhttp/src/utils.cpp:36-67 | decoding undoes every percent-encoder of section 2.1 of RFC 3986, any choice of escapes, either case, `+` for a blank, and on well-escaped text only those |
| `UrlCodec.DecodeNeverLengthens` | lib/tinyhttp/src/utils.cpp:36-67 | the result is never longer, and equally long exactly without `%` |
| `UrlCodec.DecodeDistributes` | lib/tinyhttp/src/utils.cpp:36-67 | decoding distributes over concatenation after escape-complete text |
| `UrlCodec.TruncatedEscapeEmptiesResult` | lib/tinyhttp/src/utils.cpp:41-44 | the result is empty exactly for empty input or a truncated escape |
| `UrlCodec.EscapeIsStrtoul` | lib/tinyhttp/src/utils.cpp:46-48 | any two bytes of an escape, hexadecimal or not, become what `strtoul` reads in them in base sixteen, narrowed to a byte |
| `Text.ToLower` | lib/tinyhttp/src/utils.cpp:25-34 | every ASCII capital is folded, every other byte kept; what that means for comparing names is said by `Text.FoldingIgnoresCase` |
| `Text.FoldingIgnoresCase` | lib/tinyhttp/src/utils.cpp:25-34 | no capital is left, and two names fold to the same if and only if they are equally long and agree byte for byte up to the case of a letter |
| `Text.DecimalIsPositional` | lib/tinyhttp/src/http_response_line.cpp:43 | digit strings are valued in base ten by the places of their digits, and printed numbers carry no leading zero |
| `Text.StollReadsPrefix` | lib/tinyhttp/src/epoll_worker.cpp:374 | the announced length: blanks and one sign, the longest run of digits, anything after it ignored, out of range noticed |
| `Protocol.MethodTablesInverse` | lib/tinyhttp/src/constants.cpp:78-98 | the method tables are inverse to each other |
| `Protocol.VersionTablesInverse` | lib/tinyhttp/src/constants.cpp:110-147 | the version tables are inverse to each other |
| `Protocol.MethodTexts` | lib/tinyhttp/src/constants.cpp:78-98 | each of the eight methods has its own name as text |
| `Protocol.VersionTexts` | lib/tinyhttp/include/tinyhttp/constants.h:39-44 | a version text spells the major and minor digit of its version, and no other text does |
| `QueryParameters.ParseParameters` | lib/tinyhttp/src/http_query_parameters.cpp:9-48 | the shrinking-view loop collects the `&`-separated pieces, first duplicate winning, failing on a piece without `=` |
| `QueryParameters.QueryToString` | lib/tinyhttp/src/http_query_parameters.cpp:110-126 | prints the table in some order, joined by `&` |
| `QueryParameters.PrintedParametersAreSpelled` | lib/tinyhttp/src/http_query_parameters.cpp:110-126 | split at `&`, a printed query holds one piece a parameter: key, `=`, value |
| `QueryParameters.QueryRoundTrip` | lib/tinyhttp/src/http_query_parameters.cpp:9-126 | print then parse is the identity exactly on clean tables, for every order |
| `Tables.CollectKeepsFirsts` | lib/tinyhttp/src/http_query_parameters.cpp:24-47 | a table filled by `emplace` holds for each key its first entry and exists exactly when every entry is well formed |
| `HeaderFields.ParseHeaderBlock` | lib/tinyhttp/src/http_headers.cpp:9-50 | the consuming loop computes the table of the block's lines |
| `HeaderFields.HeadersKeepFirstLine` | lib/tinyhttp/src/http_headers.cpp:18-49 | folded names to stripped values, first line winning; it fails exactly on a line without a colon |
| `HeaderFields.EntryIsField` | lib/tinyhttp/src/http_headers.cpp:24-46 | a line is read as a field if and only if it spells name, colon, blanks and value, the name in any case |
| `HeaderFields.NameIsLookedUp` | lib/tinyhttp/src/http_headers.cpp:24-70 | looking a name up, in any spelling, gives the value of the first line that carries it in any spelling |
| `HeaderFields.HeadersToString` | lib/tinyhttp/src/http_headers.cpp:112-128 | prints the fields in some order, without the last CRLF |
| `HeaderFields.PrintedFieldsAreSpelled` | lib/tinyhttp/src/http_headers.cpp:112-128 | a printed block of clean fields holds one line a field: name, colon, one blank, value |
| `HeaderFields.HeadersRoundTrip` | lib/tinyhttp/src/http_headers.cpp:9-128 | print, CRLF, parse is the identity exactly on clean tables, for every order |
| `HeaderFields.HttpHeaders.At` | lib/tinyhttp/src/http_headers.cpp:52-54 | finds the stored value of any name that differs from the given one in case only, and of no other |
| `HeaderFields.HttpHeaders.InsertOrAssign` | lib/tinyhttp/src/http_headers.cpp:56-58 | replaces under the folded name, keeps every stored name folded |
| `HeaderFields.HttpHeaders.EmplaceField` | lib/tinyhttp/src/http_headers.cpp:60-62 | keeps a present value |
| `HeaderFields.HttpHeaders.Erase` | lib/tinyhttp/src/http_headers.cpp:64-66 | removes the folded name and says whether it was there |
| `RequestLines.ParseRequestLine` | lib/tinyhttp/src/http_request_line.cpp:10-62 | the cursor code computes the recursive reading, with its order of errors |
| `RequestLines.LineGrammar` | lib/tinyhttp/src/http_request_line.cpp:10-62 | the parser accepts exactly the lines METHOD SP target SP protocol/version, with exactly that meaning |
| `RequestLines.LineToString` | lib/tinyhttp/src/http_request_line.cpp:80-101 | prints the line with the query in some order; fails exactly for the unsupported method |
| `RequestLines.ParsedLineIsShaped` | lib/tinyhttp/src/http_request_line.cpp:34-60 | what every accepted line has: known method and version, a query split off at the first `?` |
| `RequestLines.LineRoundTrip` | lib/tinyhttp/src/http_request_line.cpp:10-101 | print then parse is the identity exactly when the line is shaped like a parsed one and the printed target is plain, for every query order |
| `RequestLines.EscapedBlankIsLost` | lib/tinyhttp/src/http_request_line.cpp:34-87 | the concrete accepted line whose printed form parses to something else |
| `RequestLines.PrintedQueryIsShortest` | lib/tinyhttp/src/http_query_parameters.cpp:9-126 | of all query strings with the same meaning the printed one has the fewest bytes, as multisets |
| `RequestLines.NormalForm` | lib/tinyhttp/src/http_request_line.cpp:10-101 | for accepted lines whose target has no `%` and no `+`: parse, print, parse equals parse |
| `Requests.ResumedSearchIsComplete` | lib/tinyhttp/src/epoll_worker.cpp:329-347 | the search resumed four bytes back finds the first CRLFCRLF of the whole buffer |
| `Requests.CutBlockIsWhole` | lib/tinyhttp/src/epoll_worker.cpp:360-368 | the header slice is empty or ends in CRLF; its loop meets no empty line and uses it up |
| `Requests.FirstCrlfIsInHead` | lib/tinyhttp/src/epoll_worker.cpp:360-365 | the first CRLF lies at or before the end of the head, so the slices are in range |
| `Requests.VerdictIsStable` | lib/tinyhttp/src/epoll_worker.cpp:355-386 | once the bytes so far decide the request or the error, later bytes change nothing |
| `Requests.StreamIsReadAs` | lib/tinyhttp/src/epoll_worker.cpp:355-386 | what one parse of a stream comes to: request line, fields and length in this order of errors, and as many bytes of body as the first Content-Length line announces, in whatever case its name is spelled |
| `Requests.RequestToString` | lib/tinyhttp/src/http_request.cpp:54-69 | prints line, fields in some order, empty line, body; fails exactly for the unsupported method |
| `Requests.RequestRoundTrip` | lib/tinyhttp/src/http_request.cpp:54-69 | print then parse, whatever bytes follow, is the identity exactly on transmissible requests, for every order, empty header table included |
| `Requests.PrintedFrame` | lib/tinyhttp/src/http_request.cpp:54-69 | a printed message is cut into its line, its fields and its body; without fields one CRLF stays in front of the body |
| `Connections.Connection.ReadInIoBuff` | lib/tinyhttp/src/connection.cpp:236-249 | one `recv`: its bytes are appended, nothing else changes; closed endpoint, length zero, end of file, blocking, failure |
| `Connections.Connection.WriteFromIoBuff` | lib/tinyhttp/src/connection.cpp:251-262 | one `send`: the taken bytes go out, the offered bytes are erased |
| `Connections.RecvFollowsStream` | lib/tinyhttp/src/connection.cpp:204-226 | a `recv` takes the next bytes off the stream and preserves the rest and its end |
| `RequestReader.ReadUntilHeadersEnd` | lib/tinyhttp/src/epoll_worker.cpp:324-353 | the loop ends at the first terminator, or as the segment-wise reader does, or at once on a closed endpoint |
| `RequestReader.ReadBody` | lib/tinyhttp/src/epoll_worker.cpp:296-322 | the loop ends with exactly the announced bytes, or as the segment-wise reader does |
| `RequestReader.ReadHead` | lib/tinyhttp/src/epoll_worker.cpp:360-376 | cutting, parsing and length lookup agree with one parse of the buffer |
| `RequestReader.ReadHttpRequest` | lib/tinyhttp/src/epoll_worker.cpp:355-386 | the whole reader, ended by a request, an exception, an injected one, or left waiting |
| `RequestReader.DeliveryDoesNotMatter` | lib/tinyhttp/src/epoll_worker.cpp:296-386 | chunking independence: every request or exception is that of the one-shot parse of the stream and its end; under a scheduler that keeps resuming, the outcome is settled by them, on streams that stay open too: returned as soon as the bytes decide, waiting exactly when they never do, EofError exactly when the stream ends too early |
| `RequestReader.DeliveriesAgree` | lib/tinyhttp/src/epoll_worker.cpp:296-386 | two deliveries of the same bytes give the same outcome, whether the stream ends or stays open |
| `RequestReader.RequestArrives` | lib/tinyhttp/src/epoll_worker.cpp:355-386 | full round trip through printer, any chunking, any table order, anything after the request and any end of the stream or none, exactly on transmissible requests |
| `ServedRequests.ReaderKeepsStream` | lib/tinyhttp/src/epoll_worker.cpp:296-386 | the suspended reader's buffer and the socket's queue together hold what arrived, at every yield |
| `ServedRequests.EachReaderReadsItsOwnStream` | lib/tinyhttp/src/epoll_worker.cpp:246-254 | in every run with other routines in between, a connection's routine ends with what its own bytes call for |
| `ServedRequests.EachReaderReturns` | lib/tinyhttp/src/epoll_worker.cpp:296-386 | and once they decide it does end, within as many resumes as they can take `recv` calls, whatever arrives behind them |
| `ResponseSender.SendHttpResponse` | lib/tinyhttp/src/epoll_worker.cpp:388-409 | outcome and accepted bytes of the sending loop, for every socket and scheduler, and on a closed endpoint |
| `ResponseSender.GapNeverReturns` | lib/tinyhttp/src/epoll_worker.cpp:395-406 | bytes erased but not taken are never made up for: with such a gap the loop never returns |
| `ResponseSender.ReturnsOnlyWhenAllTaken` | lib/tinyhttp/src/epoll_worker.cpp:388-409 | when it returns, the socket has taken exactly the response in order |
| `ResponseSender.ReturnsExactlyOnWholeTakes` | lib/tinyhttp/src/epoll_worker.cpp:395-406 | it returns exactly when every offer taken at all was taken whole |
| `ResponseSender.ShortTakeExample` | lib/tinyhttp/src/connection.cpp:251-262 | the concrete short send after which it never returns |
| `Responses.HttpResponse.AppendToBody` | lib/tinyhttp/src/http_response.cpp:56-60 | the body grows by the part, the announced length is its decimal size, clean fields stay clean |
| `Responses.HttpResponse.SetBody` | lib/tinyhttp/src/http_response.cpp:51-54 | the body is replaced, the announced length is its decimal size, clean fields stay clean |
| `Responses.HttpResponse.ResetHeaders` | lib/tinyhttp/src/http_response.cpp:38-41 | only the basic fields remain |
| `Responses.HttpResponse.SetBasicHeaders` | lib/tinyhttp/src/http_response.cpp:91-99 | server, date and, after version 0.9, connection, where not set before; clean fields stay clean |
| `Responses.BasicFields` | lib/tinyhttp/src/http_response.cpp:91-99 | which names a fresh response answers to, in any spelling, and with what; what was set before stays |
| `Responses.HttpResponse.ToString` | lib/tinyhttp/src/http_response.cpp:74-89 | prints the response with its fields in some order, or fails exactly on a version or status without a text; a client reads a sendable response back as version, code, status text, fields and body |
| `Responses.StatusLineIsRead` | lib/tinyhttp/src/http_response_line.cpp:29-50 | the status line, read as section 3.1.2 of RFC 7230 has it: `HTTP/` and the version up to the first blank, the code in digits without a leading zero up to the second, then the text |
| `Responses.ResponseIsFramed` | lib/tinyhttp/src/http_response.cpp:74-89 | cut at its first CRLFCRLF, a framed response gives back its fields, exactly if they are clean, and its body |
| `Arenas.LinearAllocator.Map` | lib/shmem/include/shmem/allocators/linear_allocator.h:77-95 | the arena begins behind its state; a segment too small for the state is refused |
| `Arenas.LinearAllocator.Allocate` | lib/shmem/include/shmem/allocators/linear_allocator.h:97-115 | the new pointer and the address, null for zero elements, failure past the end without a change |
| `Arenas.LinearAllocator.Deallocate` | lib/shmem/include/shmem/allocators/linear_allocator.h:117-136 | null and foreign addresses, and the one address that moves the pointer |
| `Arenas.OpKeepsTiling` | lib/shmem/include/shmem/allocators/linear_allocator.h:97-136 | one call keeps the returned blocks disjoint, inside the segment and filling what is used; giving back changes nothing |
| `Arenas.ArenaIsSafe` | lib/shmem/include/shmem/allocators/linear_allocator.h:97-136 | the same over every run through any rebound copies and element sizes |
| `Arenas.OnlyTheFreePointerMoves` | lib/shmem/include/shmem/allocators/linear_allocator.h:130-135 | giving back moves the pointer exactly for the free pointer's own address, where no block starts |
| `Arenas.ForeignAddressOverlaps` | lib/shmem/include/shmem/allocators/linear_allocator.h:130-135 | the concrete calls after which two blocks overlap |
| `Mutexes.Mutex.Lock` | lib/shmem/src/concurrentsync/mutex.cpp:33-37 | enters and takes the semaphore down, stays blocked, or fails without a change |
| `Mutexes.Mutex.TryLock` | lib/shmem/src/concurrentsync/mutex.cpp:39-47 | the same, reporting a taken mutex instead of blocking |
| `Mutexes.Mutex.Unlock` | lib/shmem/src/concurrentsync/mutex.cpp:49-53 | gives the semaphore back, or fails without a change |
| `SharedMaps.Map.Create` | lib/shmem/include/shmem/containers/map.h:30-78 | room for mutex and header and both objects in it, or no map; what a failure at any step leaves taken |
| `SharedMaps.Map.Perform` | lib/shmem/include/shmem/containers/map.h:108-164 | each operation, on success and on failed allocation, does what the sequential map does and releases the lock; a blocked or failing lock changes nothing |
| `SharedMaps.OperationsOnAMap` | lib/shmem/include/shmem/containers/map.h:125-164 | an operation answers out of memory if and only if it demands bytes and the free pointer and their sum pass the end; otherwise insert and insert_or_assign answer stored, insert keeps a present value, insert_or_assign replaces it, erase removes and counts it, lookup finds it or says that it is missing; other keys and failed operations change nothing |
| `SharedMaps.TakesWhatFits` | lib/shmem/include/shmem/allocators/linear_allocator.h:97-115 | a list of allocations succeeds as a whole if and only if its sum fits, and then takes exactly that sum |
| `SharedMapRuns.AdvanceKeepsInv` | lib/shmem/include/shmem/containers/map.h:108-164 | every single step of every process keeps the lock exclusive, the blocks disjoint and the holder on track |
| `SharedMapRuns.SemaphoreCountsHolders` | lib/shmem/src/concurrentsync/mutex.cpp:33-53 | semaphore value plus holders is one |
| `SharedMapRuns.SharedMapIsLinearizable` | lib/shmem/include/shmem/containers/map.h:108-164 | over every interleaving the answers and the contents are those of the sequential map in commit order, and each operation commits once between its call and its answer |
| `SharedMapRuns.CommitsLieBetween` | lib/shmem/include/shmem/containers/map.h:108-164 | the order of calls, commits and answers is kept by every run |
| `SharedMapRuns.HolderReleases` | lib/shmem/include/shmem/containers/map.h:125-159 | in every interleaving that schedules the holder as often as it has steps left, wherever other processes come in between, the semaphore is one again at some moment, also after a failed allocation |

## Left out

- Real system calls and stacks: sockets, epoll, `ucontext`, `mmap`, semaphores are scripts or state; `swapcontext` is taken to succeed, so the status `ERROR` does not occur.
- A `resume` from inside a routine: the runtime has one saved main context, so operations come from main only. Descriptor 0 as a client, because id 0 means main.
- Coroutines.Ordinator.SetFreelistMaxSize: only for sizes up to the present length of the list or negative ones, because `resize` beyond it pads the list with empty nodes that a later creation would dereference.
- WorkerRuns.LoopStaysCoherent: assumes that one wait names a descriptor at most once and only watched ones, and that `accept` returns a descriptor that is not open; both are the kernel's promises.
- AnsweredClients.EveryAnswerIsReached: what epoll reports of a client is said where its `epoll_ctl` calls work; a routine that writes while it is still watched for input is not followed up, because what is left to receive is no longer tracked then.
- Exceptions outside the I/O kinds, such as a malformed request: they escape `handle_client` and end the worker's run, as in the code; nothing is said about the state after that.
- The request handler is any function of the request, and the printed response it makes or the exception it throws is all that is known of it; a response with a `sender` callback of its own is not modelled.
- Bytes that follow a complete request in the same buffer are dropped with the buffer; how many depends on the chunks, so nothing is said about a second request on a connection.
- Responses.HttpResponse.SetBody: the text is not a view into the response's own body, which the code clears first; the date is the caller's.
- Responses.HttpResponse.ToString: the entries of the status-text table are data; that a text of it breaks no line is a condition of the read-back.
- SharedMaps.Map.Perform: the allocations an operation makes are given as two lists of byte counts, for a present and for an absent key, so the container's own nodes are not modelled; the map is a plain map, and the search order, `extract`, `clear` and swapping are left out.
- SharedMapRuns.SharedMapIsLinearizable: semaphore calls succeed there; a failing `sem_post` in the lock guard would end the process.
- Alignment and overflow of sizes in the arena, two maps on one arena (each has its own mutex and does not protect the other's allocations), recovery after a crashed holder.
- `strtoul` and `std::tolower` follow the C locale; capacity hints (`reserve`), logging and addresses have no effect on what is modelled.
- The TCP library, process helpers, static files, MIME types and the servers built on top.
