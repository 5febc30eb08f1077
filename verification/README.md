# West: a verified model of the HTTP server library

This project models, in Dafny, the request engine of the West HTTP/1.1 server, the event loop
that drives it, and two small codecs, and proves what they are for: that the way a byte stream
is cut up by the network does not show up to and including the first client error, and in what it
can show after that; that responses come out whole and in order; that every loop ends; and that the
bookkeeping of the event monitor stays consistent over every run.

`dafny verify dfyconfig.toml` checks everything.

## How the system is modelled

**Octets.** A `char` is one octet and a `string` a sequence of octets. Integer widths are written
out where the source depends on them: 2^32 for version numbers, 2^64 for lengths and for the
packed version, the 65536 octets of a buffer and of the longest header.

**Source code that updates things in place is imperative here.** Parser, field map, buffer span,
`transfer_data`, the five phases, the serializer, the processor, the monitor, the connection
handler, the echo handler and the codecs are classes or methods with loops, each proved equal to a
function on values; the theorems are about those functions. The parser object has two such
functions beside it: the machine (`HeaderParser.Step` and `Feed`) and the one-shot reading of the
same text (`HeaderSpec.ReadHeader`), which finds delimiters and cuts.

**Callbacks.** `transfer_data` gets a read and a write callback that capture mutable state. They are
a `Source` and a `Sink`, functions on that state, which the loop threads through; `IoAdapter.Pump` is
the whole transfer with a record of what was fetched and delivered. In the header phase the
callback is `Feed` on the contents of the parser object; the `Parse` method of that object is proved
equal to `Feed`.

**The socket** (`Session.Connection`) is the rest of the client's stream, after which the client
has closed its side, and two arbitrary infinite schedules: how much the next read or write moves,
or whether it blocks or fails. `stop_reading` turns every later read into an end of stream.

**The request handler** (`Session.Handler`) is a record of the functions that the server calls, on an
arbitrary state type. What a theorem needs of the handler is a predicate: `InBounds` (it does not
overrun spans), `TakesContent` (it turns no octet of a body down), `SuppliesExactly` (it supplies the
body it announces), `NeverStalls`, `Presentable` (its responses can be read). What a handler objects to,
when it is asked about a header or a complete body, is an argument of the split of the stream
(`Framing.SplitObjected`), so that framing is proved for every handler; `NeverRefuses` is the case without
objections. The echo service is proved to meet all of these, and the theorems then combine into
`EchoRuns.EchoesTheStream`, `EchoRuns.EchoAnswersAll`, `EchoSizes.EchoNeverAborts`,
`EchoSizes.EchoServesAll` and `EchoClient.EchoClientReads`. A transcript records what the handler was
given and what it objected to, the errors with what was in the receive buffer by then, and the
responses that were started.

**The event monitor** is a map of listeners and a list of nodes with identities, which iterators
keep; callbacks are lists of timed actions (add, modify, remove, clear). The clock never runs
backwards, added descriptors are fresh, and the wait returns a registered descriptor at most once.

| file | what it holds |
|---|---|
| `Text`, `Numbers`, `MessageHeader`, `FieldMap` | strings, decimal numbers, character classes, version, field map |
| `CharacterClasses`, `Caseless` | which characters the classes have; what letter case has to do with names and lengths |
| `HeaderParser`, `HeaderSpec` | the resumable parser; the one-shot reading and the refinement |
| `HeaderGrammar`, `HeaderDelimiting`, `HeaderPrinter`, `HeaderInvariant` | exact grammar, where a header ends, printing and parsing, reachable states |
| `IoAdapter`, `Session`, `Phases`, `Processor` | the transfer, the environment, the five phases, the loop and its runs |
| `Framing`, `FramingRuns`, `Responses`, `Stopping` | request framing, response framing, what happens after reading stops |
| `Rounds` | what each round comes to, with codes and limits as numbers |
| `ResponseReader`, `ClientView`, `EchoClient` | responses read back, one by one and over whole sessions |
| `Progress`, `Completion` | every session can be completed; what one that ends regularly has handed over |
| `Server`, `EchoHandler` | the objects of a session; the reference handler |
| `EchoRuns`, `EchoSizes`, `Leftovers` | the echo service end to end; why none of its runs aborts; where fragmentation shows |
| `EventMonitor`, `MonitorRuns`, `ServiceRegistry` | the monitor, its runs, and where it meets the engine |
| `UriCodec`, `Cookies` | percent-encoding and the cookie string |

## What the code does that its documentation would not suggest

- An empty value that is the first under its name is kept, so that the empty value and then `b` are
  combined to `, b`; only later empty values are skipped (lib/http_message_header.hpp:425-432).
- `is_error` does not count 599 (lib/http_message_header.hpp:113-118).
- A client that closes inside a header or a body is answered with 400, while one that closes between
  two requests is not answered (lib/http_session.hpp:56-65, lib/http_wait_for_data.hpp:40-49). A
  connection that is closed without sending anything is inside its first header, and gets a 400.
- Waiting for data ends the session on a failed read as it does on an end of stream: the branch for
  I/O errors is not reached when no octets come with the error (lib/http_wait_for_data.hpp:40-49).
- A header that is still incomplete after 65536 octets is answered with 413 even if the stream ends just
  there, while one that completes on octet 65536 is accepted: the budget is looked at only after the
  parser has answered (lib/io_adapter.hpp:114-140).
- A response whose `Content-Length` does not fit 64 bits, or which has a `Transfer-encoding`, fails an
  assertion (lib/http_request_state_transitions.hpp:69-76): here that is the status `ProcessorAborted`.
- "No descriptor is queued for removal twice" is false: a listener that asks for its removal when it is
  ready, and is then found idle in the same pass and asks again, fails the assertion at the flush
  (`MonitorRuns.LongPassCanFail`). A connection does that if its session has ended in an output phase
  (`ServiceRegistry.ConnectionAsksTwice`). For listeners that remove only themselves this is the one way to
  fail (`MonitorRuns.PassFlushesExactly`, `MonitorRuns.RunFlushesExactly`), and it takes a pass as long
  as the inactivity period (`MonitorRuns.ShortPassSettles`).
- The handlers of one pass notify one idle descriptor at most, because the iterator moves to the end
  of the list with its node (lib/io_fd_event_monitor.hpp:180-190).
- Requests that are still in the receive buffer when a client error stops the reading are served after
  the error response, as if what lies behind the refusal were a stream of its own
  (lib/http_wait_for_data.hpp:26-35). How much that is depends on how much had been read by then, so that
  "the requests do not depend on fragmentation" is false behind the first error:
  `Leftovers.FragmentationShows` has two clients with the same octets of which one is served no request
  and the other one, `Completion.CompletedRunHasSeenAll` says which requests are served, and
  `Completion.FragmentationShowsExactly` when fragmentation shows.

- A percent triplet with a small letter as its second digit is decoded wrongly unless bit 5 of the octet is
  set, because the digit is or-ed in without being cut to four bits (lib/http_utils.hpp:149-174):
  `%4f` gives `o`, and `UriCodec.TripletMeaning` says exactly when this happens.

## Model

| member | source | states |
|---|---|---|
| IoAdapter.TransferData | lib/io_adapter.hpp:109-141 | for any two callbacks within bounds the loop over the array buffer ends, and ends in the states, the budget, the buffer and the reason that the specification of a whole transfer gives |
| IoAdapter.Conservation | lib/io_adapter.hpp:114-140 | delivered octets and then the unread buffer are the initial buffer and then the fetched octets; the budget drops by exactly what was delivered; a spent budget is the only way to the result without a code |
| IoAdapter.SourceGives | lib/io_adapter.hpp:116-126 | whatever a source still has is what was fetched followed by what it has left, over a whole transfer |
| IoAdapter.SinkAccepts | lib/io_adapter.hpp:129-137 | whatever a sink has accepted grows, at its end, by exactly what was delivered |
| IoAdapter.BufferSpan.Fill | lib/io_adapter.hpp:118-120 | after a read callback and the reset the unread part is what was read |
| IoAdapter.BufferSpan.SpanToRead | lib/io_adapter.hpp:72-73 | the longest part of the unread octets within the limit |
| IoAdapter.BufferSpan.ConsumeElements | lib/io_adapter.hpp:75-79 | takes octets off the front of the unread part |
| IoAdapter.BufferSpan.ResetWithNewLength | lib/io_adapter.hpp:62-67 | the unread part becomes the first octets of the storage |
| HeaderParser.RequestHeaderParser.Parse | lib/http_request_header_parser.hpp:128-364 | the loop over a piece of input leaves the parser object, the count and the code as the machine has them |
| HeaderParser.RequestHeaderParser.ParseOctet | lib/http_request_header_parser.hpp:142-361 | one octet in any of the thirteen states has exactly the effect of one step of the machine |
| HeaderParser.FeedConcat | lib/http_request_header_parser.hpp:128-364 | parsing a + b is parsing a and then, unless that stopped, b from the resumed state, with counts added up |
| HeaderParser.FragmentationDoesNotMatter | lib/http_request_header_parser.hpp:128-364 | any number of pieces give the same parser, count and code as the text in one piece |
| HeaderSpec.MachineReadsHeader | lib/http_request_header_parser.hpp:128-364 | the state machine computes the one-shot reading: same error code, same consumed count, same header |
| HeaderSpec.ParserRefinesOneShot | lib/http_request_header_parser.hpp:128-364 | the same for a text that arrives in any number of pieces |
| HeaderSpec.MachineUnfolds | lib/http_request_header_parser.hpp:294-355 | reading a value with its continuation lines is unfolding: leading white space of a line is dropped, one blank joins, blanks before a fold stay, empty continuation lines vanish |
| Text.RTrimInPlace | lib/http_request_header_parser.hpp:69-77 | erasing from the last octet that is no blank gives the trimmed text |
| Text.RTrimCutsBlanks | lib/http_request_header_parser.hpp:69-77 | trimming cuts off blanks only, and leaves no blank at the end |
| HeaderGrammar.AcceptsEveryRawHeader | lib/http_request_header_parser.hpp:142-361 | every well-formed raw header, with any folds, blank values, leading white space and trailing data, is accepted with its meaning and consumed exactly |
| HeaderGrammar.ExactGrammar | lib/http_request_header_parser.hpp:142-361 | a stream is accepted if and only if it starts with a well-formed raw header, and every such derivation gives the header and the count that the parser gives |
| HeaderDelimiting.StopsAtFirstBlankLine | lib/http_request_header_parser.hpp:142-361 | an accepted header ends exactly after the first CR LF CR LF of the stream, though its parts are stored unchecked at first |
| HeaderDelimiting.AcceptedHeadersArePrefixFree | lib/http_request_header_parser.hpp:142-361 | no accepted header is a proper prefix of another |
| HeaderInvariant.StepKeepsInvariant | lib/http_request_header_parser.hpp:268-355 | every step keeps: token names and valid values in the map, the value buffer not empty and not starting with white space, an empty buffer before a value, a version of 64 bits |
| HeaderInvariant.FeedKeepsInvariant | lib/http_request_header_parser.hpp:268-355 | so does every input, up to and including the octet that stops the parser |
| HeaderInvariant.BufferAssertionHolds | lib/http_request_header_parser.hpp:269 | the assertion that the buffer is empty holds in every reachable state |
| HeaderInvariant.CompletedHeaderIsValid | lib/http_request_header_parser.hpp:357-361 | a completed header has a token method, a printable target, token names in order and valid values, also after folding and combining |
| HeaderInvariant.ParsePrintParse | bin/http_echo.cpp:78-90 | what was parsed from any stream, printed and parsed again with anything after it, is the same header |
| HeaderPrinter.PrintedHeaderParsesBack | bin/http_echo.cpp:78-90 | parsing undoes the printer for every valid header and any trailing octets, and consumes exactly the printed ones |
| HeaderPrinter.PrintedHeaderSurvivesFragmentation | bin/http_echo.cpp:78-90 | the same for the resumable parser and any cutting of the text |
| Numbers.Decimal | lib/utils.hpp:28-41 | the decimal print is not empty, is all digits, spells the number, and has no leading zero |
| Numbers.DecimalRoundTrip | lib/utils.hpp:28-41 | parsing a printed number gives it back exactly when it fits the type, and fails otherwise |
| MessageHeader.VersionHalves | lib/http_message_header.hpp:20-42 | each setter changes its own half only, the halves determine the packed 64-bit value |
| MessageHeader.StriCmpZero | lib/http_message_header.hpp:243-252 | equality under the comparison is equality of the upper-case forms (what those are is in `Caseless.SameNameMeaning`) |
| MessageHeader.StriCmpAntisymmetric | lib/http_message_header.hpp:243-252 | swapping the arguments swaps the answer |
| MessageHeader.StriCmpTransitive | lib/http_message_header.hpp:243-252 | the comparison is transitive, and equality holds only if it held on both sides |
| Caseless.SameNameMeaning | lib/http_message_header.hpp:243-252 | two names are the same if and only if they have the same length and differ, at each position, in the case of an ASCII letter at most |
| Caseless.OrderMeaning | lib/http_message_header.hpp:243-252 | one name stands before another if and only if it is a proper prefix of it but for letter case, or has the smaller code, small letters taken as capital ones, where they first differ |
| Caseless.ContentLengthMeaning | lib/http_message_header.hpp:464-475 | in an ordered map: if some field is spelled Content-Length in any letter case, the length is the number below 2^64 that its value spells, or an error; without such a field it is 0 |
| Caseless.ContentLengthInAnyCase | lib/http_message_header.hpp:464-475 | a printed length below 2^64 is read back under every spelling of the name |
| CharacterClasses.TokensAre | lib/http_message_header.hpp:227-269 | tokens are the non-empty strings of the characters that section 5.6.2 of RFC 9110 lists |
| CharacterClasses.TargetsAre | lib/http_message_header.hpp:317-328 | targets are the non-empty strings without controls, blanks and DEL; octets from 128 on are allowed |
| CharacterClasses.FieldValuesAre | lib/http_message_header.hpp:384-398 | field values are visible octets with blanks and tabs between them, none at either end, or nothing |
| CharacterClasses.DigitsAre | lib/utils.hpp:28-41 | numbers are spelled with the ten decimal digits |
| CharacterClasses.WhitespaceIs | lib/http_message_header.hpp:240-241 | what separates, folds and is trimmed is the blank and the tab |
| FieldMaps.FieldMap.Emplace | lib/http_message_header.hpp:421-433 | emplacing in the ordered map, by its lower bound, has the effect of the recursive append |
| FieldMaps.FieldMap.EmplaceChecked | lib/http_message_header.hpp:435-443 | fails exactly for a name that is no token or an invalid value and then changes nothing; otherwise appends; keeps the map valid |
| FieldMaps.AppendKeepsValid | lib/http_message_header.hpp:421-433 | appending keeps the order of the names, and combined values stay valid field values |
| FieldMaps.LookupAppend | lib/http_message_header.hpp:421-452 | a lookup in any letter case after an append finds what it found before, extended if the name was the appended one |
| FieldMaps.RefinesAppendOnlyList | lib/http_message_header.hpp:421-452 | a lookup in any letter case answers with the first spelling and the comma-blank join of the values in order, later empty ones skipped (section 5.3 of RFC 9110) |
| FieldMaps.AppendCommutes | lib/http_message_header.hpp:421-433 | appends under different names commute |
| Server.ReadRequestHeader.SocketIsReady | lib/http_read_request_header.hpp:43-142 | the header phase as an object has the effect of the phase on values: budget, parser, buffer, session and answer |
| Server.ReadRequestBody.SocketIsReady | lib/http_read_request_body.hpp:29-78 | the body phase, with the response that it prepares |
| Server.ResponseHeaderSerializer.constructor | lib/http_response_header_serializer.hpp:41-65 | the loop builds the status line, with the phrase of the table if the header has none, the fields in order and the empty line |
| Server.ResponseHeaderSerializer.SerializeInto | lib/http_response_header_serializer.hpp:24-34 | hands out the next octets that fit and keeps the rest |
| Server.WriteResponseHeader.SocketIsReady | lib/http_write_response_header.hpp:38-76 | draining the serializer to the socket, with the aborting branch as an answer of its own |
| Server.WriteResponseBody.SocketIsReady | lib/http_write_response_body.hpp:28-66 | moving the handler's content to the socket within the announced length |
| Server.WaitForNextRequest.SocketIsReady | lib/http_wait_for_data.hpp:22-83 | octets already buffered complete the phase without a read; otherwise one read decides |
| Server.RequestProcessor.constructor | lib/http_request_processor.hpp:36-41 | a new session reads a header, with two empty buffers |
| Server.RequestProcessor.CallPhase | lib/http_request_processor.hpp:47-49 | the call of the current phase on the buffer of its direction; the other buffer is untouched |
| Server.RequestProcessor.EnterNextPhase | lib/http_request_state_transitions.hpp:124-135 | the next of the five phases with its direction and initial counters, or the failed assertion and no change |
| Server.RequestProcessor.Reject | lib/http_request_processor.hpp:69-86 | reading stops, the handler prepares the error response and its header is to be written next |
| Server.RequestProcessor.Conclude | lib/http_request_processor.hpp:51-99 | which answers end the event, and with what status |
| Server.RequestProcessor.SocketIsReady | lib/http_request_processor.hpp:43-101 | the loop terminates, with input measure and phase rank as its variant, and has the effect of the recursive event |
| Server.RequestProcessor.SocketIsIdle | lib/http_request_processor.hpp:103-146 | a time-out in an input phase prepares a 408 response; in an output phase the session ends |
| Processor.RoundsDescend | lib/http_request_processor.hpp:45-100 | every round that goes on uses up input, or leaves the input alone and moves to a phase of lower rank |
| Processor.CallUsesInput | lib/http_request_processor.hpp:47-49 | a call never adds input; a header phase that starts on a non-empty buffer takes at least one octet; waiting completes only with octets in the buffer |
| Processor.RunKeeps | lib/http_request_processor.hpp:43-146 | what every round and the time-out keep holds throughout every run of events |
| Framing.HeaderTransferSplits | lib/http_read_request_header.hpp:43-142 | the split of buffer and available stream is determined by how the header transfer ended and what it left: complete, refused with the rest behind it, cut off, blocked, or over the limit |
| Framing.HeaderVerdictKeepsFraming | lib/http_read_request_header.hpp:74-124 | a complete header of the wrong version or with a bad length is refused before the handler is asked; one that the handler answers with 400 to 598 is refused with exactly that answer and opens no request; any other opens one with the announced length |
| Framing.HeaderCallKeepsFraming | lib/http_read_request_header.hpp:43-142 | for every handler: a call of the header phase, with any schedule, keeps requests seen and the split of the rest together equal to the split of the whole stream; if it ends in an error, that is the end of the split, an objection of the handler included, and the buffer starts what lies behind the refusal |
| Framing.BodyCallKeepsFraming | lib/http_read_request_body.hpp:29-78 | for every handler: the same for the body phase, which hands over exactly the next content-length octets, and ends in the objection that the handler makes to the complete body, if any |
| Framing.BodyVerdict | lib/http_read_request_body.hpp:58-74 | a complete body closes its request; if the handler answers with 400 to 598 the phase ends in exactly that error, otherwise it completes |
| FramingRuns.RoundKeepsFraming | lib/http_request_processor.hpp:43-101 | for every handler: the same for every round of the loop, before and after reading was stopped; a round that gives up on the client does so with the verdict that the split is due, after all its requests, and keeps a start of what lies behind the refusal |
| FramingRuns.RequestsFollowTheSplit | lib/http_request_processor.hpp:43-101 | for every handler, whatever it objects to, and every stream, schedule and run, until reading stops: requests seen followed by the split from the current state are the split of the stream: pipelined octets survive the response phases |
| FramingRuns.CleanEndHasSeenAll | lib/http_wait_for_data.hpp:26-49 | if nothing is left to read between two requests, all the requests of the split were handed over |
| FramingRuns.ClosesOnlyAtTheEnd | lib/http_wait_for_data.hpp:37-49 | a session that is waiting ends, unless a read fails, only when nothing is left to read and all the requests were handed over |
| FramingRuns.OutcomeDependsOnObjections | lib/http_request_processor.hpp:43-101 | with a handler that takes all content but may object to any header and any body: the requests are those of the split that stops at the first refusal, and the first error (400, 413, 505 or the objection) is the one that the stream and the objections determine; what is served after it is served from the leftover in the receive buffer, which starts what lies behind the refusal |
| FramingRuns.OutcomeDependsOnStreamOnly | lib/http_request_processor.hpp:43-101 | the case without objections: with a handler that refuses nothing the requests and the first error are those that the stream alone determines |
| FramingRuns.FragmentationDoesNotMatter | lib/http_request_processor.hpp:43-101 | two runs over one stream with any two schedules agree on the requests of the split and on the first error |
| FramingRuns.RoundServes | lib/http_request_processor.hpp:43-101 | after the stop every round, errors included, keeps together the requests handed over and those still to come |
| FramingRuns.RunServesLeftover | lib/http_request_processor.hpp:69-135 | from the stop on, whatever the handler objects to, the requests that any run of ready events hands over and those still to come are those handed over before and those that the receive buffer is served as: its split, and again what lies behind each refusal |
| Rounds.HeaderRound | lib/http_request_processor.hpp:43-101 | what a round in the header phase comes to, with the codes as numbers: blocked or failed, the event ends and nothing changes hands; 400 for a stream that ends or a header that cannot be parsed, 413 over the limit, 505 for a version that is not 1.1, 400 for a bad length, or what the handler answers from 400 to 598: then reading stops, the buffer is kept, and the response that the handler prepares for just this error is started; or the body phase with the announced length |
| Rounds.BodyRound | lib/http_read_request_body.hpp:29-78 | the same for the body phase: content that is put off ends the event, refused content is answered with 400 and the receive buffer is emptied; a complete body is closed, and starts the response that the handler prepares, or the one for its objection |
| Rounds.HandlerCountsDown | lib/http_read_request_body.hpp:37-39 | the handler is told with each span how much of the body is still to come: every relation between its state and that number that one call keeps is kept by the transfer |
| Rounds.WriteHeaderRound | lib/http_request_processor.hpp:43-101 | a written header leads to the body with the announced length; a transfer encoding in any letter case, or a length that is none, aborts; a failed write ends the session with an I/O error, one that takes nothing ends it regularly |
| Rounds.WriteBodyRound | lib/http_write_response_body.hpp:28-66 | a written body leads to the wait; content that is put off ends the event, a failure of the handler ends the session with an application error, a failed write with an I/O error |
| Rounds.FailuresAre500 | lib/http_write_response_body.hpp:28-66 | a phase that fails reports 500, with the words of the handler if it was the handler that failed |
| Rounds.WaitRound | lib/http_wait_for_data.hpp:22-83 | octets, buffered or just read, start a fresh header with the full limit of 65536 and are kept; a block ends the event; anything else ends the session regularly |
| Rounds.IdleEvent | lib/http_request_processor.hpp:103-146 | a client that is waited for is given up with 408, and the server waits to write; one that does not take its response is dropped without a change |
| Responses.RoundKeepsDelivering | lib/http_request_processor.hpp:43-101 | octets sent, then octets owed, are all the responses started; the send buffer is empty in every input phase; an abort needs a header or a body too large for 64-bit sizes |
| Responses.SentIsPrefixOfResponses | lib/http_write_response_body.hpp:28-66 | over any run, with partial writes, blocks, failures and time-outs, what was sent is a prefix of the responses, header and body after header and body |
| ResponseReader.HeaderIsReadBack | lib/http_response_header_serializer.hpp:41-65 | a reader that cuts at the delimiters of status line and fields gives back version, code, phrase and fields of every header that was serialized, and ends exactly where the body starts, for a code below 1000, a phrase without CR, valid fields and any octets after it |
| ResponseReader.PhraseIsFilledIn | lib/http_response_header_serializer.hpp:41-65 | a header without a phrase is read back with that of the table |
| ClientView.AllAreReadBack | lib/http_response_header_serializer.hpp:41-65 | a client that reads header by header, and after each as many octets as it announces, reads from any list of such responses exactly these responses with their bodies |
| ClientView.ClientReadsResponses | lib/http_request_processor.hpp:43-146 | over any run of any events: whenever the server reads, what has been sent so far is read by such a client as exactly the responses that were started, as long as 64 bits can express the sizes of the bodies |
| Responses.HeaderNeverStalls | lib/http_read_request_header.hpp:70-72 | the parser never ends a transfer by asking for more data, where the source would abort |
| Responses.RunKeepsDelivering | lib/http_request_processor.hpp:43-146 | over any run of any events the same holds, and a run that aborts has just started an oversized response |
| Responses.AbortsOnlyOversized | lib/http_write_response_header.hpp:70-71 | no run of any events reaches an abort or a failed assertion of the engine unless it has started a response whose header or body is too large for 64-bit sizes |
| Stopping.RoundStartsFewResponses | lib/http_request_processor.hpp:69-86 | after the stop every response started is paid for by an octet of the receive buffer |
| Stopping.NothingIsReadAfterStop | lib/http_request_processor.hpp:69-135 | after a client error or a time-out no run reads from the socket again, and at most one response more than there are octets in the receive buffer is started (which requests they answer is in `FramingRuns.RunServesLeftover`) |
| Progress.OutputAdvances | lib/http_write_response_body.hpp:28-66 | with writes that may block, a call of an output phase completes it, or leaves less to be sent, or uses up one of the blocks before the next accepted write |
| Progress.ReadingAdvances | lib/io_adapter.hpp:114-140 | a read that blocks a transfer has left the buffer empty, after octets were delivered, or is one of the blocks before the next read that delivers |
| Progress.SessionCloses | lib/http_request_processor.hpp:43-101 | with reads and writes that block finitely often and never fail, and a handler that puts nothing off, a number of ready events ends every session; the only end that is not regular is an oversized response |
| Progress.RunCloses | lib/http_request_processor.hpp:43-146 | so every run from the start, of any events, can be completed |
| Progress.ClosesAfterStop | lib/http_wait_for_data.hpp:26-49 | after the stop it is enough that writes progress |
| Progress.StoppedRunCloses | lib/http_request_processor.hpp:69-135 | so every run from the start in which reading has been stopped can be completed |
| Completion.CompletesWaiting | lib/http_wait_for_data.hpp:37-49 | without a failed read or a write that takes nothing, a session ends regularly only while it waits for the next request |
| Completion.CompletedRunByObjections | lib/http_request_processor.hpp:43-101 | a ready run from the start that ends regularly, with a handler that takes all content, has handed over the requests of the split by its objections, then exactly those that the leftover of the first error is served as, and no other; if no error was reported the stream ends after the last request |
| Completion.CompletedRunHasSeenAll | lib/http_request_processor.hpp:43-101 | the case without objections: with a handler that refuses nothing this is determined by the stream and the leftover of the first error |
| Completion.FragmentationShowsExactly | lib/http_request_processor.hpp:43-101 | such a run has handed over the requests of the stream alone if and only if the leftover is served as nothing, and two such runs over one stream agree if and only if their leftovers are served as the same |
| Completion.ProgressServesAll | lib/http_request_processor.hpp:43-101 | as long as the socket progresses and the handler neither refuses nor puts off anything, a number of ready events makes every session serve the whole of its stream and end |
| EchoHandler.EchoHttpRequest.FinalizeHeader | bin/http_echo.cpp:69-93 | the appending loop prints the header as the response body |
| EchoHandler.EchoHttpRequest.FinalizeBody | bin/http_echo.cpp:95-109 | announces the size of the body and starts to hand it out from its beginning |
| EchoHandler.EchoHttpRequest.FinalizeError | bin/http_echo.cpp:111-121 | the message becomes the body of the response |
| EchoHandler.EchoHttpRequest.ProcessRequestContent | bin/http_echo.cpp:123-133 | takes the whole span, at the end of the body |
| EchoHandler.EchoHttpRequest.ReadResponseContent | bin/http_echo.cpp:135-149 | hands out the next octets from the read offset |
| EchoHandler.EchoSupplies | bin/http_echo.cpp:95-149 | the echo handler supplies exactly the body that its Content-Length announces, for requests and for errors |
| EchoHandler.EchoNeverRefuses | bin/http_echo.cpp:69-133 | the echo handler takes every header, all of every body, and never reports an error |
| EchoRuns.EchoReports | lib/http_request_processor.hpp:69-86 | a round of the echo server that gives up on the client closes no request and starts exactly one response, the report of that error |
| EchoRuns.EchoesTheStream | bin/http_echo.cpp:66-155 | end to end, over every ready run, errors included: what the echo server has sent and the echoes of the requests of the stream followed by the report of its verdict are comparable as prefixes; waiting for input it has sent the echoes of all requests seen, and after an error all of that text |
| EchoRuns.EchoAnswersAll | bin/http_echo.cpp:66-155 | a ready run that ends regularly, without a failed read or a write that takes nothing, has sent exactly the echoes of all requests of the stream, or after an error at least those and the report of the verdict |
| EchoSizes.EchoNeverAborts | bin/http_echo.cpp:66-155 | on a stream of less than 2^63 octets, with reason phrases below 2^32, no run of any events of the echo server aborts |
| EchoSizes.EchoCloses | bin/http_echo.cpp:66-155 | on such a stream, once reading has been stopped and as long as writes progress, ready events complete the session |
| EchoSizes.EchoServesAll | bin/http_echo.cpp:66-155 | on such a stream, as long as the socket progresses, a number of ready events makes the echo server answer every request and end the session regularly |
| EchoClient.EchoClientReads | bin/http_echo.cpp:66-155 | what a client of the echo server reads after such a run: for every request of the stream, in order, a message of version 1.1 with code 200, the fields Content-Length and Content-Type text/plain, and the printed request with its body; then, if there was an error, the message that reports it with its code |
| Leftovers.FragmentationShows | lib/http_request_processor.hpp:69-86 | two clients with the same octets, whose sessions both end regularly without a failure or a block: the one is served no request, the other one |
| EventMonitor.FdEventMonitor.AddListener | lib/io_fd_event_monitor.hpp:194-220 | a successful add: a new node at the end, a listener that refers to it, the interest |
| EventMonitor.FdEventMonitor.ModifyInterest | lib/io_fd_event_monitor.hpp:222-232 | changes the interest of a known descriptor and nothing else |
| EventMonitor.FdEventMonitor.DeferredRemove | lib/io_fd_event_monitor.hpp:234-235 | queues the descriptor and leaves listeners and list alone |
| EventMonitor.FdEventMonitor.DeferredClear | lib/io_fd_event_monitor.hpp:237-238 | only notes the request |
| EventMonitor.FdEventMonitor.FdIsActive | lib/io_fd_event_monitor.hpp:98-116 | the callback with all that it asks for, then the splice of its own node to the end with a new deadline |
| EventMonitor.FdEventMonitor.ProcessIdleFds | lib/io_fd_event_monitor.hpp:175-191 | the walk over a list that callbacks change ends, and notifies the head if it has expired, and nobody else |
| EventMonitor.FdEventMonitor.FlushFdsToRemove | lib/io_fd_event_monitor.hpp:240-258 | has the effect of the flush on values, whose outcome `MonitorRuns.FlushLeavesExactly` and `MonitorRuns.ClearLeavesNothing` state; reports a failed lookup |
| EventMonitor.FdEventMonitor.WaitForAndDispatchEvents | lib/io_fd_event_monitor.hpp:140-173 | a whole pass: every event refers to a registered listener, then one look at the idle, then the flush; false exactly without listeners |
| EventMonitor.DispatchKeepsValid | lib/io_fd_event_monitor.hpp:98-116 | a callback that adds, modifies and removes keeps list and map in bijection, timers on their own nodes and deadlines in order, and takes no listener away |
| EventMonitor.TouchKeepsValid | lib/io_fd_event_monitor.hpp:102-104 | so does the splice, which gives the node the latest deadline |
| EventMonitor.HeadIsRegistered | lib/io_fd_event_monitor.hpp:185-189 | the lookup assertion of the idle walk holds, and the notified node ends up last, where the walk ends |
| MonitorRuns.EventsStayRegistered | lib/io_fd_event_monitor.hpp:163-167 | during a pass the listener set only grows, so every event still refers to a registered listener |
| MonitorRuns.FlushSucceedsExactly | lib/io_fd_event_monitor.hpp:246-254 | the lookups of a flush succeed if and only if the queue names registered descriptors, each once |
| MonitorRuns.QueueOfPass | lib/io_fd_event_monitor.hpp:234-238 | the queue at the flush is exactly what the callbacks of the pass asked for, in order, and a clear happens exactly if one was asked for |
| MonitorRuns.FlushLeavesExactly | lib/io_fd_event_monitor.hpp:240-258 | after a flush a descriptor is registered if and only if it was, no clear was asked for and it is not in the queue; and those that are have kept their timer and their interest |
| MonitorRuns.PassLeavesExactly | lib/io_fd_event_monitor.hpp:140-173 | after a pass a descriptor is registered if and only if it was before or was added in it, no callback has asked for a clear and none for its removal |
| MonitorRuns.ClearLeavesNothing | lib/io_fd_event_monitor.hpp:240-243 | a pass in which a clear is asked for leaves no listener, no node and no interest, so that the next wait returns false |
| MonitorRuns.AddedHasTwentySeconds | lib/io_fd_event_monitor.hpp:194-220 | an added descriptor is last in the list with a deadline twenty seconds later |
| MonitorRuns.ActiveHasTwentySeconds | lib/io_fd_event_monitor.hpp:98-116 | after its callback a listener is last in the list, twenty seconds from the return of the callback |
| MonitorRuns.PassFlushesExactly | lib/io_fd_event_monitor.hpp:140-173 | if listeners remove only themselves, the lookups of a pass succeed if and only if a clear was asked for, or no listener found idle asks for its removal again after asking for it when ready in this pass |
| MonitorRuns.ShortPassSettles | lib/io_fd_event_monitor.hpp:140-173 | so in a pass shorter than the inactivity period no lookup fails, and the invariant holds again with an empty queue |
| MonitorRuns.PassKeepsSettled | lib/io_fd_event_monitor.hpp:140-173 | whatever callbacks ask for, and however long a pass takes: if no lookup fails the invariant holds again with an empty queue |
| MonitorRuns.EnrolledIsSettled | lib/io_fd_event_monitor.hpp:128-135 | a new monitor with any listeners enrolled meets the invariant |
| MonitorRuns.LongPassCanFail | lib/io_fd_event_monitor.hpp:246-251 | an input in which the listener that removes only itself is queued twice, and the assertion fails |
| MonitorRuns.RunKeepsSettled | lib/io_fd_event_monitor.hpp:98-258 | over every run of passes, whatever listeners add, modify, remove and clear, and however long passes take: each registered descriptor is in the list exactly once, timers refer to their own nodes, deadlines are in order, for as long as no lookup has failed |
| MonitorRuns.RunFlushesExactly | lib/io_fd_event_monitor.hpp:240-258 | a run of listeners that remove only themselves meets a failed lookup if and only if in some pass, without a clear, one that had asked for its removal when ready is found idle and asks again |
| MonitorRuns.HeadExpiresFirst | lib/io_fd_event_monitor.hpp:182-183 | the early break never skips an expired descriptor behind a live one |
| MonitorRuns.PassNotifiesOldest | lib/io_fd_event_monitor.hpp:175-191 | a pass of any length notifies the first of the expired, and the others move up in order, whatever the rest of the listeners do |
| MonitorRuns.ExpiredAreNotifiedInOrder | lib/io_fd_event_monitor.hpp:175-191 | descriptors that expired together and are left alone until their turn are notified one a pass, oldest first, none twice before the others, whatever other listeners do and however long passes take |
| ServiceRegistry.AcceptedAgrees | lib/service_registry.hpp:96-105 | a new connection waits to read, and the monitor waits to read for it |
| ServiceRegistry.HandleKeepsDirection | lib/http_request_processor.hpp:51-145 | after every event the phase's direction, the stored one and the returned one agree |
| ServiceRegistry.ConnectionAsksTwice | lib/service_registry.hpp:63-84 | which connections make the flush fail: one that is ready and then found idle in the same pass asks twice if and only if its ready event has ended the session in an output phase |
| ServiceRegistry.EventKeepsAgreement | lib/service_registry.hpp:69-84 | every event that does not end the session, error and time-out included, leaves phase, direction, handler and monitor in agreement: all wait to write while there is a response to be written, and to read otherwise; one that ends it asks once for its own removal |
| ServiceRegistry.RunKeepsAgreement | lib/service_registry.hpp:57-85 | the agreement holds until the end of the session, over any run of its own events, callbacks of other listeners that leave its registration alone, and flushes |
| ServiceRegistry.AcceptedStaysInAgreement | lib/service_registry.hpp:57-106 | so it does for every connection from the moment that it is accepted |
| ServiceRegistry.ConnectionEventHandler.FdIsReady | lib/service_registry.hpp:63-64 | the session event and its consequence for the monitor, as objects |
| ServiceRegistry.ConnectionEventHandler.FdIsIdle | lib/service_registry.hpp:66-67 | the same for the time-out |
| ServiceRegistry.ConnectionEventHandler.FinalizeEvent | lib/service_registry.hpp:69-84 | removal, modification or nothing, and the handler's own interest |
| UriCodec.EncodeUriComponent | lib/http_utils.hpp:106-138 | the loop encodes the string octet by octet |
| UriCodec.DecodeUriComponent | lib/http_utils.hpp:140-182 | the loop computes the decoder machine, on malformed escapes too: truncation to eight bits, bitwise or, and a signed `char` |
| UriCodec.BitOrOfNibbles | lib/http_utils.hpp:168-176 | the or of the two halves of an octet puts them side by side |
| UriCodec.EncodeOctet | lib/http_utils.hpp:112-134 | an octet is kept if it needs no escape; otherwise its two upper-case hexadecimal digits spell it |
| UriCodec.DecodeUndoesEncode | lib/http_utils.hpp:106-182 | decoding an encoded string of octets gives it back (section 2.1 of RFC 3986) |
| UriCodec.DecodeUnfolds | lib/http_utils.hpp:140-182 | any text is decoded triplet by triplet and otherwise octet by octet; an incomplete triplet at the end gives nothing |
| UriCodec.TripletMeaning | lib/http_utils.hpp:147-176 | a triplet with digits of either letter case is decoded to the octet that section 2.1 of RFC 3986 gives it if and only if the second digit is not a small letter, or bit 5 of the octet is set |
| UriCodec.AnyTriplet | lib/http_utils.hpp:147-176 | nothing is checked: any two octets behind a percent sign give one octet, whose low four bits are those of the second as a digit; if that is a digit or a capital letter A to F, the high ones are the low four of the first |
| CharacterClasses.UnescapedAre | lib/http_utils.hpp:112-121 | the octets that are not escaped are the unreserved ones of section 2.3 of RFC 3986, and ! * ' ( ) |
| UriCodec.EncodeDistributes | lib/http_utils.hpp:106-138 | encoding distributes over concatenation |
| UriCodec.EncodeIsInjective | lib/http_utils.hpp:106-138 | different strings have different encodings |
| UriCodec.EncodedShape | lib/http_utils.hpp:106-138 | only unescaped characters and upper-case triplets come out, n to 3n of them |
| Cookies.ParseCookieString | lib/http_utils.hpp:25-104 | the loop computes the cookie machine: store, count and code |
| Cookies.ParsesPrinted | lib/http_utils.hpp:25-104 | parsing undoes the printer that joins pairs with a semicolon and a blank, for every list that can be added to the store |
| Cookies.AcceptsExactly | lib/http_utils.hpp:25-104 | no error is reported if and only if the input is the print of such a list, and then exactly its pairs are added |
| Cookies.AcceptableMeaning | lib/http_utils.hpp:40-78 | such a list: token keys, no semicolon in a value, keys distinct from each other and from the store |
| Cookies.AddsExactly | lib/http_utils.hpp:40-78 | the store has its old entries unchanged and the new pairs, and no other key |
| Cookies.FailureKeepsCompleted | lib/http_utils.hpp:25-104 | on failure the store has exactly the pairs completed in the input before the failing one: they are completed, they are what was added, and every list of pairs that the input completes is a start of them |

## Left out

- Kernel calls and ownership of descriptors (lib/io_fd.hpp, lib/io_signal_fd.hpp, bind and accept in lib/io_inet_server_socket.hpp): only read, write and stop_reading are modelled, as a schedule.
- Exceptions: a failed epoll call, which in `add` leaves a node without a listener (lib/io_fd_event_monitor.hpp:212-217); the field map's exception is the result `ok` of `EmplaceChecked`.
- Type erasure, concepts, move semantics, the stability of pointers and iterators in memory; a list iterator is the identity of its node.
- The growth of the event buffer (lib/io_fd_event_monitor.hpp:147-153).
- The table of reason phrases (lib/http_message_header.hpp:120-225) is a parameter of the handler.
- `process_events` as a loop, and `accept_connection` as a call; runs of passes and the state of an accepted connection stand for them.
- The administrative handler and the set-up in bin/http_echo.cpp, logging, the HTML client, the tests and build scripts.
- UriCodec.DecodeUriComponent: a `char` is signed, as on the usual targets; what malformed escapes decode to on others is not modelled.
- The read offset of the echo handler between two requests: the source leaves an iterator that may dangle, the model sets it to 0; it is set anew before it is used.
- An error message with a NUL octet, which the echo handler would cut off there (bin/http_echo.cpp:117).
- `is_client_error`, `is_printable` and the comparison operators that nothing in the engine uses.
- Exhaustion of memory: strings and maps are unbounded, up to the 64-bit sizes that the engine itself computes with.
- Progress.SessionCloses: handlers that put off body octets or content are not covered; the echo service puts off nothing.
- FramingRuns.OutcomeDependsOnObjections: a handler that turns body octets down is not covered, because it does so by the spans it is offered, which depend on fragmentation; what the server does then is in `Rounds.BodyRound`.
- MonitorRuns.ExpiredAreNotifiedInOrder: a descriptor that others remove or clear before its turn is not notified, so the theorem asks that they do not.
