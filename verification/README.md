# FalconHTTP's wire protocol: a verified model

FalconHTTP is an HTTP/1.1 server and client written in C++.  A server connection carries one request and
one response (or one event stream) and is then closed.  The server finds the length of a request by
scanning the raw bytes and afterwards parses the same bytes; the client prints what the server parses and
parses what the server prints.  TCP may cut and break off either direction at any byte.

The model covers this engine from the socket to the application and back:

| modules | what they hold |
|---|---|
| `ByteStrings`, `Messages`, `HeaderFields` | searching, lines, decimal numbers; requests and responses; header fields as text |
| `Transport` | sockets and connections over a scripted kernel: every pattern of reads, partial writes and failures |
| `RequestIntake`, `ServerChunking` | the server's read loops and length scan; when the cutting into reads matters |
| `HttpParser`, `UrlQuery`, `ScanMeetsParser` | the request parser, query strings, scan against parser |
| `HttpClient`, `ClientChunking` | the client's printer, parser and receive loop; when the cutting into reads matters |
| `HttpSerializer`, `RoundTrips` | the response printer; both printers against both parsers |
| `PathMatcher`, `Router` | route patterns and the route table |
| `EventStream`, `SseConnection` | event frames against the HTML Standard's parser; the life of a stream |
| `Chain`, `Onion`, `Server` | middleware, ownership of the handle, one connection from accept to close |
| `StreamGate` | admission of streams by many threads |
| `HandWritten` | requests and responses that neither printed; lengths that are no numbers |
| `Exchange`, `StreamReception`, `WireAnswers` | client against server: responses, event streams, the server's own answers |

How the source is rendered.  Classes and loops of the source are classes and loops here; each method is
proved to compute a function on values, and the theorems are about those functions.  What `recv` and
`send` will return is an arbitrary script.  A `HashMap` is a `map`, iterated in an arbitrary order
(`Listing`, `Order`).  Exceptions are results (`Thrown`, `Outcome`).  A middleware is a finite decision
tree that may edit and inspect the messages, throw, catch, and call `next` any number of times; a stream
handler is one over the results of its own calls.  A length is below 2^64 (`FromChars`), and the stream
counter wraps at 2^64.

Main results: `Exchange.ExchangeAllOrNothing`, `StreamReception.StreamingExchange`,
`Server.OneMessageOneClose`, `Server.ChainRunsExactly`, `ServerChunking.IndependentExactly`,
`ClientChunking.IndependentExactly`, `ScanMeetsParser.ScanAgreesExactly`, `EventStream.RoundTripExactly`,
`EventStream.EventsSoFar`, `UrlQuery.QueryRoundTrip`, `PathMatcher.BindingsInvertMatch`,
`Onion.OnionOrder`, `Onion.ValueIsWrongExactly`, `StreamGate.RejectionHasCause`.

Where the code and what one expects of it differ, the model follows the code and says exactly when:

- The server's answer can depend on how the network cuts a request (`ServerChunking.ChunkingMatters`).
- The client's result can depend on it too (`ClientChunking.ChunkingMatters`).
- A request line can look like a length to the scan (`ScanMeetsParser.ScanAgreesExactly`).
- include/FalconHTTP/Core/Server.h:261 says that `runChain` returns true if the connection was consumed and
  false otherwise.  True does imply consumed (`Chain.ChainIsSound`).  The converse can fail
  (`Onion.RecoveryHidesTheStream`, `Onion.SecondCallHidesTheStream`); `Onion.ValueIsWrongExactly` says
  when it does where every middleware calls `next` at most once, `Onion.DocumentedMeaningExactly` traces it
  in every other chain to the calls of `next` that returned last, and in transparent chains it never does
  (`Onion.ReturnedValueIsRight`).
- An arrival can be rejected by the stream gate although every slot is free at that moment
  (`StreamGate.PendingWithdrawalTurnsAway`), but never without an earlier real saturation
  (`StreamGate.RejectionHasCause`).
- `PathMatcher` never compares the first character of a segment bound to a parameter
  (`PathMatcher.BindingsInvertMatch`).

## Model

| member | source | states |
|---|---|---|
| Exchange.ExchangeAllOrNothing | src/FalconHTTP/Core/Server.cpp:135-245 | A whole exchange under any partial or failing writes, any cutting into reads and any loss of a tail in either direction: the caller gets a response if and only if every byte of the request and of the response arrived and the response is within the client's limit; then the chain ran on the request the caller described, and the response is the chain's status, headers and body |
| Exchange.ExchangeSucceeds | src/FalconHTTP/Client/HttpClient.cpp:142-213 | If no write fails and nothing is lost, the caller gets what the server's chain produced for its request if and only if it is within the client's limit |
| Exchange.LosslessRun | src/FalconHTTP/Core/Server.cpp:135-245 | For every clean call within the caps and every chain there is such a run, so the exchange theorems speak about something |
| Exchange.RequestAllOrNothing | src/FalconHTTP/Core/Server.cpp:137-222 | A printed request, cut anywhere and broken off anywhere, is handed to the parser whole or dropped without an answer; never 400, 413 or 431 |
| Exchange.ServerSeesTheCall | src/FalconHTTP/Core/Server.cpp:137-222 | A printed request that arrives, in whatever pieces, is parsed as the caller's request |
| Exchange.LargeBodyIsRefused | src/FalconHTTP/Core/Server.cpp:200-207 | A printed request whose body exceeds the cap is refused with the 413 under every cutting as soon as its head is there, and dropped without an answer before |
| Exchange.LargeBodyExchange | src/FalconHTTP/Core/Server.cpp:200-207 | The caller of such a request gets the 413 if and only if it could write all of it, its head arrived, and the whole 413 did within the client's limit |
| WireAnswers.LargeHeadTells | src/FalconHTTP/Core/Server.cpp:146-153 | More bytes than the cap without a head, or a head one read beyond it: whatever part of the answer arrives tells any client status 431 and its text, or nothing; all of it does tell |
| WireAnswers.BadLengthTells | src/FalconHTTP/Core/Server.cpp:180-197 | A length that is no number: status 400 and its text, likewise |
| WireAnswers.LargeBodyTells | src/FalconHTTP/Core/Server.cpp:200-207 | A length beyond the cap: status 413 and its text, likewise |
| WireAnswers.MalformedRequestTells | src/FalconHTTP/Core/Server.cpp:236-242 | A whole request that the parser rejects: status 500 and its text, likewise |
| WireAnswers.FixedEndsTell | src/FalconHTTP/Core/Server.cpp:249-281 | Without middleware: nothing fits, 404; only other methods fit, 405; a stream fits but the slots are taken, 503; each with its text |
| WireAnswers.HandlerTells | src/FalconHTTP/Core/Server.cpp:222-242 | Without middleware: the handler runs on the request with its route's bindings and on a fresh 200, and the client is told its status and body, or 500 if it throws a std::exception |
| Exchange.ResponseAllOrNothing | src/FalconHTTP/Client/HttpClient.cpp:165-213 | A printed response, cut anywhere and broken off anywhere, is returned as what the handler produced if and only if every byte arrived and the client accepts that many; otherwise nothing is returned |
| Exchange.ScanOfPrintedRequest | src/FalconHTTP/Core/Server.cpp:165-198 | On a printed request the raw scan finds the client's own length, whatever headers the caller added and in whatever order |
| Exchange.ProducedIsWritten | src/FalconHTTP/Core/Server.cpp:222-244 | The response the chain settles on (or the 500 for an escaped std::exception) is what is written, up to a failing write |
| Exchange.ServerWrites | src/FalconHTTP/Core/Server.cpp:135-245 | What the server writes for each way in which a printed request may arrive |
| StreamReception.EventsReachTheClient | src/FalconHTTP/Streaming/SseConnection.cpp:13-69 | Whatever the handler does, whichever writes fail and wherever the network stops: the client has an answer if and only if it got the whole preamble, no more than it accepts, and then the end of the stream; the answer is a 200 whose body holds a prefix of the events whose send returned true, in order, and all of them if no written byte is lost |
| StreamReception.StreamingExchange | src/FalconHTTP/Core/Server.cpp:135-292 | A whole exchange whose chain starts a stream: a request that does not arrive whole gets nothing; one that does gets the bytes of the first stream the chain started, with the request and headers it was started with, and the caller has that stream's events and headers as above |
| StreamReception.EventsInPart | src/FalconHTTP/Streaming/SseConnection.cpp:21-60 | A cut-off body shows only events that were sent in full; a torn last frame dispatches nothing |
| StreamReception.PartOfStreamReceived | src/FalconHTTP/Client/HttpClient.cpp:165-213 | With no length announced, the client returns an answer if and only if the whole head, no more than it accepts, and then the end of the stream arrived; the headers are the stream's and the body is everything behind the head |
| StreamReception.PreambleReadsBack | src/FalconHTTP/Streaming/SseConnection.cpp:72-89 | The client reads the preamble, with any clean extra headers in any order, as a 200 without a length; if their names stay distinct when stored, it holds every extra header, the fixed ones that none of them overrides, and nothing else |
| RequestIntake.EqualsIgnoreCase | src/FalconHTTP/Core/Server.cpp:41-51 | True exactly when the two names are equal after ASCII lower-casing |
| ByteStrings.LowerExactly | src/FalconHTTP/HTTP/HttpRequest.cpp:33-37 | The 26 capitals move up by 32 and nothing else changes |
| ByteStrings.DropSpacesExactly | src/FalconHTTP/HTTP/HttpParser.cpp:124-125 | All leading spaces go and nothing else |
| ByteStrings.TrimExactly | src/FalconHTTP/Client/HttpClient.cpp:46-52 | Spaces and tabs go at both ends and carriage returns at the right one; what is inside stays |
| ByteStrings.FromCharsExactly | src/FalconHTTP/Core/Server.cpp:184-187 | A text is read as n if and only if n is below 2^64 and the text is the printed n behind any number of zeros |
| RequestIntake.ScanContentLength | src/FalconHTTP/Core/Server.cpp:165-198 | The scan over the raw buffer is the scan over the lines of the head: the last length wins, the first malformed one is the 400 |
| RequestIntake.ReceiveHead | src/FalconHTTP/Core/Server.cpp:137-163 | The first read loop computes `GatherHead`: it stops at the first blank line, at the cap or at the end of the stream; its largest buffer is `HeadPeak` |
| RequestIntake.ReceiveBody | src/FalconHTTP/Core/Server.cpp:209-220 | The second read loop computes `GatherBody`; the count of body bytes never underflows; its largest buffer is `BodyPeak` |
| RequestIntake.TakeRequest | src/FalconHTTP/Core/Server.cpp:137-220 | The whole intake is `IntakeOf` of the incoming reads, both loops terminate, and the largest size the buffer reaches is `IntakePeak` of the reads, however the intake ends |
| RequestIntake.BufferStaysBelow | src/FalconHTTP/Core/Server.cpp:144-220 | On every run, dropped and refused ones included, the buffer stays below maxHeaderSize + maxBodySize + 8192 |
| ServerChunking.BytesDecide | src/FalconHTTP/Core/Server.cpp:137-220 | Outside a named family of streams, every cutting into reads gives the outcome that is a function of the bytes: 431, 400, 413, silent close, or the parser on the whole stream |
| ServerChunking.IndependentExactly | src/FalconHTTP/Core/Server.cpp:137-220 | The outcome is independent of the reads if and only if the stream is outside that family (head ending beyond the cap but within one read of it, or bytes behind the declared body) |
| ServerChunking.HeadAcrossTheCap | src/FalconHTTP/Core/Server.cpp:146-147 | Inside the family: the same oversized head is refused when it trickles in and accepted when one read bridges the cap |
| ServerChunking.TakenUpTo | src/FalconHTTP/Core/Server.cpp:209-220 | Inside the family: a surplus byte is kept or left behind, depending on the read that completes the body |
| ServerChunking.OneLoop | src/FalconHTTP/Core/Server.cpp:137-220 | With an acceptable head the two loops act as one that waits for the whole request |
| ServerChunking.HeadIsTooFar | src/FalconHTTP/Core/Server.cpp:146-153 | A head that ends more than one read beyond the cap is refused under every cutting |
| ServerChunking.FullHeadMatters | src/FalconHTTP/Core/Server.cpp:146-153 | Under every cap, a head that fills it makes a stream inside the family |
| ServerChunking.SurplusByteMatters | src/FalconHTTP/Core/Server.cpp:209-222 | Under every cap that lets it in, a plain GET and one byte too many make a stream inside the family |
| ScanMeetsParser.ScanAgainstParser | src/FalconHTTP/Core/Server.cpp:165-198 | Scan and parser on one buffer: the body is everything behind the blank line, and the scanned length is that of the parsed header whenever there is one (last duplicate in both), else what the request line looks like |
| ScanMeetsParser.ScanAgreesExactly | src/FalconHTTP/Core/Server.cpp:165-198 | The two lengths are equal except exactly when no line behind the request line is a length line and the request line reads as a non-zero length |
| ScanMeetsParser.HeldExactly | src/FalconHTTP/HTTP/HttpParser.cpp:115-128 | The parsed request has a Content-Length if and only if some line behind the request line is a length line to the scan |
| ScanMeetsParser.TakenIsComplete | src/FalconHTTP/Core/Server.cpp:144-222 | A buffer that reaches the parser is a prefix of the stream with a blank line, a well-formed length within the cap, and that many body bytes |
| ScanMeetsParser.BodyIsLongEnough | src/FalconHTTP/Core/Server.cpp:200-222 | The body of a parsed request is never shorter than its declared length |
| ScanMeetsParser.RequestLineCountsAsLength | src/FalconHTTP/Core/Server.cpp:166-175 | Every request line that reads as a length line makes the two readers differ |
| ScanMeetsParser.ScanCanDisagree | src/FalconHTTP/Core/Server.cpp:166-175 | A concrete request on which they differ: 5 bytes awaited, none declared |
| HttpParser.ExtractLine | src/FalconHTTP/HTTP/HttpParser.cpp:55-64 | Splits off the text before the first CRLF; the exception exactly when there is none |
| HttpParser.ParsePath | src/FalconHTTP/HTTP/HttpParser.cpp:83-113 | Sets the path to the text before the first question mark, or to the whole target if there is none, and stores the pairs of the rest, last one winning |
| HttpParser.TargetIsRead | src/FalconHTTP/HTTP/HttpParser.cpp:83-113 | A target without a question mark is the path and there is no query; else what precedes the first one is the path and the rest is the form that section 5.1 of the URL Standard reads, the last value of each name staying; nothing else in the request changes |
| HttpParser.StorePiece | src/FalconHTTP/HTTP/HttpParser.cpp:99-107 | Stores one piece of a query: nothing, a bare key, or a key and a value |
| HttpParser.ParseRequestLine | src/FalconHTTP/HTTP/HttpParser.cpp:66-81 | The method's effect on the request object, including the partial state behind an exception |
| HttpParser.ParseHeaderLine | src/FalconHTTP/HTTP/HttpParser.cpp:115-128 | Stores the field under its lower-cased name with leading spaces dropped, or throws and changes nothing |
| HttpParser.Parse | src/FalconHTTP/HTTP/HttpParser.cpp:33-49 | The imperative parser computes `Parsed` on every buffer |
| HttpParser.ParseByHead | src/FalconHTTP/HTTP/HttpParser.cpp:33-64 | With a blank line in the buffer, parsing is a matter of the lines in front of it, and "missing CRLF" cannot happen |
| HttpParser.ParseOfPrintedHead | src/FalconHTTP/HTTP/HttpParser.cpp:33-49 | The parser takes a printed head apart into the lines that were printed, whatever the body contains |
| HttpParser.AcceptedExactly | src/FalconHTTP/HTTP/HttpParser.cpp:33-128 | Exactly the accepted buffers: a blank line, two spaces in line one, a colon in every other line of the head |
| HttpParser.HeaderLinesStore | src/FalconHTTP/HTTP/HttpParser.cpp:115-128 | The header map is that of the fields in order, the last of each lower-cased name winning |
| HeaderFields.FieldReadsAsWritten | src/FalconHTTP/HTTP/HttpParser.cpp:115-128 | Whatever stands around the colon of a line: the server stores the lower-cased name and the value without leading spaces, the client trims both |
| HandWritten.RequestAsWritten | src/FalconHTTP/HTTP/HttpParser.cpp:33-128 | Every request of three tokens, clean fields (any case, any spaces, duplicates) and a body, whoever wrote it, is parsed as exactly what it says |
| HandWritten.ResponseAsWritten | src/FalconHTTP/Client/HttpClient.cpp:96-128 | Every response head with a status line and clean fields, whoever wrote it, is parsed by the client as exactly what it says |
| HandWritten.HeadAcceptedAtClient | src/FalconHTTP/Client/HttpClient.cpp:96-128 | Exactly the accepted heads: a status line with a number from 100 to 599, and a colon in every other line |
| HandWritten.BadLengthExactly | src/FalconHTTP/Core/Server.cpp:180-197 | For a head within the cap the server answers 400 if and only if some line announces a length and does not say a number below 2^64, under every cutting and whatever follows |
| HandWritten.BadLengthAtClient | src/FalconHTTP/Client/HttpClient.cpp:201-206 | A response whose length is no number below 2^64 is taken for none, under every cutting |
| HttpParser.NoBlankLineNoRequest | src/FalconHTTP/HTTP/HttpParser.cpp:37-64 | Without a blank line no buffer is accepted |
| UrlQuery.Decode | src/FalconHTTP/Utility/UrlDecoder.cpp:13-40 | The decoding loop computes `Decoded` |
| UrlQuery.HexDigitsExactly | src/FalconHTTP/Utility/UrlDecoder.cpp:43-51 | The ten digits and the six letters in either case have their values, and nothing else is a digit |
| UrlQuery.DecodeMeetsStandard | src/FalconHTTP/Utility/UrlDecoder.cpp:13-51 | The single decoding pass equals the two passes of the URL Standard, incomplete escapes included |
| UrlQuery.PairsMeetStandard | src/FalconHTTP/HTTP/HttpParser.cpp:93-112 | The query loop yields exactly the tuples of the form-urlencoded parser (URL Standard, section 5.1) |
| UrlQuery.DecodeInvertsEncode | src/FalconHTTP/Utility/UrlDecoder.cpp:13-51 | Decoding the urlencoded form of any byte string gives it back |
| UrlQuery.PairsInvertRender | src/FalconHTTP/HTTP/HttpParser.cpp:93-112 | Parsing what the form-urlencoded serializer (section 5.2) prints gives back the tuples, empty keys and values included |
| UrlQuery.QueryRoundTrip | src/FalconHTTP/HTTP/HttpParser.cpp:83-113 | Parsing the rendering of any map of byte strings, in any order, gives that map |
| RoundTrips.QueryReachesTheServer | src/FalconHTTP/HTTP/HttpParser.cpp:83-113 | Any map of byte strings, rendered in any order behind any clean path, printed by the client and parsed by the server, is the query map the server ends up with |
| HttpClient.BuildRequest | src/FalconHTTP/Client/HttpClient.cpp:63-92 | The printing loop yields the request line, the three owned fields, the caller's other fields in iteration order, a blank line and the body |
| HttpClient.ParseStatusLine | src/FalconHTTP/Client/HttpClient.cpp:100-110 | The status code is the second token of a line that starts with "HTTP/", from 100 to 599 |
| HttpClient.ParseHead | src/FalconHTTP/Client/HttpClient.cpp:96-128 | The head parser computes `ResponseHead` on every string |
| HttpClient.FramingIsStable | src/FalconHTTP/Client/HttpClient.cpp:193-208 | Once the head is there, further bytes do not change what it says |
| HttpClient.HttpClient.ExamineHead | src/FalconHTTP/Client/HttpClient.cpp:193-208 | Head, length and start of the body of what has been received, or the reason for giving up |
| HttpClient.HttpClient.ReceiveResponse | src/FalconHTTP/Client/HttpClient.cpp:163-213 | The loop that caches headEnd, expectedBody and hasLength returns what a reader that looks at all the bytes afresh after every read would return |
| HttpClient.HttpClient.Send | src/FalconHTTP/Client/HttpClient.cpp:154-213 | Writes the request across partial writes, then reads the response; the handle is closed exactly once on every path |
| ClientChunking.BytesDecide | src/FalconHTTP/Client/HttpClient.cpp:165-213 | Outside a named family the result is a function of the bytes and of how the stream stops |
| ClientChunking.IndependentExactly | src/FalconHTTP/Client/HttpClient.cpp:165-213 | The result is independent of the reads if and only if the stream is outside that family (response within the limit, bytes beyond it, one read bridging both) |
| ClientChunking.LimitDecides | src/FalconHTTP/Client/HttpClient.cpp:189-191 | Inside the family: the same bytes give the response or nothing |
| Exchange.NearlyFullResponseMatters | src/FalconHTTP/Client/HttpClient.cpp:189-191 | Under every limit from 4 KiB on, a response that nearly fills it and one read of surplus bytes make a stream inside the family |
| RoundTrips.RequestRoundTrip | src/FalconHTTP/Client/HttpClient.cpp:63-92 | Parsing a printed request recovers method, path and query as the target says them, version, every caller header except the three owned ones, the owned ones, and the body, for every iteration order and every body |
| RoundTrips.RequestLineReadsBack | src/FalconHTTP/HTTP/HttpParser.cpp:66-113 | The printed request line is taken apart at the right spaces and is never a length line |
| RoundTrips.ResponseRoundTrip | src/FalconHTTP/HTTP/HttpSerializer.cpp:14-61 | The client's parser and body cut applied to a serialized response recover status, length, body and every header except a handler's own content-length and connection, for every iteration order and every body |
| RoundTrips.ResponseHeadReadsBack | src/FalconHTTP/Client/HttpClient.cpp:96-128 | The client reads a printed response head as the status and the header map with the computed fields on top |
| RoundTrips.ResponseFraming | src/FalconHTTP/Client/HttpClient.cpp:193-208 | A printed response of any size is framed as its own head, length and body, or rejected exactly if the body alone exceeds the limit |
| HttpSerializer.AppendStatusLine | src/FalconHTTP/HTTP/HttpSerializer.cpp:25-31 | Appends the status line, which `HttpSerializer.StatusLines` spells out |
| HttpSerializer.StatusLines | src/FalconHTTP/HTTP/HttpSerializer.cpp:25-31 | The status line of each of the 17 statuses, number and phrase to the letter |
| HttpSerializer.AppendHeaders | src/FalconHTTP/HTTP/HttpSerializer.cpp:33-61 | The loop appends each of the handler's fields except two, then the computed ones and the blank line |
| HttpSerializer.Serialize | src/FalconHTTP/HTTP/HttpSerializer.cpp:14-22 | The output is a head made of the response's lines, a blank line and the body |
| HttpSerializer.ResponseHeadIsClean | src/FalconHTTP/HTTP/HttpSerializer.cpp:25-61 | For clean headers the printed lines form a head: no CRLF inside a line and no empty line |
| Messages.MethodRoundTrip | src/FalconHTTP/HTTP/HttpMethod.cpp:13-53 | Every method survives its wire form |
| Messages.MethodNames | src/FalconHTTP/HTTP/HttpMethod.cpp:13-30 | Each of the seven names is read as its method, and any other text as none of them |
| Messages.ReasonPhraseIsClean | src/FalconHTTP/HTTP/HttpStatus.cpp:13-52 | No reason phrase contains a line break |
| Messages.StatusNumbers | include/FalconHTTP/HTTP/HttpStatus.h:36-72 | The number of each of the 17 statuses |
| Transport.Socket.constructor | src/FalconHTTP/Core/Socket.cpp:77-77 | The socket owns the handle it is given |
| Transport.Socket.MoveFrom | src/FalconHTTP/Core/Socket.cpp:83-84 | The handle changes owner; the source owns nothing |
| Transport.Socket.MoveAssign | src/FalconHTTP/Core/Socket.cpp:86-93 | The old handle is closed once, the new one changes owner; self-assignment does nothing |
| Transport.Socket.Close | src/FalconHTTP/Core/Socket.cpp:333-348 | The handle is given up and closed; a second call does nothing |
| Transport.Connection.constructor | src/FalconHTTP/Core/Connection.cpp:13-13 | Takes the handle over from the socket |
| Transport.Connection.SendAll | src/FalconHTTP/Core/Connection.cpp:16-28 | Under any script of partial writes: true if and only if every byte went out, and the bytes written are a prefix of the data |
| Transport.Connection.ReceiveAvailable | src/FalconHTTP/Core/Connection.cpp:30-39 | One read; the end of the stream and an error both come back empty |
| Transport.Connection.Close | src/FalconHTTP/Core/Connection.cpp:41-43 | Closes the owned handle, if any |
| Transport.ReliablePush | src/FalconHTTP/Core/Connection.cpp:16-28 | If no write fails, the loop over partial writes delivers everything |
| Messages.HttpRequest.SetHeader | src/FalconHTTP/HTTP/HttpRequest.cpp:56-61 | Stores under the lower-cased name, replacing what was there |
| Messages.HttpRequest.SetQueryParam | src/FalconHTTP/HTTP/HttpRequest.cpp:63-67 | Last write wins |
| Messages.HttpRequest.SetPathParam | src/FalconHTTP/HTTP/HttpRequest.cpp:69-73 | Last write wins |
| Messages.HttpRequest.Header | src/FalconHTTP/HTTP/HttpRequest.cpp:103-108 | What is stored under the lower-cased name, or nothing |
| Messages.HttpResponse.SetHeader | src/FalconHTTP/HTTP/HttpResponse.cpp:58-63 | Stores under the lower-cased name; keys stay in lower case |
| Messages.HttpResponse.SetStatus | src/FalconHTTP/HTTP/HttpResponse.cpp:54-56 | Changes the status and nothing else |
| Messages.HttpResponse.SetBody | src/FalconHTTP/HTTP/HttpResponse.cpp:65-67 | Changes the body and nothing else |
| EventStream.BuildFrame | src/FalconHTTP/Streaming/SseConnection.cpp:26-52 | The framing loop yields one data line per line of the payload |
| EventStream.FrameToTheLetter | src/FalconHTTP/Streaming/SseConnection.cpp:26-52 | A frame to the letter: the name if there is one, a data line for each LF-separated piece of the payload, and an empty line |
| EventStream.RoundTripExactly | src/FalconHTTP/Streaming/SseConnection.cpp:21-60 | The frames of any sequence of sends, read by the parser of sections 9.2.5 and 9.2.6 of the HTML Standard, give exactly that sequence if and only if no event name holds a line break and no payload a CR |
| EventStream.EventsSoFar | src/FalconHTTP/Streaming/SseConnection.cpp:21-60 | At every byte of the stream exactly the events whose frames have arrived in full have been dispatched |
| EventStream.EventsAreClean | src/FalconHTTP/Streaming/SseConnection.cpp:21-60 | No byte stream whatever dispatches an event with a line break in its type or a CR in its data |
| SseConnection.BuildPreamble | src/FalconHTTP/Streaming/SseConnection.cpp:72-86 | The loop yields the fixed lines, the extra headers and a blank line |
| SseConnection.SseConnection.constructor | src/FalconHTTP/Streaming/SseConnection.cpp:13-18 | Takes the handle over and sends the preamble |
| SseConnection.SseConnection.Send | src/FalconHTTP/Streaming/SseConnection.cpp:21-60 | False and no effect when dead; else the frame goes out, or part of it does and the connection is dead |
| SseConnection.SseConnection.Close | src/FalconHTTP/Streaming/SseConnection.cpp:66-69 | Closes the handle if it is still owned; dead from then on |
| SseConnection.RunHandler | src/FalconHTTP/Core/Server.cpp:266-268 | A handler running on the object has the effect of the handler running on the value |
| SseConnection.HandlersLearn | src/FalconHTTP/Streaming/SseConnection.cpp:21-69 | What a handler learns: whether the stream is alive, and from send whether the whole frame went out |
| SseConnection.RunIsWellFormed | src/FalconHTTP/Streaming/SseConnection.cpp:13-69 | Over every run: the preamble, then the whole frames of the successful sends in order, then a proper part of the frame of the one that failed, or only a proper part of the preamble |
| SseConnection.AttemptsAreTold | src/FalconHTTP/Streaming/SseConnection.cpp:21-60 | The events a run tries to send while alive are, in order, those delivered in full and at most one more, the failed one |
| SseConnection.DeadStaysDead | src/FalconHTTP/Streaming/SseConnection.cpp:21-69 | After a failure or a close nothing comes back to life and no byte is written |
| SseConnection.ClosedOncePerOwner | src/FalconHTTP/Streaming/SseConnection.cpp:66-69 | Over every run the handle is closed once more exactly if it was given up |
| Server.OneMessageOneClose | src/FalconHTTP/Core/Server.cpp:135-292 | For every request, chain, handler and script of reads and writes, one message is due: nothing, one named response (the refusal, the 500, or the chain's own), or the first stream the chain started, with the request and headers it was started with. What happens to the handle, bytes included, is the delivery of that message and nothing else; the handle is closed exactly once, and the stream counter is used in whole turns |
| Server.ChainRunsExactly | src/FalconHTTP/Core/Server.cpp:135-245 | For every stream outside the family named in `ServerChunking`, however it is cut, the chain runs if and only if the bytes are one whole, well-formed request within the caps; a whole malformed one is answered with the 500 |
| Server.Server.HandleConnection | src/FalconHTTP/Core/Server.cpp:135-245 | The method with its objects computes `ServedConnection`; the connection owns nothing afterwards |
| Server.Server.ServeRequest | src/FalconHTTP/Core/Server.cpp:222-244 | Parse, run, answer, with both exception paths |
| Server.Server.RunChain | src/FalconHTTP/Core/Server.cpp:247-293 | The recursion over middleware objects computes the chain on values |
| Server.Server.RunMiddleware | src/FalconHTTP/Core/Server.cpp:283-292 | A middleware that edits, tests, throws, catches and calls `next` any number of times, with the captured `streamed` |
| Server.Server.RunEnd | src/FalconHTTP/Core/Server.cpp:249-281 | The end of the chain: stream, 503, handler, 404 or 405 |
| Server.Server.RunStreamRoute | src/FalconHTTP/Core/Server.cpp:250-269 | Admission and the event stream; the guard subtracts on return and on throw |
| Server.Server.RunStream | src/FalconHTTP/Core/Server.cpp:266-268 | The event stream takes the handle over and releases it |
| Server.Server.SendResponse | src/FalconHTTP/Core/Server.cpp:235-236 | Serializes and writes; a connection without a handle writes nothing |
| Server.Server.SendError | src/FalconHTTP/Core/Server.cpp:238-241 | The error answer in all its places |
| Server.Server.Use | src/FalconHTTP/Core/Server.cpp:83-85 | Appends a middleware |
| Server.StreamCounter.FetchAdd | src/FalconHTTP/Core/Server.cpp:251-252 | Returns what the addition found |
| Server.StreamCounter.FetchSub | src/FalconHTTP/Core/Server.cpp:253-253 | One subtraction, a withdrawal or a departure |
| Chain.ChainIsSound | src/FalconHTTP/Core/Server.cpp:247-293 | Over every chain: until the first stream starts the connection owns the handle and nothing has been written or closed; from then on what has happened to the handle is exactly that stream, run by the first route that fits with the request and headers it was started with, and nothing else; the counter is used in whole turns of an addition and the subtraction it calls for; a true result means the handle is gone |
| Chain.StreamOnHandle | src/FalconHTTP/Core/Server.cpp:266-268 | A stream that takes a handle over writes one preamble and the frames behind it and closes the handle once |
| Chain.NoHandleNoEffect | src/FalconHTTP/Core/Server.cpp:266-268 | A stream on a connection that has lost its handle leaves the old handle alone |
| Chain.OwnershipIsNotRegained | src/FalconHTTP/Core/Server.cpp:266-292 | Once the handle is gone no further call of `next` brings it back |
| Chain.EndExactly | src/FalconHTTP/Core/Server.cpp:249-281 | When each of the five ends is reached, as if-and-only-ifs over the route table; streams first, 405 only for normal routes under another method |
| Chain.EndHappens | src/FalconHTTP/Core/Server.cpp:249-281 | What each end does: the handler or stream is handed the request with the chosen route's bindings added to its path parameters and nothing else changed; its bytes, answer and exception, or the fixed status and text, are the outcome; nothing else happens |
| Chain.HandlerSeesValues | src/FalconHTTP/Routing/Router.cpp:54-58 | For a path that is the route's pattern filled in with slash-free values, the handler finds each value under its parameter's name, and every other path parameter and field as before |
| Onion.OnionOrder | src/FalconHTTP/Core/Server.cpp:283-292 | If every middleware calls `next` at most once, the steps of a run are exactly its layers: each middleware is entered, what it passes on goes to the next one if it calls `next`, and it is left, whatever is thrown or caught |
| Onion.ShapeOfLayers | src/FalconHTTP/Core/Server.cpp:283-292 | The layers are in through 0..k and out through k..0 for the first k that does not continue, without reaching the end, or all the way in, the end once, and all the way out if every middleware continues |
| Onion.MiddlewareLearns | src/FalconHTTP/Core/Server.cpp:283-290 | A middleware sees the messages as they are, its edits are seen by whoever comes next, and what it throws is thrown |
| Onion.RecoveryContains | src/FalconHTTP/Middleware/Recovery.cpp:38-53 | Nothing thrown behind the recovery middleware gets past it, and it becomes status 500 with the fixed body |
| Onion.ReturnedValueIsRight | include/FalconHTTP/Core/Server.h:261-264 | For chains whose middlewares call `next` at most once and let exceptions pass, the returned value is true if and only if the connection is gone |
| Onion.ValueOfChain | src/FalconHTTP/Core/Server.cpp:283-292 | For every chain, the value is true if and only if following at each layer the last call of `next` that returned leads to a stream |
| Onion.DocumentedMeaningExactly | include/FalconHTTP/Core/Server.h:261-264 | For every chain, the documented equivalence of value and lost connection holds if and only if no stream has started, or those last calls lead to one |
| Onion.ValueIsWrongExactly | include/FalconHTTP/Core/Server.h:261-264 | If every middleware calls `next` at most once, it fails exactly when the layers, which are known before the run, end at a stream and some call of `next` ends in an exception |
| Onion.RecoveryHidesTheStream | src/FalconHTTP/Middleware/Recovery.cpp:38-53 | That documented equivalence fails in general: a stream handler that throws behind recovery leaves the connection gone and the value false |
| Onion.SecondCallHidesTheStream | src/FalconHTTP/Core/Server.cpp:285-292 | It also fails without any exception when a middleware calls `next` twice |
| StreamGate.ResolveMaxStreams | src/FalconHTTP/Core/Server.cpp:61-66 | A configured cap as it is; else half of a pool of two or more, and 1 for a smaller one |
| StreamGate.StepKeepsInv | src/FalconHTTP/Core/Server.cpp:251-265 | Every step of every thread keeps: the counter is the running streams plus the pending withdrawals, at most cap streams run, no overflow, no underflow |
| StreamGate.RunKeepsInv | src/FalconHTTP/Core/Server.cpp:251-265 | The same at every moment of every interleaving of any number of threads |
| StreamGate.ReturnsToZero | src/FalconHTTP/Core/Server.cpp:258-264 | The counter is 0 exactly when no thread is inside the gate |
| StreamGate.HalfThePoolIsFree | src/FalconHTTP/Core/Server.cpp:61-66 | With the automatic cap and two or more workers, at least half of the pool never holds a stream |
| StreamGate.ConfiguredCapIsExact | src/FalconHTTP/Core/Server.cpp:61-66 | With cap n configured and at least n workers there is a run in which n streams run at once, and there is none in which more do |
| StreamGate.RejectionHasCause | src/FalconHTTP/Core/Server.cpp:251-257 | Behind every rejection there is a moment at which all slots were really taken, since which some withdrawal has always been pending |
| StreamGate.NoRejectionWithoutSaturation | src/FalconHTTP/Core/Server.cpp:251-257 | In a run in which the slots are never all taken no thread is rejected |
| StreamGate.RejectedExactly | src/FalconHTTP/Core/Server.cpp:251-257 | An arrival is rejected if and only if running streams and pending withdrawals together reach the cap |
| StreamGate.ThreadsTakeTurns | src/FalconHTTP/Core/Server.cpp:251-265 | In every run every thread's steps are whole turns -- an addition, then a withdrawal if it found the slots taken and a departure if not -- up to one that its phase says it is in the middle of; `Chain.ChainIsSound` says that a connection's steps are such turns |
| StreamGate.TurnsBalance | src/FalconHTTP/Core/Server.cpp:251-265 | In whole turns additions and subtractions alternate, and there are as many of one as of the other |
| StreamGate.PendingWithdrawalTurnsAway | src/FalconHTTP/Core/Server.cpp:251-257 | A run in which a thread is rejected although every slot is free at that moment |
| PathMatcher.Match | src/FalconHTTP/Routing/PathMatcher.cpp:13-42 | The two-cursor loop returns true if and only if the segment lists have equal length and agree pairwise; what it stores is the bindings up to the first disagreement |
| PathMatcher.SegmentsAreSplit | src/FalconHTTP/Routing/PathMatcher.cpp:16-23 | For a path that starts with a slash the segments are the pieces of splitting it at slashes |
| PathMatcher.MatchesByPieces | src/FalconHTTP/Routing/PathMatcher.cpp:13-42 | Of a pattern and a path that start with a slash: as many pieces between slashes, and each piece of the pattern starts with a colon or equals its counterpart, if and only if they match |
| PathMatcher.BindingsByPieces | src/FalconHTTP/Routing/PathMatcher.cpp:25-31 | A match stores under the name behind each colon the piece of the path in its place, and nothing else |
| PathMatcher.BindingsInvertMatch | src/FalconHTTP/Routing/PathMatcher.cpp:13-42 | With distinct parameter names, substituting the bindings into the pattern gives the path if and only if pattern and path start with the same character |
| PathMatcher.RenderedPathMatches | src/FalconHTTP/Routing/PathMatcher.cpp:13-42 | Rendering a pattern with slash-free values gives a path that matches and binds those values |
| PathMatcher.RenderedPathBinds | src/FalconHTTP/Routing/PathMatcher.cpp:13-42 | A rendered path binds the parameters of its pattern to their values, and nothing else |
| Router.FirstFit | src/FalconHTTP/Routing/Router.cpp:35-87 | The first route of a kind for a method and path, and none before it |
| Router.BindParams | src/FalconHTTP/Routing/Router.cpp:54-56 | The loop adds the bindings to the path parameters, in any order |
| Router.Router.AddRoute | src/FalconHTTP/Routing/Router.cpp:90-92 | Appends a normal route |
| Router.Router.AddStream | src/FalconHTTP/Routing/Router.cpp:30-32 | Appends a streaming route, always under GET; the table never holds a streaming route under another method |
| Router.Router.Dispatch | src/FalconHTTP/Routing/Router.cpp:35-65 | The scan runs the first fitting normal route on the request with that route's bindings, or reports 405 exactly if one fits under another method |
| Router.Router.MatchStream | src/FalconHTTP/Routing/Router.cpp:67-87 | The scan finds the first fitting streaming route and adds its bindings alone |

## Left out

- System calls, timeouts, `poll`, interrupted calls, the Winsock branches and the listener: the script of reads and writes stands for all of them.
- HttpClient.HttpClient.Send: starts with a connected or invalid socket; creating, connecting and setting timeouts are system calls, and `get`, `post`, `put` and `del` only fill in the method.
- Server::run and Server::stop: their timing rests on `accept` being woken by the closing of the listening socket.
- FileCache, StaticFileServer, MimeTypes, Cors, Logger and JSON bodies: they rest on libraries and a file system that are not part of this model.
- The insides of HashMap, Vector, Function and the thread pool: a map, a sequence, a value, and "each worker runs one connection at a time".
- Running out of memory, and exceptions thrown by the logging inside the recovery middleware.
- Middleware that hands `next` a request or response object other than its own, which the type of `next` would allow.
- Middleware and handlers that do not end, that keep references past their return, or that share state between requests.
- Server.StreamCounter.FetchAdd: from one connection's point of view the value found is arbitrary, because other connections change the counter; how all of them share it is the subject of `StreamGate`.
- StreamGate.StepKeepsInv: takes each atomic addition and subtraction as one step in a single order, which is all that relaxed ordering promises for one counter.
- Transport.Socket.Close: the atomic exchange is modelled as one step; a close from another thread while a read is blocked is not.
- EventStream.RoundTripExactly: works on bytes and leaves out decoding of UTF-8, the `id` and `retry` fields and reconnection.
- UrlQuery.QueryRoundTrip: is about byte strings; decoding the bytes as UTF-8, which the standard does afterwards, is left out, as the code leaves it out.
- StreamReception.StreamingExchange: says what the caller sees for extra headers that stay on their lines and announce no length, and for events that survive framing, because the code writes both unescaped; what is written is said for all.
- Exchange.ExchangeAllOrNothing: asks for header names without colons, for header text without CRLF, for names that stay distinct when stored, and for a target without spaces or CRLF, because the code prints them unescaped; bodies have fewer than 2^64 bytes, as sizes do in the code.
