# A verified model of the Hive SDK's in-memory machines

The SDK stores files and key/value pairs on OneDrive and IPFS. Between its input and output it
holds several small machines with real invariants; this project models them in Dafny and proves
what they keep.

- **sandbird**, the HTTP server that receives the login redirect (`Buffers`, `HeaderFields`,
  `QueryVars`, `Numbers`, `StreamModel`, `Streams`, `ServerModel`, `Servers`). `StreamModel` and
  `ServerModel` say as values what each call does to a stream and to the server; `Streams` and
  `Servers` are the objects that do it in place, one against the other. On top of that,
  `Framing` and `Reception` prove that a request's end and the request event depend on the bytes
  and not on how they arrive, `RequestLines` and `WrittenRequests` that a written request, in
  whatever chunks and polls it arrives, is announced with its method and path and can be read
  field by field, `Responses` and `Delivery` that everything sent is a response and is delivered,
  `CallResults` when a response call succeeds and what it appends, `Lifecycle` that every
  connection gets one connect, at most one request and one close, `ServerRuns` that responses
  stay well formed over whole server runs and when a poll does not return, and `ServerDelivery`
  that a client of a polled server gets the whole response to what it wrote.
- **The key/value store on OneDrive** (`DriveUrls`, `Drive`, `Records`, `KeyValues`,
  `KeyHistories`): requests with their URL and block buffers, files of length-prefixed records
  that stand for each key's history, and a reader that turns headers to host order while it
  walks over them. An operation that would run off a buffer has an outcome of its own, and
  exactly when that happens is proved.
- **Tokens** (`JsonValues`, `OAuthToken`, `OneDrive`): the answer's items become the tokens of
  their names, the store agrees with memory, and no request carries a rejected token.
- **Listings** (`Paging`), **the response body** (`HttpBody`), **IPFS failover** (`Ipfs`) and
  **mkdirs** (`Mkdirs`).

The outside world is an input everywhere: which allocations are granted, what `recv`, `send`,
`select`, `accept` and the servers answer, how much `fread` delivers, what time it is. Results of
functions are datatypes or the negative numbers callers see, never a wrapped unsigned value.

Facts about the code that the statements below make exact:

- `find_header_value` makes no progress on a carriage return without a line feed. The model has
  a `Hangs` outcome, and the lookup is proved to hang exactly when such a line stands in front
  of the first match. A stream whose header has one in front of any Content-Length never
  returns from `sb_stream_recv`.
- `sb_get_header` has no defined result when the value stands on a last line without a carriage
  return (`NoLineEnd`), which a terminator inside a header line makes of it; and there is nothing
  to look into before a terminator stands behind the received text, as on a new stream.
- `url_decode` reports truncation also when the decoded text just fits.
- What follows a complete request in the same chunk is dropped.
- The reader accepts records of length zero, except as the last one.
- The length of a file is compared as an `int`: at `0x87000194` modulo 2^32 it reads as "not
  found". `get_values` then succeeds and delivers nothing, and `put_value` replaces all records
  by the new one. From 2^31 on `put_value` fails at all other lengths that do not fit an `int`,
  so no sequence of the store's own operations makes a file of that length.
- A request's URL is printed into 1024 bytes without a bound. It fits for keys up to 954
  characters when a file's length or contents are asked for, 953 when it is removed, 945 when it
  is uploaded and 933 when the upload is larger than four megabytes.
- A key goes into the URL as it is, and a URL's path ends at the first `?` or `#`. A request asks
  for the path of its key exactly when the key has neither: the key `a#1` reads and deletes the
  file of the key `a`, and is never stored itself. Keys that fit ask for the same path exactly when
  they agree in front of the cut.
- What place a path names is up to curl and the service: percent-encoding, dot segments, colons
  and letter case may make different paths name the same one, and a place may be a folder around
  another. The model takes any such reading. Keys keep their values apart where their places are
  neither the same nor inside one another.
- A download is copied into its block without a bound, and its status is looked at afterwards:
  an error page that is longer than the block runs off it.
- `http_client_move_response_body` writes through its length pointer when the body is empty,
  even if there is none. All its callers pass none, so success with an empty body ends length
  requests, upload sessions, listings, token requests and IPFS requests in a null write, which
  the models of these have as an outcome.
- A moved body is parsed as a C string, but nothing puts a terminator behind it. A chunk that just
  fits leaves no byte for one, for example the second of two chunks of 256 bytes.
- The token's store is read back into 4096 bytes. If its file is larger, every later connect fails.
- That a token was rejected is kept in memory only; after a restart it counts as valid until the
  second it was granted for is over.
- `mkdirs` succeeds without a directory only when somebody else makes a file of the name between
  its `stat` and its `mkdir`.

`dafny verify dfyconfig.toml` checks everything. Section numbers refer to RFC 7230 (HTTP/1.1
messages), RFC 3986 (URIs) and RFC 6749 (OAuth 2.0).

## Model

| member | source | states |
|---|---|---|
| CText.MemCaseEqual | src/sandbird/sandbird.c:195-202 | a field name matches at the pointer exactly when all its characters do, letter case ignored; nothing behind the terminator is read |
| HeaderFields.FindHeaderValue | src/sandbird/sandbird.c:205-216 | the pointer loop finds what the line-by-line lookup finds, and does not return exactly when that one hangs |
| HeaderFields.LookupIsFirstNamedLine | src/sandbird/sandbird.c:205-216 | on any text the lookup yields the value of the first line with the name, the lines being cut without looking at names; without one it is missing, or hangs iff a bare carriage return ends the lines |
| HeaderFields.GetHeader | src/sandbird/sandbird.c:657-674 | writes the value and its terminator, at most `len` bytes and nothing behind them, or an empty string when there is no such field |
| HeaderFields.HeaderTextIsTrimmedValue | src/sandbird/sandbird.c:657-674 | the value got is the first named line's, without the blanks around it, cut to `len - 1` and then marked truncated; no result is defined in exactly two cases |
| HeaderFields.TrimmedLength | src/sandbird/sandbird.c:665-666 | the scan back over blanks ends where the line without its trailing blanks does |
| HeaderFields.CutShort | src/sandbird/sandbird.c:664 | a header line with a terminator inside, for which no line end is found |
| QueryVars.HexByteRoundTrip | src/sandbird/sandbird.c:162-171 | two hexadecimal digits of either case, joined by shift and or, give the byte they were printed from |
| QueryVars.UrlDecode | src/sandbird/sandbird.c:167-182 | exactly the first `len - 1` characters of the unbounded decoding and a terminator are written, the rest of the buffer is untouched, and truncation is reported iff the decoding is not shorter than `len - 1` |
| QueryVars.DecodeEncode | src/sandbird/sandbird.c:167-182 | percent-encoding as in section 2.1 of RFC 3986, in any choice of plain characters, plus signs and digit case, is undone up to the separator behind it |
| QueryVars.FindVarValue | src/sandbird/sandbird.c:219-230 | the pointer loop finds what the pair-by-pair lookup finds and always ends |
| QueryVars.LookupInQuery | src/sandbird/sandbird.c:219-230 | in a query written pair by pair, looking a name up finds the first pair of that name and nothing else, prefixes of other names included, and what it finds decodes to the pair's value |
| QueryVars.GetVar | src/sandbird/sandbird.c:677-694 | the query is searched before the data; the decoded value or its prefix is in the buffer, nothing behind it is touched, and the result tells missing, truncated and complete apart |
| QueryVars.QueryRoundTrip | src/sandbird/sandbird.c:677-694 | for any pairs and byte values in a request line's query, wherever the data starts, a name gives its first pair's value back, and a name without a pair is looked up in the data only |
| QueryVars.BodyRoundTrip | src/sandbird/sandbird.c:685-688 | the same for pairs in the request's data, for names the request line does not have |
| QueryVars.NoQueryNoVar | src/sandbird/sandbird.c:680-684 | a request line without a question mark has no variables |
| Numbers.UintRoundTrip | src/sandbird/sandbird.c:155-159 | a printed number is read back modulo 2^32, whatever follows it |
| Buffers.PushSucceedsIff | src/sandbird/sandbird.c:280-302 | a push fails iff one of the doublings on the way is refused, and a buffer that grew is less than twice its contents |
| Buffers.PushedStrIs | src/sandbird/sandbird.c:280-302 | a push goes through iff every doubling from the capacity to the length of old and new bytes together is granted, and then its result is exact, capacity included |
| Buffers.Buffer.Shift | src/sandbird/sandbird.c:263-266 | moving the rest down drops exactly the first `n` bytes |
| Buffers.Buffer.Reserve | src/sandbird/sandbird.c:269-277 | the contents survive a new block, and a refused one changes nothing |
| Buffers.Buffer.PushChar | src/sandbird/sandbird.c:280-287 | one more byte behind the old ones, or no change |
| Buffers.Buffer.PushStr | src/sandbird/sandbird.c:290-302 | the loop with its roll-back appends the whole text or none of it |
| Buffers.Buffer.NullTerminate | src/sandbird/sandbird.c:368-373 | a terminator stands behind the contents and is not one of them |
| Framing.HeaderEndIsShortest | src/sandbird/sandbird.c:456-460 | the header ends at the shortest prefix that ends in two line ends (section 3 of RFC 7230) |
| Framing.WholeAtOneLength | src/sandbird/sandbird.c:480-481 | no shorter prefix of the bytes is a whole request and every longer one has the same end, so the equality test cannot be stepped over |
| Framing.CuttingDoesNotMatter | src/sandbird/sandbird.c:431-510 | two ways of cutting the same bytes into chunks and calls leave the stream, up to a complete request, the same in all but its time of activity, whichever allocations fail |
| Framing.ArrivalIsFramed | src/sandbird/sandbird.c:449-510 | state, contents, data index and expected length after any arrival are those of the bytes' frame: a shortest header and its Content-Length of data (section 3.3.3 of RFC 7230) |
| Framing.BareCarriageReturn | src/sandbird/sandbird.c:205-216 | a seven-byte header that the server does not return from |
| Reception.CuttingEmitsTheSame | src/sandbird/sandbird.c:431-510 | two ways of cutting the same bytes into chunks and calls emit the same request, end in the same result and leave the same response, whichever allocations fail |
| Reception.FramedRequestIsEmitted | src/sandbird/sandbird.c:431-510 | over any number of polls a fresh stream emits a request iff the bytes that arrive frame one with a valid request line, and the request is the one in the framed bytes, which are kept; an invalid line closes the stream; without a frame it keeps all bytes and waits |
| Reception.ActivityIsTraffic | src/sandbird/sandbird.c:431-551 | the time of the last activity is that of the last arrival or of the last bytes that left, and the first time never changes |
| RequestLines.LineParses | src/sandbird/sandbird.c:488-498 | method, target and version are cut at the spaces between them, whatever follows the line |
| RequestLines.RequestRoundTrip | src/sandbird/sandbird.c:488-501 | a request for an encoded path, with or without a query, is announced with its method and the decoded path, of which 511 characters fit |
| RequestLines.VersionDecides | src/sandbird/sandbird.c:488-495 | of a line of three words the third decides: a request is accepted iff it starts with `HTTP` |
| RequestLines.TwoWordsAreNone | src/sandbird/sandbird.c:488-495 | a line of two words with nothing behind it is rejected |
| WrittenRequests.TextIsFramed | src/sandbird/sandbird.c:449-481 | a request line and header lines, alone or with a Content-Length and that much data, are one whole request by the server's framing |
| WrittenRequests.PlainGet | src/sandbird/sandbird.c:449-479 | the plainest request a browser sends is one of those the next rows are about |
| WrittenRequests.WrittenRequestIsEmitted | src/sandbird/sandbird.c:431-510 | in whatever chunks and calls such a request arrives, with or without a query and a body, the handler is told the method and path that were written, and the stream holds its text with the data index at the body |
| WrittenRequests.WrittenHeadersAreRead | src/sandbird/sandbird.c:657-674 | of any field the first header line's value is got, without the blanks around it; the lookup returns |
| WrittenRequests.WrittenVariablesAreRead | src/sandbird/sandbird.c:677-694 | of any name the first query pair's value is got, or else the first form field's, or nothing when it is in neither, with or without a query and a body |
| Responses.CallTold | src/sandbird/sandbird.c:554-654 | every response call, however it ends, leaves bytes sent and waiting that are a status line, header lines, an empty line and a body up to the part the state names; it adds its whole part, or finished parts when memory runs out, or nothing, and is refused exactly outside its states (section 3 of RFC 7230) |
| CallResults.CallResult | src/sandbird/sandbird.c:554-654 | every call in every state: refused outside its states without any change; in them out of memory iff one of the doublings for its whole text, with a missing status line and header end in front, is refused; otherwise exactly that text is appended |
| CallResults.CallsSucceed | src/sandbird/sandbird.c:554-654 | calls in sequence with memory at hand all take effect: their texts are appended in order, the file stands behind them, and none closes the stream |
| CallResults.ReplyTakesEffect | src/sandbird/sandbird.c:401-414 | calls in sequence that find memory are carried out whatever the reply's result code is, and the code alone decides whether the stream stays, closes or the poll fails |
| Responses.SendTold | src/sandbird/sandbird.c:513-551 | a send keeps the response well formed and extends its body by the piece of the file it reads, only after everything before it is delivered |
| Responses.SendConserves | src/sandbird/sandbird.c:513-551 | delivered, waiting and unread bytes stay the same in sum and order, what was delivered is not taken back, and the stream closes for want of data only when all of it is delivered |
| Delivery.RunTold | src/sandbird/sandbird.c:513-654 | any sequence of calls and sends with any failures leaves the response that its calls, by their results, and the pieces of its file make in order, and nothing that was told is ever changed |
| Responses.TaleIsFolded | src/sandbird/sandbird.c:554-654 | where no call runs out of memory that response is the fold of what the successful calls add |
| Delivery.TaleIsClean | src/sandbird/sandbird.c:554-654 | calls whose texts have no line end of their own make a response whose texts have none |
| Delivery.PumpingConserves | src/sandbird/sandbird.c:513-551 | under any pattern of partial sends, would-blocks and refused buffers a stream that closes has delivered everything |
| Delivery.PumpingDelivers | src/sandbird/sandbird.c:513-551 | with a peer that takes a byte a time, after as many sends as there are bytes and two the response is delivered whole and the stream closed |
| Delivery.ClosesIff | src/sandbird/sandbird.c:513-551 | a send closes the stream iff there is nothing left to send or the peer takes nothing and is not merely slow; the peer gets as much as it takes |
| Delivery.FileResponseFramesItself | src/sandbird/sandbird.c:594-624 | a file below 2^32 bytes behind a clean header: by the very framing of requests, all the bytes of the response are one whole message whose data is the file |
| Delivery.AnnouncedLengthIff | src/sandbird/sandbird.c:603-608 | the announced length reads as the file's exactly below 2^32 bytes |
| Streams.Stream.constructor | src/sandbird/sandbird.c:380-393 | a new stream is empty, in its first state, with both times now |
| Streams.Stream.GetHeader | src/sandbird/sandbird.c:657-674 | on the stream: the field's value, or no defined result where no terminator stands behind the text |
| Streams.Stream.GetVar | src/sandbird/sandbird.c:677-694 | on the stream: the variable's value, or no defined result where no terminator stands behind the text |
| Streams.Stream.SendStatus | src/sandbird/sandbird.c:567-576 | the new state of the whole stream, on success and on each failure |
| Streams.Stream.SendHeader | src/sandbird/sandbird.c:579-591 | the new state of the whole stream, a default status line first where none was sent |
| Streams.Stream.FinalizeHeader | src/sandbird/sandbird.c:554-564 | the new state of the whole stream at the end of the header |
| Streams.Stream.SendFile | src/sandbird/sandbird.c:594-624 | the new state of the whole stream with the file open at its start, or as the failed part left it |
| Streams.Stream.Write | src/sandbird/sandbird.c:627-634 | the new state of the whole stream, the header ended first where it was open |
| Streams.Stream.Send | src/sandbird/sandbird.c:513-551 | the new state of the whole stream after one send, with the file read in place of an empty buffer |
| Streams.Stream.Transmit | src/sandbird/sandbird.c:518-532 | the bytes the peer took move from the buffer to the wire; an error that is no would-block closes |
| Streams.Stream.Answer | src/sandbird/sandbird.c:401-414 | the handler's calls take effect in order, then its result code closes, succeeds or is an error |
| Streams.Stream.HandleRequest | src/sandbird/sandbird.c:485-504 | a bad request line closes the stream unannounced, a good one is emitted once, with its text terminated |
| Streams.Stream.Take | src/sandbird/sandbird.c:449-484 | the new state of the whole stream after one received byte |
| Streams.Stream.EndHeader | src/sandbird/sandbird.c:462-477 | the new state of the whole stream after the header, with its length field searched in place |
| Streams.Stream.TakeChunk | src/sandbird/sandbird.c:449-506 | a chunk is taken byte by byte up to a complete request or a failure; the rest of it is dropped |
| Streams.Stream.Recv | src/sandbird/sandbird.c:431-510 | the whole receive loop, with its five ways to end |
| Servers.Server.Serve | src/sandbird/sandbird.c:906-934 | one stream's turn: receive or send, then the limits, then the close event of one that goes |
| Servers.Server.Unlink | src/sandbird/sandbird.c:932-936 | writing through the link in front of a node removes exactly that node and keeps the order of the others |
| Servers.Server.ServeAll | src/sandbird/sandbird.c:902-940 | the pass over the list in place leaves the entries and events of the pass over values, an error stopping it where it stands |
| Servers.Server.Connected | src/sandbird/sandbird.c:958-972 | a new stream stands in front of the others, after its connect event and the handler's answer |
| Servers.Server.AcceptAll | src/sandbird/sandbird.c:942-974 | all waiting connections, up to a descriptor that is too large, missing memory or an error |
| Servers.Server.PollServer | src/sandbird/sandbird.c:867-977 | list, events, result and hang of a whole poll |
| Servers.Server.CloseServer | src/sandbird/sandbird.c:851-857 | the list is empty and each of its streams has had its close event, in list order |
| Lifecycle.LifeMeans | src/sandbird/sandbird.c:417-428 | what a connection's life says about its events: which there are, and in which order |
| Lifecycle.TurnInOrder | src/sandbird/sandbird.c:906-936 | a turn keeps its connection's events in order, never lowers its state, and leaves no closing stream in the list |
| Lifecycle.PassForOne | src/sandbird/sandbird.c:902-940 | what a pass does to one connection, whether or not it runs to the end |
| Lifecycle.PassKeepsOrder | src/sandbird/sandbird.c:902-940 | a pass that runs to the end leaves precisely the connections it did not close, in their old order |
| Lifecycle.PassWithinLimits | src/sandbird/sandbird.c:919-928 | after a pass that runs to the end every stream left is open, was active and created recently enough, and holds less than the largest request |
| Lifecycle.IdleTurn | src/sandbird/sandbird.c:906-939 | a stream that is not reported ready is destroyed iff it is closing or over a limit, and is otherwise unchanged |
| Lifecycle.ReadyTurn | src/sandbird/sandbird.c:906-939 | a stream that is reported ready is destroyed iff what its receive or send leaves is closing or over a limit; an error or a call that does not return leaves it in the list |
| Lifecycle.PassEndsWithCause | src/sandbird/sandbird.c:902-940 | a pass ends early only on a turn that fails or does not return, with that turn's code |
| Lifecycle.PollInOrder | src/sandbird/sandbird.c:867-977 | a poll that succeeds, fails or hangs keeps every connection's place, life and state order |
| Lifecycle.RunInOrder | src/sandbird/sandbird.c:867-977 | so does any sequence of polls and response calls; states never go back and a closed connection never returns |
| Lifecycle.EveryLife | src/sandbird/sandbird.c:851-977 | in any sequence of polls and calls ended by `sb_close_server`, every accepted connection has exactly one connect first, at most one request, exactly one close last, and no other has any event |
| ServerRuns.SilentTells | src/sandbird/sandbird.c:380-393 | a stream that has not sent its status line tells an empty response |
| ServerRuns.EveryResponse | src/sandbird/sandbird.c:380-977 | in any sequence of polls and calls, what every listed stream has sent and has waiting is, up to the part its state names, the response that calls of the program and pieces of a file make, each with what its result adds |
| ServerRuns.EveryResponseIsClean | src/sandbird/sandbird.c:380-977 | and if no text of the program's calls has a line end of its own, no text of the response has |
| ServerRuns.HangsIff | src/sandbird/sandbird.c:431-510 | a receiving call does not return only if the header it has and gets is endless, and always then while memory lasts |
| ServerRuns.PassHangsIff | src/sandbird/sandbird.c:902-940 | a poll does not return iff its pass comes to a ready stream whose header is endless, memory granted; without that grant, only if |
| ServerRuns.EveryLifeReturns | src/sandbird/sandbird.c:851-977 | a run in which no header is endless returns, and every connection has the life stated above |
| ServerDelivery.DisconnectCloses | src/sandbird/sandbird.c:437-444 | when the peer is gone a stream without a whole request closes, and otherwise waits; a whole request is handled all the same |
| ServerDelivery.PassGivesTurn | src/sandbird/sandbird.c:902-940 | a pass gives every listed connection its turn, unless it ends before on another one's error |
| ServerDelivery.AllAreAccepted | src/sandbird/sandbird.c:942-975 | all waiting connections are accepted if there is memory, no number is too large and the program agrees: fresh streams in front of the list, numbered in order |
| ServerDelivery.PollAccepts | src/sandbird/sandbird.c:867-977 | and a poll does so after a pass that gets through the list |
| ServerDelivery.ClosedWithCause | src/sandbird/sandbird.c:867-977 | in any run of polls, with anything going on at other connections, the connection of a client that sends a written request and of a program that answers it with calls that find memory is closed only over a limit or when the whole response is at the peer |
| ServerDelivery.WholeResponseArrives | src/sandbird/sandbird.c:867-977 | and with a client that sends or takes a byte a poll, it is closed with the whole response delivered, after at most as many polls as both have bytes and three |
| Records.WordRoundTrip | src/vendors/onedrive/onedrive.c:896 | the four bytes of a length give it back |
| Records.NetworkOrder | src/vendors/onedrive/onedrive.c:977 | on processors of either byte order, storing through `htonl` and loading through `ntohl` write and read the same bytes |
| Records.ReadHeader | src/vendors/onedrive/onedrive.c:977 | a header is read and rewritten where it stands, and no byte behind it changes |
| Records.Iterate | src/vendors/onedrive/onedrive.c:972-995 | the loop stays inside the block with a header and a byte in front of it, ends, and delivers what reading the original bytes delivers, although it rewrites the headers |
| Records.ScanEncoded | src/vendors/onedrive/onedrive.c:972-995 | a file of records of at most 32768 bytes with a non-empty last one is read: its values in order, up to the first after which the callback wants no more |
| Records.ScanMeans | src/vendors/onedrive/onedrive.c:972-995 | on arbitrary bytes the values delivered are the leading records, and what is left is nothing, or not wanted, or does not start with a sound record |
| Records.AcceptsExactlyEncodings | src/vendors/onedrive/onedrive.c:949-995 | bytes are accepted iff they encode values of at most 32768 bytes of which the last is not empty, and these are the values delivered |
| DriveUrls.UrlFitsIff | src/vendors/onedrive/onedrive.c:221-420 | for all keys: which lengths each request's URL has room for in its buffer |
| DriveUrls.UrlAsksFor | src/http/http_client.c:370-385 | a request asks for the path in front of the first question mark or hash, and loses the suffix that says what is done there if one is in the path |
| DriveUrls.ReachesIff | src/vendors/onedrive/onedrive.c:221-420 | a request of a key that fits asks for what was meant iff the key has neither character |
| DriveUrls.SamePathIff | src/vendors/onedrive/onedrive.c:862-873 | two keys that fit ask for the same path iff they agree in front of the cut |
| DriveUrls.FolderFitsFirst | src/vendors/onedrive/onedrive.c:172-188 | the URL of a large upload's folder fits wherever that of its session does |
| DriveUrls.FolderOfPlainKey | src/vendors/onedrive/onedrive.c:373-376 | the folder of a plain key's file is made in the application's folder itself |
| Drive.CopyChunks | src/vendors/onedrive/onedrive.c:521-531 | chunk after chunk the block is overrun iff the whole body is longer than it; otherwise the body is in it and nothing behind it changes |
| Drive.ReadFile | src/vendors/onedrive/onedrive.c:557-606 | what is returned and what the block holds, for every answer to the two requests; or the fault that ends it |
| KeyValues.KeyStore.WriteRecord | src/vendors/onedrive/onedrive.c:895-897 | the record stands at the end of the block and the bytes in front of it are unchanged |
| KeyValues.KeyStore.PutValue | src/vendors/onedrive/onedrive.c:862-907 | the files and the result after reading back and uploading, for every key and every answer, or the fault |
| KeyValues.KeyStore.SetValue | src/vendors/onedrive/onedrive.c:909-931 | the files and the result for every key and every answer, or the fault |
| KeyValues.KeyStore.GetValues | src/vendors/onedrive/onedrive.c:933-999 | the values delivered and the result for every key and every answer, or the fault |
| KeyValues.KeyStore.DeleteKey | src/vendors/onedrive/onedrive.c:1001-1014 | the files and the result for every key and every answer, or the fault; an absent file is no error |
| KeyValues.BreaksIff | src/vendors/onedrive/onedrive.c:221-1014 | for every operation and all answers: it runs off a buffer iff its key's length, the file's length and the answers say so: a URL too long, an empty body to any of the requests whose body is moved out, or a page longer than the block |
| KeyValues.UrlDecides | src/vendors/onedrive/onedrive.c:221-1014 | with everything answered, and for put_value on a file below 2^31 bytes, an operation runs off a buffer iff its key is longer than its URLs hold |
| KeyValues.PageDecides | src/vendors/onedrive/onedrive.c:521-606 | for a file of more than four and less than 2^31 bytes, a download that breaks off or brings an error page runs off the block iff its body is longer; otherwise its code is returned and nothing changes |
| KeyValues.SetStoresIff | src/vendors/onedrive/onedrive.c:909-931 | with everything answered a value is stored iff its key has no question mark and no hash and no other file is inside or around its place |
| KeyValues.DeleteReaches | src/vendors/onedrive/onedrive.c:1001-1014 | deleting a key removes the files at and inside its place and no others |
| KeyValues.DeletesAnother | src/vendors/onedrive/onedrive.c:1001-1014 | deleting the key `a#1` removes the file of the key `a` |
| KeyValues.ReadsAnother | src/vendors/onedrive/onedrive.c:933-999 | reading the key `a#1` delivers the values of the key `a`, whatever the answers |
| KeyValues.OverlongKey | src/vendors/onedrive/onedrive.c:224-228 | a key of 946 characters, whose upload runs off the URL |
| KeyValues.OverlongPage | src/vendors/onedrive/onedrive.c:521-531 | a file of five bytes and an error page of six |
| KeyValues.PutAppendsIff | src/vendors/onedrive/onedrive.c:875-893 | for keys that fit, put_value appends iff the file's length fits an int and the file can be stored; at one length modulo 2^32 it drops the file's records, at the others it fails and changes nothing |
| KeyValues.PutCreatesIff | src/vendors/onedrive/onedrive.c:875-906 | the first put of a key, with everything answered, makes its file with the one record iff a file can be stored there, and otherwise changes nothing |
| KeyValues.ZeroMeansDone | src/vendors/onedrive/onedrive.c:862-1014 | whatever is answered, a put, set or deletion that returns 0 has had no failed request and has done exactly its work, unless no file can be stored at its place |
| KeyHistories.OpAgrees | src/vendors/onedrive/onedrive.c:862-1014 | among keys whose paths name different places, none inside another, one operation, failed or not, keeps each key's file the encoding of that key's history |
| KeyHistories.OpKeepsSmall | src/vendors/onedrive/onedrive.c:862-907 | and keeps all files below the length that reads as "not found" |
| KeyHistories.GetDeliversHistory | src/vendors/onedrive/onedrive.c:933-999 | among such keys, what is delivered is the key's history since it was last set or deleted, cut after the first refusal, or nothing with an error code, never that if everything is answered |
| KeyHistories.GetDeliversIff | src/vendors/onedrive/onedrive.c:947-999 | at any file length, with everything answered, the key's values are delivered iff the length does not read as "not found"; at that length get_values succeeds with none |
| KeyHistories.RunsIff | src/vendors/onedrive/onedrive.c:862-1014 | a run is defined to its end iff none of its operations runs off a buffer |
| KeyHistories.RunRefinesHistory | src/vendors/onedrive/onedrive.c:862-1014 | after any operations that run off no buffer, on any keys whose paths name different places, none inside another, with any requests failing, reading a key delivers what its own history has left |
| KeyHistories.SuccessTook | src/vendors/onedrive/onedrive.c:862-1014 | in any run with any failures, each put or set that returned 0 for a key that can be stored, and each such deletion, is in the history as having taken place |
| KeyHistories.ServedRunDelivers | src/vendors/onedrive/onedrive.c:862-1014 | in a run in which everything is answered, keys can be stored and no put meets a file of 2^31 bytes, reading a key delivers the fold of the run's own puts, sets and deletions |
| KeyHistories.SharedPlace | src/vendors/onedrive/onedrive.c:862-1014 | of two keys whose paths name the same place one delivers what the other was set to, so the condition on the keys is needed |
| KeyHistories.PlainKeysAreToldApart | src/vendors/onedrive/onedrive.c:862-873 | with a service that takes paths letter by letter, keys with no slash, question mark or hash are all told apart |
| KeyHistories.DeleteForgets | src/vendors/onedrive/onedrive.c:1001-1014 | deleting a key that fits, present or not, succeeds and forgets its values and those of keys inside its place; a key whose place is neither inside nor around it keeps its own |
| KeyHistories.LostFile | src/vendors/onedrive/onedrive.c:875-880 | a file of 69112 values whose length reads as "not found": nothing is delivered of it, and put_value drops it |
| HttpBody.Search | src/http/http_client.c:648-654 | the wrapping doubling loop ends and finds the first doubling above the old capacity and the chunk together, or their sum exactly when that doubling overflows |
| HttpBody.AboveIsFirst | src/http/http_client.c:648-654 | the doubling it looks for is the first that is larger than the sum |
| HttpBody.Body.Write | src/http/http_client.c:632-669 | a chunk is refused iff it needs room and the capacity plus its length wraps or there is no memory; then no stored byte is touched and the length is zero; otherwise it stands behind the old bytes |
| HttpBody.Body.Replace | src/http/http_client.c:656-663 | the larger block holds the old bytes |
| HttpBody.Body.Reset | src/http/http_client.c:330 | the bytes are gone, the block stays |
| HttpBody.Body.Get | src/http/http_client.c:681-684 | the bytes, or none |
| HttpBody.Body.Move | src/http/http_client.c:686-704 | the bytes go to the caller, with the rest of the block behind them, and the body starts anew; an empty body without a place for the length is written through a null pointer |
| HttpBody.FillsBlockIff | src/http/http_client.c:638-666 | no byte is left behind the body iff a chunk takes just the room there is, or a full block cannot be doubled |
| HttpBody.FullBlock | src/http/http_client.c:638-666 | two chunks of 256 bytes that leave none |
| HttpBody.BodyIsCollected | src/http/http_client.c:632-704 | over any sequence of taken chunks, resets and moves the body is the chunks since the last reset or move, inside its capacity, and without an overflowed doubling all blocks given up are together no larger than the present one |
| HttpBody.GrantedIsCollected | src/http/http_client.c:632-704 | with memory granted and no capacity plus length that wraps, every chunk of a run is taken, and the body is the chunks since the last reset or move |
| OAuthToken.Token.constructor | src/oauth/oauth_token.c:130-263 | the three tokens are restored all or none, none of another client, and none without memory for them |
| OAuthToken.Token.WriteBack | src/oauth/oauth_token.c:91-119 | what the store holds afterwards, for a write that succeeds, fails or stops half way |
| OAuthToken.Token.Decode | src/oauth/oauth_token.c:476-593 | with checks and copies in turn: all tokens and the expiry change, or nothing does, the former iff the answer is usable |
| OAuthToken.Token.Request | src/oauth/oauth_token.c:695-726 | a token that is there is kept and asks nobody; otherwise a usable answer to a login is taken and written, and an empty one is a null write |
| OAuthToken.Token.Refresh | src/oauth/oauth_token.c:728-828 | a usable answer replaces the tokens and is written; any other changes nothing, and an empty one is a null write |
| OAuthToken.Token.Reset | src/oauth/oauth_token.c:272-284 | the tokens are gone from memory and from the written store |
| OAuthToken.Token.SetExpired | src/oauth/oauth_token.c:830-834 | only the expiry in memory changes |
| OAuthToken.Token.CheckExpire | src/oauth/oauth_token.c:836-858 | a refresh is asked for iff it is later than the expiry, and the check ends as that refresh does |
| JsonValues.ItemIsFirst | src/oauth/oauth_token.c:130-190 | a lookup finds the value of the first field of the name wherever it stands, and nothing iff there is none |
| OAuthToken.AnswerIsTaken | src/oauth/oauth_token.c:476-593 | an answer with the five items, in any order and among others, is used iff its texts are not empty, its lifetime is not negative and there is memory; then each item becomes the token of its name and the lifetime the expiry, and otherwise nothing changes |
| OAuthToken.ItemIsNeeded | src/oauth/oauth_token.c:476-593 | an answer without one of the items is refused and changes nothing |
| OAuthToken.RestoreTakes | src/oauth/oauth_token.c:130-190 | which stored items become which tokens and the expiry, for the client they were stored for only |
| OAuthToken.SnapshotRestores | src/oauth/oauth_token.c:91-190 | restoring what was written gives back the client's tokens and the expiry in whole seconds |
| OAuthToken.NewTokenAgrees | src/oauth/oauth_token.c:130-263 | a restored token agrees with any store, unless the store has tokens and there is no memory for them |
| OAuthToken.RunAgrees | src/oauth/oauth_token.c:91-284 | after any requests, checks, expirations and resets whose writebacks succeed, up to a null write, restoring the store gives the tokens in memory, with an expiry never later than the granted one |
| OAuthToken.RestartExpiredIff | src/vendors/onedrive/onedrive.c:67-103 | after a restart with a written store there is a connection iff the store's file is not empty and at most 4096 bytes, and then a rejected token counts as expired iff the second it was granted until is over |
| OneDrive.Connect.Operate | src/vendors/onedrive/onedrive.c:348-398 | an operation checks the expiry, then sends its requests up to the first that is not answered with success; a 401 expires the token, and an empty body where one is read is a null write |
| OneDrive.Connect.Send | src/vendors/onedrive/onedrive.c:210-251 | the requests of an operation in order, and what each answer does to the token |
| OneDrive.Connect.ExpireToken | src/vendors/onedrive/onedrive.c:143-149 | only the expiry changes |
| OneDrive.SafeMeansRefreshBetween | src/vendors/onedrive/onedrive.c:210-213 | in a safe trace there is a refresh between any rejected request and any later one with the token |
| OneDrive.OperationGuarded | src/vendors/onedrive/onedrive.c:348-398 | an operation that starts with an expired token refreshes before it sends anything, or sends nothing |
| OneDrive.RunIsSafe | src/vendors/onedrive/onedrive.c:143-855 | in any sequence of operations and forced expirations, whatever the answers, no request carries a rejected or replaced token (section 6 of RFC 6749) |
| OneDrive.RefreshedTokenIsSent | src/vendors/onedrive/onedrive.c:348-398 | after a refresh of an expired token the access token of the answer is what every request carries, over any run up to the next refresh |
| OneDrive.FirstBadAnswerDecides | src/vendors/onedrive/onedrive.c:210-251 | the requests are sent in turn up to the first bad answer, and that answer alone decides the result and whether the token expires |
| OneDrive.OperationSends | src/vendors/onedrive/onedrive.c:348-398 | an operation with a valid or refreshable token whose requests succeed sends all of them and is done; with a refused refresh it sends none |
| Paging.MergeArray | src/vendors/onedrive/onedrive.c:682-718 | detaching index 0 moves exactly the leading well-formed entries to the end of the other array, none lost, doubled or reordered |
| Paging.TakePage | src/vendors/onedrive/onedrive.c:807-846 | one page: its entries and its link, or a failure iff it is malformed |
| Paging.NotifyUser | src/vendors/onedrive/onedrive.c:720-737 | the user is shown the names of the entries as far as they are wanted |
| Paging.ListFiles | src/vendors/onedrive/onedrive.c:739-855 | the user is called only when all pages are there; the URLs asked for and the result, a null write included |
| Paging.ChainIsFetched | src/vendors/onedrive/onedrive.c:763-846 | a chain of pages of any length is fetched whole, in order, by following its links |
| Paging.FetchedIsChain | src/vendors/onedrive/onedrive.c:763-846 | whatever is fetched is a chain of well-formed pages, with all its entries |
| Paging.NullWriteIff | src/vendors/onedrive/onedrive.c:804-808 | a listing ends in a null write iff an empty body follows pages that all have links |
| Paging.ShowsNames | src/vendors/onedrive/onedrive.c:720-737 | the names shown are the entries' in order, all of them and then the closing NULL, or up to the first after which no more are wanted |
| Paging.PageIs | src/vendors/onedrive/onedrive.c:807-846 | which objects are pages: their array of entries and their link |
| Paging.NoArrayNoPage | src/vendors/onedrive/onedrive.c:807-846 | an object without that array is no page |
| Paging.EntryIff | src/vendors/onedrive/onedrive.c:682-737 | which objects are entries: a name that is not empty and one of a file and a folder object; the name shown is that one |
| Paging.NamelessIsNoEntry | src/vendors/onedrive/onedrive.c:682-711 | an object without a name is no entry |
| Ipfs.SelectBootstrap | src/vendors/ipfs/ipfs_rpc.c:99-136 | the scan from any start probes the configured addresses in cyclic order, IPv4 before IPv6, each at most once and none behind the first that answers, which it selects; it fails iff none does |
| Ipfs.ProbeNode | src/vendors/ipfs/ipfs_rpc.c:110-128 | which addresses of a node are probed, and the first that answers |
| Ipfs.Create | src/vendors/ipfs/ipfs_rpc.c:168-194 | there is a connection iff some configured address answers, with the first that does selected |
| Ipfs.NewIsGuarded | src/vendors/ipfs/ipfs_rpc.c:168-194 | a new connection has selected one configured node and probed it |
| Ipfs.Rpc.CheckReachable | src/vendors/ipfs/ipfs_rpc.c:138-151 | a selected node is kept without a probe; otherwise the scan's probes are made and one is selected or the check fails |
| Ipfs.Rpc.MarkUnreachable | src/vendors/ipfs/ipfs_rpc.c:153-156 | no node is selected any more |
| Ipfs.Rpc.Ask | src/vendors/ipfs/ipfs.c:71-112 | check, ask the selected node if there is a client for it, and forget the node when it cannot be reached; an empty body is a null write where it is moved out |
| Ipfs.CheckMeans | src/vendors/ipfs/ipfs_rpc.c:99-151 | a check succeeds iff a node is selected or some configured address answers, and selects the first that does |
| Ipfs.AskMeans | src/vendors/ipfs/ipfs.c:71-112 | how an operation ends by the reply, which request it sent, and that a node stays selected iff one was found and could be reached |
| Ipfs.CandidateIsConfigured | src/vendors/ipfs/ipfs_rpc.c:99-136 | what a scan may select is one configured node's address with that node's port |
| Ipfs.SafeMeansProbeBetween | src/vendors/ipfs/ipfs.c:151-176 | in a safe trace there is a successful probe between an unreachable answer and a later request to the same address |
| Ipfs.RunIsSafe | src/vendors/ipfs/ipfs.c:59-306 | in any sequence of operations no request goes to an address since its last unreachable failure without a new successful probe, and the selected node is a configured one or none |
| Ipfs.Sink | src/vendors/ipfs/ipfs.c:228-242 | a chunk is appended whole or refused whole, and no other byte of the buffer changes |
| Ipfs.Download | src/vendors/ipfs/ipfs.c:262-306 | success iff the transfer ends with status 200 and all chunks fit and make up the announced length; then they are in the buffer in order, and nothing behind it is ever touched |
| Mkdirs.FileSystem.MkdirInternal | src/mkdirs.c:33-48 | tree and result for every state of the path and every race |
| Mkdirs.FileSystem.MakePrefix | src/mkdirs.c:62-66 | one prefix is made and the buffer is as it was |
| Mkdirs.FileSystem.Mkdirs | src/mkdirs.c:50-75 | patching and restoring the separators of the copy walks the prefixes of the path, with the buffer as it was after every step |
| Mkdirs.NamesConcat | src/mkdirs.c:60-69 | the names of a path are those in front of any separator and those behind it, empty ones not counted |
| Mkdirs.InternalMeans | src/mkdirs.c:33-48 | one step changes at most its own prefix, never an existing entry, and nothing when it fails |
| Mkdirs.MkdirsMeans | src/mkdirs.c:50-75 | for every path below PATH_MAX, the empty one included, which fails: existing entries stay, only prefixes are created, success leaves every prefix a directory, and failure stops at the first prefix that is none with only shorter ones created |
| Mkdirs.MkdirsSucceedsIff | src/mkdirs.c:50-75 | without races and refusals `mkdirs` succeeds iff the path is not empty and no prefix of it is something else than a directory beforehand |
| Mkdirs.RacedFile | src/mkdirs.c:38-41 | the race that makes `mkdirs` succeed on a file |

## Left out

- Servers.Server: a list node carries its stream's value, so that a turn replaces the value; that `Streams.Stream` does the same in place is proved there, and the two are not composed in one heap.
- Streams.Stream.GetHeader: a lookup between polls, into a text that is not terminated yet, has no defined result; what it reads behind the text is not modelled.
- StreamModel.Handler: a handler makes calls on the stream of its own event only; calls on other streams are steps between polls. Calls a close handler makes on its dying stream have no effect and are not modelled.
- StreamModel.ParseRequest: `sscanf` is modelled for this one format, with the white space of the C locale.
- StreamModel.Call: `sb_buffer_vwritef` appends the formatted text whole or not at all; how a format is expanded is not modelled, except for the status line and header lines.
- Numbers.StrToUint: reads "%u" as glibc does for out-of-range and negative numbers, which the C standard leaves open.
- Buffers.Buf: the capacity is unbounded, so `cap << 1` does not wrap; a block of half the address space is refused by every allocator.
- QueryVars.HexToInt: a character behind a percent sign that is no hexadecimal digit is mapped as the code maps it; a negative `char` passed to `isdigit` is undefined there and is not modelled.
- Responses.SendConserves: a file that changes while it is sent is not modelled; an early end of `fread` is, and only then is a rest lost.
- ServerDelivery.ClosedWithCause: the program answers the followed request with the same reply whatever happened before, and makes no further calls on that connection; Delivery.RunTold and ServerRuns.EveryResponse cover other programs.
- Drive.Files: which places curl and the service take paths for is an input that does not change; that curl refuses some characters in a URL appears as a failing request.
- KeyHistories.RunRefinesHistory: a run is followed up to the first operation that runs off a buffer, behind which nothing is defined. The service answers "not found" for absent files only, its answers about a file's length are true, and a file does not change between the requests of one operation.
- OAuthToken.Restarted: the size of the store's file is an input, for the text that cJSON prints is not modelled.
- OAuthToken.RunAgrees: writebacks succeed; Token.WriteBack states what happens to the store when they do not.
- OneDrive.Plan: which requests an operation makes is reduced to which of them carry the token; the bodies of upload sessions and folder requests are not modelled. File names are taken to fit the URL, and downloads their buffer; for the key/value files DriveUrls.UrlFitsIff and Drive.CopyChunks say when they do.
- Ipfs.Download: the length request and the selection in front of it are those of Ipfs.Rpc.Ask.
- Mkdirs.PlaceOf: paths are sequences of names; ".", "..", symbolic links and file modes are not modelled, and all failures of `stat` count as a missing entry.
- Sockets, `select`, curl, `FILE` internals, clocks and random numbers: their results are inputs.
- The text form of JSON, which cJSON reads and prints.
- `sb_get_cookie` and `sb_get_multipart`, which match loosely and have no clean specification.
- The browser thread of `get_authorize_code`, Windows branches, reference counts and leaks.
- `src/hive_error.c`, `src/http_status.c`: tables that would only add easy members.
- `src/hive_client.c`, `src/hive_file.c`, `src/hive_key.c`: dispatch; the bounds `src/hive_key.c` checks are preconditions here.
- `apps/`, `tests/`, `docs/`, `deps/`, `cmake/`.
