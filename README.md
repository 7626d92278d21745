# pillow core in Dafny

This project models the core of pillow, a small HTTP/1.x library written in
C++ on Qt. It covers:

- the server side: the connection state machine, in its current
  `HttpConnection` form and in its older `HttpRequest` form;
- the client side: the request writer, the response parser wrapper and the
  client state machine;
- the handler chain and the file handler;
- the server's pool of request objects;
- the three path-template routers: the JavaScript Sinatra router, the C++
  `HttpHandlerSimpleRouter` and the declarative `RouteMatcher`.

Each module follows one source file:

| module | file | models |
|---|---|---|
| `Bytes` | `bytes.dfy` | The byte helpers the connections use: case-insensitive comparison, `unhex`, percent decoding, `appendNumber`'s digit text, `toInt` / `toLongLong`. Their header is not part of this model, so they are defined from `tests/ByteArrayHelpersTest.cpp`. |
| `Http` | `http.dfy` | What both server connections share: states, limits, the parser oracle, header lookup, status text, error response, chunk framing, parameter lookup and update. |
| `Connection` | `connection.dfy` | `HttpConnection`: class `HttpConnection` whose private part is the field `d`. Every transition is a method proved equal to a function of the old state. |
| `Request` | `request.dfy` | `HttpRequest`, the older connection: the same shape, plus `appendNumber` and `setFromRawDataAndNullterm` on arrays. |
| `Query` | `query.dfy` | `HttpRequest::requestParams`, whose search loop differs from the newer one. |
| `Client` | `client.dfy` | `HttpRequestWriter`, `HttpResponseParser` (the foreign parser is an oracle producing callbacks) and `HttpClient`. |
| `Handler` | `handler.dfy` | `HttpHandlerStack`, the fixed, 404 and log handlers, `HttpHandlerFile` and `HttpHandlerFileTransfer`. |
| `Server` | `server.dfy` | The reserve of request objects in `HttpServerPrivate`. |
| `PathTemplate` | `template.dfy` | The template language the three routers compile (`:name` and `*name` markers), the name-collecting loops, the replacement passes and a backtracking matcher. The matcher is proved sound and complete against a declarative meaning. |
| `Sinatra` | `sinatra.dfy` | `examples/qtscript/test.js`: `Sinatra.App`, `addRoute` and its wrappers, and `handleRequest`. |
| `SimpleRouter` | `simple_router.dfy` | `HttpHandlerSimpleRouter`: routes, `pathToRegExp`, `handleRequest`. |
| `Declarative` | `declarative.dfy` | `examples/declarative/declarative.cpp`: `BaseObject`'s list accessors, `DeclarativeHttpServer` and `RouteMatcher`. |

Devices are byte strings: `input` is what arrived and was not yet read,
`output` is everything written. Signals are event logs. Both server
connections consult an `Env` that holds two things. One is the request
parser, a function from the buffer and the offset its previous run stopped
at (its `nread`) to the offsets it reports. The other is the status table.

Where the code and its documentation differ, the model follows the code,
with one exception: `HttpConnection::writeHeaders` narrows the 64-bit
response length to 32 bits, and the connection model writes the full length
instead (see "## Findings"; the line as written is
`Http.ContentLengthLineAsWritten`). Otherwise:

- The JavaScript router compiles the method as `new RegExp(method, 'i')`,
  so a route matches any request method that merely contains the
  registered text, ignoring case (`Sinatra.ContainsCI`). It does not
  compare the method for equality.
- `HttpRequest::requestParams` searches for `=` starting one byte after the
  start of a name. As a result a parameter with an empty name is lost
  (`Query.EmptyNameLost`), and a key without `=` is absorbed into the next
  name (`Query.AbsorbedKey`).
- `HttpRequest::writeHeaders` called directly, before any length is known,
  announces `Content-Length: -1` (`Request.UnknownLengthAnnounced`).

## Model

| member | source | states |
|---|---|---|
| Bytes.Lower | tests/ByteArrayHelpersTest.cpp:129-147 | Lower-casing keeps the length and maps each character through the ASCII lower-case table. |
| Bytes.AsciiEqualsCI | tests/ByteArrayHelpersTest.cpp:129-147 | Equal exactly when the lengths agree and every position agrees up to ASCII case. |
| Bytes.AsciiEqualsCIIsLowerEquality | tests/ByteArrayHelpersTest.cpp:129-147 | Case-insensitive equality is equality of the lower-cased texts. |
| Bytes.AsciiEqualsCIEquivalence | tests/ByteArrayHelpersTest.cpp:129-147 | Case-insensitive equality is reflexive, symmetric and transitive. |
| Bytes.Unhex | tests/ByteArrayHelpersTest.cpp:149-160 | `0`-`9` give 0-9, `a`-`f` and `A`-`F` give 10-15, and any other character gives 0. |
| Bytes.UnhexDigit | tests/ByteArrayHelpersTest.cpp:149-160 | Every value below 16 has a digit character that `unhex` reads back. |
| Bytes.PercentDecode | tests/ByteArrayHelpersTest.cpp:162-172 | Decoding never lengthens the text. |
| Bytes.PercentEncode | tests/ByteArrayHelpersTest.cpp:162-172 | Encoding never shortens the text. |
| Bytes.PercentDecodeEncode | tests/ByteArrayHelpersTest.cpp:162-172 | Decoding undoes encoding for every text. |
| Bytes.PercentEncodeEscapes | pillowcore/HttpConnection.cpp:693-719 | The encoded text holds no `&`, `=`, `#` or space, so it is safe inside a query. |
| Bytes.PercentDecodeIdentity | tests/ByteArrayHelpersTest.cpp:162-172 | Text without `%` decodes to itself. |
| Bytes.Quot | pillowcore/HttpRequest.cpp:34 | Division by the base, with `n == q * base + r`; it shrinks a number of at least the base. |
| Bytes.Rem | pillowcore/HttpRequest.cpp:34 | The last digit lies below the base. |
| Bytes.NatText | tests/ByteArrayHelpersTest.cpp:90-127 | The digit text of a number has at least one digit and no leading zero. |
| Bytes.NatTextValue | tests/ByteArrayHelpersTest.cpp:90-127 | Reading the digits back gives the number, and every character is a digit of the base. |
| Bytes.ParseDecimal | pillowcore/HttpConnection.cpp:217 | A parsed number comes from a non-empty text. |
| Bytes.ParseDecimalText | pillowcore/HttpConnection.cpp:533 | Parsing the decimal text of any integer gives that integer back. |
| Bytes.ParseDecimalRejectsNonDigits | pillowcore/HttpConnection.cpp:217 | A text with a non-digit after the sign position does not parse. |
| Bytes.ToInt | pillowcore/HttpConnection.cpp:217 | `toInt(&ok)` succeeds exactly when, after the leading whitespace, the text is a decimal number inside the 32-bit range, and then yields it. |
| Bytes.ToLongLong | pillowcore/HttpConnection.cpp:533 | `toLongLong(&ok)` succeeds exactly when, after the leading whitespace, the text is a decimal number inside the 64-bit range, and then yields it. |
| Bytes.SkipSpace | pillowcore/HttpConnection.cpp:533 | Drops exactly the leading run of C whitespace: what it keeps is a suffix that does not start with whitespace. |
| Bytes.DecimalTextStart | pillowcore/HttpConnection.cpp:533 | The decimal text of a number starts with a sign or a digit, never with whitespace. |
| Bytes.SkipSpaceDecimal | pillowcore/HttpRequest.cpp:378 | Whitespace in front of a decimal text is skipped down to the text itself. |
| Bytes.ToIntSkipsSpace | pillowcore/HttpConnection.cpp:217 | A 32-bit number with whitespace in front of it reads back as that number. |
| Bytes.ToLongLongSkipsSpace | pillowcore/HttpRequest.cpp:378 | A 64-bit number with whitespace in front of it reads back, as `" 5"` gives 5 for a response Content-Length. |
| Bytes.ParseHex | pillowcore/HttpConnection.cpp:633 | A parsed chunk size comes from a non-empty text. |
| Bytes.ParseHexText | pillowcore/HttpConnection.cpp:633 | The hex text of a chunk size reads back as that size. |
| Bytes.TruncateToInt32 | pillowcore/HttpConnection.cpp:601 | Narrowing to `int` yields a 32-bit value congruent to the input modulo 2^32. |
| Bytes.TruncateToInt32Identity | pillowcore/HttpConnection.cpp:601 | Narrowing changes nothing inside the 32-bit range. |
| Http.Slice | pillowcore/HttpConnection.cpp:203-204 | A header reference reads exactly its bytes when it lies inside the buffer, and never more than its length. |
| Http.HeadersOf | pillowcore/HttpConnection.cpp:192-206 | `setupRequestHeaders` yields one header per reference, each read from the buffer at its offsets. |
| Http.FindHeader | pillowcore/HttpConnection.cpp:684-692 | The first header from `lo` whose name matches ignoring case; none before it matches, and None means none matches at all. |
| Http.FindLastHeader | pillowcore/HttpConnection.cpp:172-179 | The last header before `hi` with that name; none after it matches, and None means none matches at all. |
| Http.HeaderValueFirst | pillowcore/HttpConnection.cpp:684-692 | `requestHeaderValue` gives the value of the first header with that name, or empty when none has it. |
| Http.HeaderLine | pillowcore/HttpConnection.cpp:421-424 | `appendHeader` writes the name, then `: `, the value and CRLF, in exactly `|name| + |value| + 4` bytes. |
| Http.StatusText | pillowcore/HttpConnection.cpp:509-515 | A known code gives its table text; an unknown code falls back to the text of 500. |
| Http.Right | pillowcore/HttpConnection.cpp:325-326 | `QByteArray::right(n)` keeps the last `n` bytes. |
| Http.ContentLengthLineRoundTrip | pillowcore/HttpConnection.cpp:601 | The corrected Content-Length line always reads back as the length it was given. |
| Http.ContentLengthLineAsWrittenWraps | pillowcore/HttpConnection.cpp:601 | As written, a 4 GiB response is announced as `Content-Length: 0`; the corrected line states 4294967296. |
| Http.ContentLengthLinesAgree | pillowcore/HttpConnection.cpp:601 | Inside the 32-bit range the line as written and the corrected line are identical. |
| Connection.LengthLineAsWritten | pillowcore/HttpConnection.cpp:601 | Whenever the length fits in 32 bits, the length line the connection writes is the line `writeHeaders` builds with `appendNumber<int, 10>`. |
| Http.SplitAtLineBreak | pillowcore/HttpConnection.cpp:633-639 | A split at a line break rebuilds the text, and its first part contains no CR. |
| Http.SplitAtFirstBreak | pillowcore/HttpConnection.cpp:633-639 | A text with no CR, then CRLF and a rest, splits at that first break. |
| Http.HexTextHasNoBreak | pillowcore/HttpConnection.cpp:633 | A chunk-size field never holds a CR. |
| Http.DecodeChunkFrame | pillowcore/HttpConnection.cpp:631-639 | Every chunk `writeContent` frames decodes back to its data, with the bytes after it untouched (section 4.1 of RFC 7230). |
| Http.DecodeLastChunk | pillowcore/HttpConnection.cpp:646-666 | The `0\r\n\r\n` written by `endContent` decodes as the terminating chunk, with no data. |
| Http.FindParam | pillowcore/HttpConnection.cpp:721-731 | The first parameter from `lo` whose name matches ignoring case; none before it matches, and None means none matches at all. |
| Http.SetParamThenRead | pillowcore/HttpConnection.cpp:733-746 | `setRequestParam` replaces a present name in place, keeping the length, and appends a missing one. Afterwards the name reads back the new value and every other position is untouched. |
| Http.ParamValueIgnoresCase | pillowcore/HttpConnection.cpp:721-731 | A lookup finds the same value whichever case the name is asked in. |
| Http.FindParamCase | pillowcore/HttpConnection.cpp:721-731 | Searching under two case variants of a name finds the same index. |
| Connection.NextIndex | pillowcore/HttpConnection.cpp:702-703 | The first `&` or `=` at or after `lo`, or the end of the query. |
| Connection.HttpConnection.constructor | pillowcore/HttpConnection.cpp:118-121 | A new connection is Uninitialized, with empty devices, no events and an empty buffer. |
| Connection.HttpConnection.Write | pillowcore/HttpConnection.cpp:636 | A write appends its bytes to the output device. |
| Connection.HttpConnection.TransitionToClosed | pillowcore/HttpConnection.cpp:379-392 | The new state is the closing transition of the old one. |
| Connection.HttpConnection.Drain | pillowcore/HttpConnection.cpp:360-365 | In Flushing, the connection closes once the output device holds no more bytes. |
| Connection.HttpConnection.TransitionToFlushing | pillowcore/HttpConnection.cpp:367-377 | The new state is the flushing transition of the old one. |
| Connection.HttpConnection.WriteRequestErrorResponse | pillowcore/HttpConnection.cpp:394-410 | Writes the `HTTP/1.0` error head with `Connection: close`, then flushes; nothing happens once Closed. |
| Connection.HttpConnection.TransitionToReceivingHeaders | pillowcore/HttpConnection.cpp:181-190 | The new state is the receiving-headers transition of the old one. |
| Connection.HttpConnection.ParserHttpField | pillowcore/HttpConnection.cpp:172-179 | Records the header's offsets, and its index when the name is Content-Length. |
| Connection.HttpConnection.Execute | pillowcore/HttpConnection.cpp:155-158 | Applies one parser run: its field callbacks in order, then its new state. |
| Connection.HttpConnection.SetupRequestHeaders | pillowcore/HttpConnection.cpp:192-206 | Reads the headers at the recorded offsets and drops any header left over from a previous request. |
| Connection.HttpConnection.ProcessInput | pillowcore/HttpConnection.cpp:141-170 | The new state is `Pump` of the old one; see the Pump lemmas below. |
| Connection.HttpConnection.TransitionToReceivingContent | pillowcore/HttpConnection.cpp:208-245 | The new state is `EnterReceivingContent` of the old one; see LengthRejected, EmptyBodyReady and BodyAwaited. |
| Connection.HttpConnection.ReadContentLength | pillowcore/HttpConnection.cpp:215-217 | Reads the flagged Content-Length as a 32-bit int, returning whether it parsed. |
| Connection.HttpConnection.AwaitContent | pillowcore/HttpConnection.cpp:225-240 | Answers `Expect: 100-continue`, drops the last header reference and pumps. |
| Connection.HttpConnection.TransitionToSendingHeaders | pillowcore/HttpConnection.cpp:247-291 | Sets the request fields and a fresh response, then emits requestReady. |
| Connection.HttpConnection.TransitionToSendingContent | pillowcore/HttpConnection.cpp:293-311 | Goes to SendingContent and completes at once when there is no body to send (length 0 or HEAD). Keep-alive is then turned off when the length is unknown and the response is not chunked. |
| Connection.HttpConnection.TransitionToCompleted | pillowcore/HttpConnection.cpp:313-347 | The new state is `EnterCompleted` of the old one; see EnterCompletedSettles and CompletedKeepsPipelined. |
| Connection.HttpConnection.Initialize | pillowcore/HttpConnection.cpp:123-139 | Forgets the previous request and waits for a head. |
| Connection.HttpConnection.Receive | pillowcore/HttpConnection.cpp:467-470 | Appends the arriving bytes to the input (readyRead), then processes it. |
| Connection.HttpConnection.BytesWritten | pillowcore/HttpConnection.cpp:477-480 | The output backlog shrinks by the bytes handed on (bytesWritten), then drains. |
| Connection.HttpConnection.WriteHeaders | pillowcore/HttpConnection.cpp:501-608 | Writes `ResponseHead` as a value and settles the length, keep-alive and coding it reports; see ResponseHeadSettles. |
| Connection.HttpConnection.WriteContent | pillowcore/HttpConnection.cpp:610-644 | The new state is `ContentWritten` of the old one; see ContentAccounting. |
| Connection.HttpConnection.WriteFrame | pillowcore/HttpConnection.cpp:631-639 | Writes the data, framed as a chunk when the response is chunked. |
| Connection.HttpConnection.EndContent | pillowcore/HttpConnection.cpp:646-666 | Only in SendingContent with an unknown length: writes the last chunk on a chunked response, otherwise turns keep-alive off, then completes. |
| Connection.HttpConnection.WriteResponse | pillowcore/HttpConnection.cpp:482-494 | Writes the headers, then the content, in SendingHeaders only. |
| Connection.HttpConnection.Close | pillowcore/HttpConnection.cpp:668-672 | Closes the connection. |
| Connection.HttpConnection.RequestHeaderValue | pillowcore/HttpConnection.cpp:684-692 | Returns the value of the first request header with that name, ignoring case. |
| Connection.HttpConnection.RequestParams | pillowcore/HttpConnection.cpp:693-719 | Parses the query once and caches it; the result is the cached list. |
| Connection.HttpConnection.RequestParamValue | pillowcore/HttpConnection.cpp:721-731 | Returns the value of the first parameter with that name, ignoring case, after caching. |
| Connection.HttpConnection.SetRequestParam | pillowcore/HttpConnection.cpp:733-746 | Replaces the first parameter with that name, or appends one; see SetParamThenRead. |
| Connection.ScanHeaders | pillowcore/HttpConnection.cpp:528-549 | The header loop's result equals `Scan`; see the Scan lemmas. |
| Connection.SettleCoding | pillowcore/HttpConnection.cpp:551-568 | The coding decision equals `Coding`: chunked only for HTTP/1.1 with an unknown length. |
| Connection.NegotiateKeepAlive | pillowcore/HttpConnection.cpp:570-598 | The keep-alive decision equals `KeepAlive`, as characterised in ResponseHeadSettles. |
| Connection.HeadLines | pillowcore/HttpConnection.cpp:600-605 | The appended lines equal `HeadText`: length, type, connection, coding, blank line. |
| Connection.ParseParams | pillowcore/HttpConnection.cpp:693-719 | The parameter loop returns exactly `ParseQuery` of the query. |
| Connection.NoParamsAfterEnd | pillowcore/HttpConnection.cpp:699 | Past the end of the query there are no more parameters. |
| Connection.ParseParam | pillowcore/HttpConnection.cpp:701-715 | One round reads the segment up to the next `&` as one parameter, and the rest of the query follows it. |
| Connection.SegmentSplit | pillowcore/HttpConnection.cpp:705-714 | A segment with an `=` splits at its first `=` into a decoded key and value. |
| Connection.ParamsFromStep | pillowcore/HttpConnection.cpp:699-716 | The parameters from a position are that segment's parameter, then those after its `&`. |
| Connection.NextIndexIsFirst | pillowcore/HttpConnection.cpp:702-703 | An index with no earlier occurrence since `lo`, holding the character or at the end, is the one the search stops at. |
| Connection.FieldsSeenFrame | pillowcore/HttpConnection.cpp:172-179 | The field callbacks append their references and touch nothing but the references and the Content-Length index. |
| Connection.LastContentLengthFlagged | pillowcore/HttpConnection.cpp:172-179 | After the callbacks, the flagged index is the last Content-Length header, or -1 when there is none. |
| Connection.ErrorReplyEffect | pillowcore/HttpConnection.cpp:394-410 | An error reply appends exactly the error head and leaves the connection Flushing, with the received bytes and events unchanged. |
| Connection.ErrorReplyFrame | pillowcore/HttpConnection.cpp:394-410 | An error reply takes nothing back and ends in Flushing or Closed. |
| Connection.EnterSendingHeadersFrame | pillowcore/HttpConnection.cpp:247-291 | Handing the request out writes nothing, only adds events and keeps the received bytes. |
| Connection.PumpConserves | pillowcore/HttpConnection.cpp:141-170 | `processInput` takes nothing back and keeps every received byte, in order. In a receiving state it reads all input and stops before the response. |
| Connection.EnterReceivingContentConserves | pillowcore/HttpConnection.cpp:208-245 | The same conservation for `transitionToReceivingContent`. |
| Connection.ContentAwaitedConserves | pillowcore/HttpConnection.cpp:225-243 | The same conservation for the 100-continue branch. |
| Connection.LengthRejected | pillowcore/HttpConnection.cpp:215-223 | A negative Content-Length is answered 400. One above 128 MiB, or not a number, is answered 413. Either way the connection flushes with no event. |
| Connection.EmptyBodyReady | pillowcore/HttpConnection.cpp:241-244 | A length of 0 hands the request out at once, with empty content and nothing written. |
| Connection.ContentArrives | pillowcore/HttpConnection.cpp:165-168 | In ReceivingContent all input is read. The request is handed out exactly when Content-Length body bytes have arrived, and its content is exactly those bytes. |
| Connection.BodyAwaited | pillowcore/HttpConnection.cpp:225-238 | A positive length writes `HTTP/1.1 100 Continue` exactly when the client sent `Expect: 100-continue`, then waits for the body (section 5.1.1 of RFC 7231). |
| Connection.ContentAwaitedEntered | pillowcore/HttpConnection.cpp:213-238 | A positive length takes `transitionToReceivingContent` to the 100-continue branch, with the headers and length set. |
| Connection.ContentAwaitedUnfolds | pillowcore/HttpConnection.cpp:225-239 | The 100-continue branch writes the interim response when expected, drops the last header and pumps. |
| Connection.BadHeadRejected | pillowcore/HttpConnection.cpp:155-161 | An over-long or malformed head is answered 400 and the connection flushes. |
| Connection.EnterCompletedSettles | pillowcore/HttpConnection.cpp:313-347 | `transitionToCompleted` emits requestCompleted first and takes nothing back. It leaves the connection before the next response, or flushing. |
| Connection.CompletedKeepsPipelined | pillowcore/HttpConnection.cpp:323-346 | The bytes after this body are kept. With keep-alive they start the next request, followed by the waiting input; otherwise the connection flushes. |
| Connection.ContentAccounting | pillowcore/HttpConnection.cpp:610-644 | `writeContent` writes nothing for an empty call, for HEAD, for a declared length of 0, or when the length would be exceeded. Otherwise it writes the (chunk-framed) data and counts it. Reaching the length exactly completes, and `bytesSent` never passes the length. |
| Connection.LastNamed | pillowcore/HttpConnection.cpp:528-549 | The last header with that name, ignoring case; None means no header has it. |
| Connection.OrdinaryLinesAppend | pillowcore/HttpConnection.cpp:544-548 | One more header adds its line exactly when it is not one of the four special headers. |
| Connection.ScanCopiesOrdinary | pillowcore/HttpConnection.cpp:544-548 | Every header that is not special is written, in order. |
| Connection.ScanLength | pillowcore/HttpConnection.cpp:530-540 | Only the last Content-Length counts; one that is not a 64-bit number makes the length unknown (-1). |
| Connection.ScanKeepsLastType | pillowcore/HttpConnection.cpp:541 | Of several Content-Type headers only the last counts. |
| Connection.ScanKeepsLastConnection | pillowcore/HttpConnection.cpp:542 | Of several Connection headers only the last counts. |
| Connection.ScanKeepsLastCoding | pillowcore/HttpConnection.cpp:543 | Of several Transfer-Encoding headers only the last counts. |
| Connection.ResponseHeadSettles | pillowcore/HttpConnection.cpp:528-598 | The settled length is the last Content-Length. Chunked coding holds iff the response was already chunked, or it asks for chunked on HTTP/1.1 with an unknown length. Keep-alive holds iff the client wants it, the length is known or chunked, and the response does not say close (section 6.3 of RFC 7230). |
| Connection.SegmentParses | pillowcore/HttpConnection.cpp:700-715 | An encoded parameter is one segment and parses back to that parameter. |
| Connection.ParseQueryCons | pillowcore/HttpConnection.cpp:693-719 | A query that starts with an encoded parameter parses to that parameter, then the rest. |
| Connection.ParseQueryEncode | pillowcore/HttpConnection.cpp:693-719 | `requestParams` recovers every parameter of an encoded query, names and values, in order. |
| Request.AppendNumber | pillowcore/HttpRequest.cpp:29-47 | `appendNumber` appends exactly the decimal text of the number, with `-` for negatives, and leaves the prefix unchanged. |
| Request.ReverseTail | pillowcore/HttpRequest.cpp:40-46 | Reversing the appended range leaves the prefix and reverses the tail. |
| Request.DigitsLeastFirst | pillowcore/HttpRequest.cpp:33-35 | The do-while loop emits the digits least significant first: reversed, they are the decimal text. |
| Request.ReversedSnoc | pillowcore/HttpRequest.cpp:34-35 | Reversing a sequence with one more element puts that element first. |
| Request.Reversed | pillowcore/HttpRequest.cpp:40-46 | The reverse has the same length and holds element `|s|-1-i` at `i`. |
| Request.ReverseRange | pillowcore/HttpRequest.cpp:40-46 | The in-place swap loop reverses `data[lo..hi]` and leaves both sides of it unchanged. |
| Request.Swapped | pillowcore/HttpRequest.cpp:40-46 | After k swaps the outer k pairs are exchanged and everything else is as before. |
| Request.SwappedIsReversed | pillowcore/HttpRequest.cpp:40-46 | Once the swaps meet in the middle, the range is reversed. |
| Request.SetFromRawDataAndNullterm | pillowcore/HttpRequest.cpp:12-27 | For a non-empty range the target is the original bytes, and a NUL is written at `data[start+length]`. An empty range leaves the buffer untouched. |
| Request.ContentExpected | pillowcore/HttpRequest.cpp:192-201 | Ends in ReceivingContent or SendingHeaders. |
| Request.Mid | pillowcore/HttpRequest.cpp:465 | `QByteArray::mid` gives `n` bytes from `pos`, cut at the end, or the whole rest for a negative `n`. |
| Request.HttpRequest.constructor | pillowcore/HttpRequest.cpp:62-65 | A new request object is Uninitialized, with empty devices, no events and an empty buffer. |
| Request.HttpRequest.Write | pillowcore/HttpRequest.cpp:436 | A write appends its bytes to the output device. |
| Request.HttpRequest.TransitionToClosed | pillowcore/HttpRequest.cpp:281-293 | The new state is the closing transition of the old one. |
| Request.HttpRequest.Drain | pillowcore/HttpRequest.cpp:304-309 | In Flushing, the request closes once the output device holds no more bytes. |
| Request.HttpRequest.TransitionToFlushing | pillowcore/HttpRequest.cpp:269-279 | The new state is the flushing transition of the old one. |
| Request.HttpRequest.WriteRequestErrorResponse | pillowcore/HttpRequest.cpp:311-327 | Writes the `HTTP/1.0` error head with `Connection: close`, then flushes. |
| Request.HttpRequest.TransitionToReceivingHeaders | pillowcore/HttpRequest.cpp:144-151 | The new state is the receiving-headers transition of the old one. |
| Request.HttpRequest.ParserHttpField | pillowcore/HttpRequest.cpp:525-530 | Appends the header's offsets. |
| Request.HttpRequest.Execute | pillowcore/HttpRequest.cpp:124-130 | Applies one parser run: its field callbacks, then its new state. |
| Request.HttpRequest.ProcessInput | pillowcore/HttpRequest.cpp:108-142 | The new state is `Pump` of the old one; see the Pump lemmas below. |
| Request.HttpRequest.TransitionToReceivingContent | pillowcore/HttpRequest.cpp:153-202 | The new state is `EnterReceivingContent` of the old one. |
| Request.HttpRequest.SetupFields | pillowcore/HttpRequest.cpp:158-187 | Reads the request-line parts and headers at the parser's offsets, dropping leftovers. |
| Request.HttpRequest.ReadContentLength | pillowcore/HttpRequest.cpp:189-190 | Reads the first Content-Length as a 32-bit int; none, or an empty one, means 0. |
| Request.HttpRequest.TransitionToSendingHeaders | pillowcore/HttpRequest.cpp:204-214 | Sets a fresh response and emits requestReady. |
| Request.HttpRequest.TransitionToSendingContent | pillowcore/HttpRequest.cpp:216-234 | Goes to SendingContent and completes at once when there is no body to send. Keep-alive is then turned off when the length is unknown. |
| Request.HttpRequest.TransitionToCompleted | pillowcore/HttpRequest.cpp:236-267 | The new state is `EnterCompleted` of the old one. |
| Request.HttpRequest.Initialize | pillowcore/HttpRequest.cpp:82-106 | A fresh parser, then wait for a head. |
| Request.HttpRequest.Receive | pillowcore/HttpRequest.cpp:108-142 | Appends the arriving bytes to the input, then processes it. |
| Request.HttpRequest.BytesWritten | pillowcore/HttpRequest.cpp:304-309 | The output backlog shrinks by the bytes handed on, then drains. |
| Request.HttpRequest.WriteHeaders | pillowcore/HttpRequest.cpp:348-413 | Writes `ResponseHead` as a value and settles the length and keep-alive it reports; see ResponseHeadSettles. |
| Request.HttpRequest.WriteContent | pillowcore/HttpRequest.cpp:415-441 | The new state is `ContentWritten` of the old one; see ContentAccounting. |
| Request.HttpRequest.WriteResponse | pillowcore/HttpRequest.cpp:329-341 | Writes the headers, then the content, in SendingHeaders only. |
| Request.HttpRequest.Close | pillowcore/HttpRequest.cpp:443-447 | Closes the request. |
| Request.HttpRequest.GetRequestHeaderValue | pillowcore/HttpRequest.cpp:449-458 | Returns the value of the first request header with that name, ignoring case. |
| Request.HttpRequest.RequestParams | pillowcore/HttpRequest.cpp:470-491 | Parses the query once and caches it; the result is the cached list. |
| Request.HttpRequest.GetRequestParam | pillowcore/HttpRequest.cpp:493-503 | Returns the value of the first parameter with that name, ignoring case, after caching. |
| Request.HttpRequest.SetRequestParam | pillowcore/HttpRequest.cpp:505-518 | Replaces the first parameter with that name, or appends one. |
| Request.ScanHeaders | pillowcore/HttpRequest.cpp:374-383 | The header loop's result equals `Flags`; see the Flags lemmas. |
| Request.HeadLines | pillowcore/HttpRequest.cpp:406-410 | The appended lines equal `HeadText`, the length formatted by `appendNumber`. |
| Request.ContentLengthText | pillowcore/HttpRequest.cpp:407 | The Content-Length line built with `appendNumber` is the full-width line. |
| Request.ErrorReplyEffect | pillowcore/HttpRequest.cpp:311-327 | An error reply appends exactly the error head and leaves the request Flushing, with the received bytes and events unchanged. |
| Request.ErrorReplyFrame | pillowcore/HttpRequest.cpp:311-327 | An error reply takes nothing back and keeps the received bytes. |
| Request.ContentExpectedFrame | pillowcore/HttpRequest.cpp:192-201 | Handing the request out, or inviting its body, keeps the received bytes. |
| Request.PumpConserves | pillowcore/HttpRequest.cpp:108-142 | `processInput` takes nothing back and keeps every received byte, in order. In a receiving state it reads all input and stops before the response. |
| Request.EnterReceivingContentConserves | pillowcore/HttpRequest.cpp:153-202 | The same conservation for `transitionToReceivingContent`. |
| Request.OversizeRejected | pillowcore/HttpRequest.cpp:124-127 | More than 32 KiB buffered in ReceivingHeaders is answered 400 before the parser sees it; the parser state and offsets are untouched. |
| Request.BadHeadRejected | pillowcore/HttpRequest.cpp:132-135 | A head the parser rejects is answered 400 and the request flushes. |
| Request.AbsentLengthIsZero | pillowcore/HttpRequest.cpp:189-190 | A request without Content-Length declares length 0. |
| Request.FirstLengthCounts | pillowcore/HttpRequest.cpp:181-190 | Only the first Content-Length counts, read as a 32-bit int. |
| Request.LengthRejected | pillowcore/HttpRequest.cpp:192-195 | A negative length is answered 400. One above 128 MiB, or unparsable, is answered 413. Either way the request flushes. |
| Request.EmptyBodyReady | pillowcore/HttpRequest.cpp:196-197 | A length of 0 hands the request out at once and writes nothing. |
| Request.BodyAwaited | pillowcore/HttpRequest.cpp:192-201 | A positive length writes `HTTP/1.1 100 Continue` exactly when the client sent `Expect: 100-continue`, then pumps. |
| Request.ContinueInvited | pillowcore/HttpRequest.cpp:198-199 | For a positive length the interim response is written exactly when expected. |
| Request.ContentExpectedEntered | pillowcore/HttpRequest.cpp:153-201 | `transitionToReceivingContent` with a valid length goes through the content check and pumps. |
| Request.ContentArrives | pillowcore/HttpRequest.cpp:137-141 | All input is read. The request is handed out exactly when the body is complete, and `requestContent` is then exactly the body. |
| Request.PartialContent | pillowcore/HttpRequest.cpp:460-468 | While the body arrives, `requestContent` is the body bytes so far, capped at Content-Length; a pump only extends it. |
| Request.EnterCompletedSettles | pillowcore/HttpRequest.cpp:236-267 | `transitionToCompleted` emits requestCompleted first and takes nothing back. |
| Request.CompletedKeepsPipelined | pillowcore/HttpRequest.cpp:248-266 | The bytes after this body are kept as the start of the next request, or the request flushes. |
| Request.ContentAccounting | pillowcore/HttpRequest.cpp:415-441 | `writeContent` writes nothing for an empty call, for HEAD, for a length of 0, or past the length. Otherwise it writes and counts the data, and reaching the length completes. |
| Request.FirstNamed | pillowcore/HttpRequest.cpp:374-380 | The first header whose lower-cased name is the token; None means no header has it. |
| Request.AllLinesAppend | pillowcore/HttpRequest.cpp:382 | One more header adds its line. |
| Request.FlagsCopyAll | pillowcore/HttpRequest.cpp:374-383 | Every user header is written verbatim, in order. |
| Request.FlagsFirstLength | pillowcore/HttpRequest.cpp:378 | Only the first Content-Length sets the length; without one the current length stays. |
| Request.FlagsFirstType | pillowcore/HttpRequest.cpp:379 | A Content-Type counts as given exactly when one is present. |
| Request.FlagsFirstConnection | pillowcore/HttpRequest.cpp:380 | Only the first Connection header counts, and only `keep-alive` (any case) lets the connection persist. |
| Request.ResponseHeadSettles | pillowcore/HttpRequest.cpp:348-413 | The complete head text in order: the status line, every user header, the length line unless given, `text/plain` when needed, a Connection line when needed, then the blank line. Keep-alive holds iff the response allows it and the client keeps alive. |
| Request.UnknownLengthAnnounced | pillowcore/HttpRequest.cpp:407 | `writeHeaders` called directly with no Content-Length writes `Content-Length: -1`. |
| Request.HeadTextStarts | pillowcore/HttpRequest.cpp:368-407 | The head starts with the status line, the user headers and the length line. |
| Request.MinusOneLine | pillowcore/HttpRequest.cpp:407 | The length line for -1 is `Content-Length: -1`. |
| Query.IndexOf | pillowcore/HttpRequest.cpp:477-479 | `indexOf` gives -1, or an index at or after `from` holding the character. |
| Query.ValueEnd | pillowcore/HttpRequest.cpp:479-481 | A value ends at the next `&`, or at the end, after the `=`. |
| Query.ParseQueryParams | pillowcore/HttpRequest.cpp:470-491 | The loop returns exactly `QueryParams`. |
| Query.NextParam | pillowcore/HttpRequest.cpp:477-486 | One round yields one parameter, and the loop continues after the `&` that ended it. |
| Query.IndexOfFirst | pillowcore/HttpRequest.cpp:477-479 | No occurrence lies between `from` and the index found. |
| Query.IndexOfAt | pillowcore/HttpRequest.cpp:477-479 | The first occurrence is the one found. |
| Query.IndexOfNone | pillowcore/HttpRequest.cpp:477-479 | With no occurrence the search gives -1. |
| Query.IndexOfSuffix | pillowcore/HttpRequest.cpp:477-479 | Searching a suffix is searching the whole from further on. |
| Query.QueryParamsUnfold | pillowcore/HttpRequest.cpp:477-486 | One unfolding of the parameter list, with the search results named. |
| Query.QueryParamsFromEnd | pillowcore/HttpRequest.cpp:477 | Once no `=` is found, nothing more is read. |
| Query.QueryParamsFromStep | pillowcore/HttpRequest.cpp:477-486 | One round of the loop, as a step of the suffix recursion. |
| Query.SuffixAfter | pillowcore/HttpRequest.cpp:479-486 | What follows a value is read the same in the suffix. |
| Query.SuffixParam | pillowcore/HttpRequest.cpp:480-484 | A parameter is read the same in the suffix. |
| Query.SegmentBounds | pillowcore/HttpRequest.cpp:477-481 | In an encoded parameter, the `=` and the value's end are where encoding put them. |
| Query.SegmentParam | pillowcore/HttpRequest.cpp:480-484 | Between those bounds, the name and value decode to the encoded parameter. |
| Query.QuerySingle | pillowcore/HttpRequest.cpp:470-491 | One encoded parameter with a name reads back as that parameter. |
| Query.QueryCons | pillowcore/HttpRequest.cpp:470-491 | An encoded parameter, `&` and a tail read as that parameter, then the tail's parameters. |
| Query.QueryParamsEncode | pillowcore/HttpRequest.cpp:470-491 | Every parameter of an encoded query with non-empty names is recovered, in order. |
| Query.AbsorbedKey | pillowcore/HttpRequest.cpp:477-484 | `a&b=c` reads as the single parameter (`a&b`, `c`). |
| Query.EmptyNameLost | pillowcore/HttpRequest.cpp:477 | A query starting with `=` yields no parameter. |
| Client.HeaderTexts | pillowcore/HttpClient.cpp:53-54 | One header text per header. |
| Client.BuildRequest | pillowcore/HttpClient.cpp:49-67 | The buffer equals `RequestText`: request line, headers, length when there is data, blank line, data. |
| Client.RequestWriter.constructor | pillowcore/HttpClient.cpp:11-14 | A new writer has no device and has written nothing. |
| Client.RequestWriter.Write | pillowcore/HttpClient.cpp:41-70 | With a device the request text is appended; with none, nothing is written. |
| Client.RequestWriter.Get | pillowcore/HttpClient.cpp:16-19 | `write` with the method fixed to GET and no data. |
| Client.RequestWriter.Head | pillowcore/HttpClient.cpp:21-24 | `write` with the method fixed to HEAD and no data. |
| Client.RequestWriter.Post | pillowcore/HttpClient.cpp:26-29 | `write` with the method fixed to POST. |
| Client.RequestWriter.Put | pillowcore/HttpClient.cpp:31-34 | `write` with the method fixed to PUT. |
| Client.RequestWriter.DeleteResource | pillowcore/HttpClient.cpp:36-39 | `write` with the method fixed to DELETE and no data. |
| Client.RequestWriter.SetDevice | pillowcore/HttpClient.cpp:73-78 | Sets the device and writes nothing. |
| Client.LinesSingle | pillowcore/HttpClient.cpp:51 | One line is that line and CRLF. |
| Client.LinesSnoc | pillowcore/HttpClient.cpp:53-54 | One more line appends that line and CRLF. |
| Client.ReadHeadLines | pillowcore/HttpClient.cpp:41-70 | Non-empty lines without CR, a blank line and a body read back as those lines and that body. |
| Client.DecimalTextHasNoBreak | pillowcore/HttpClient.cpp:58-60 | The length text is non-empty and holds no CR. |
| Client.WrittenRequestReadsBack | pillowcore/HttpClient.cpp:41-70 | A reader of the writer's output finds the request line, the header lines in order, the Content-Length line exactly when there is data, then the data (section 3 of RFC 7230). |
| Client.WrittenLengthReadsBack | pillowcore/HttpClient.cpp:56-61 | The Content-Length line the writer adds states the size of the data. |
| Client.Execute | pillowcore/HttpClient.cpp:97-102 | A run never consumes more than the new bytes. |
| Client.Injected | pillowcore/HttpClient.cpp:97-102 | `inject` never consumes more than it was given. |
| Client.FirstStop | pillowcore/HttpClient.cpp:181-190 | The first callback that stops the parser; none before it stops, and None means none stops. |
| Client.Callbacks | pillowcore/HttpClient.cpp:143-190 | One callback per step. |
| Client.ExecuteStopsAtFirst | pillowcore/HttpClient.cpp:181-190 | A run makes exactly the callbacks up to the first that stops, and consumes up to that point; completion is reported exactly for a completed message. |
| Client.InjectUnpauses | pillowcore/HttpClient.cpp:97-102 | After `inject` the parser is never left paused, even one that was paused before and consumes nothing; otherwise it has an error exactly when it had one or this run failed. |
| Client.ExecuteFails | pillowcore/HttpClient.cpp:143-190 | A run fails exactly when its first stopping callback is an error. |
| Client.ErrorPersists | pillowcore/HttpClient.cpp:97-108 | With an error, `inject` and `injectEof` change nothing and consume nothing. |
| Client.ClearRecovers | pillowcore/HttpClient.cpp:110-115 | `clear` leaves no error, no stream, no status, no headers and no content. |
| Client.FragmentsAccumulate | pillowcore/HttpClient.cpp:150-171 | Fragmented field and value callbacks join into one header, pushed at headers-complete. |
| Client.FieldAfterValuePushes | pillowcore/HttpClient.cpp:150-156 | A field callback after a value pushes the finished header and starts a new name. |
| Client.ResponseParser.constructor | pillowcore/HttpClient.cpp:84-95 | A new parser has no error, no headers and no content. |
| Client.ResponseParser.Inject | pillowcore/HttpClient.cpp:97-102 | The parser and consumed count are those of `Injected`. |
| Client.ResponseParser.InjectEof | pillowcore/HttpClient.cpp:104-108 | The parser becomes `InjectedEof` of the old one. |
| Client.ResponseParser.Clear | pillowcore/HttpClient.cpp:110-115 | The parser becomes `Cleared` of the old one; see ClearRecovers. |
| Client.ClientInjected | pillowcore/HttpClient.cpp:97-102 | The client's `inject` never consumes more than it was given. |
| Client.HttpClient.constructor | pillowcore/HttpClient.cpp:207-217 | A new client has nothing pending, no error and no socket. |
| Client.HttpClient.ConsumeContent | pillowcore/HttpClient.cpp:229-234 | Returns the buffered content and leaves it empty, changing nothing else. |
| Client.HttpClient.Request | pillowcore/HttpClient.cpp:261-292 | The new state is `Requested`; see RequestRefusedWhilePending and RequestStarts. |
| Client.HttpClient.Get | pillowcore/HttpClient.cpp:236-239 | `request` with GET and no data. |
| Client.HttpClient.Head | pillowcore/HttpClient.cpp:241-244 | `request` with HEAD and no data. |
| Client.HttpClient.Post | pillowcore/HttpClient.cpp:246-249 | `request` with POST. |
| Client.HttpClient.Put | pillowcore/HttpClient.cpp:251-254 | `request` with PUT. |
| Client.HttpClient.DeleteResource | pillowcore/HttpClient.cpp:256-259 | `request` with DELETE and no data. |
| Client.HttpClient.Abort | pillowcore/HttpClient.cpp:294-304 | The new state is `Aborted`; see AbortEffect. |
| Client.HttpClient.DeviceError | pillowcore/HttpClient.cpp:306-326 | The new state is `SocketFailed`; see SocketErrorEffect. |
| Client.HttpClient.DeviceDisconnected | pillowcore/HttpClient.cpp:284-290 | The socket drops to Unconnected on its own, the state `request` later reads from the device; nothing else changes. |
| Client.RequestAfterDropReconnects | pillowcore/HttpClient.cpp:284-291 | After the socket dropped, a request is pending, writes nothing and asks to connect to its host and port, even for the previous host and port. |
| Client.RecoverAfterRemoteClose | pillowcore/HttpClient.cpp:306-326 | A remote close during a response finishes it; once the socket drops, the next request reconnects before writing, the recovery the comment at line 310 relies on. |
| Client.HttpClient.DeviceConnected | pillowcore/HttpClient.cpp:328-331 | The request is sent. |
| Client.HttpClient.DeviceReadyRead | pillowcore/HttpClient.cpp:333-353 | The new state is `ReadyRead`; see InvalidResponseEnds and ContinueThenFinal. |
| Client.HttpClient.SendRequest | pillowcore/HttpClient.cpp:355-372 | Writes the request with the base headers first. |
| Client.HttpClient.Inject | pillowcore/HttpClient.cpp:390-398 | `inject` with the client's `messageComplete`. |
| Client.RequestRefusedWhilePending | pillowcore/HttpClient.cpp:263-267 | A request made while a response is pending changes nothing at all. |
| Client.RequestStarts | pillowcore/HttpClient.cpp:268-291 | An accepted request is pending, with no error and an empty response. It is written at once exactly when the socket is connected to the same host and port; otherwise a connection is requested. |
| Client.AbortEffect | pillowcore/HttpClient.cpp:294-304 | Abort ends a pending request as AbortedError: the socket is closed and no finished signal is sent. With nothing pending it changes nothing. |
| Client.SocketErrorEffect | pillowcore/HttpClient.cpp:306-326 | A socket error ends a pending request with finished: RemoteHostClosedError for a remote close, NetworkError otherwise. With nothing pending it changes nothing. |
| Client.ContinueIgnored | pillowcore/HttpClient.cpp:390-398 | A 100 Continue leaves the response pending and signals nothing; any other status finishes it. |
| Client.InvalidResponseEnds | pillowcore/HttpClient.cpp:333-353 | A parse error ends the request as ResponseInvalidError and closes the socket, the close being the last event. |
| Client.ContinueThenFinal | pillowcore/HttpClient.cpp:333-353 | A 100 Continue followed by a 200 in one read are both consumed, ending with status 200 and one finished signal. |
| Handler.Handlers | pillowcore/HttpHandler.cpp:44-55 | `GetHandlers` is never longer than the children. |
| Handler.Nodes | pillowcore/HttpHandler.cpp:44-55 | One child per handler. |
| Handler.HandleStack | pillowcore/HttpHandler.cpp:31-42 | The loop's answer and effects are those of `Handle(Stack(...))`. |
| Handler.GetHandlers | pillowcore/HttpHandler.cpp:44-55 | The loop collects exactly the handler children, in order. |
| Handler.RunFromHandled | pillowcore/HttpHandler.cpp:31-42 | A run handles the request iff some handler child from that index does. |
| Handler.StackHandledIff | pillowcore/HttpHandler.cpp:31-42 | A stack handles a request exactly when one of its handler children does. |
| Handler.RunFromPrefix | pillowcore/HttpHandler.cpp:31-42 | Running over appended children continues into the new ones only when the first ones declined. |
| Handler.RunFromShift | pillowcore/HttpHandler.cpp:31-42 | Running from past the first children is running over the rest. |
| Handler.LaterSiblingsNotAsked | pillowcore/HttpHandler.cpp:36-39 | Once a child handles the request, later siblings are never asked. |
| Handler.DeclinedGoesOn | pillowcore/HttpHandler.cpp:31-42 | When no earlier child handles it, the stack goes on, keeping their effects. |
| Handler.OnlyHandlersAsked | pillowcore/HttpHandler.cpp:31-55 | The stack behaves as the stack of `GetHandlers`, so grandchildren are never asked. |
| Handler.DeclinedOrWon | pillowcore/HttpHandler.cpp:31-42 | Both cases of appending children, as one equation. |
| Handler.StackExample | tests/HttpHandlerTest.cpp:69-96 | The five-child example: a request for `/` asks handlers 1, 2 and 3 in order, and 3 answers with 500. The grandchild and handler 4 are never asked. |
| Handler.HandlerAnswers | pillowcore/HttpHandler.cpp:66-119 | Fixed and 404 always handle (404 writes status 404); the log handler never does. |
| Handler.LogIsTransparent | pillowcore/HttpHandler.cpp:107-119 | A log handler first starts a timer and lets the rest of the stack answer. |
| Handler.FileDeclinesIff | pillowcore/HttpHandler.cpp:204-221 | The file handler declines exactly on its four conditions (no public path, missing target, escaping path, not a file), and then does nothing. |
| Handler.FileAnswer | pillowcore/HttpHandler.cpp:223-262 | An unreadable file is answered 403. A file that fits the buffer is answered 304 exactly when If-None-Match is its digest, else 200 with the file. A larger file gets headers with its Content-Length and a transfer. |
| Handler.FileHandler.constructor | pillowcore/HttpHandler.cpp:174-178 | The public path is stored in canonical form, with the default buffer size. |
| Handler.FileHandler.SetPublicPath | pillowcore/HttpHandler.cpp:180-194 | The same path changes nothing; a new non-empty path is stored in canonical form. |
| Handler.FileHandler.SetBufferSize | pillowcore/HttpHandler.cpp:196-200 | Stores the size; the path is unchanged. |
| Handler.FileHandler.HandleRequest | pillowcore/HttpHandler.cpp:202-266 | Answers as `ServeFile` does; see FileDeclinesIff and FileAnswer. |
| Handler.TransferBuffer | pillowcore/HttpHandler.cpp:275-279 | A transfer buffer is at least 512 bytes, and a request of 512 or more is kept. |
| Handler.PayloadSize | pillowcore/HttpHandler.cpp:292-295 | The payload never exceeds what is left nor the buffer's free room. It is 0 exactly when there is no room or nothing left, and otherwise the smaller of the two. |
| Handler.FileTransfer.constructor | pillowcore/HttpHandler.cpp:272-286 | A new transfer has the clamped buffer and nothing written yet. |
| Handler.FileTransfer.WriteNextPayload | pillowcore/HttpHandler.cpp:288-304 | Advances by the payload size and signals finished when the last byte was just written. |
| Handler.FileTransfer.Detach | pillowcore/HttpHandler.cpp:290 | After the source or connection went away, later calls do nothing. |
| Handler.PayloadProgress | pillowcore/HttpHandler.cpp:292-299 | With room in the buffer and bytes left, each call makes progress. |
| Handler.PayloadsNeededIsCeiling | pillowcore/HttpHandler.cpp:292-303 | With nothing pending, a file takes ceil(size / buffer) payloads. |
| Server.Ids | pillowcore/HttpServer.cpp:26-27 | The ids 0 to n-1, in order. |
| Server.Trimmed | pillowcore/HttpServer.cpp:54-55 | After the loop fewer than 50 objects remain, a prefix of the reserve. |
| Server.Overflow | pillowcore/HttpServer.cpp:54-55 | The kept and deleted objects together are the whole reserve. |
| Server.LastFirst | pillowcore/HttpServer.cpp:32-33 | Emptying from the end deletes every object. |
| Server.TrimStep | pillowcore/HttpServer.cpp:54-55 | One loop step deletes the top object and leaves the same result. |
| Server.TakeMany | pillowcore/HttpServer.cpp:44-50 | n concurrent requests take n objects. |
| Server.RequestPool.constructor | pillowcore/HttpServer.cpp:23-28 | A new server's reserve holds 50 freshly created objects. |
| Server.RequestPool.CreateRequest | pillowcore/HttpServer.cpp:36-42 | Creates an object never seen before. |
| Server.RequestPool.TakeRequest | pillowcore/HttpServer.cpp:44-50 | The new pool and object are those of `Take`; see TakeCreatesOnlyWhenEmpty. The reserve stays within 50. |
| Server.RequestPool.PutRequest | pillowcore/HttpServer.cpp:52-58 | The new pool is `Put` of the old one, whose reserve holds at most 50 objects; see PutBounded. |
| Server.RequestPool.TrimReserve | pillowcore/HttpServer.cpp:54-55 | The loop leaves `Trimmed`, fewer than 50 objects, and deletes `Overflow`, top first. |
| Server.RequestPool.RequestClosed | pillowcore/HttpServer.cpp:95-99 | A closed request goes back to the pool, whose reserve holds at most 50 objects. |
| Server.RequestPool.Destroy | pillowcore/HttpServer.cpp:30-34 | Every reserved object is deleted, the last first. |
| Server.PutBounded | pillowcore/HttpServer.cpp:52-58 | The reserve never holds more than 50 objects, and the returned object is on top. Below the limit nothing is deleted. |
| Server.TakeCreatesOnlyWhenEmpty | pillowcore/HttpServer.cpp:44-50 | A non-empty reserve gives its top object and creates nothing; an empty one creates exactly one object. |
| Server.TakeManyFromReserve | pillowcore/HttpServer.cpp:44-50 | n concurrent requests take the top n objects, the last first, without creating any. |
| Server.PutManyBelowLimit | pillowcore/HttpServer.cpp:52-58 | With room in the reserve, closing requests are all kept, in closing order. |
| Server.Round | pillowcore/HttpServer.cpp:44-58 | A round of n requests that all close, in any order, creates and deletes nothing. The bottom of the reserve is untouched and its top holds the same objects. |
| Server.ClosingIsTop | pillowcore/HttpServer.cpp:44-58 | The objects closing in a round are the top n of the reserve. |
| Server.RoundKeepsBottom | pillowcore/HttpServer.cpp:44-58 | n taken and n returned leave the bottom and put the returned ones on top. |
| Server.TopIsTaken | pillowcore/HttpServer.cpp:44-50 | The objects taken are exactly the top n. |
| Server.ThreeRoundsReuse | tests/HttpServerTest.cpp:115-122 | Three rounds of 25 concurrent requests on a new server use only the 25 objects on top of the reserve, creating and deleting nothing. |
| Server.RoundOnTop | pillowcore/HttpServer.cpp:44-58 | One round keeps the reserve's size and bottom, and its top holds the same objects. |
| PathTemplate.WordRun | examples/qtscript/test.js:17-19 | The longest run of `\w` characters at the start. |
| PathTemplate.MarkerWord | examples/qtscript/test.js:17-19 | The captured word of a marker match is at least one `\w` character. |
| PathTemplate.MarkerLength | examples/qtscript/test.js:17-19 | A marker match covers at least two characters. |
| PathTemplate.IndexIn | pillowcore/HttpHandlerSimpleRouter.cpp:116 | `indexIn` gives the first marker match at or after `from`, or -1 when there is none. |
| PathTemplate.MarkerNamesSkip | pillowcore/HttpHandlerSimpleRouter.cpp:113-122 | Text without marker matches adds no names. |
| PathTemplate.CollectNames | pillowcore/HttpHandlerSimpleRouter.cpp:113-122 | The scanning loop collects exactly the words of the global search, left to right. |
| PathTemplate.CaptureCount | pillowcore/HttpHandlerSimpleRouter.cpp:107-143 | The number of capture groups is the number of positional names. |
| PathTemplate.ParamNamesCount | pillowcore/HttpHandlerSimpleRouter.cpp:107-143 | There are as many names as capture groups, whatever their interleaving. |
| PathTemplate.NoNamedAfterSplat | examples/qtscript/test.js:14-23 | A template with only splats names its captures in position order. |
| PathTemplate.ParamNamesPositional | examples/qtscript/test.js:14-23 | When no splat precedes a named token, the name list is in position order. |
| PathTemplate.WordSkip | examples/qtscript/test.js:17-26 | A word with no marker before it adds no names and is kept by the replacement. |
| PathTemplate.TokenizeNames | examples/qtscript/test.js:14-23 | The `:` names and `*` names the loops collect are the tokenizer's named and splat names. |
| PathTemplate.GroupsInert | examples/qtscript/test.js:25 | The group texts contain no marker. |
| PathTemplate.NoMarkerPrefix | examples/qtscript/test.js:25-26 | A prefix without markers adds no names and is kept by the replacement. |
| PathTemplate.RunStops | examples/qtscript/test.js:17 | A word run stops at the first non-word character. |
| PathTemplate.ReplaceKeepsBoundary | examples/qtscript/test.js:25-26 | Replacing named markers never joins a following word onto a `*`. |
| PathTemplate.SplatPassNamedStep | pillowcore/HttpHandlerSimpleRouter.cpp:123-136 | The splat pass over a replaced named token agrees with the template. |
| PathTemplate.SplatPassSplatStep | pillowcore/HttpHandlerSimpleRouter.cpp:125-136 | The splat pass over a splat token agrees with the template. |
| PathTemplate.SplatPassLiteralStep | pillowcore/HttpHandlerSimpleRouter.cpp:125-136 | The splat pass over a literal agrees with the template. |
| PathTemplate.SplatPassAfterNamedPass | pillowcore/HttpHandlerSimpleRouter.cpp:123-136 | After the named replacement, the splat pass sees exactly the template's splats and yields the full pattern. |
| PathTemplate.SegmentRun | examples/qtscript/test.js:25 | The longest run of `[\w_-]` characters. |
| PathTemplate.DotRun | examples/qtscript/test.js:26 | The longest run that `.` accepts. |
| PathTemplate.Down | pillowcore/HttpHandlerSimpleRouter.cpp:111 | The greedy order of capture lengths covers exactly the range. |
| PathTemplate.Up | examples/qtscript/test.js:25 | The lazy order of capture lengths covers exactly the range. |
| PathTemplate.Search | pillowcore/HttpHandlerSimpleRouter.cpp:149 | A match yields one capture per group. |
| PathTemplate.TryCuts | pillowcore/HttpHandlerSimpleRouter.cpp:149 | A match yields one capture per group. |
| PathTemplate.SearchSound | pillowcore/HttpHandlerSimpleRouter.cpp:141-149 | Every match the search reports decomposes the path as the template says. |
| PathTemplate.TryCutsSound | pillowcore/HttpHandlerSimpleRouter.cpp:141-149 | Each tried cut that succeeds is a match. |
| PathTemplate.TryCutsFinds | pillowcore/HttpHandlerSimpleRouter.cpp:141-149 | When one cut leads to a match, the search over the cuts finds a match. |
| PathTemplate.NamesCons | examples/qtscript/test.js:14-23 | Adding a token in front adds its name to the front of the named, splat or positional list, as its kind says. |
| PathTemplate.TryCutsDownFinds | pillowcore/HttpHandlerSimpleRouter.cpp:141-149 | Trying cuts from the longest down, the first cut whose rest matches gives the captures: every longer cut that fails is skipped. |
| PathTemplate.SearchComplete | pillowcore/HttpHandlerSimpleRouter.cpp:141-149 | Whenever some decomposition exists, the search finds one. |
| PathTemplate.SearchExact | pillowcore/HttpHandlerSimpleRouter.cpp:141-149 | A pattern matches a path exactly when some decomposition of it fits the template. |
| PathTemplate.LazinessKeepsLanguage | examples/qtscript/test.js:25 | Lazy and greedy named groups accept the same paths. |
| PathTemplate.MatchesIgnoresLaziness | examples/qtscript/test.js:25 | A decomposition does not depend on laziness. |
| PathTemplate.DotRunFlavour | examples/qtscript/test.js:26 | Flavours that treat line breaks alike give the same `.` run. |
| PathTemplate.Lits | examples/qtscript/test.js:25-30 | Literal text becomes one literal token per character. |
| PathTemplate.TokenizeLiterals | examples/qtscript/test.js:25-30 | Text without `:` or `*` tokenizes to its characters. |
| PathTemplate.TokenizeMarker | examples/qtscript/test.js:17-23 | A marker with its whole word tokenizes to one capture token. |
| PathTemplate.SearchLits | examples/qtscript/test.js:30 | Literal text without `.` consumes exactly itself. |
| PathTemplate.SearchFinalNamed | examples/qtscript/test.js:25-30 | A final named capture takes the whole remaining segment, up to an accepted end. |
| PathTemplate.NoEarlyEnd | examples/qtscript/test.js:30 | The end anchor refuses a path with segment characters still to come. |
| PathTemplate.SegmentRunAll | examples/qtscript/test.js:25 | A run stops where the segment characters stop. |
| PathTemplate.LazyFindsLast | examples/qtscript/test.js:25-30 | The lazy group still ends up capturing the whole final segment. |
| PathTemplate.SlashesSkipSegment | pillowcore/HttpHandlerSimpleRouter.cpp:111 | A segment contains no `/`. |
| PathTemplate.SlashCount | pillowcore/HttpHandlerSimpleRouter.cpp:111 | A template of literals and named captures fixes the path's `/` count, with one extra allowed only under `/?`. |
| PathTemplate.SlashMismatch | tests/HttpHandlerTest.cpp:185-187 | Such a template never matches a path with a different number of slashes. |
| PathTemplate.TrailingSlashAccepted | examples/qtscript/test.js:30 | With `/?$`, a path that matches also matches with a trailing `/`, with the same captures. |
| PathTemplate.RunGrows | examples/qtscript/test.js:25-26 | Runs never shrink when text is appended. |
| Sinatra.LastArgument | examples/qtscript/test.js:11-12 | The handler is the last argument whatever it is; with no extra arguments it is the path. |
| Sinatra.ContainsCI | examples/qtscript/test.js:29 | The method pattern matches exactly when the registered text occurs somewhere in the method, ignoring case. |
| Sinatra.NoLaterOccurrence | examples/qtscript/test.js:50 | A method shorter than the pattern contains no occurrence. |
| Sinatra.OccursShift | examples/qtscript/test.js:50 | An occurrence after the first character is an occurrence in the tail. |
| Sinatra.FirstMatch | examples/qtscript/test.js:47-51 | The first route from `lo` whose method and path match; none before it matches, and None means none matches. |
| Sinatra.LastIndexOf | examples/qtscript/test.js:56-57 | The last position of a name; none after it holds the name. |
| Sinatra.AssignParamsValue | examples/qtscript/test.js:53-57 | Path values overwrite query values, a repeated name takes its last capture, and other keys keep their query value. |
| Sinatra.LastIndexShift | examples/qtscript/test.js:56-57 | The last position in a list relates to the last position in its tail. |
| Sinatra.LastIndexUnique | examples/qtscript/test.js:56-57 | A position holding the name with none after it is the last position. |
| Sinatra.StringResultIsArrayResult | examples/qtscript/test.js:63-64 | A string result is written exactly as the array [200, {}, s]. |
| Sinatra.WriteArgumentsKinds | examples/qtscript/test.js:61-66 | Only arrays, strings and numbers write a response, with one to three arguments. |
| Sinatra.DispatchFirstMatch | examples/qtscript/test.js:47-72 | No route matches iff `handleRequest` returns false. Otherwise the route that answers matches, and no earlier route does. |
| Sinatra.AddRouteKeepsEarlierWinners | examples/qtscript/test.js:28-33 | Adding a route never changes the answer to a request an earlier route matched. |
| Sinatra.FirstMatchPrefix | examples/qtscript/test.js:47-51 | A match among the first routes is found the same with more routes after them. |
| Sinatra.DispatchParams | examples/qtscript/test.js:53-57 | The params of the answering route are the query values, overwritten by the path captures, the last capture winning for a repeated name. |
| Sinatra.CompileAllCompiled | examples/qtscript/test.js:14-34 | Every route the setup function declares stores the name list of its own template. |
| Sinatra.App.constructor | examples/qtscript/test.js:2-6 | An empty route list, then the routes the setup function declares, when it is a function; every route is compiled. |
| Sinatra.App.AddRoute | examples/qtscript/test.js:9-34 | Appends the compiled route (names `:` first then `*`, anchored `^…/?$`) after the existing routes, keeping every route compiled. |
| Sinatra.App.Get | examples/qtscript/test.js:36 | `addRoute` with GET, keeping every route compiled. |
| Sinatra.App.Post | examples/qtscript/test.js:37 | `addRoute` with POST, keeping every route compiled. |
| Sinatra.App.Put | examples/qtscript/test.js:38 | `addRoute` with PUT, keeping every route compiled. |
| Sinatra.App.Delete | examples/qtscript/test.js:39 | `addRoute` with DELETE, keeping every route compiled. |
| Sinatra.App.HandleRequest | examples/qtscript/test.js:41-73 | The loop's outcome equals `Dispatch`; see DispatchFirstMatch and DispatchParams. |
| Sinatra.WorldIdTokens | examples/qtscript/test.js:106 | `/world/:id` is the literals `/world/` and one named token `id`. |
| Sinatra.LiteralsThenNamed | examples/qtscript/test.js:14-26 | Literal text followed by one named token tokenizes to those literals, then that token. |
| Sinatra.WorldIdCaptures | examples/qtscript/test.js:106-109 | `/world/:id` captures `42` from `/world/42`. |
| Sinatra.WorldIdCapturesWithSlash | examples/qtscript/test.js:106-109 | It also captures `42` from `/world/42/`, since the pattern allows a trailing slash. |
| Sinatra.SplatThenNamedTokens | examples/qtscript/test.js:14-26 | A template `/*a/:b` is the tokens `/`, splat `a`, `/`, named `b`. |
| Sinatra.SplatThenNamedNames | examples/qtscript/test.js:14-23 | For a splat followed by a named token, `addRoute` lists the names as `[b, a]` while the groups come in the order `[a, b]`. |
| Sinatra.SegmentsDotRun | examples/qtscript/test.js:26 | `(.*)` can run over the whole of `x/y` when `x` and `y` are path segments. |
| Sinatra.LongerSplatCutsFail | examples/qtscript/test.js:25-30 | A splat cut that reaches past the `/` leaves no `/` for the following literal. |
| Sinatra.SeparatorThenNamed | examples/qtscript/test.js:25-30 | `/` followed by a named group captures the whole segment after the `/`. |
| Sinatra.SplatCutsStopAtX | examples/qtscript/test.js:25-30 | Trying the splat's cuts from the longest, the first that lets the rest match is the one that stops at `x`, giving `[x, y]`. |
| Sinatra.SplatBacksOff | examples/qtscript/test.js:25-30 | On `x/y`, the greedy `(.*)` gives back characters until the `/` before the named group can match, and captures `x`. |
| Sinatra.SplatThenNamedCaptures | examples/qtscript/test.js:25-30 | The pattern of `/*a/:b` captures `[x, y]` from `/x/y`, for any segment `y` and any segment or empty `x`. |
| Sinatra.SplatThenNamedSwaps | examples/qtscript/test.js:53-57 | Dispatching `/x/y` to `/*a/:b` answers, with `b` bound to `x` and `a` bound to `y` over the query parameters: each value goes to the other name. |
| Sinatra.SplatThenNamedExample | examples/qtscript/test.js:53-57 | The route `/*a/:b` and the path `/x/y` give `a == "y"` and `b == "x"`. |
| SimpleRouter.PathToRegExp | pillowcore/HttpHandlerSimpleRouter.cpp:107-143 | The loops yield `Compile`, with names `:` first then `*`, left to right. |
| SimpleRouter.FirstMatch | pillowcore/HttpHandlerSimpleRouter.cpp:147-154 | The first route from `lo` whose pattern matches; none before it matches, and None means none matches. |
| SimpleRouter.Invoke | pillowcore/HttpHandlerSimpleRouter.cpp:17-51 | A handler or slot route whose target is gone does nothing; a static route writes its stored response. |
| SimpleRouter.RouteHandlesIffMatch | pillowcore/HttpHandlerSimpleRouter.cpp:145-157 | The request is handled exactly when some route matches its path, by the first such route, whatever `invoke` returned. |
| SimpleRouter.RouteMatchesIffLanguage | pillowcore/HttpHandlerSimpleRouter.cpp:141-149 | A route matches exactly when the path is in its template's language. |
| SimpleRouter.TrailingSlashRefused | pillowcore/HttpHandlerSimpleRouter.cpp:141 | A matched path with a `/` appended is refused, because there is no `/?`. |
| SimpleRouter.SlashesAppend | pillowcore/HttpHandlerSimpleRouter.cpp:141 | Slash counts add up over concatenation. |
| SimpleRouter.Router.constructor | pillowcore/HttpHandlerSimpleRouter.cpp:68-71 | A new router has no routes. |
| SimpleRouter.Router.AddHandlerRoute | pillowcore/HttpHandlerSimpleRouter.cpp:80-86 | Appends the compiled handler route at the end. |
| SimpleRouter.Router.AddMetaCallRoute | pillowcore/HttpHandlerSimpleRouter.cpp:88-95 | Appends the compiled slot route at the end. |
| SimpleRouter.Router.AddStaticRoute | pillowcore/HttpHandlerSimpleRouter.cpp:97-105 | Appends the compiled static route at the end. |
| SimpleRouter.Router.HandleRequest | pillowcore/HttpHandlerSimpleRouter.cpp:145-157 | Handled iff `Dispatch` finds a route, and then that route's invocation. |
| SimpleRouter.AddedRouteComesLast | pillowcore/HttpHandlerSimpleRouter.cpp:80-105 | Adding a route never changes how a path matched by an earlier route is handled. |
| SimpleRouter.FirstMatchPrefix | pillowcore/HttpHandlerSimpleRouter.cpp:147-154 | A match among the first routes is found the same with more routes after them. |
| Declarative.BaseObject.constructor | examples/declarative/declarative.cpp:22 | A new object has no children. |
| Declarative.BaseObject.Append | examples/declarative/declarative.cpp:30-34 | A null object is ignored. A new child goes at the end, and an existing child stays where it is. |
| Declarative.BaseObject.Count | examples/declarative/declarative.cpp:36-39 | The number of children. |
| Declarative.BaseObject.AtAsWritten | examples/declarative/declarative.cpp:41-46 | The guard as written: null below 0 or above the size, a read past the end at exactly the size, the child otherwise. |
| Declarative.BaseObject.At | examples/declarative/declarative.cpp:41-46 | The corrected guard: a child exactly for valid indices, null otherwise, never past the end. |
| Declarative.BaseObject.Clear | examples/declarative/declarative.cpp:48-52 | Re-parenting every child leaves none. |
| Declarative.Remove | examples/declarative/declarative.cpp:50-51 | Removing a child takes out exactly one occurrence. |
| Declarative.AtAsWrittenReadsPastEnd | examples/declarative/declarative.cpp:44 | At index == size the guard as written lets the read through; the corrected one answers null. |
| Declarative.AtAgreesBelowSize | examples/declarative/declarative.cpp:44-45 | Both versions agree at every other index. |
| Declarative.HostOf | examples/declarative/declarative.cpp:126 | An empty address means Any; otherwise the given address. |
| Declarative.DeclarativeHttpServer.constructor | examples/declarative/declarative.cpp:64-68 | A new server has no address, port 0, is not complete and has never listened. |
| Declarative.DeclarativeHttpServer.Rebind | examples/declarative/declarative.cpp:122-129 | Nothing happens before componentComplete. Afterwards it listens on the current address (Any when empty) and port. |
| Declarative.DeclarativeHttpServer.SetAddress | examples/declarative/declarative.cpp:76-82 | The same address does nothing; a new one is stored, rebinds when complete and is announced. |
| Declarative.DeclarativeHttpServer.SetPort | examples/declarative/declarative.cpp:85-91 | The same port does nothing; a new one is stored, rebinds when complete and is announced. |
| Declarative.DeclarativeHttpServer.ComponentComplete | examples/declarative/declarative.cpp:96-100 | Marks the component complete and binds at once; from then on address and port changes rebind. |
| Declarative.RouteMatcher.constructor | examples/declarative/declarative.cpp:145 | A new matcher has an empty path and no names. |
| Declarative.RouteMatcher.SetPath | examples/declarative/declarative.cpp:151-157 | The same path does nothing. A new one is stored and rebuilt (names `:` first, then `*`) and announced. |
| Declarative.RouteMatcher.Rebuild | examples/declarative/declarative.cpp:173-202 | The pattern of the current path, anchored `^…$`, with the names `:` first, then `*`. |
| Declarative.RouteMatcher.Match | examples/declarative/declarative.cpp:159-167 | False for a null connection; otherwise whether the pattern finds the decoded path. |
| Declarative.MatchDecodes | examples/declarative/declarative.cpp:163 | A path without `%` is matched as it is, and an encoded path as the text it encodes. |

## Left out

- Sockets, timers and the Qt event loop are not modelled. `readyRead`, `bytesWritten` and signals become method calls and event logs, and devices become byte strings.
- Socket connect and disconnect in `HttpClient` are reduced to a socket state and a recorded connect request. Queued delivery is not modelled. The socket dropping on its own (remote close, failure) is the separate event `Client.HttpClient.DeviceDisconnected`. The model does not tie it to `DeviceError`, since Qt reports errors that leave the socket connected too.
- The foreign request and response parsers (`http_parser`) are oracles. The server-side oracle maps the buffer to offsets, the client-side one maps bytes to callbacks. Their internal correctness is not part of this model.
- The status-message table and the date helpers in `HttpHelpers.h` are declarations without bodies in this repository; the status table is a parameter.
- In `HttpHandlerFile`, filesystem lookups, canonical paths, MD5 and MIME types are functions supplied by the environment. Only the decision ladder is modelled.
- `HttpHandlerLog` records only that it started a timer; its timing and its output format are not modelled.
- `HttpHandlerProxy`, `HttpHandlerQtScript`, `HttpsServer`, `HttpLocalServer`, `HttpServer::incomingConnection`, the QML registration and `makeHeaders` in `declarative.cpp` are not part of this model: they are network, script or framework glue.
- General `QRegExp` and JavaScript `RegExp` semantics are not modelled. Only the template language the routers build is modelled: literals, `([\w_-]+)` or `([\w_-]+?)`, `(.*)` and the anchors. Literal characters other than `.` are taken as themselves.
- `QString` and Latin-1 conversions are the identity. Text is a sequence of characters with ASCII-only case folding.
- `qWarning` and `qDebug` output is not modelled.
- `QByteArray` capacity, sharing and buffer reuse are not modelled. `setFromRawDataAndNullterm` is modelled on its own (Request.SetFromRawDataAndNullterm), but the request state machine reads its fields as if no NUL had been written into the buffer. The one visible difference is the raw `requestUri`: when the parser's path span ends inside the URI span, the source's URI holds the NUL written after the path.
- Bytes.ToInt: it skips the whitespace before the number, as `qstrtoll` does (Bytes.ToIntSkipsSpace), but refuses whitespace after the digits. Whether `QByteArray::toInt` accepts trailing whitespace depends on the Qt version, and the model takes the strict reading. So a request Content-Length such as `"5 "` is unparsable in the model and gets 413.
- Bytes.ToLongLong: the same strict reading of trailing whitespace (Bytes.ToLongLongSkipsSpace covers the leading side). So a response Content-Length such as `"5 "` is unknown (-1) on `HttpConnection`, and 0 on `HttpRequest`, whose `writeHeaders` ignores the ok flag.
- Bytes.PercentDecode: its contract bounds only the length. Its behaviour is pinned instead by PercentDecodeEncode and PercentDecodeIdentity.
- Integer widths are modelled only where they change a result: the `toInt` and `toLongLong` range checks, and the `appendNumber<int, 10>` narrowing in `Http.ContentLengthLineAsWritten`. Elsewhere, counters such as `bytesSent` are unbounded.
- Connection.HeadLines writes the full-width length line (`Http.ContentLengthLine`), not the 32-bit narrowing of `HttpConnection.cpp:601`. So do `HeadText`, `ResponseHead` and `WriteHeaders`. The two lines agree whenever the length fits in 32 bits (Connection.LengthLineAsWritten), and the line as written is `Http.ContentLengthLineAsWritten` (see "## Findings").
- The request parser oracle receives the buffer and the offset where its previous run stopped (`nread`). Any other internal state of `http_parser` is taken to be fixed by those two.
- Query.ParseQueryParams and Handler.FileHandler.HandleRequest decode with `Bytes.PercentDecode` (an escape with a non-hex digit counts that digit as 0), in place of `QUrl::fromPercentEncoding` and `QByteArray::fromPercentEncoding`. Qt keeps the raw bits `(a << 4) | b` of a malformed escape, and `QUrl` also decodes the bytes as UTF-8. The model therefore agrees with Qt only on well-formed escapes of ASCII or Latin-1 text.
- PathTemplate.IsWordChar: `\w` is ASCII letters, digits and `_`. `QRegExp`, used by `HttpHandlerSimpleRouter` and `RouteMatcher`, also accepts Unicode letters and digits, so a path such as `/user/é` is refused by the model but matched by the routers.
- Sinatra.App.HandleRequest: the route function is the total parameter `call`, so a route function that throws has no counterpart. In the script the exception leaves `handleRequest` at `route.func.call(handler)` (test.js:59) and nothing is written. Only a handler that is not a function gives `Threw`.
- Handler.FileHandler.HandleRequest: the effect `TransferStarted` includes the first `writeNextPayload` that `handleRequest` makes itself; the later payloads are `Handler.FileTransfer.WriteNextPayload`.
- Client.HttpClient.DeviceReadyRead does not log `contentReadyRead`. How many `messageContent` callbacks one `inject` makes is decided by the parser oracle, so the model records the content, not the signal.
- Handler.FileTransfer.WriteNextPayload: the device-level `atEnd` is read as "every byte of the source has been written".
- Handler.FileTransfer.Detach stands for the `deleteLater` connections: once the source or connection is gone, the transfer does nothing.
- Request.ContentExpected: its contract states only the two possible states. Its effect is stated by ContinueInvited, BodyAwaited and EmptyBodyReady.
- Client.Execute, Client.Injected and Client.ClientInjected: their contracts bound only the bytes consumed. Their effect is stated by ExecuteStopsAtFirst, InjectUnpauses and ErrorPersists.

## Findings

| source | as written | input that shows it | evidently intended | confidence | as-written member | corrected member |
|---|---|---|---|---|---|---|
| examples/declarative/declarative.cpp:44 | `data_at` rejects `index < 0 \|\| index > children.size()`, so `index == size` gets through to `children.at(size)` | any object, index equal to its number of children | reject `index >= size` and answer null | not executed | Declarative.AtAsWrittenReadsPastEnd | Declarative.AtAgreesBelowSize |
| pillowcore/HttpConnection.cpp:601 | the 64-bit response length is written with `appendNumber<int, 10>`, which narrows it to 32 bits first | a response with `Content-Length: 4294967296` is announced as `Content-Length: 0` | write the full 64-bit length | not executed | Http.ContentLengthLineAsWrittenWraps | Http.ContentLengthLineRoundTrip |
