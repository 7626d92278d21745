/**
 * HttpConnection: one HTTP/1.x server connection.  It reads a request head
 * through the parser, validates Content-Length, waits for the body, hands the
 * request out (requestReady), serialises the response head, counts and frames
 * the response body, and then either starts over on the bytes that follow the
 * request (keep-alive) or flushes and closes.
 *
 * The devices are byte sequences: the bytes waiting to be read, every byte
 * written, and how many written bytes the output device still holds.
 * Signals are recorded as events.  The request-line/header parser and the
 * status-message table are inputs (Env).
 *
 * Each state-changing method of the class is proved to take the
 * connection's state, as a Conn value, exactly to the value the
 * corresponding function of this module computes; the lemmas at the end
 * state what those functions guarantee.
 */
module Connection {
  import opened Bytes
  import opened Http

  /** Every field the state machine reads or writes. */
  datatype Conn = Conn(
    state: State,
    input: string,              // bytes available on the input device
    output: string,             // every byte written to the output device
    backlog: nat,               // bytes the output device has not handed on yet
    events: seq<Event>,
    buffer: string,             // the request buffer
    parsed: ParseResult,        // the parser's state for the current request
    refs: seq<HeaderRef>,       // header offsets reported by the parser callback
    requestHeaders: seq<Header>,
    clIndex: int,               // index of the last Content-Length header, or -1
    requestContentLength: int,
    http11: bool,
    requestMethod: string, uri: string, fragment: string, path: string, query: string, version: string,
    content: string,
    params: seq<Param>,
    statusCode: int,
    responseLength: int,        // -1 while unknown
    bytesSent: int,
    keepAlive: bool,
    chunked: bool)

  // ---------------------------------------------------------------------
  // Transitions, as functions of the state
  // ---------------------------------------------------------------------

  /** A write to the output device. */
  function Written(c: Conn, bytes: string): Conn
  {
    c.(output := c.output + bytes, backlog := c.backlog + |bytes|)
  }

  function EnterClosed(c: Conn): Conn
  {
    if c.state == Closed then c else c.(state := Closed, events := c.events + [ClosedEvent])
  }

  /** drain: in Flushing, close once the output device holds nothing more. */
  function DrainStep(c: Conn): Conn
  {
    if c.state != Flushing then c
    else if c.backlog == 0 then EnterClosed(c)
    else c
  }

  function EnterFlushing(c: Conn): Conn
  {
    if c.state == Flushing then c else DrainStep(c.(state := Flushing))
  }

  /** writeRequestErrorResponse: the error head, then Flushing; nothing once Closed. */
  function ErrorReply(c: Conn, e: Env, code: int): Conn
  {
    if c.state == Closed then c
    else EnterFlushing(Written(c, ErrorResponse(ErrorText(e.statuses, code))))
  }

  function EnterReceivingHeaders(c: Conn): Conn
  {
    if c.state == ReceivingHeaders then c
    else c.(state := ReceivingHeaders, parsed := NothingParsed, requestContentLength := 0, clIndex := -1, http11 := false)
  }

  /** parser_http_field: remember the field, and its index when it is Content-Length. */
  function FieldSeen(c: Conn, ref: HeaderRef): Conn
  {
    c.(clIndex := if AsciiEqualsCI(Slice(c.buffer, ref.field), "content-length") then |c.refs| else c.clIndex,
       refs := c.refs + [ref])
  }

  function FieldsSeen(c: Conn, fs: seq<HeaderRef>): Conn
  {
    if fs == [] then c else FieldSeen(FieldsSeen(c, fs[..|fs| - 1]), fs[|fs| - 1])
  }

  /** One parser run over the buffer: its field callbacks, then its new state. */
  function Executed(c: Conn, r: ParseResult): Conn
  {
    FieldsSeen(c, r.fields).(parsed := r)
  }

  /** setupRequestHeaders: the headers the offsets point at. */
  function SetupHeaders(c: Conn): Conn
  {
    c.(requestHeaders := HeadersOf(c.buffer, c.refs))
  }

  /**
   * The request content length and whether it parsed: the flagged header
   * read as a 32-bit int (0 and not ok when that fails), or the current
   * length when no header was flagged.
   */
  function RequestLength(hs: seq<Header>, clIndex: int, current: int): (int, bool)
  {
    if 0 <= clIndex < |hs| then
      match ToInt(hs[clIndex].value)
      case Some(v) => (v, true)
      case None => (0, false)
    else (current, true)
  }

  function DropLast<T>(s: seq<T>): seq<T>
  {
    if s == [] then [] else s[..|s| - 1]
  }

  /** Orders the states for the processInput / transitionToReceivingContent recursion. */
  function Rank(s: State): nat
  {
    if s == ReceivingContent then 1 else 2
  }

  /** processInput. */
  function Pump(c: Conn, e: Env): Conn
    decreases Rank(c.state), 1
  {
    if c.state != ReceivingHeaders && c.state != ReceivingContent then c
    else
      var c1 := c.(buffer := c.buffer + c.input, input := []);
      if c1.state == ReceivingHeaders then
        var c2 := if c1.buffer == [] then c1 else Executed(c1, e.parse(c1.buffer, c1.parsed.nread));
        if c2.parsed.nread > MaximumRequestHeaderLength || c2.parsed.error then ErrorReply(c2, e, 400)
        else if c2.parsed.finished then EnterReceivingContent(c2, e)
        else c2
      else if |c1.buffer| - c1.parsed.head.bodyStart >= c1.requestContentLength then EnterSendingHeaders(c1)
      else c1
  }

  /** transitionToReceivingContent. */
  function EnterReceivingContent(c: Conn, e: Env): Conn
    decreases Rank(c.state), 0
  {
    if c.state == ReceivingContent then c
    else
      var c1 := SetupHeaders(c.(state := ReceivingContent));
      var (len, ok) := RequestLength(c1.requestHeaders, c1.clIndex, c1.requestContentLength);
      var c2 := c1.(requestContentLength := len);
      if len < 0 then ErrorReply(c2, e, 400)
      else if len > MaximumRequestContentLength || !ok then ErrorReply(c2, e, 413)
      else if len > 0 then ContentAwaited(c2, e)
      else EnterSendingHeaders(c2)
  }

  /**
   * A positive length: answer "Expect: 100-continue", drop the last header
   * (its bytes may move when the buffer grows) and pump.
   */
  function ContentAwaited(c: Conn, e: Env): Conn
    decreases Rank(c.state), 2
  {
    var c1 := if HeaderValue(c.requestHeaders, "expect") == "100-continue" then Written(c, ContinueResponse) else c;
    Pump(c1.(requestHeaders := DropLast(c1.requestHeaders)), e)
  }

  /** transitionToSendingHeaders: the request fields, a fresh response, requestReady. */
  function EnterSendingHeaders(c: Conn): Conn
  {
    if c.state == SendingHeaders then c
    else
      var c1 := c.(state := SendingHeaders);
      var c2 := if |c1.requestHeaders| != |c1.refs| then SetupHeaders(c1) else c1;
      var b := c2.buffer;
      var h := c2.parsed.head;
      var version := Slice(b, h.version);
      c2.(uri := Slice(b, h.uri), requestMethod := Slice(b, h.requestMethod), fragment := Slice(b, h.fragment),
          path := Slice(b, h.path), query := Slice(b, h.query), version := version,
          http11 := version == "HTTP/1.1",
          content := Slice(b, Span(h.bodyStart, if c2.requestContentLength >= 0 then c2.requestContentLength else 0)),
          responseLength := -1, bytesSent := 0, keepAlive := true, chunked := false,
          events := c2.events + [RequestReady])
  }

  /** transitionToSendingContent. */
  function EnterSendingContent(c: Conn, e: Env): Conn
  {
    if c.state == SendingContent then c
    else
      var c1 := c.(state := SendingContent);
      var c2 := if c1.responseLength == 0 || c1.requestMethod == "HEAD" then EnterCompleted(c1, e) else c1;
      if c2.responseLength < 0 && !c2.chunked then c2.(keepAlive := false) else c2
  }

  /**
   * transitionToCompleted: requestCompleted; the bytes after this request's
   * body stay in the buffer; then the next request or Flushing.
   */
  function EnterCompleted(c: Conn, e: Env): Conn
  {
    if c.state == Completed then c
    else
      var c2 := Settled(c);
      if c2.keepAlive then Pump(EnterReceivingHeaders(c2), e) else EnterFlushing(c2)
  }

  /** The first part of transitionToCompleted: the signal, and the buffer cut down to what follows the body. */
  function Settled(c: Conn): Conn
  {
    var c1 := c.(state := Completed, events := c.events + [RequestCompleted]);
    var remaining := |c1.buffer| - c1.parsed.head.bodyStart - c1.requestContentLength;
    c1.(buffer := Right(c1.buffer, remaining), refs := [], params := [], content := [])
  }

  // ---------------------------------------------------------------------
  // The response head
  // ---------------------------------------------------------------------

  /** What the header loop of writeHeaders collects. */
  datatype HeadScan = HeadScan(
    lines: string, length: int,
    contentType: Option<Header>, connection: Option<Header>, transferEncoding: Option<Header>)

  /** One header: the four special names are held back, every other header is written out. */
  function ScanStep(s: HeadScan, h: Header): HeadScan
  {
    if AsciiEqualsCI(h.name, "content-length") then
      s.(length := LengthValue(h.value))
    else if AsciiEqualsCI(h.name, "content-type") then s.(contentType := Some(h))
    else if AsciiEqualsCI(h.name, "connection") then s.(connection := Some(h))
    else if AsciiEqualsCI(h.name, "transfer-encoding") then s.(transferEncoding := Some(h))
    else s.(lines := s.lines + HeaderLine(h))
  }

  /** A response Content-Length value as a 64-bit number; -1 (unknown) when it is not one. */
  function LengthValue(v: string): int
  {
    match ToLongLong(v)
    case Some(n) => n
    case None => -1
  }

  function Scan(hs: seq<Header>, length: int): HeadScan
  {
    if hs == [] then HeadScan([], length, None, None, None)
    else ScanStep(Scan(hs[..|hs| - 1], length), hs[|hs| - 1])
  }

  /** Whether the client asked to keep the connection: HTTP/1.1 unless "close", otherwise only on "keep-alive". */
  function ClientWantsKeepAlive(http11: bool, requestConnection: string): bool
  {
    if http11 then !AsciiEqualsCI(requestConnection, "close")
    else AsciiEqualsCI(requestConnection, "keep-alive")
  }

  datatype ResponseHeadResult = ResponseHeadResult(text: string, length: int, keepAlive: bool, chunked: bool)

  /**
   * The transfer coding writeHeaders settles: chunked only for an HTTP/1.1
   * request whose response length is unknown; a "chunked" header that cannot
   * be honoured is dropped, any other Transfer-Encoding is kept as given.
   */
  function Coding(s: HeadScan, chunked0: bool, http11: bool): (bool, Option<Header>)
  {
    var teChunked := s.transferEncoding.Some? && AsciiEqualsCI(s.transferEncoding.value.value, "chunked");
    if teChunked && http11 && s.length == -1 then (true, s.transferEncoding)
    else if teChunked then (chunked0, None)
    else (chunked0, s.transferEncoding)
  }

  /** Keep-alive: the client wants it, the length is known or chunked, and the response does not say "close". */
  function KeepAlive(http11: bool, requestConnection: string, length: int, chunked: bool, connection: Option<Header>): bool
  {
    ClientWantsKeepAlive(http11, requestConnection)
    && (length >= 0 || chunked)
    && (connection.None? || !AsciiEqualsCI(connection.value.value, "close"))
  }

  /** The head bytes, in the order writeHeaders appends them. */
  function HeadText(statusLine: string, s: HeadScan, te: Option<Header>, http11: bool, keepAlive: bool): string
  {
    statusLine + s.lines + LengthLine(s) + TypeLine(s) + ConnectionLine(http11, keepAlive) + CodingLine(te) + CRLF
  }

  /** A Content-Length line unless the length is unknown. */
  function LengthLine(s: HeadScan): string
  {
    if s.length != -1 then ContentLengthLine(s.length) else []
  }

  /**
   * The length line carries the full length; the line writeHeaders builds
   * with a formatter for int is the same one whenever the length fits in 32
   * bits, and differs above that (Http.ContentLengthLineAsWrittenWraps).
   */
  lemma LengthLineAsWritten(s: HeadScan)
    requires Int32Min <= s.length <= Int32Max
    ensures LengthLine(s) == (if s.length != -1 then ContentLengthLineAsWritten(s.length) else [])
  {
    ContentLengthLinesAgree(s.length);
  }

  /** The user's Content-Type, else text/plain for a non-empty body. */
  function TypeLine(s: HeadScan): string
  {
    if s.contentType.Some? then HeaderLine(s.contentType.value)
    else if s.length > 0 then "Content-Type: text/plain\r\n" else []
  }

  /** A Connection line where HTTP/1.1's default (keep-alive) does not already say it. */
  function ConnectionLine(http11: bool, keepAlive: bool): string
  {
    if !http11 || !keepAlive
    then (if keepAlive then "Connection: keep-alive\r\n" else "Connection: close\r\n")
    else []
  }

  function CodingLine(te: Option<Header>): string
  {
    if te.Some? then HeaderLine(te.value) else []
  }

  /** writeHeaders as a value: the head bytes and the response length, persistence and coding it settles. */
  function ResponseHead(version: string, statusText: string, hs: seq<Header>, length0: int, chunked0: bool,
                        http11: bool, requestConnection: string): ResponseHeadResult
  {
    var s := Scan(hs, length0);
    var (chunked, te) := Coding(s, chunked0, http11);
    var keepAlive := KeepAlive(http11, requestConnection, s.length, chunked, s.connection);
    ResponseHeadResult(HeadText(version + " " + statusText + CRLF, s, te, http11, keepAlive), s.length, keepAlive, chunked)
  }

  // ---------------------------------------------------------------------
  // The public operations, as functions of the state
  // ---------------------------------------------------------------------

  function HeadersWritten(c: Conn, e: Env, code: int, hs: seq<Header>): Conn
  {
    if c.state != SendingHeaders then c
    else
      var r := ResponseHead(c.version, StatusText(e.statuses, code), hs, c.responseLength, c.chunked, c.http11,
                            HeaderValue(c.requestHeaders, "connection"));
      var c1 := c.(statusCode := code, responseLength := r.length, keepAlive := r.keepAlive, chunked := r.chunked);
      EnterSendingContent(Written(c1, r.text), e)
  }

  function ContentWritten(c: Conn, e: Env, data: string): Conn
  {
    if c.state != SendingContent then c
    else if c.responseLength == 0 then c
    else if c.responseLength > 0 && |data| + c.bytesSent > c.responseLength then c
    else if |data| > 0 && c.requestMethod != "HEAD" then
      var c1 := Written(c.(bytesSent := c.bytesSent + |data|), if c.chunked then ChunkFrame(data) else data);
      if c1.bytesSent == c1.responseLength then EnterCompleted(c1, e) else c1
    else c
  }

  function ContentEnded(c: Conn, e: Env): Conn
  {
    if c.state != SendingContent then c
    else if c.responseLength >= 0 then c
    else EnterCompleted(if c.chunked then Written(c, LastChunk) else c.(keepAlive := false), e)
  }

  function ResponseWritten(c: Conn, e: Env, code: int, hs: seq<Header>, body: string): Conn
  {
    if c.state != SendingHeaders then c
    else
      var c1 := HeadersWritten(c.(responseLength := |body|), e, code, hs);
      if body != [] && c1.requestMethod != "HEAD" then ContentWritten(c1, e, body) else c1
  }

  /** initialize: forget any previous request and wait for a head. */
  function Initialized(c: Conn): Conn
  {
    EnterReceivingHeaders(c.(parsed := NothingParsed, buffer := [], refs := [], params := []))
  }

  /** Bytes arrive on the input device (readyRead). */
  function Delivered(c: Conn, e: Env, bytes: string): Conn
  {
    Pump(c.(input := c.input + bytes), e)
  }

  /** The output device handed n bytes on (bytesWritten), then drain. */
  function Flushed(c: Conn, n: nat): Conn
  {
    DrainStep(c.(backlog := if n <= c.backlog then c.backlog - n else 0))
  }

  // ---------------------------------------------------------------------
  // Query parameters
  // ---------------------------------------------------------------------

  /** The first index at or after lo holding ch, or |s|. */
  function NextIndex(s: string, ch: char, lo: nat): (r: nat)
    requires lo <= |s|
    ensures lo <= r <= |s|
    ensures r < |s| ==> s[r] == ch
    ensures forall j :: lo <= j < r ==> s[j] != ch
    decreases |s| - lo
  {
    if lo == |s| || s[lo] == ch then lo else NextIndex(s, ch, lo + 1)
  }

  /** The parameter one segment stands for: split at its first '=' and decoded; no '=' gives an empty value. */
  function SegmentParam(seg: string): Param
  {
    var k := NextIndex(seg, '=', 0);
    if k < |seg| then Param(PercentDecode(seg[..k]), PercentDecode(seg[k + 1..]))
    else Param(PercentDecode(seg), [])
  }

  /** requestParams: the parameters of the '&'-separated segments of a query string. */
  function ParseQuery(q: string): seq<Param>
    decreases |q|, 1
  {
    if q == [] then []
    else
      var e := NextIndex(q, '&', 0);
      [SegmentParam(q[..e])] + ParamsAfter(q, e)
  }

  /** The parameters after the segment that ends at e. */
  function ParamsAfter(q: string, e: nat): seq<Param>
    decreases |q|, 0
  {
    if e < |q| then ParseQuery(q[e + 1..]) else []
  }

  /** The parameters of the segments from position c on. */
  function ParamsFrom(q: string, c: nat): seq<Param>
  {
    ParseQuery(q[if c <= |q| then c else |q|..])
  }

  /** requestParams caches: it parses only when nothing is cached and the query is not empty. */
  function ParamsCached(c: Conn): Conn
  {
    if c.params == [] && c.query != [] then c.(params := ParseQuery(c.query)) else c
  }

  // ---------------------------------------------------------------------
  // The connection object
  // ---------------------------------------------------------------------

  /**
   * The connection object.  Its private part (HttpConnectionPrivate, reached
   * through d_ptr in the source) is the field d, which every operation
   * updates in place.
   */
  class HttpConnection {
    const env: Env
    var d: Conn

    constructor (env: Env)
      ensures this.env == env && d.state == Uninitialized
      ensures d.input == [] && d.output == [] && d.backlog == 0 && d.events == [] && d.buffer == []
    {
      this.env := env;
      d := Conn(Uninitialized, [], [], 0, [], [], NothingParsed, [], [], -1, 0, false,
                [], [], [], [], [], [], [], [], 0, -1, 0, false, false);
    }

    /** A write to the output device. */
    method Write(bytes: string)
      modifies this
      ensures d == Written(old(d), bytes)
    {
      d := d.(output := d.output + bytes, backlog := d.backlog + |bytes|);
    }

    method TransitionToClosed()
      modifies this
      ensures d == EnterClosed(old(d))
    {
      if d.state == Closed {
        return;
      }
      d := d.(state := Closed, events := d.events + [ClosedEvent]);
    }

    method Drain()
      modifies this
      ensures d == DrainStep(old(d))
    {
      if d.state != Flushing {
        return;
      }
      if d.backlog == 0 {
        TransitionToClosed();
      }
    }

    method TransitionToFlushing()
      modifies this
      ensures d == EnterFlushing(old(d))
    {
      if d.state == Flushing {
        return;
      }
      d := d.(state := Flushing);
      Drain();
    }

    method WriteRequestErrorResponse(code: int)
      modifies this
      ensures d == ErrorReply(old(d), env, code)
    {
      if d.state == Closed {
        return;
      }
      Write(ErrorResponse(ErrorText(env.statuses, code)));
      TransitionToFlushing();
    }

    method TransitionToReceivingHeaders()
      modifies this
      ensures d == EnterReceivingHeaders(old(d))
    {
      if d.state == ReceivingHeaders {
        return;
      }
      d := d.(state := ReceivingHeaders, parsed := NothingParsed, requestContentLength := 0, clIndex := -1, http11 := false);
    }

    /** The parser's field callback. */
    method ParserHttpField(ref: HeaderRef)
      modifies this
      ensures d == FieldSeen(old(d), ref)
    {
      if AsciiEqualsCI(Slice(d.buffer, ref.field), "content-length") {
        d := d.(clIndex := |d.refs|);
      }
      d := d.(refs := d.refs + [ref]);
    }

    /** One parser run over the buffer: its callbacks in order, then its new state. */
    method Execute()
      modifies this
      ensures d == Executed(old(d), env.parse(old(d).buffer, old(d).parsed.nread))
    {
      var r := env.parse(d.buffer, d.parsed.nread);
      ghost var d0 := d;
      var i := 0;
      while i < |r.fields|
        invariant 0 <= i <= |r.fields|
        invariant d == FieldsSeen(d0, r.fields[..i])
      {
        assert r.fields[..i + 1][..i] == r.fields[..i];
        ParserHttpField(r.fields[i]);
        i := i + 1;
      }
      assert r.fields[..|r.fields|] == r.fields;
      d := d.(parsed := r);
    }

    method SetupRequestHeaders()
      modifies this
      ensures d == SetupHeaders(old(d))
    {
      var hs: seq<Header> := [];
      var i := 0;
      while i < |d.refs|
        invariant 0 <= i <= |d.refs| && d == old(d)
        invariant |hs| == i
        invariant forall j :: 0 <= j < i ==> hs[j] == Header(Slice(d.buffer, d.refs[j].field), Slice(d.buffer, d.refs[j].value))
      {
        hs := hs + [Header(Slice(d.buffer, d.refs[i].field), Slice(d.buffer, d.refs[i].value))];
        i := i + 1;
      }
      d := d.(requestHeaders := hs);
    }

    method ProcessInput()
      modifies this
      decreases Rank(d.state), 1
      ensures d == Pump(old(d), env)
    {
      if d.state != ReceivingHeaders && d.state != ReceivingContent {
        return;
      }
      if |d.input| > 0 {
        d := d.(buffer := d.buffer + d.input, input := []);
      } else {
        assert d.buffer + d.input == d.buffer;
        assert d == d.(buffer := d.buffer + d.input, input := []);
      }
      if d.state == ReceivingHeaders {
        if d.buffer != [] {
          Execute();
        }
        if d.parsed.nread > MaximumRequestHeaderLength || d.parsed.error {
          WriteRequestErrorResponse(400);
        } else if d.parsed.finished {
          TransitionToReceivingContent();
        }
      } else if |d.buffer| - d.parsed.head.bodyStart >= d.requestContentLength {
        TransitionToSendingHeaders();
      }
    }

    method TransitionToReceivingContent()
      modifies this
      decreases Rank(d.state), 0
      ensures d == EnterReceivingContent(old(d), env)
    {
      if d.state == ReceivingContent {
        return;
      }
      d := d.(state := ReceivingContent);
      SetupRequestHeaders();
      var ok := ReadContentLength();
      if d.requestContentLength < 0 {
        WriteRequestErrorResponse(400);
      } else if d.requestContentLength > MaximumRequestContentLength || !ok {
        WriteRequestErrorResponse(413);
      } else if d.requestContentLength > 0 {
        AwaitContent();
      } else {
        TransitionToSendingHeaders();
      }
    }

    /** The flagged Content-Length header, read as an int. */
    method ReadContentLength() returns (ok: bool)
      modifies this
      ensures d == old(d).(requestContentLength := RequestLength(old(d).requestHeaders, old(d).clIndex, old(d).requestContentLength).0)
      ensures ok == RequestLength(old(d).requestHeaders, old(d).clIndex, old(d).requestContentLength).1
    {
      ok := true;
      if 0 <= d.clIndex < |d.requestHeaders| {
        var v := ToInt(d.requestHeaders[d.clIndex].value);
        if v.Some? {
          d := d.(requestContentLength := v.value);
        } else {
          d := d.(requestContentLength := 0);
          ok := false;
        }
      }
    }

    method AwaitContent()
      modifies this
      decreases Rank(d.state), 2
      ensures d == ContentAwaited(old(d), env)
    {
      var expectation := RequestHeaderValue("expect");
      if expectation == "100-continue" {
        Write(ContinueResponse);
      }
      if |d.requestHeaders| > 0 {
        d := d.(requestHeaders := d.requestHeaders[..|d.requestHeaders| - 1]);
      }
      ProcessInput();
    }

    method TransitionToSendingHeaders()
      modifies this
      ensures d == EnterSendingHeaders(old(d))
    {
      if d.state == SendingHeaders {
        return;
      }
      d := d.(state := SendingHeaders);
      if |d.requestHeaders| != |d.refs| {
        SetupRequestHeaders();
      }
      var b := d.buffer;
      var h := d.parsed.head;
      var version := Slice(b, h.version);
      d := d.(uri := Slice(b, h.uri), requestMethod := Slice(b, h.requestMethod), fragment := Slice(b, h.fragment),
              path := Slice(b, h.path), query := Slice(b, h.query), version := version,
              http11 := version == "HTTP/1.1",
              content := Slice(b, Span(h.bodyStart, if d.requestContentLength >= 0 then d.requestContentLength else 0)),
              responseLength := -1, bytesSent := 0, keepAlive := true, chunked := false,
              events := d.events + [RequestReady]);
    }

    method TransitionToSendingContent()
      modifies this
      ensures d == EnterSendingContent(old(d), env)
    {
      if d.state == SendingContent {
        return;
      }
      d := d.(state := SendingContent);
      if d.responseLength == 0 || d.requestMethod == "HEAD" {
        TransitionToCompleted();
      }
      if d.responseLength < 0 && !d.chunked {
        d := d.(keepAlive := false);
      }
    }

    method TransitionToCompleted()
      modifies this
      ensures d == EnterCompleted(old(d), env)
    {
      if d.state == Completed {
        return;
      }
      d := d.(state := Completed, events := d.events + [RequestCompleted]);
      var remaining := |d.buffer| - d.parsed.head.bodyStart - d.requestContentLength;
      d := d.(buffer := Right(d.buffer, remaining), refs := [], params := [], content := []);
      assert d == Settled(old(d));
      if d.keepAlive {
        TransitionToReceivingHeaders();
        ProcessInput();
      } else {
        TransitionToFlushing();
      }
    }

    /** initialize(inputDevice, outputDevice); the processing of bytes already waiting is left to Receive. */
    method Initialize()
      modifies this
      ensures d == Initialized(old(d))
    {
      d := d.(parsed := NothingParsed, buffer := [], refs := [], params := []);
      TransitionToReceivingHeaders();
    }

    /** readyRead: bytes arrive and are processed. */
    method Receive(bytes: string)
      modifies this
      ensures d == Delivered(old(d), env, bytes)
    {
      d := d.(input := d.input + bytes);
      ProcessInput();
    }

    /** bytesWritten: the output device handed n bytes on; drain. */
    method BytesWritten(n: nat)
      modifies this
      ensures d == Flushed(old(d), n)
    {
      d := d.(backlog := if n <= d.backlog then d.backlog - n else 0);
      Drain();
    }

    method WriteHeaders(code: int, hs: seq<Header>)
      modifies this
      ensures d == HeadersWritten(old(d), env, code, hs)
    {
      if d.state != SendingHeaders {
        return;
      }
      var statusText := StatusText(env.statuses, code);
      var scan := ScanHeaders(hs, d.responseLength);
      var chunked, transferEncoding := SettleCoding(scan, d.chunked, d.http11);
      var requestConnection := RequestHeaderValue("connection");
      var keepAlive := NegotiateKeepAlive(d.http11, requestConnection, scan.length, chunked, scan.connection);
      var text := HeadLines(d.version + " " + statusText + CRLF, scan, transferEncoding, d.http11, keepAlive);
      d := d.(statusCode := code, responseLength := scan.length, keepAlive := keepAlive, chunked := chunked);
      Write(text);
      TransitionToSendingContent();
    }

    method WriteContent(data: string)
      modifies this
      ensures d == ContentWritten(old(d), env, data)
    {
      if d.state != SendingContent {
        return;
      } else if d.responseLength == 0 {
        return;
      } else if d.responseLength > 0 && |data| + d.bytesSent > d.responseLength {
        return;
      }
      if |data| > 0 && d.requestMethod != "HEAD" {
        d := d.(bytesSent := d.bytesSent + |data|);
        WriteFrame(data);
        if d.bytesSent == d.responseLength {
          TransitionToCompleted();
        }
      }
    }

    /** The bytes of one writeContent call: the data, framed as a chunk when the response is chunked. */
    method WriteFrame(data: string)
      modifies this
      ensures d == Written(old(d), if old(d).chunked then ChunkFrame(data) else data)
    {
      if d.chunked {
        ghost var before := d.output;
        Write(HexText(|data|) + CRLF);
        Write(data);
        Write(CRLF);
        assert d.output == before + ChunkFrame(data);
      } else {
        Write(data);
      }
    }

    method EndContent()
      modifies this
      ensures d == ContentEnded(old(d), env)
    {
      if d.state != SendingContent {
        return;
      }
      if d.responseLength >= 0 {
        return;
      }
      if d.chunked {
        Write(LastChunk);
      } else {
        d := d.(keepAlive := false);
      }
      TransitionToCompleted();
    }

    method WriteResponse(code: int, hs: seq<Header>, body: string)
      modifies this
      ensures d == ResponseWritten(old(d), env, code, hs, body)
    {
      if d.state != SendingHeaders {
        return;
      }
      d := d.(responseLength := |body|);
      WriteHeaders(code, hs);
      if body != [] && d.requestMethod != "HEAD" {
        WriteContent(body);
      }
    }

    method Close()
      modifies this
      ensures d == EnterClosed(old(d))
    {
      if d.state != Closed {
        TransitionToClosed();
      }
    }

    /** requestHeaderValue: the value of the first header whose name matches, ignoring case. */
    method RequestHeaderValue(field: string) returns (v: string)
      ensures v == HeaderValue(d.requestHeaders, field)
    {
      var hs := d.requestHeaders;
      var i := 0;
      while i < |hs|
        invariant 0 <= i <= |hs|
        invariant FindHeader(hs, field, i) == FindHeader(hs, field, 0)
      {
        if AsciiEqualsCI(field, hs[i].name) {
          return hs[i].value;
        }
        i := i + 1;
      }
      return [];
    }

    /** requestParams: parse the query string once, on first use. */
    method RequestParams() returns (ps: seq<Param>)
      modifies this
      ensures d == ParamsCached(old(d))
      ensures ps == d.params
    {
      if d.params == [] && d.query != [] {
        var parsedParams := ParseParams(d.query);
        d := d.(params := parsedParams);
      }
      ps := d.params;
    }

    /** requestParamValue: the value of the first parameter whose name matches, ignoring case. */
    method RequestParamValue(name: string) returns (v: string)
      modifies this
      ensures d == ParamsCached(old(d))
      ensures v == ParamValue(d.params, name)
    {
      var ps := RequestParams();
      var i := 0;
      while i < |ps|
        invariant 0 <= i <= |ps|
        invariant FindParam(ps, name, i) == FindParam(ps, name, 0)
      {
        if AsciiEqualsCI(ps[i].name, name) {
          return ps[i].value;
        }
        i := i + 1;
      }
      return [];
    }

    /** setRequestParam: replace the first parameter whose name matches, or append one. */
    method SetRequestParam(name: string, value: string)
      modifies this
      ensures d == ParamsCached(old(d)).(params := SetParam(ParamsCached(old(d)).params, name, value))
    {
      var ps := RequestParams();
      var i := 0;
      while i < |ps|
        invariant 0 <= i <= |ps|
        invariant FindParam(ps, name, i) == FindParam(ps, name, 0)
      {
        if AsciiEqualsCI(ps[i].name, name) {
          d := d.(params := ps[i := Param(name, value)]);
          return;
        }
        i := i + 1;
      }
      d := d.(params := ps + [Param(name, value)]);
    }
  }

  /** The header loop of writeHeaders. */
  method ScanHeaders(hs: seq<Header>, length0: int) returns (scan: HeadScan)
    ensures scan == Scan(hs, length0)
  {
    var length := length0;
    var lines: string := [];
    var contentType: Option<Header> := None;
    var connection: Option<Header> := None;
    var transferEncoding: Option<Header> := None;
    var i := 0;
    while i < |hs|
      invariant 0 <= i <= |hs|
      invariant HeadScan(lines, length, contentType, connection, transferEncoding) == Scan(hs[..i], length0)
    {
      assert hs[..i + 1][..i] == hs[..i];
      var h := hs[i];
      if AsciiEqualsCI(h.name, "content-length") {
        var v := ToLongLong(h.value);
        length := if v.Some? then v.value else -1;
      } else if AsciiEqualsCI(h.name, "content-type") {
        contentType := Some(h);
      } else if AsciiEqualsCI(h.name, "connection") {
        connection := Some(h);
      } else if AsciiEqualsCI(h.name, "transfer-encoding") {
        transferEncoding := Some(h);
      } else {
        lines := lines + HeaderLine(h);
      }
      i := i + 1;
    }
    assert hs[..|hs|] == hs;
    scan := HeadScan(lines, length, contentType, connection, transferEncoding);
  }

  /** The Transfer-Encoding decision of writeHeaders. */
  method SettleCoding(scan: HeadScan, chunked0: bool, http11: bool) returns (chunked: bool, te: Option<Header>)
    ensures (chunked, te) == Coding(scan, chunked0, http11)
  {
    chunked := chunked0;
    te := scan.transferEncoding;
    if te.Some? && AsciiEqualsCI(te.value.value, "chunked") {
      if http11 {
        if scan.length == -1 {
          chunked := true;
        } else {
          te := None;
        }
      } else {
        te := None;
      }
    }
  }

  /** The keep-alive negotiation of writeHeaders. */
  method NegotiateKeepAlive(http11: bool, requestConnection: string, length: int, chunked: bool, connection: Option<Header>)
    returns (keepAlive: bool)
    ensures keepAlive == KeepAlive(http11, requestConnection, length, chunked, connection)
  {
    var clientWantsKeepAlive: bool;
    if http11 {
      clientWantsKeepAlive := !AsciiEqualsCI(requestConnection, "close");
    } else {
      clientWantsKeepAlive := AsciiEqualsCI(requestConnection, "keep-alive");
    }
    keepAlive := false;
    if clientWantsKeepAlive {
      var serverWantsKeepAlive := length >= 0 || chunked;
      if serverWantsKeepAlive && connection.Some? {
        serverWantsKeepAlive := !AsciiEqualsCI(connection.value.value, "close");
      }
      keepAlive := serverWantsKeepAlive;
    }
  }

  /** The appends of writeHeaders after the header loop. */
  method HeadLines(statusLine: string, scan: HeadScan, transferEncoding: Option<Header>, http11: bool, keepAlive: bool)
    returns (text: string)
    ensures text == HeadText(statusLine, scan, transferEncoding, http11, keepAlive)
  {
    text := statusLine + scan.lines;
    ghost var t0 := text;
    if scan.length != -1 {
      text := text + ContentLengthLine(scan.length);
    }
    assert text == t0 + LengthLine(scan);
    ghost var t1 := text;
    if scan.contentType.Some? {
      text := text + HeaderLine(scan.contentType.value);
    } else if scan.length > 0 {
      text := text + "Content-Type: text/plain\r\n";
    }
    assert text == t1 + TypeLine(scan);
    ghost var t2 := text;
    if !http11 || !keepAlive {
      text := text + (if keepAlive then "Connection: keep-alive\r\n" else "Connection: close\r\n");
    }
    assert text == t2 + ConnectionLine(http11, keepAlive);
    ghost var t3 := text;
    if transferEncoding.Some? {
      text := text + HeaderLine(transferEncoding.value);
    }
    assert text == t3 + CodingLine(transferEncoding);
    text := text + CRLF;
  }

  /** The parameter loop of requestParams: segments between '&', split at their first '='. */
  method ParseParams(q: string) returns (ps: seq<Param>)
    ensures ps == ParseQuery(q)
  {
    ps := [];
    var c := 0;
    assert q[0..] == q;
    while c < |q|
      invariant 0 <= c <= |q| + 1
      invariant ps + ParamsFrom(q, c) == ParseQuery(q)
      decreases |q| + 1 - c
    {
      var p, paramEnd := ParseParam(q, c);
      assert (ps + [p]) + ParamsFrom(q, paramEnd + 1) == ps + ([p] + ParamsFrom(q, paramEnd + 1));
      ps := ps + [p];
      c := paramEnd + 1;
    }
    NoParamsAfterEnd(q, c);
    assert ps + [] == ps;
  }

  /** Past the end of the query there are no more segments. */
  lemma NoParamsAfterEnd(q: string, c: nat)
    requires |q| <= c
    ensures ParamsFrom(q, c) == []
  {
    assert q[|q|..] == [];
  }

  /** One segment: find its end and its '=', then decode the two sides. */
  method ParseParam(q: string, c: nat) returns (p: Param, paramEnd: nat)
    requires c < |q|
    ensures c <= paramEnd <= |q| && p == SegmentParam(q[c..paramEnd])
    ensures ParamsFrom(q, c) == [p] + ParamsFrom(q, paramEnd + 1)
  {
    paramEnd := c;
    while paramEnd < |q| && q[paramEnd] != '&'
      invariant c <= paramEnd <= |q|
      invariant forall j :: c <= j < paramEnd ==> q[j] != '&'
    {
      paramEnd := paramEnd + 1;
    }
    var keyEnd := c;
    while keyEnd < paramEnd && q[keyEnd] != '='
      invariant c <= keyEnd <= paramEnd
      invariant forall j :: c <= j < keyEnd ==> q[j] != '='
    {
      keyEnd := keyEnd + 1;
    }
    SegmentSplit(q, c, keyEnd, paramEnd);
    if keyEnd < paramEnd {
      p := Param(PercentDecode(q[c..keyEnd]), PercentDecode(q[keyEnd + 1..paramEnd]));
    } else {
      p := Param(PercentDecode(q[c..paramEnd]), []);
    }
    ParamsFromStep(q, c, paramEnd);
  }

  /** The segment q[c..paramEnd] splits at keyEnd, its first '='. */
  lemma SegmentSplit(q: string, c: nat, keyEnd: nat, paramEnd: nat)
    requires c <= keyEnd <= paramEnd <= |q|
    requires keyEnd < paramEnd ==> q[keyEnd] == '='
    requires forall j :: c <= j < keyEnd ==> q[j] != '='
    ensures SegmentParam(q[c..paramEnd])
            == if keyEnd < paramEnd then Param(PercentDecode(q[c..keyEnd]), PercentDecode(q[keyEnd + 1..paramEnd]))
               else Param(PercentDecode(q[c..paramEnd]), [])
  {
    var seg := q[c..paramEnd];
    NextIndexIsFirst(seg, '=', 0, keyEnd - c);
    if keyEnd < paramEnd {
      assert seg[..keyEnd - c] == q[c..keyEnd];
      assert seg[keyEnd - c + 1..] == q[keyEnd + 1..paramEnd];
    }
  }

  /** The segments from c on: the one that ends at the next '&' (or the end), then those after it. */
  lemma ParamsFromStep(q: string, c: nat, paramEnd: nat)
    requires c <= paramEnd <= |q| && c < |q|
    requires paramEnd < |q| ==> q[paramEnd] == '&'
    requires forall j :: c <= j < paramEnd ==> q[j] != '&'
    ensures ParamsFrom(q, c) == [SegmentParam(q[c..paramEnd])] + ParamsFrom(q, paramEnd + 1)
  {
    var s := q[c..];
    var e := paramEnd - c;
    NextIndexIsFirst(s, '&', 0, e);
    assert s != [] && NextIndex(s, '&', 0) == e;
    assert s[..e] == q[c..paramEnd];
    assert ParamsFrom(q, c) == [SegmentParam(q[c..paramEnd])] + ParamsAfter(s, e);
    if paramEnd < |q| {
      assert s[e + 1..] == q[paramEnd + 1..];
      assert ParamsAfter(s, e) == ParseQuery(q[paramEnd + 1..]);
    } else {
      assert q[|q|..] == [];
      assert ParamsAfter(s, e) == [] == ParseQuery(q[|q|..]);
    }
  }

  /** A position that holds ch and has no ch before it (from lo) is the one NextIndex finds. */
  lemma NextIndexIsFirst(s: string, ch: char, lo: nat, k: nat)
    requires lo <= k <= |s|
    requires k < |s| ==> s[k] == ch
    requires forall j :: lo <= j < k ==> s[j] != ch
    ensures NextIndex(s, ch, lo) == k
  {
  }

  // ---------------------------------------------------------------------
  // What the state machine guarantees
  // ---------------------------------------------------------------------

  /** Nothing written and nothing signalled is ever taken back. */
  predicate Extends(c: Conn, r: Conn)
  {
    c.output <= r.output && c.events <= r.events
  }

  /** The parser's field callbacks touch only the header offsets and the Content-Length index. */
  lemma {:induction false} FieldsSeenFrame(c: Conn, fs: seq<HeaderRef>)
    ensures FieldsSeen(c, fs) == c.(refs := FieldsSeen(c, fs).refs, clIndex := FieldsSeen(c, fs).clIndex)
    ensures FieldsSeen(c, fs).refs == c.refs + fs
  {
    if fs != [] {
      FieldsSeenFrame(c, fs[..|fs| - 1]);
      assert fs[..|fs| - 1] + [fs[|fs| - 1]] == fs;
    }
  }

  /** The Content-Length header of a request is its last one: its index, or -1 when there is none. */
  lemma {:induction false} LastContentLengthFlagged(c: Conn, fs: seq<HeaderRef>)
    requires c.refs == [] && c.clIndex == -1
    ensures var r := FieldsSeen(c, fs);
      (r.clIndex == -1 && forall j :: 0 <= j < |fs| ==> !AsciiEqualsCI(Slice(c.buffer, fs[j].field), "content-length"))
      || (0 <= r.clIndex < |fs| && AsciiEqualsCI(Slice(c.buffer, fs[r.clIndex].field), "content-length")
          && forall j :: r.clIndex < j < |fs| ==> !AsciiEqualsCI(Slice(c.buffer, fs[j].field), "content-length"))
  {
    if fs != [] {
      var init := fs[..|fs| - 1];
      LastContentLengthFlagged(c, init);
      FieldsSeenFrame(c, init);
      assert forall j :: 0 <= j < |init| ==> fs[j] == init[j];
    }
  }

  /** An error reply appends its head and leaves the connection Flushing; the request bytes stay. */
  lemma ErrorReplyEffect(c: Conn, e: Env, code: int)
    requires c.state != Closed && c.state != Flushing
    ensures var r := ErrorReply(c, e, code);
      r.output == c.output + ErrorResponse(ErrorText(e.statuses, code)) && r.state == Flushing
      && r.events == c.events && r.buffer == c.buffer && r.input == c.input
  {
  }

  lemma ErrorReplyFrame(c: Conn, e: Env, code: int)
    ensures var r := ErrorReply(c, e, code);
      Extends(c, r) && r.buffer == c.buffer && r.input == c.input
      && (c.state != Closed ==> r.state == Flushing || r.state == Closed)
  {
  }

  /** The states processInput can leave a request in: it never gets past handing the request out. */
  predicate BeforeResponse(st: State)
  {
    st == ReceivingHeaders || st == ReceivingContent || st == SendingHeaders || st == Flushing || st == Closed
  }

  /** transitionToSendingHeaders writes nothing and keeps the received bytes. */
  lemma EnterSendingHeadersFrame(c: Conn)
    ensures var r := EnterSendingHeaders(c);
      r.output == c.output && c.events <= r.events && r.buffer == c.buffer && r.input == c.input
      && r.state == SendingHeaders
  {
  }

  /**
   * processInput conserves the received bytes (buffer followed by unread
   * input) and, in a receiving state, reads everything available.
   */
  lemma {:induction false} PumpConserves(c: Conn, e: Env)
    ensures var r := Pump(c, e);
      Extends(c, r) && r.buffer + r.input == c.buffer + c.input
      && ((c.state == ReceivingHeaders || c.state == ReceivingContent) ==> r.input == [] && BeforeResponse(r.state))
    decreases Rank(c.state), 1
  {
    if c.state == ReceivingHeaders || c.state == ReceivingContent {
      var c1 := c.(buffer := c.buffer + c.input, input := []);
      if c1.state == ReceivingHeaders {
        if c1.buffer != [] {
          FieldsSeenFrame(c1, e.parse(c1.buffer, c1.parsed.nread).fields);
        }
        var c2 := if c1.buffer == [] then c1 else Executed(c1, e.parse(c1.buffer, c1.parsed.nread));
        assert c2.buffer == c1.buffer && c2.input == [] && c2.output == c.output && c2.events == c.events;
        if c2.parsed.nread > MaximumRequestHeaderLength || c2.parsed.error {
          assert Pump(c, e) == ErrorReply(c2, e, 400);
          ErrorReplyFrame(c2, e, 400);
        } else if c2.parsed.finished {
          assert Pump(c, e) == EnterReceivingContent(c2, e);
          EnterReceivingContentConserves(c2, e);
        } else {
          assert Pump(c, e) == c2;
        }
      } else if |c1.buffer| - c1.parsed.head.bodyStart >= c1.requestContentLength {
        assert Pump(c, e) == EnterSendingHeaders(c1);
        EnterSendingHeadersFrame(c1);
      } else {
        assert Pump(c, e) == c1;
      }
    }
  }

  lemma {:induction false} EnterReceivingContentConserves(c: Conn, e: Env)
    ensures var r := EnterReceivingContent(c, e);
      Extends(c, r) && r.buffer + r.input == c.buffer + c.input && (c.input == [] ==> r.input == [])
      && (c.state != ReceivingContent ==> BeforeResponse(r.state))
    decreases Rank(c.state), 0
  {
    if c.state != ReceivingContent {
      var c1 := SetupHeaders(c.(state := ReceivingContent));
      var (len, ok) := RequestLength(c1.requestHeaders, c1.clIndex, c1.requestContentLength);
      var c2 := c1.(requestContentLength := len);
      if len < 0 {
        assert EnterReceivingContent(c, e) == ErrorReply(c2, e, 400);
        ErrorReplyFrame(c2, e, 400);
      } else if len > MaximumRequestContentLength || !ok {
        assert EnterReceivingContent(c, e) == ErrorReply(c2, e, 413);
        ErrorReplyFrame(c2, e, 413);
      } else if len > 0 {
        assert EnterReceivingContent(c, e) == ContentAwaited(c2, e);
        ContentAwaitedConserves(c2, e);
      } else {
        assert EnterReceivingContent(c, e) == EnterSendingHeaders(c2);
        EnterSendingHeadersFrame(c2);
      }
    }
  }

  lemma {:induction false} ContentAwaitedConserves(c: Conn, e: Env)
    requires c.state == ReceivingContent
    ensures var r := ContentAwaited(c, e);
      Extends(c, r) && r.buffer + r.input == c.buffer + c.input && r.input == [] && BeforeResponse(r.state)
    decreases Rank(c.state), 2
  {
    var c1 := if HeaderValue(c.requestHeaders, "expect") == "100-continue" then Written(c, ContinueResponse) else c;
    PumpConserves(c1.(requestHeaders := DropLast(c1.requestHeaders)), e);
  }

  /** The length transitionToReceivingContent settles on for a request head, and whether it parsed. */
  function DeclaredLength(c: Conn): (int, bool)
  {
    RequestLength(HeadersOf(c.buffer, c.refs), c.clIndex, c.requestContentLength)
  }

  /**
   * transitionToReceivingContent answers a negative Content-Length with 400
   * and one over 128 MiB or not a number with 413, then flushes.
   */
  lemma LengthRejected(c: Conn, e: Env)
    requires c.state == ReceivingHeaders
    requires DeclaredLength(c).0 < 0 || DeclaredLength(c).0 > MaximumRequestContentLength || !DeclaredLength(c).1
    ensures var code := if DeclaredLength(c).0 < 0 then 400 else 413;
      var r := EnterReceivingContent(c, e);
      r.output == c.output + ErrorResponse(ErrorText(e.statuses, code)) && r.state == Flushing && r.events == c.events
  {
    var c1 := SetupHeaders(c.(state := ReceivingContent));
    var c2 := c1.(requestContentLength := DeclaredLength(c).0);
    ErrorReplyEffect(c2, e, if DeclaredLength(c).0 < 0 then 400 else 413);
  }

  /** A request without a body (length 0) is handed out at once, with empty content. */
  lemma EmptyBodyReady(c: Conn, e: Env)
    requires c.state == ReceivingHeaders && DeclaredLength(c) == (0, true)
    ensures var r := EnterReceivingContent(c, e);
      r.state == SendingHeaders && r.content == [] && r.output == c.output && r.events == c.events + [RequestReady]
  {
  }

  /**
   * In ReceivingContent, processInput reads everything available and hands
   * the request out, with exactly its body as content, once the buffer
   * holds Content-Length bytes after the head.
   */
  lemma ContentArrives(c: Conn, e: Env)
    requires c.state == ReceivingContent && c.requestContentLength >= 0
    ensures var r := Pump(c, e);
      var received := c.buffer + c.input;
      var bodyStart := c.parsed.head.bodyStart;
      r.output == c.output && r.buffer == received && r.input == [] && r.requestContentLength == c.requestContentLength
      && (r.state == SendingHeaders <==> |received| - bodyStart >= c.requestContentLength)
      && (r.state != SendingHeaders ==> r.state == ReceivingContent && r.events == c.events)
      && (r.state == SendingHeaders ==>
            r.content == received[bodyStart..bodyStart + c.requestContentLength] && r.events == c.events + [RequestReady])
  {
  }

  /**
   * A positive length within the limit answers "Expect: 100-continue" with
   * 100 Continue and then waits for the body as processInput does.
   */
  lemma BodyAwaited(c: Conn, e: Env)
    requires c.state == ReceivingHeaders
    requires 0 < DeclaredLength(c).0 <= MaximumRequestContentLength && DeclaredLength(c).1
    ensures var hs := HeadersOf(c.buffer, c.refs);
      var continues := HeaderValue(hs, "expect") == "100-continue";
      var c3 := c.(state := ReceivingContent, requestHeaders := DropLast(hs), requestContentLength := DeclaredLength(c).0,
                   output := if continues then c.output + ContinueResponse else c.output,
                   backlog := if continues then c.backlog + |ContinueResponse| else c.backlog);
      EnterReceivingContent(c, e) == Pump(c3, e)
  {
    var hs := HeadersOf(c.buffer, c.refs);
    var c2 := c.(state := ReceivingContent, requestHeaders := hs, requestContentLength := DeclaredLength(c).0);
    ContentAwaitedEntered(c, e);
    ContentAwaitedUnfolds(c2, e);
    var continues := HeaderValue(hs, "expect") == "100-continue";
    var c3 := c.(state := ReceivingContent, requestHeaders := DropLast(hs), requestContentLength := DeclaredLength(c).0,
                 output := if continues then c.output + ContinueResponse else c.output,
                 backlog := if continues then c.backlog + |ContinueResponse| else c.backlog);
    assert c2.(requestHeaders := DropLast(c2.requestHeaders),
               output := if continues then c2.output + ContinueResponse else c2.output,
               backlog := if continues then c2.backlog + |ContinueResponse| else c2.backlog) == c3;
  }

  /** The step of BodyAwaited through transitionToReceivingContent. */
  lemma ContentAwaitedEntered(c: Conn, e: Env)
    requires c.state == ReceivingHeaders
    requires 0 < DeclaredLength(c).0 <= MaximumRequestContentLength && DeclaredLength(c).1
    ensures EnterReceivingContent(c, e)
         == ContentAwaited(c.(state := ReceivingContent, requestHeaders := HeadersOf(c.buffer, c.refs),
                              requestContentLength := DeclaredLength(c).0), e)
  {
  }

  /** The step of BodyAwaited through the 100-continue answer. */
  lemma ContentAwaitedUnfolds(c: Conn, e: Env)
    ensures var continues := HeaderValue(c.requestHeaders, "expect") == "100-continue";
      ContentAwaited(c, e)
      == Pump(c.(requestHeaders := DropLast(c.requestHeaders),
                 output := if continues then c.output + ContinueResponse else c.output,
                 backlog := if continues then c.backlog + |ContinueResponse| else c.backlog), e)
  {
    var continues := HeaderValue(c.requestHeaders, "expect") == "100-continue";
    var c1 := if continues then Written(c, ContinueResponse) else c;
    var c3 := c.(requestHeaders := DropLast(c.requestHeaders),
                 output := if continues then c.output + ContinueResponse else c.output,
                 backlog := if continues then c.backlog + |ContinueResponse| else c.backlog);
    assert c1.(requestHeaders := DropLast(c1.requestHeaders)) == c3;
  }

  /**
   * An over-long or malformed request head is answered 400 and the
   * connection goes to Flushing.
   */
  lemma BadHeadRejected(c: Conn, e: Env)
    requires c.state == ReceivingHeaders && c.buffer + c.input != []
    requires e.parse(c.buffer + c.input, c.parsed.nread).nread > MaximumRequestHeaderLength || e.parse(c.buffer + c.input, c.parsed.nread).error
    ensures Pump(c, e).output == c.output + ErrorResponse(ErrorText(e.statuses, 400))
    ensures Pump(c, e).state == Flushing
  {
    var c1 := c.(buffer := c.buffer + c.input, input := []);
    FieldsSeenFrame(c1, e.parse(c1.buffer, c1.parsed.nread).fields);
    ErrorReplyEffect(Executed(c1, e.parse(c1.buffer, c1.parsed.nread)), e, 400);
  }

  /**
   * transitionToCompleted signals requestCompleted first, takes nothing
   * back, and leaves the connection before the next response (or flushing).
   */
  lemma EnterCompletedSettles(c: Conn, e: Env)
    requires c.state != Completed
    ensures var r := EnterCompleted(c, e);
      Extends(c, r) && |r.events| > |c.events| && r.events[|c.events|] == RequestCompleted && BeforeResponse(r.state)
  {
    var c2 := Settled(c);
    if c2.keepAlive {
      PumpConserves(EnterReceivingHeaders(c2), e);
    }
  }

  /**
   * transitionToCompleted keeps the bytes after this request's body: with
   * keep-alive they are the next request's buffer (followed by whatever
   * input was waiting), otherwise the connection flushes.
   */
  lemma CompletedKeepsPipelined(c: Conn, e: Env)
    requires c.state != Completed
    requires c.parsed.head.bodyStart + c.requestContentLength <= |c.buffer| && c.requestContentLength >= 0
    ensures var r := EnterCompleted(c, e);
      var n := c.parsed.head.bodyStart + c.requestContentLength;
      (c.keepAlive ==> r.buffer == c.buffer[n..] + c.input && r.input == [])
      && (!c.keepAlive ==> r.buffer == c.buffer[n..] && (r.state == Flushing || r.state == Closed))
  {
    var c2 := Settled(c);
    assert c2.buffer == c.buffer[c.parsed.head.bodyStart + c.requestContentLength..];
    if c2.keepAlive {
      PumpConserves(EnterReceivingHeaders(c2), e);
    }
  }

  /**
   * writeContent: a call that would exceed the declared length, an empty
   * call, a HEAD request or a declared length of 0 writes nothing;
   * otherwise the data (framed as a chunk when chunked) is written, and the
   * request completes exactly when the declared length has been sent.  The
   * bytes sent never exceed a declared length.
   */
  lemma ContentAccounting(c: Conn, e: Env, data: string)
    requires c.state == SendingContent
    requires c.responseLength < 0 || 0 <= c.bytesSent <= c.responseLength
    ensures var r := ContentWritten(c, e, data);
      var frame := if c.chunked then ChunkFrame(data) else data;
      var accepted := |data| > 0 && c.requestMethod != "HEAD" && c.responseLength != 0
                      && (c.responseLength < 0 || c.bytesSent + |data| <= c.responseLength);
      (!accepted ==> r == c)
      && (accepted ==> c.output + frame <= r.output && c.events <= r.events)
      && (accepted ==> (c.bytesSent + |data| == c.responseLength <==> r.state != SendingContent))
      && (accepted && r.state == SendingContent ==>
            r.bytesSent == c.bytesSent + |data| && r.output == c.output + frame && r.events == c.events)
      && (accepted && r.state != SendingContent ==> |r.events| > |c.events| && r.events[|c.events|] == RequestCompleted)
      && (r.state == SendingContent ==> r.responseLength < 0 || 0 <= r.bytesSent <= r.responseLength)
  {
    var frame := if c.chunked then ChunkFrame(data) else data;
    if |data| > 0 && c.requestMethod != "HEAD" && c.responseLength != 0
       && (c.responseLength < 0 || c.bytesSent + |data| <= c.responseLength) {
      var c1 := Written(c.(bytesSent := c.bytesSent + |data|), frame);
      if c1.bytesSent == c1.responseLength {
        EnterCompletedSettles(c1, e);
      }
    }
  }

  // ---------------------------------------------------------------------
  // The response head
  // ---------------------------------------------------------------------

  /** The index of the last header named name (case-insensitively). */
  function LastNamed(hs: seq<Header>, name: string): (r: Option<nat>)
    ensures r.Some? ==> r.value < |hs| && AsciiEqualsCI(hs[r.value].name, name)
                        && forall j :: r.value < j < |hs| ==> !AsciiEqualsCI(hs[j].name, name)
    ensures r.None? ==> forall j :: 0 <= j < |hs| ==> !AsciiEqualsCI(hs[j].name, name)
  {
    if hs == [] then None
    else if AsciiEqualsCI(hs[|hs| - 1].name, name) then Some(|hs| - 1)
    else LastNamed(hs[..|hs| - 1], name)
  }

  /** The four headers writeHeaders holds back. */
  predicate Special(h: Header)
  {
    AsciiEqualsCI(h.name, "content-length") || AsciiEqualsCI(h.name, "content-type")
    || AsciiEqualsCI(h.name, "connection") || AsciiEqualsCI(h.name, "transfer-encoding")
  }

  /** The lines of the other headers, in the order given. */
  function OrdinaryLines(hs: seq<Header>): string
  {
    if hs == [] then [] else (if Special(hs[0]) then [] else HeaderLine(hs[0])) + OrdinaryLines(hs[1..])
  }

  lemma {:induction false} OrdinaryLinesAppend(hs: seq<Header>, h: Header)
    ensures OrdinaryLines(hs + [h]) == OrdinaryLines(hs) + (if Special(h) then [] else HeaderLine(h))
  {
    if hs != [] {
      assert (hs + [h])[1..] == hs[1..] + [h];
      OrdinaryLinesAppend(hs[1..], h);
    } else {
      assert [h][1..] == [];
    }
  }

  /** The header loop of writeHeaders copies every ordinary header, in order. */
  lemma {:induction false} ScanCopiesOrdinary(hs: seq<Header>, length0: int)
    ensures Scan(hs, length0).lines == OrdinaryLines(hs)
  {
    if hs != [] {
      var init := hs[..|hs| - 1];
      ScanCopiesOrdinary(init, length0);
      OrdinaryLinesAppend(init, hs[|hs| - 1]);
      assert init + [hs[|hs| - 1]] == hs;
    }
  }

  /** Only the last Content-Length counts; one that is not a number makes the length unknown (-1). */
  lemma {:induction false} ScanLength(hs: seq<Header>, length0: int)
    ensures Scan(hs, length0).length
            == match LastNamed(hs, "content-length") case None => length0 case Some(k) => LengthValue(hs[k].value)
  {
    if hs != [] {
      var init, h := hs[..|hs| - 1], hs[|hs| - 1];
      ScanLength(init, length0);
      assert Scan(hs, length0) == ScanStep(Scan(init, length0), h);
      if AsciiEqualsCI(h.name, "content-length") {
        assert LastNamed(hs, "content-length") == Some(|hs| - 1);
      } else {
        assert LastNamed(hs, "content-length") == LastNamed(init, "content-length");
        match LastNamed(init, "content-length")
        case None =>
        case Some(k) => assert hs[k] == init[k];
      }
    }
  }

  /** Of several Content-Type headers only the last one counts. */
  lemma {:induction false} ScanKeepsLastType(hs: seq<Header>, length0: int)
    ensures Scan(hs, length0).contentType
            == match LastNamed(hs, "content-type") case None => None case Some(k) => Some(hs[k])
  {
    if hs != [] {
      ScanKeepsLastType(hs[..|hs| - 1], length0);
    }
  }

  /** Of several Connection headers only the last one counts. */
  lemma {:induction false} ScanKeepsLastConnection(hs: seq<Header>, length0: int)
    ensures Scan(hs, length0).connection
            == match LastNamed(hs, "connection") case None => None case Some(k) => Some(hs[k])
  {
    if hs != [] {
      ScanKeepsLastConnection(hs[..|hs| - 1], length0);
    }
  }

  /** Of several Transfer-Encoding headers only the last one counts. */
  lemma {:induction false} ScanKeepsLastCoding(hs: seq<Header>, length0: int)
    ensures Scan(hs, length0).transferEncoding
            == match LastNamed(hs, "transfer-encoding") case None => None case Some(k) => Some(hs[k])
  {
    if hs != [] {
      ScanKeepsLastCoding(hs[..|hs| - 1], length0);
    }
  }

  /**
   * What writeHeaders settles, in terms of the headers given: the length
   * is the last Content-Length; chunked coding is used when it was already
   * on or when the last Transfer-Encoding says "chunked", the request is
   * HTTP/1.1 and the length is unknown; the connection is kept exactly when
   * the client wants it, the body is delimited (known length or chunked) and
   * the last Connection header does not say "close".
   */
  lemma ResponseHeadSettles(version: string, statusText: string, hs: seq<Header>, length0: int, chunked0: bool,
                            http11: bool, requestConnection: string)
    ensures var r := ResponseHead(version, statusText, hs, length0, chunked0, http11, requestConnection);
      var te := LastNamed(hs, "transfer-encoding");
      var conn := LastNamed(hs, "connection");
      r.length == (match LastNamed(hs, "content-length") case None => length0 case Some(k) => LengthValue(hs[k].value))
      && (r.chunked <==> chunked0 || (te.Some? && AsciiEqualsCI(hs[te.value].value, "chunked") && http11 && r.length == -1))
      && (r.keepAlive <==> ClientWantsKeepAlive(http11, requestConnection) && (r.length >= 0 || r.chunked)
                           && (conn.None? || !AsciiEqualsCI(hs[conn.value].value, "close")))
  {
    ScanLength(hs, length0);
    ScanKeepsLastConnection(hs, length0);
    ScanKeepsLastCoding(hs, length0);
  }

  // ---------------------------------------------------------------------
  // Query parameters
  // ---------------------------------------------------------------------

  /** An encoded parameter is one segment, and it parses back to the parameter. */
  lemma SegmentParses(p: Param, rest: string)
    requires rest == [] || rest[0] == '&'
    ensures var q := EncodeParam(p) + rest;
      NextIndex(q, '&', 0) == |EncodeParam(p)| && SegmentParam(q[..|EncodeParam(p)|]) == p
  {
    var en, ev := PercentEncode(p.name), PercentEncode(p.value);
    var seg := EncodeParam(p);
    var q := seg + rest;
    PercentEncodeEscapes(p.name);
    PercentEncodeEscapes(p.value);
    assert forall j :: 0 <= j < |en| ==> q[j] == en[j];
    assert forall j :: |en| < j < |seg| ==> q[j] == ev[j - |en| - 1];
    assert q[|en|] == '=';
    NextIndexIsFirst(q, '&', 0, |seg|);
    assert q[..|seg|] == seg;
    NextIndexIsFirst(seg, '=', 0, |en|);
    assert seg[..|en|] == en;
    assert seg[|en| + 1..] == ev;
    PercentDecodeEncode(p.name);
    PercentDecodeEncode(p.value);
  }

  /** A query that starts with an encoded parameter parses to that parameter, then the rest. */
  lemma ParseQueryCons(p: Param, rest: string)
    requires rest == [] || rest[0] == '&'
    ensures ParseQuery(EncodeParam(p) + rest) == [p] + (if rest == [] then [] else ParseQuery(rest[1..]))
  {
    var seg := EncodeParam(p);
    var q := seg + rest;
    SegmentParses(p, rest);
    assert ParseQuery(q) == [p] + ParamsAfter(q, |seg|);
    if rest != [] {
      assert q[|seg| + 1..] == rest[1..];
    }
  }

  /** requestParams recovers every parameter of an encoded query, names and values, in order. */
  lemma {:induction false} ParseQueryEncode(ps: seq<Param>)
    ensures ParseQuery(EncodeQuery(ps)) == ps
  {
    if |ps| == 1 {
      ParseQueryCons(ps[0], []);
      assert EncodeParam(ps[0]) + [] == EncodeParam(ps[0]);
    } else if |ps| > 1 {
      var tail := EncodeQuery(ps[1..]);
      ParseQueryCons(ps[0], "&" + tail);
      assert ("&" + tail)[1..] == tail;
      assert EncodeQuery(ps) == EncodeParam(ps[0]) + ("&" + tail);
      ParseQueryEncode(ps[1..]);
    }
  }
}
