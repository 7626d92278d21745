/**
 * HttpRequest: the older single-class server request.  Its state machine
 * is HttpConnection's, with its own rules: the head size is checked on the
 * raw buffer before parsing, Content-Length is the first such request
 * header, the response head copies every user header verbatim and
 * recognises only the first Content-Length, Content-Type and Connection,
 * there is no chunked coding, and query parameters are found by searching
 * for '=' and then '&'.
 *
 * As for HttpConnection, the devices are byte sequences, signals are
 * events, and the parser and status table are inputs (Env).  Every
 * state-changing method takes the request's state, as a Req value, exactly
 * to the value the corresponding function computes.
 */
module Request {
  import opened Bytes
  import opened Http
  import opened Query

  /** Every field of HttpRequest the state machine reads or writes. */
  datatype Req = Req(
    state: State,
    input: string,              // bytes available on the input device
    output: string,             // every byte written to the output device
    backlog: nat,               // bytes the output device has not handed on yet
    events: seq<Event>,         // ready, completed, closed
    buffer: string,             // the request buffer
    parsed: ParseResult,        // the parser's state for the current request
    refs: seq<HeaderRef>,       // header offsets reported by the parser callback
    requestHeaders: seq<Header>,
    requestContentLength: int,
    requestMethod: string, uri: string, fragment: string, path: string, query: string, version: string,
    params: seq<Param>,
    statusCode: int,
    responseLength: int,        // -1 while unknown
    bytesSent: int,
    keepAlive: bool)

  // ---------------------------------------------------------------------
  // Byte-array helpers
  // ---------------------------------------------------------------------

  /**
   * appendNumber: the digits of |number| are appended least significant
   * first, then '-' for a negative number, and the appended range is
   * reversed in place; the bytes before it are untouched.
   */
  method AppendNumber(target: string, number: int) returns (r: string)
    ensures r == target + DecimalText(number)
    ensures r[..|target|] == target
  {
    var appended := DigitsLeastFirst(if number < 0 then -number else number);
    if number < 0 {
      ReversedSnoc(appended, '-');
      appended := appended + ['-'];
    }
    assert Reversed(appended) == DecimalText(number);
    r := ReverseTail(target + appended, |target|);
    assert (target + appended)[..|target|] == target && (target + appended)[|target|..] == appended;
  }

  /** The copy of whole into a byte array whose tail from `from` is then reversed in place. */
  method ReverseTail(whole: string, from: nat) returns (r: string)
    requires from <= |whole|
    ensures r == whole[..from] + Reversed(whole[from..])
  {
    var data := new char[|whole|];
    var k := 0;
    while k < data.Length
      invariant 0 <= k <= data.Length && data[..k] == whole[..k]
    {
      data[k] := whole[k];
      k := k + 1;
    }
    assert data[..] == whole && data[from..data.Length] == whole[from..];
    ReverseRange(data, from, data.Length);
    r := data[..];
    assert r == data[..from] + data[from..data.Length];
  }

  /** The do-while loop of appendNumber: the digits of n, least significant first. */
  method DigitsLeastFirst(magnitude: nat) returns (appended: string)
    ensures Reversed(appended) == NatText(magnitude, 10)
  {
    var n := magnitude;
    appended := [Digit(n % 10)];
    n := n / 10;
    while n > 0
      invariant n > 0 ==> NatText(n, 10) + Reversed(appended) == NatText(magnitude, 10)
      invariant n == 0 ==> Reversed(appended) == NatText(magnitude, 10)
      decreases n
    {
      ReversedSnoc(appended, Digit(n % 10));
      appended := appended + [Digit(n % 10)];
      n := n / 10;
    }
  }

  lemma ReversedSnoc(s: string, x: char)
    ensures Reversed(s + [x]) == [x] + Reversed(s)
  {
    assert forall i :: 0 <= i < |s| + 1 ==> Reversed(s + [x])[i] == ([x] + Reversed(s))[i];
  }

  /** The sequence read backwards. */
  function Reversed(s: string): (r: string)
    ensures |r| == |s|
    ensures forall i :: 0 <= i < |s| ==> r[i] == s[|s| - 1 - i]
  {
    if s == [] then [] else Reversed(s[1..]) + [s[0]]
  }

  /** The in-place reversal of data[lo..hi], swapping from both ends inwards. */
  method ReverseRange(data: array<char>, lo: nat, hi: nat)
    requires lo <= hi <= data.Length
    modifies data
    ensures data[..lo] == old(data[..lo]) && data[hi..] == old(data[hi..])
    ensures data[lo..hi] == Reversed(old(data[lo..hi]))
  {
    ghost var original := data[..];
    var start: int, end: int := lo, hi - 1;
    while start < end
      invariant lo <= start && end < hi && start - lo == hi - 1 - end && start <= end + 1
      invariant forall i :: 0 <= i < data.Length ==> data[i] == Swapped(original, lo, hi, start, i)
      decreases end - start
    {
      data[start], data[end] := data[end], data[start];
      start, end := start + 1, end - 1;
    }
    SwappedIsReversed(data[..], original, lo, hi, start);
  }

  /** The byte at i once the outermost (start - lo) pairs of data[lo..hi] are swapped. */
  function Swapped(s: string, lo: int, hi: int, start: int, i: int): (c: char)
    requires 0 <= lo <= hi <= |s| && 0 <= i < |s| && lo <= start <= hi
    ensures lo <= i < start ==> c == s[hi - 1 - (i - lo)]
    ensures hi - (start - lo) <= i < hi ==> c == s[hi - 1 - (i - lo)]
    ensures (i < lo || hi <= i) ==> c == s[i]
  {
    if lo <= i < start || hi - (start - lo) <= i < hi then s[hi - 1 - (i - lo)] else s[i]
  }

  lemma SwappedIsReversed(s: string, original: string, lo: int, hi: int, start: int)
    requires 0 <= lo <= hi <= |s| == |original| && lo <= start <= hi && start - lo >= hi - start - 1
    requires forall i :: 0 <= i < |s| ==> s[i] == Swapped(original, lo, hi, start, i)
    ensures s[..lo] == original[..lo] && s[hi..] == original[hi..]
    ensures s[lo..hi] == Reversed(original[lo..hi])
  {
    assert forall i :: lo <= i < hi ==> s[i] == original[hi - 1 - (i - lo)] by {
      forall i | lo <= i < hi ensures s[i] == original[hi - 1 - (i - lo)] {
        assert s[i] == Swapped(original, lo, hi, start, i);
      }
    }
    assert forall k :: 0 <= k < hi - lo ==> s[lo..hi][k] == Reversed(original[lo..hi])[k];
  }

  /**
   * setFromRawDataAndNullterm: the target refers to data[start..start+length]
   * and, when that is not empty, the byte after it is overwritten with NUL;
   * the field itself reads the same afterwards.
   */
  method SetFromRawDataAndNullterm(data: array<char>, start: nat, length: nat) returns (target: string)
    requires length > 0 ==> start + length < data.Length
    modifies data
    ensures length == 0 ==> target == [] && data[..] == old(data[..])
    ensures length > 0 ==> target == old(data[start..start + length])
                           && data[..] == old(data[..])[start + length := 0 as char]
                           && data[start..start + length] == target
  {
    if length == 0 {
      target := [];
    } else {
      target := data[start..start + length];
      data[start + length] := 0 as char;
    }
  }

  // ---------------------------------------------------------------------
  // Transitions, as functions of the state
  // ---------------------------------------------------------------------

  /** A write to the output device. */
  function Written(c: Req, bytes: string): Req
  {
    c.(output := c.output + bytes, backlog := c.backlog + |bytes|)
  }

  function EnterClosed(c: Req): Req
  {
    if c.state == Closed then c else c.(state := Closed, events := c.events + [ClosedEvent])
  }

  /** drain: in Flushing, close once the output device holds nothing more. */
  function DrainStep(c: Req): Req
  {
    if c.state != Flushing then c
    else if c.backlog == 0 then EnterClosed(c)
    else c
  }

  function EnterFlushing(c: Req): Req
  {
    if c.state == Flushing then c else DrainStep(c.(state := Flushing))
  }

  /** writeRequestErrorResponse: the error head, then Flushing; nothing once Closed. */
  function ErrorReply(c: Req, e: Env, code: int): Req
  {
    if c.state == Closed then c
    else EnterFlushing(Written(c, ErrorResponse(ErrorText(e.statuses, code))))
  }

  function EnterReceivingHeaders(c: Req): Req
  {
    if c.state == ReceivingHeaders then c
    else c.(state := ReceivingHeaders, parsed := NothingParsed, requestContentLength := 0)
  }

  /** One parser run over the buffer: the fields its callback reported, then its new state. */
  function Executed(c: Req, r: ParseResult): Req
  {
    c.(refs := c.refs + r.fields, parsed := r)
  }

  /** The request-line parts and the headers, read from the buffer at the parser's offsets. */
  function FieldsSet(c: Req): Req
  {
    var b := c.buffer;
    var h := c.parsed.head;
    c.(uri := Slice(b, h.uri), requestMethod := Slice(b, h.requestMethod), fragment := Slice(b, h.fragment),
       path := Slice(b, h.path), query := Slice(b, h.query), version := Slice(b, h.version),
       requestHeaders := HeadersOf(b, c.refs))
  }

  /**
   * The request content length and whether it parsed: the first
   * Content-Length header read as a 32-bit int (0 and not ok when that
   * fails), or 0 when there is none or it is empty.
   */
  function RequestLength(hs: seq<Header>): (int, bool)
  {
    var v := HeaderValue(hs, "content-length");
    if v == [] then (0, true)
    else match ToInt(v)
      case Some(n) => (n, true)
      case None => (0, false)
  }

  /** Orders the states for the processInput / transitionToReceivingContent recursion. */
  function Rank(s: State): nat
  {
    if s == ReceivingHeaders then 2 else 1
  }

  /** processInput. */
  function Pump(c: Req, e: Env): Req
    decreases Rank(c.state), 1
  {
    if c.state != ReceivingHeaders && c.state != ReceivingContent then c
    else
      var c1 := c.(buffer := c.buffer + c.input, input := []);
      if c1.state == ReceivingHeaders then
        if c1.buffer != [] && |c1.buffer| > MaximumRequestHeaderLength then ErrorReply(c1, e, 400)
        else
          var c2 := if c1.buffer == [] then c1 else Executed(c1, e.parse(c1.buffer, c1.parsed.nread));
          if c2.parsed.finished then EnterReceivingContent(c2, e)
          else if c2.parsed.error then ErrorReply(c2, e, 400)
          else c2
      else if |c1.buffer| - c1.parsed.head.bodyStart >= c1.requestContentLength then EnterSendingHeaders(c1)
      else c1
  }

  /**
   * transitionToReceivingContent: the request fields, the length checks,
   * "100 Continue" when the client expects it, and processInput.
   */
  function EnterReceivingContent(c: Req, e: Env): Req
    decreases 2, 0
  {
    if c.state == ReceivingContent then c
    else
      var c1 := FieldsSet(c.(state := ReceivingContent));
      var (len, ok) := RequestLength(c1.requestHeaders);
      var c2 := c1.(requestContentLength := len);
      if len < 0 then ErrorReply(c2, e, 400)
      else if len > MaximumRequestContentLength || !ok then ErrorReply(c2, e, 413)
      else Pump(ContentExpected(c2), e)
  }

  /** An empty body is handed out at once; a body the client announced with "Expect: 100-continue" is invited. */
  function ContentExpected(c: Req): (r: Req)
    requires c.state == ReceivingContent
    ensures r.state == ReceivingContent || r.state == SendingHeaders
  {
    if c.requestContentLength == 0 then EnterSendingHeaders(c)
    else if HeaderValue(c.requestHeaders, "expect") == "100-continue" then Written(c, ContinueResponse)
    else c
  }

  /** transitionToSendingHeaders: a fresh response, requestReady. */
  function EnterSendingHeaders(c: Req): Req
  {
    if c.state == SendingHeaders then c
    else c.(state := SendingHeaders, responseLength := -1, bytesSent := 0, keepAlive := true,
            events := c.events + [RequestReady])
  }

  /** transitionToSendingContent. */
  function EnterSendingContent(c: Req, e: Env): Req
  {
    if c.state == SendingContent then c
    else
      var c1 := c.(state := SendingContent);
      var c2 := if c1.responseLength == 0 || c1.requestMethod == "HEAD" then EnterCompleted(c1, e) else c1;
      if c2.responseLength < 0 then c2.(keepAlive := false) else c2
  }

  /**
   * transitionToCompleted: requestCompleted; the bytes after this request's
   * body stay in the buffer; then the next request or Flushing.
   */
  function EnterCompleted(c: Req, e: Env): Req
  {
    if c.state == Completed then c
    else
      var c2 := Settled(c);
      if c2.keepAlive then Pump(EnterReceivingHeaders(c2), e) else EnterFlushing(c2)
  }

  /** The first part of transitionToCompleted: the signal, and the buffer cut down to what follows the body. */
  function Settled(c: Req): Req
  {
    var c1 := c.(state := Completed, events := c.events + [RequestCompleted]);
    var remaining := |c1.buffer| - c1.parsed.head.bodyStart - c1.requestContentLength;
    c1.(buffer := Right(c1.buffer, remaining), refs := [], params := [])
  }

  // ---------------------------------------------------------------------
  // The response head
  // ---------------------------------------------------------------------

  /** What the header loop of writeHeaders collects. */
  datatype HeadFlags = HeadFlags(
    lines: string, lengthFound: bool, length: int, typeFound: bool, connectionFound: bool, connectionKeepAlive: bool)

  /** QByteArray::toLongLong: the number, or 0 when the text is not one. */
  function LongLongOrZero(v: string): int
  {
    match ToLongLong(v)
    case Some(n) => n
    case None => 0
  }

  /** One header: only the first Content-Length, Content-Type and Connection count; every header is written. */
  function FlagStep(f: HeadFlags, h: Header): HeadFlags
  {
    var field := Lower(h.name);
    var f1 :=
      if !f.lengthFound && field == "content-length" then f.(lengthFound := true, length := LongLongOrZero(h.value))
      else if !f.typeFound && field == "content-type" then f.(typeFound := true)
      else if !f.connectionFound && field == "connection" then
        f.(connectionFound := true, connectionKeepAlive := Lower(h.value) == "keep-alive")
      else f;
    f1.(lines := f1.lines + HeaderLine(h))
  }

  function Flags(hs: seq<Header>, length0: int): HeadFlags
  {
    if hs == [] then HeadFlags([], false, length0, false, false, true)
    else FlagStep(Flags(hs[..|hs| - 1], length0), hs[|hs| - 1])
  }

  /** Whether the client lets the connection persist: HTTP/1.0 only on "keep-alive", others unless "close". */
  function ClientKeepsAlive(version: string, requestConnection: string): bool
  {
    if version == "HTTP/1.0" then StartsWithCI(requestConnection, "keep-alive")
    else !StartsWithCI(requestConnection, "close")
  }

  datatype ResponseHeadResult = ResponseHeadResult(text: string, length: int, keepAlive: bool)

  /** The appends of writeHeaders after the header loop. */
  function HeadText(statusLine: string, f: HeadFlags, keepAlive: bool, connectionFound: bool): string
  {
    statusLine + f.lines + LengthLine(f) + TypeLine(f) + ConnectionLine(keepAlive, connectionFound) + CRLF
  }

  /** The current length, unless the user gave a Content-Length. */
  function LengthLine(f: HeadFlags): string
  {
    if !f.lengthFound then ContentLengthLine(f.length) else []
  }

  /** text/plain, unless the user gave a Content-Type, for a body that is declared or not empty. */
  function TypeLine(f: HeadFlags): string
  {
    if !f.typeFound && (f.lengthFound || f.length > 0) then "Content-Type: text/plain\r\n" else []
  }

  /** The settled persistence, unless the user's Connection header stands. */
  function ConnectionLine(keepAlive: bool, connectionFound: bool): string
  {
    if !connectionFound then (if keepAlive then "Connection: keep-alive\r\n" else "Connection: close\r\n") else []
  }

  /** writeHeaders as a value: the head bytes, and the response length and persistence it settles. */
  function ResponseHead(version: string, statusText: string, hs: seq<Header>, length0: int,
                        requestConnection: string): ResponseHeadResult
  {
    var f := Flags(hs, length0);
    var keepAlive := f.connectionKeepAlive && ClientKeepsAlive(version, requestConnection);
    var connectionFound := f.connectionFound && !(f.connectionKeepAlive && !keepAlive);
    ResponseHeadResult(HeadText(version + " " + statusText + CRLF, f, keepAlive, connectionFound), f.length, keepAlive)
  }

  // ---------------------------------------------------------------------
  // The public operations, as functions of the state
  // ---------------------------------------------------------------------

  function HeadersWritten(c: Req, e: Env, code: int, hs: seq<Header>): Req
  {
    if c.state != SendingHeaders then c
    else
      var r := ResponseHead(c.version, StatusText(e.statuses, code), hs, c.responseLength,
                            HeaderValue(c.requestHeaders, "connection"));
      var c1 := c.(statusCode := code, responseLength := r.length, keepAlive := r.keepAlive);
      EnterSendingContent(Written(c1, r.text), e)
  }

  function ContentWritten(c: Req, e: Env, data: string): Req
  {
    if c.state != SendingContent then c
    else if c.responseLength == 0 then c
    else if c.responseLength > 0 && |data| + c.bytesSent > c.responseLength then c
    else if |data| > 0 && c.requestMethod != "HEAD" then
      var c1 := Written(c.(bytesSent := c.bytesSent + |data|), data);
      if c1.bytesSent == c1.responseLength then EnterCompleted(c1, e) else c1
    else c
  }

  function ResponseWritten(c: Req, e: Env, code: int, hs: seq<Header>, body: string): Req
  {
    if c.state != SendingHeaders then c
    else
      var c1 := HeadersWritten(c.(responseLength := |body|), e, code, hs);
      if body != [] && c1.requestMethod != "HEAD" then ContentWritten(c1, e, body) else c1
  }

  /** initialize: a fresh parser, then wait for a head. */
  function Initialized(c: Req): Req
  {
    EnterReceivingHeaders(c.(parsed := NothingParsed))
  }

  /** Bytes arrive on the input device (readyRead). */
  function Delivered(c: Req, e: Env, bytes: string): Req
  {
    Pump(c.(input := c.input + bytes), e)
  }

  /** The output device handed n bytes on (bytesWritten), then drain. */
  function Flushed(c: Req, n: nat): Req
  {
    DrainStep(c.(backlog := if n <= c.backlog then c.backlog - n else 0))
  }

  /** QByteArray::mid: n bytes from pos, or all the rest when n is negative or runs past the end. */
  function Mid(s: string, pos: nat, n: int): (r: string)
    requires pos <= |s|
    ensures n >= 0 ==> r == s[pos..if pos + n <= |s| then pos + n else |s|]
    ensures n < 0 ==> r == s[pos..]
  {
    if n < 0 || pos + n >= |s| then s[pos..] else s[pos..pos + n]
  }

  /** requestContent: the body bytes received so far, at most Content-Length of them. */
  function RequestContent(c: Req): string
  {
    if c.requestContentLength == 0 then []
    else if c.parsed.head.bodyStart < |c.buffer| then Mid(c.buffer, c.parsed.head.bodyStart, c.requestContentLength)
    else []
  }

  /** requestParams caches: it parses only when nothing is cached and the query is not empty. */
  function ParamsCached(c: Req): Req
  {
    if c.params == [] && c.query != [] then c.(params := QueryParams(c.query)) else c
  }

  // ---------------------------------------------------------------------
  // The request object
  // ---------------------------------------------------------------------

  /** HttpRequest: its fields are the Req value d, which every operation updates in place. */
  class HttpRequest {
    const env: Env
    var d: Req

    constructor (env: Env)
      ensures this.env == env && d.state == Uninitialized
      ensures d.input == [] && d.output == [] && d.backlog == 0 && d.events == [] && d.buffer == []
    {
      this.env := env;
      d := Req(Uninitialized, [], [], 0, [], [], NothingParsed, [], [], 0,
               [], [], [], [], [], [], [], 0, -1, 0, false);
    }

    /** A write to the output device. */
    method Write(bytes: string)
      modifies this
      ensures d == Written(old(d), bytes)
    {
      d := d.(output := d.output + bytes, backlog := d.backlog + |bytes|);
    }

    method TransitionToClosed()
      modifies this
      ensures d == EnterClosed(old(d))
    {
      if d.state == Closed {
        return;
      }
      d := d.(state := Closed, events := d.events + [ClosedEvent]);
    }

    method Drain()
      modifies this
      ensures d == DrainStep(old(d))
    {
      if d.state != Flushing {
        return;
      }
      if d.backlog == 0 {
        TransitionToClosed();
      }
    }

    method TransitionToFlushing()
      modifies this
      ensures d == EnterFlushing(old(d))
    {
      if d.state == Flushing {
        return;
      }
      d := d.(state := Flushing);
      Drain();
    }

    method WriteRequestErrorResponse(code: int)
      modifies this
      ensures d == ErrorReply(old(d), env, code)
    {
      if d.state == Closed {
        return;
      }
      Write(ErrorResponse(ErrorText(env.statuses, code)));
      TransitionToFlushing();
    }

    method TransitionToReceivingHeaders()
      modifies this
      ensures d == EnterReceivingHeaders(old(d))
    {
      if d.state == ReceivingHeaders {
        return;
      }
      d := d.(state := ReceivingHeaders, parsed := NothingParsed, requestContentLength := 0);
    }

    /** The parser's field callback: remember where the header lies. */
    method ParserHttpField(ref: HeaderRef)
      modifies this
      ensures d == old(d).(refs := old(d).refs + [ref])
    {
      d := d.(refs := d.refs + [ref]);
    }

    /** One parser run over the buffer: its callbacks in order, then its new state. */
    method Execute()
      modifies this
      ensures d == Executed(old(d), env.parse(old(d).buffer, old(d).parsed.nread))
    {
      var r := env.parse(d.buffer, d.parsed.nread);
      ghost var d0 := d;
      var i := 0;
      while i < |r.fields|
        invariant 0 <= i <= |r.fields|
        invariant d == d0.(refs := d0.refs + r.fields[..i])
      {
        assert r.fields[..i + 1] == r.fields[..i] + [r.fields[i]];
        ParserHttpField(r.fields[i]);
        i := i + 1;
      }
      assert r.fields[..|r.fields|] == r.fields;
      d := d.(parsed := r);
    }

    method ProcessInput()
      modifies this
      decreases Rank(d.state), 1
      ensures d == Pump(old(d), env)
    {
      if d.state != ReceivingHeaders && d.state != ReceivingContent {
        return;
      }
      if |d.input| > 0 {
        d := d.(buffer := d.buffer + d.input, input := []);
      } else {
        assert d.buffer + d.input == d.buffer;
        assert d == d.(buffer := d.buffer + d.input, input := []);
      }
      if d.state == ReceivingHeaders {
        if d.buffer != [] {
          if |d.buffer| > MaximumRequestHeaderLength {
            WriteRequestErrorResponse(400);
            return;
          }
          Execute();
        }
        if d.parsed.finished {
          TransitionToReceivingContent();
        } else if d.parsed.error {
          WriteRequestErrorResponse(400);
        }
      } else if |d.buffer| - d.parsed.head.bodyStart >= d.requestContentLength {
        TransitionToSendingHeaders();
      }
    }

    method TransitionToReceivingContent()
      modifies this
      decreases 2, 0
      ensures d == EnterReceivingContent(old(d), env)
    {
      if d.state == ReceivingContent {
        return;
      }
      d := d.(state := ReceivingContent);
      SetupFields();
      var ok := ReadContentLength();
      if d.requestContentLength < 0 {
        WriteRequestErrorResponse(400);
        return;
      } else if d.requestContentLength > MaximumRequestContentLength || !ok {
        WriteRequestErrorResponse(413);
        return;
      } else if d.requestContentLength == 0 {
        TransitionToSendingHeaders();
      } else {
        var expectation := GetRequestHeaderValue("expect");
        if expectation == "100-continue" {
          Write(ContinueResponse);
        }
      }
      ProcessInput();
    }

    /** The request-line parts and the headers at the parser's offsets. */
    method SetupFields()
      modifies this
      ensures d == FieldsSet(old(d))
    {
      var b := d.buffer;
      var h := d.parsed.head;
      var hs: seq<Header> := [];
      var i := 0;
      while i < |d.refs|
        invariant 0 <= i <= |d.refs| && d == old(d)
        invariant |hs| == i
        invariant forall j :: 0 <= j < i ==> hs[j] == Header(Slice(b, d.refs[j].field), Slice(b, d.refs[j].value))
      {
        hs := hs + [Header(Slice(b, d.refs[i].field), Slice(b, d.refs[i].value))];
        i := i + 1;
      }
      d := d.(uri := Slice(b, h.uri), requestMethod := Slice(b, h.requestMethod), fragment := Slice(b, h.fragment),
              path := Slice(b, h.path), query := Slice(b, h.query), version := Slice(b, h.version),
              requestHeaders := hs);
    }

    /** The first Content-Length header, read as an int; none (or an empty one) means 0. */
    method ReadContentLength() returns (ok: bool)
      modifies this
      ensures d == old(d).(requestContentLength := RequestLength(old(d).requestHeaders).0)
      ensures ok == RequestLength(old(d).requestHeaders).1
    {
      var v := GetRequestHeaderValue("content-length");
      ok := true;
      if v == [] {
        d := d.(requestContentLength := 0);
      } else {
        var n := ToInt(v);
        if n.Some? {
          d := d.(requestContentLength := n.value);
        } else {
          d := d.(requestContentLength := 0);
          ok := false;
        }
      }
    }

    method TransitionToSendingHeaders()
      modifies this
      ensures d == EnterSendingHeaders(old(d))
    {
      if d.state == SendingHeaders {
        return;
      }
      d := d.(state := SendingHeaders, responseLength := -1, bytesSent := 0, keepAlive := true,
              events := d.events + [RequestReady]);
    }

    method TransitionToSendingContent()
      modifies this
      ensures d == EnterSendingContent(old(d), env)
    {
      if d.state == SendingContent {
        return;
      }
      d := d.(state := SendingContent);
      if d.responseLength == 0 || d.requestMethod == "HEAD" {
        TransitionToCompleted();
      }
      if d.responseLength < 0 {
        d := d.(keepAlive := false);
      }
    }

    method TransitionToCompleted()
      modifies this
      ensures d == EnterCompleted(old(d), env)
    {
      if d.state == Completed {
        return;
      }
      d := d.(state := Completed, events := d.events + [RequestCompleted]);
      var remaining := |d.buffer| - d.parsed.head.bodyStart - d.requestContentLength;
      d := d.(buffer := Right(d.buffer, remaining), refs := [], params := []);
      assert d == Settled(old(d));
      ghost var d2 := d;
      if d.keepAlive {
        TransitionToReceivingHeaders();
        ProcessInput();
        assert d == Pump(EnterReceivingHeaders(d2), env);
      } else {
        TransitionToFlushing();
        assert d == EnterFlushing(d2);
      }
    }

    /** initialize(inputDevice, outputDevice); the processing of bytes already waiting is left to Receive. */
    method Initialize()
      modifies this
      ensures d == Initialized(old(d))
    {
      d := d.(parsed := NothingParsed);
      TransitionToReceivingHeaders();
    }

    /** readyRead: bytes arrive and are processed. */
    method Receive(bytes: string)
      modifies this
      ensures d == Delivered(old(d), env, bytes)
    {
      d := d.(input := d.input + bytes);
      ProcessInput();
    }

    /** bytesWritten: the output device handed n bytes on; drain. */
    method BytesWritten(n: nat)
      modifies this
      ensures d == Flushed(old(d), n)
    {
      d := d.(backlog := if n <= d.backlog then d.backlog - n else 0);
      Drain();
    }

    method WriteHeaders(code: int, hs: seq<Header>)
      modifies this
      ensures d == HeadersWritten(old(d), env, code, hs)
    {
      if d.state != SendingHeaders {
        return;
      }
      var statusText := StatusText(env.statuses, code);
      var flags := ScanHeaders(hs, d.responseLength);
      var keepAlive := flags.connectionKeepAlive;
      var connectionFound := flags.connectionFound;
      if keepAlive {
        var requestConnection := GetRequestHeaderValue("connection");
        if d.version == "HTTP/1.0" {
          keepAlive := StartsWithCI(requestConnection, "keep-alive");
        } else {
          keepAlive := !StartsWithCI(requestConnection, "close");
        }
        if !keepAlive {
          connectionFound := false;
        }
      }
      var text := HeadLines(d.version + " " + statusText + CRLF, flags, keepAlive, connectionFound);
      d := d.(statusCode := code, responseLength := flags.length, keepAlive := keepAlive);
      Write(text);
      TransitionToSendingContent();
    }

    method WriteContent(data: string)
      modifies this
      ensures d == ContentWritten(old(d), env, data)
    {
      if d.state != SendingContent {
        return;
      } else if d.responseLength == 0 {
        return;
      } else if d.responseLength > 0 && |data| + d.bytesSent > d.responseLength {
        return;
      }
      if |data| > 0 && d.requestMethod != "HEAD" {
        d := d.(bytesSent := d.bytesSent + |data|);
        Write(data);
        if d.bytesSent == d.responseLength {
          TransitionToCompleted();
        }
      }
    }

    method WriteResponse(code: int, hs: seq<Header>, body: string)
      modifies this
      ensures d == ResponseWritten(old(d), env, code, hs, body)
    {
      if d.state != SendingHeaders {
        return;
      }
      d := d.(responseLength := |body|);
      WriteHeaders(code, hs);
      if body != [] && d.requestMethod != "HEAD" {
        WriteContent(body);
      }
    }

    method Close()
      modifies this
      ensures d == EnterClosed(old(d))
    {
      if d.state != Closed {
        TransitionToClosed();
      }
    }

    /** getRequestHeaderValue: the value of the first header whose name matches, ignoring case. */
    method GetRequestHeaderValue(field: string) returns (v: string)
      ensures v == HeaderValue(d.requestHeaders, field)
    {
      var hs := d.requestHeaders;
      var i := 0;
      while i < |hs|
        invariant 0 <= i <= |hs|
        invariant FindHeader(hs, field, i) == FindHeader(hs, field, 0)
      {
        if AsciiEqualsCI(field, hs[i].name) {
          return hs[i].value;
        }
        i := i + 1;
      }
      return [];
    }

    /** requestParams: parse the query string once, on first use. */
    method RequestParams() returns (ps: seq<Param>)
      modifies this
      ensures d == ParamsCached(old(d))
      ensures ps == d.params
    {
      if d.params == [] && d.query != [] {
        var parsedParams := ParseQueryParams(d.query);
        d := d.(params := parsedParams);
      }
      ps := d.params;
    }

    /** getRequestParam: the value of the first parameter whose name matches, ignoring case. */
    method GetRequestParam(name: string) returns (v: string)
      modifies this
      ensures d == ParamsCached(old(d))
      ensures v == ParamValue(d.params, name)
    {
      var ps := RequestParams();
      var i := 0;
      while i < |ps|
        invariant 0 <= i <= |ps|
        invariant FindParam(ps, name, i) == FindParam(ps, name, 0)
      {
        if AsciiEqualsCI(ps[i].name, name) {
          return ps[i].value;
        }
        i := i + 1;
      }
      return [];
    }

    /** setRequestParam: replace the first parameter whose name matches, or append one. */
    method SetRequestParam(name: string, value: string)
      modifies this
      ensures d == ParamsCached(old(d)).(params := SetParam(ParamsCached(old(d)).params, name, value))
    {
      var ps := RequestParams();
      var i := 0;
      while i < |ps|
        invariant 0 <= i <= |ps|
        invariant FindParam(ps, name, i) == FindParam(ps, name, 0)
      {
        if AsciiEqualsCI(ps[i].name, name) {
          d := d.(params := ps[i := Param(name, value)]);
          return;
        }
        i := i + 1;
      }
      d := d.(params := ps + [Param(name, value)]);
    }
  }

  /** The header loop of writeHeaders. */
  method ScanHeaders(hs: seq<Header>, length0: int) returns (f: HeadFlags)
    ensures f == Flags(hs, length0)
  {
    f := HeadFlags([], false, length0, false, false, true);
    var i := 0;
    while i < |hs|
      invariant 0 <= i <= |hs|
      invariant f == Flags(hs[..i], length0)
    {
      assert hs[..i + 1][..i] == hs[..i];
      var h := hs[i];
      var field := Lower(h.name);
      if !f.lengthFound && field == "content-length" {
        f := f.(lengthFound := true, length := LongLongOrZero(h.value));
      } else if !f.typeFound && field == "content-type" {
        f := f.(typeFound := true);
      } else if !f.connectionFound && field == "connection" {
        f := f.(connectionFound := true, connectionKeepAlive := Lower(h.value) == "keep-alive");
      }
      f := f.(lines := f.lines + HeaderLine(h));
      i := i + 1;
    }
    assert hs[..|hs|] == hs;
  }

  /** The appends of writeHeaders after the header loop; the length is formatted by appendNumber. */
  method HeadLines(statusLine: string, f: HeadFlags, keepAlive: bool, connectionFound: bool) returns (text: string)
    ensures text == HeadText(statusLine, f, keepAlive, connectionFound)
  {
    text := statusLine + f.lines;
    ghost var t0 := text;
    if !f.lengthFound {
      var line := ContentLengthText(f.length);
      text := text + line;
    }
    assert text == t0 + LengthLine(f);
    ghost var t1 := text;
    if !f.typeFound && (f.lengthFound || f.length > 0) {
      text := text + "Content-Type: text/plain\r\n";
    }
    assert text == t1 + TypeLine(f);
    ghost var t2 := text;
    if !connectionFound {
      text := text + (if keepAlive then "Connection: keep-alive\r\n" else "Connection: close\r\n");
    }
    assert text == t2 + ConnectionLine(keepAlive, connectionFound);
    text := text + CRLF;
  }

  /** "Content-Length: ", the number by appendNumber, and a line break. */
  method ContentLengthText(length: int) returns (line: string)
    ensures line == ContentLengthLine(length)
  {
    line := AppendNumber("Content-Length: ", length);
    line := line + CRLF;
  }

  // ---------------------------------------------------------------------
  // What the state machine guarantees
  // ---------------------------------------------------------------------

  /** Nothing written and nothing signalled is ever taken back. */
  predicate Extends(c: Req, r: Req)
  {
    c.output <= r.output && c.events <= r.events
  }

  /** The states processInput can leave a request in: it never gets past handing the request out. */
  predicate BeforeResponse(st: State)
  {
    st == ReceivingHeaders || st == ReceivingContent || st == SendingHeaders || st == Flushing || st == Closed
  }

  /** An error reply appends its head and leaves the request Flushing; the received bytes stay. */
  lemma ErrorReplyEffect(c: Req, e: Env, code: int)
    requires c.state != Closed && c.state != Flushing
    ensures var r := ErrorReply(c, e, code);
      r.output == c.output + ErrorResponse(ErrorText(e.statuses, code)) && r.state == Flushing
      && r.events == c.events && r.buffer == c.buffer && r.input == c.input && r.parsed == c.parsed && r.refs == c.refs
  {
  }

  lemma ErrorReplyFrame(c: Req, e: Env, code: int)
    ensures var r := ErrorReply(c, e, code);
      Extends(c, r) && r.buffer == c.buffer && r.input == c.input
      && (c.state != Closed ==> r.state == Flushing || r.state == Closed)
  {
  }

  /** Handing the request out, or inviting its body, keeps the received bytes. */
  lemma ContentExpectedFrame(c: Req)
    requires c.state == ReceivingContent
    ensures var r := ContentExpected(c);
      Extends(c, r) && r.buffer == c.buffer && r.input == c.input
  {
  }

  /**
   * processInput conserves the received bytes (buffer followed by unread
   * input) and, in a receiving state, reads everything available.
   */
  lemma {:induction false} PumpConserves(c: Req, e: Env)
    ensures var r := Pump(c, e);
      Extends(c, r) && r.buffer + r.input == c.buffer + c.input
      && ((c.state == ReceivingHeaders || c.state == ReceivingContent) ==> r.input == [] && BeforeResponse(r.state))
    decreases Rank(c.state), 1
  {
    if c.state == ReceivingHeaders || c.state == ReceivingContent {
      var c1 := c.(buffer := c.buffer + c.input, input := []);
      if c1.state == ReceivingHeaders {
        if c1.buffer != [] && |c1.buffer| > MaximumRequestHeaderLength {
          assert Pump(c, e) == ErrorReply(c1, e, 400);
          ErrorReplyFrame(c1, e, 400);
        } else {
          var c2 := if c1.buffer == [] then c1 else Executed(c1, e.parse(c1.buffer, c1.parsed.nread));
          if c2.parsed.finished {
            assert Pump(c, e) == EnterReceivingContent(c2, e);
            EnterReceivingContentConserves(c2, e);
          } else if c2.parsed.error {
            assert Pump(c, e) == ErrorReply(c2, e, 400);
            ErrorReplyFrame(c2, e, 400);
          } else {
            assert Pump(c, e) == c2;
          }
        }
      } else if |c1.buffer| - c1.parsed.head.bodyStart >= c1.requestContentLength {
        assert Pump(c, e) == EnterSendingHeaders(c1);
      } else {
        assert Pump(c, e) == c1;
      }
    }
  }

  lemma {:induction false} EnterReceivingContentConserves(c: Req, e: Env)
    ensures var r := EnterReceivingContent(c, e);
      Extends(c, r) && r.buffer + r.input == c.buffer + c.input && (c.input == [] ==> r.input == [])
      && (c.state != ReceivingContent ==> BeforeResponse(r.state))
    decreases 2, 0
  {
    if c.state != ReceivingContent {
      var c1 := FieldsSet(c.(state := ReceivingContent));
      var (len, ok) := RequestLength(c1.requestHeaders);
      var c2 := c1.(requestContentLength := len);
      if len < 0 {
        assert EnterReceivingContent(c, e) == ErrorReply(c2, e, 400);
        ErrorReplyFrame(c2, e, 400);
      } else if len > MaximumRequestContentLength || !ok {
        assert EnterReceivingContent(c, e) == ErrorReply(c2, e, 413);
        ErrorReplyFrame(c2, e, 413);
      } else {
        assert EnterReceivingContent(c, e) == Pump(ContentExpected(c2), e);
        ContentExpectedFrame(c2);
        PumpConserves(ContentExpected(c2), e);
      }
    }
  }

  /**
   * A request whose buffered bytes exceed the head limit is answered 400
   * before the parser sees them: the parser's state and the header offsets
   * are untouched.
   */
  lemma OversizeRejected(c: Req, e: Env)
    requires c.state == ReceivingHeaders && |c.buffer + c.input| > MaximumRequestHeaderLength
    ensures var r := Pump(c, e);
      r.output == c.output + ErrorResponse(ErrorText(e.statuses, 400)) && r.state == Flushing
      && r.parsed == c.parsed && r.refs == c.refs && r.buffer == c.buffer + c.input
  {
    ErrorReplyEffect(c.(buffer := c.buffer + c.input, input := []), e, 400);
  }

  /** A head within the limit that the parser rejects (and does not finish) is answered 400. */
  lemma BadHeadRejected(c: Req, e: Env)
    requires c.state == ReceivingHeaders && 0 < |c.buffer + c.input| <= MaximumRequestHeaderLength
    requires !e.parse(c.buffer + c.input, c.parsed.nread).finished && e.parse(c.buffer + c.input, c.parsed.nread).error
    ensures Pump(c, e).output == c.output + ErrorResponse(ErrorText(e.statuses, 400))
    ensures Pump(c, e).state == Flushing
  {
    var c1 := c.(buffer := c.buffer + c.input, input := []);
    ErrorReplyEffect(Executed(c1, e.parse(c1.buffer, c1.parsed.nread)), e, 400);
  }

  /** The length transitionToReceivingContent settles on for a request head, and whether it parsed. */
  function DeclaredLength(c: Req): (int, bool)
  {
    RequestLength(HeadersOf(c.buffer, c.refs))
  }

  /** A request without a Content-Length header declares length 0. */
  lemma AbsentLengthIsZero(hs: seq<Header>)
    requires forall j :: 0 <= j < |hs| ==> !AsciiEqualsCI("content-length", hs[j].name)
    ensures RequestLength(hs) == (0, true)
  {
    HeaderValueFirst(hs, "content-length");
  }

  /**
   * Only the first Content-Length header counts: with one at index i and
   * none before it, the length is that header's value read as an int.
   */
  lemma FirstLengthCounts(hs: seq<Header>, i: nat)
    requires i < |hs| && AsciiEqualsCI("content-length", hs[i].name) && hs[i].value != []
    requires forall j :: 0 <= j < i ==> !AsciiEqualsCI("content-length", hs[j].name)
    ensures RequestLength(hs) == (match ToInt(hs[i].value) case Some(n) => (n, true) case None => (0, false))
  {
    HeaderValueFirst(hs, "content-length");
  }

  /**
   * transitionToReceivingContent answers a negative Content-Length with 400
   * and one over 128 MiB or not a number with 413, then flushes.
   */
  lemma LengthRejected(c: Req, e: Env)
    requires c.state == ReceivingHeaders
    requires DeclaredLength(c).0 < 0 || DeclaredLength(c).0 > MaximumRequestContentLength || !DeclaredLength(c).1
    ensures var code := if DeclaredLength(c).0 < 0 then 400 else 413;
      var r := EnterReceivingContent(c, e);
      r.output == c.output + ErrorResponse(ErrorText(e.statuses, code)) && r.state == Flushing && r.events == c.events
  {
    var c1 := FieldsSet(c.(state := ReceivingContent));
    var c2 := c1.(requestContentLength := DeclaredLength(c).0);
    ErrorReplyEffect(c2, e, if DeclaredLength(c).0 < 0 then 400 else 413);
  }

  /** A request without a body (length 0) is handed out at once and nothing is written. */
  lemma EmptyBodyReady(c: Req, e: Env)
    requires c.state == ReceivingHeaders && DeclaredLength(c) == (0, true)
    ensures var r := EnterReceivingContent(c, e);
      r.state == SendingHeaders && r.output == c.output && r.events == c.events + [RequestReady]
      && r.requestContentLength == 0 && RequestContent(r) == []
  {
  }

  /**
   * A positive length within the limit answers "Expect: 100-continue" with
   * 100 Continue (and nothing else does) and then waits for the body as
   * processInput does.
   */
  lemma BodyAwaited(c: Req, e: Env)
    requires c.state == ReceivingHeaders
    requires 0 < DeclaredLength(c).0 <= MaximumRequestContentLength && DeclaredLength(c).1
    ensures var c2 := FieldsSet(c.(state := ReceivingContent)).(requestContentLength := DeclaredLength(c).0);
      var continued := HeaderValue(c2.requestHeaders, "expect") == "100-continue";
      EnterReceivingContent(c, e)
      == Pump(c2.(output := if continued then c.output + ContinueResponse else c.output,
                  backlog := if continued then c.backlog + |ContinueResponse| else c.backlog), e)
  {
    var c2 := FieldsSet(c.(state := ReceivingContent)).(requestContentLength := DeclaredLength(c).0);
    var continued := HeaderValue(c2.requestHeaders, "expect") == "100-continue";
    ContentExpectedEntered(c, e);
    ContinueInvited(c2);
    assert c2.output == c.output && c2.backlog == c.backlog;
    assert ContentExpected(c2) == c2.(output := if continued then c.output + ContinueResponse else c.output,
                                      backlog := if continued then c.backlog + |ContinueResponse| else c.backlog);
  }

  /** For a positive length, the state processInput then sees: "100 Continue" written when the client expects it. */
  lemma ContinueInvited(c: Req)
    requires c.state == ReceivingContent && c.requestContentLength > 0
    ensures var continued := HeaderValue(c.requestHeaders, "expect") == "100-continue";
      ContentExpected(c) == c.(output := if continued then c.output + ContinueResponse else c.output,
                               backlog := if continued then c.backlog + |ContinueResponse| else c.backlog)
  {
  }

  /** The step of BodyAwaited through transitionToReceivingContent. */
  lemma ContentExpectedEntered(c: Req, e: Env)
    requires c.state == ReceivingHeaders
    requires 0 < DeclaredLength(c).0 <= MaximumRequestContentLength && DeclaredLength(c).1
    ensures EnterReceivingContent(c, e)
         == Pump(ContentExpected(FieldsSet(c.(state := ReceivingContent)).(requestContentLength := DeclaredLength(c).0)), e)
  {
  }

  /**
   * In ReceivingContent, processInput reads everything available and hands
   * the request out exactly when the buffer holds Content-Length bytes
   * after the head; the content is then exactly the body.
   */
  lemma ContentArrives(c: Req, e: Env)
    requires c.state == ReceivingContent && c.requestContentLength > 0
    requires c.parsed.head.bodyStart <= |c.buffer|
    ensures var r := Pump(c, e);
      var received := c.buffer + c.input;
      var bodyStart := c.parsed.head.bodyStart;
      r.output == c.output && r.buffer == received && r.input == [] && r.requestContentLength == c.requestContentLength
      && (r.state == SendingHeaders <==> |received| - bodyStart >= c.requestContentLength)
      && (r.state != SendingHeaders ==> r.state == ReceivingContent && r.events == c.events)
      && (r.state == SendingHeaders ==>
            RequestContent(r) == received[bodyStart..bodyStart + c.requestContentLength] && r.events == c.events + [RequestReady])
  {
  }

  /**
   * requestContent while the body is arriving: the body bytes received so
   * far, never more than Content-Length, and each processInput only adds to
   * them.
   */
  lemma PartialContent(c: Req, e: Env)
    requires c.state == ReceivingContent && c.requestContentLength > 0
    requires c.parsed.head.bodyStart <= |c.buffer|
    ensures var bodyStart := c.parsed.head.bodyStart;
      var n := if |c.buffer| - bodyStart < c.requestContentLength then |c.buffer| - bodyStart else c.requestContentLength;
      RequestContent(c) == c.buffer[bodyStart..bodyStart + n]
    ensures RequestContent(c) <= RequestContent(Pump(c, e))
    ensures |RequestContent(Pump(c, e))| <= c.requestContentLength
  {
    var r := Pump(c, e);
    assert r.buffer == c.buffer + c.input && r.parsed == c.parsed && r.requestContentLength == c.requestContentLength;
    var bodyStart := c.parsed.head.bodyStart;
    if bodyStart < |c.buffer| {
      assert c.buffer + c.input == c.buffer + c.input;
      assert forall k :: bodyStart <= k < |c.buffer| ==> (c.buffer + c.input)[k] == c.buffer[k];
    }
  }

  /**
   * transitionToCompleted signals requestCompleted first, takes nothing
   * back, and leaves the request before the next response (or flushing).
   */
  lemma EnterCompletedSettles(c: Req, e: Env)
    requires c.state != Completed
    ensures var r := EnterCompleted(c, e);
      Extends(c, r) && |r.events| > |c.events| && r.events[|c.events|] == RequestCompleted && BeforeResponse(r.state)
  {
    var c2 := Settled(c);
    if c2.keepAlive {
      assert EnterCompleted(c, e) == Pump(EnterReceivingHeaders(c2), e);
      PumpConserves(EnterReceivingHeaders(c2), e);
    } else {
      assert EnterCompleted(c, e) == EnterFlushing(c2);
    }
  }

  /**
   * transitionToCompleted keeps the bytes after this request's body: with
   * keep-alive they start the next request's buffer (followed by whatever
   * input was waiting), otherwise the request flushes.
   */
  lemma CompletedKeepsPipelined(c: Req, e: Env)
    requires c.state != Completed
    requires c.parsed.head.bodyStart + c.requestContentLength <= |c.buffer| && c.requestContentLength >= 0
    ensures var r := EnterCompleted(c, e);
      var n := c.parsed.head.bodyStart + c.requestContentLength;
      (c.keepAlive ==> r.buffer + r.input == c.buffer[n..] + c.input)
      && (!c.keepAlive ==> r.buffer == c.buffer[n..] && (r.state == Flushing || r.state == Closed))
  {
    var c2 := Settled(c);
    assert c2.buffer == c.buffer[c.parsed.head.bodyStart + c.requestContentLength..];
    if c2.keepAlive {
      PumpConserves(EnterReceivingHeaders(c2), e);
    }
  }

  /**
   * writeContent: a call that would exceed the declared length, an empty
   * call, a HEAD request or a declared length of 0 writes nothing;
   * otherwise the data is written and the request completes exactly when
   * the declared length has been sent.  The bytes sent never exceed a
   * declared length.
   */
  lemma ContentAccounting(c: Req, e: Env, data: string)
    requires c.state == SendingContent
    requires c.responseLength < 0 || 0 <= c.bytesSent <= c.responseLength
    ensures var r := ContentWritten(c, e, data);
      var accepted := |data| > 0 && c.requestMethod != "HEAD" && c.responseLength != 0
                      && (c.responseLength < 0 || c.bytesSent + |data| <= c.responseLength);
      (!accepted ==> r == c)
      && (accepted ==> c.output + data <= r.output && c.events <= r.events)
      && (accepted ==> (c.bytesSent + |data| == c.responseLength <==> r.state != SendingContent))
      && (accepted && r.state == SendingContent ==>
            r.bytesSent == c.bytesSent + |data| && r.output == c.output + data && r.events == c.events)
      && (accepted && r.state != SendingContent ==> |r.events| > |c.events| && r.events[|c.events|] == RequestCompleted)
      && (r.state == SendingContent ==> r.responseLength < 0 || 0 <= r.bytesSent <= r.responseLength)
  {
    if |data| > 0 && c.requestMethod != "HEAD" && c.responseLength != 0
       && (c.responseLength < 0 || c.bytesSent + |data| <= c.responseLength) {
      var c1 := Written(c.(bytesSent := c.bytesSent + |data|), data);
      if c1.bytesSent == c1.responseLength {
        EnterCompletedSettles(c1, e);
      }
    }
  }

  // ---------------------------------------------------------------------
  // The response head
  // ---------------------------------------------------------------------

  /** The index of the first header whose lower-cased name is token. */
  function FirstNamed(hs: seq<Header>, token: string): (r: Option<nat>)
    ensures r.Some? ==> r.value < |hs| && Lower(hs[r.value].name) == token
                        && forall j :: 0 <= j < r.value ==> Lower(hs[j].name) != token
    ensures r.None? ==> forall j :: 0 <= j < |hs| ==> Lower(hs[j].name) != token
  {
    if hs == [] then None
    else match FirstNamed(hs[..|hs| - 1], token)
      case Some(k) => Some(k)
      case None => if Lower(hs[|hs| - 1].name) == token then Some(|hs| - 1) else None
  }

  /** Every header as a line, in the order given. */
  function AllLines(hs: seq<Header>): string
  {
    if hs == [] then [] else HeaderLine(hs[0]) + AllLines(hs[1..])
  }

  lemma {:induction false} AllLinesAppend(hs: seq<Header>, h: Header)
    ensures AllLines(hs + [h]) == AllLines(hs) + HeaderLine(h)
  {
    if hs != [] {
      assert (hs + [h])[1..] == hs[1..] + [h];
      AllLinesAppend(hs[1..], h);
    } else {
      assert [h][1..] == [];
    }
  }

  /** The header loop of writeHeaders copies every user header verbatim, in order. */
  lemma {:induction false} FlagsCopyAll(hs: seq<Header>, length0: int)
    ensures Flags(hs, length0).lines == AllLines(hs)
  {
    if hs != [] {
      var init := hs[..|hs| - 1];
      FlagsCopyAll(init, length0);
      AllLinesAppend(init, hs[|hs| - 1]);
      assert init + [hs[|hs| - 1]] == hs;
    }
  }

  /** Only the first Content-Length counts; without one the length is the one given. */
  lemma {:induction false} FlagsFirstLength(hs: seq<Header>, length0: int)
    ensures Flags(hs, length0).lengthFound == FirstNamed(hs, "content-length").Some?
    ensures Flags(hs, length0).length
            == match FirstNamed(hs, "content-length") case None => length0 case Some(k) => LongLongOrZero(hs[k].value)
  {
    if hs != [] {
      FlagsFirstLength(hs[..|hs| - 1], length0);
    }
  }

  /** Whether the user gave a Content-Type. */
  lemma {:induction false} FlagsFirstType(hs: seq<Header>, length0: int)
    ensures Flags(hs, length0).typeFound == FirstNamed(hs, "content-type").Some?
  {
    if hs != [] {
      FlagsFirstType(hs[..|hs| - 1], length0);
    }
  }

  /** Whether the response lets the connection persist: no Connection header, or a first one saying keep-alive. */
  function ResponseAllowsKeepAlive(hs: seq<Header>): bool
  {
    match FirstNamed(hs, "connection")
    case None => true
    case Some(k) => Lower(hs[k].value) == "keep-alive"
  }

  /** Only the first Connection header counts, and only "keep-alive" (in any case) lets the connection persist. */
  lemma {:induction false} FlagsFirstConnection(hs: seq<Header>, length0: int)
    ensures Flags(hs, length0).connectionFound == FirstNamed(hs, "connection").Some?
    ensures Flags(hs, length0).connectionKeepAlive == ResponseAllowsKeepAlive(hs)
  {
    if hs != [] {
      FlagsFirstConnection(hs[..|hs| - 1], length0);
    }
  }

  /**
   * What writeHeaders writes and settles, in terms of the headers given:
   * the status line; every user header; a Content-Length line with the
   * current length when the user gave none; text/plain when the user gave
   * no Content-Type and the body is declared or not empty; a Connection line
   * when the user gave none or the client wants the connection closed.  The
   * length is the first Content-Length's, and the connection persists
   * exactly when both the response and the client allow it.
   */
  lemma ResponseHeadSettles(version: string, statusText: string, hs: seq<Header>, length0: int, requestConnection: string)
    ensures var r := ResponseHead(version, statusText, hs, length0, requestConnection);
      var cl := FirstNamed(hs, "content-length");
      var lineNeeded := FirstNamed(hs, "connection").None? || (ResponseAllowsKeepAlive(hs) && !r.keepAlive);
      r.length == (match cl case None => length0 case Some(k) => LongLongOrZero(hs[k].value))
      && (r.keepAlive <==> ResponseAllowsKeepAlive(hs) && ClientKeepsAlive(version, requestConnection))
      && r.text == version + " " + statusText + CRLF + AllLines(hs)
                   + (if cl.None? then ContentLengthLine(length0) else [])
                   + (if FirstNamed(hs, "content-type").None? && (cl.Some? || r.length > 0)
                      then "Content-Type: text/plain\r\n" else [])
                   + (if lineNeeded then (if r.keepAlive then "Connection: keep-alive\r\n" else "Connection: close\r\n")
                      else [])
                   + CRLF
  {
    FlagsCopyAll(hs, length0);
    FlagsFirstLength(hs, length0);
    FlagsFirstType(hs, length0);
    FlagsFirstConnection(hs, length0);
  }

  /**
   * writeHeaders called directly (the length still unknown, -1) with no
   * Content-Length header announces "Content-Length: -1" right after the
   * user's headers.
   */
  lemma UnknownLengthAnnounced(version: string, statusText: string, hs: seq<Header>, requestConnection: string)
    requires FirstNamed(hs, "content-length").None?
    ensures var r := ResponseHead(version, statusText, hs, -1, requestConnection);
      r.length == -1 && version + " " + statusText + CRLF + AllLines(hs) + "Content-Length: -1\r\n" <= r.text
  {
    FlagsCopyAll(hs, -1);
    FlagsFirstLength(hs, -1);
    MinusOneLine();
    var f := Flags(hs, -1);
    var keepAlive := f.connectionKeepAlive && ClientKeepsAlive(version, requestConnection);
    HeadTextStarts(version + " " + statusText + CRLF, f, keepAlive, f.connectionFound && !(f.connectionKeepAlive && !keepAlive));
  }

  lemma HeadTextStarts(statusLine: string, f: HeadFlags, keepAlive: bool, connectionFound: bool)
    ensures statusLine + f.lines + LengthLine(f) <= HeadText(statusLine, f, keepAlive, connectionFound)
  {
    var rest := TypeLine(f) + ConnectionLine(keepAlive, connectionFound) + CRLF;
    assert HeadText(statusLine, f, keepAlive, connectionFound) == (statusLine + f.lines + LengthLine(f)) + rest;
  }

  lemma MinusOneLine()
    ensures ContentLengthLine(-1) == "Content-Length: -1\r\n"
  {
    assert NatText(1, 10) == "1";
  }

}
