/**
 * The HTTP client: HttpRequestWriter, which serialises a request onto a
 * device; HttpResponseParser, which accumulates the callbacks of the
 * foreign response parser into a header list and a body and pauses after
 * each message; and HttpClient, which sends one request at a time and
 * tracks whether a response is pending and how the last exchange ended.
 *
 * The foreign parser is an oracle: given what it has consumed since it was
 * last reset and the bytes handed to it now, it answers with the callbacks
 * it would make, each with the number of new bytes it had consumed at that
 * point.  Sockets are reduced to their connection state, the device output
 * to the bytes written, and signals to an event log.
 */
module Client {
  import opened Bytes
  import opened Http
  import Request

  // ---------------------------------------------------------------------
  // HttpRequestWriter
  // ---------------------------------------------------------------------

  /** "METHOD SP path SP HTTP/1.1", the request line without its line break. */
  function RequestLine(verb: string, path: string): string
  {
    verb + " " + path + " HTTP/1.1"
  }

  /** Each header as the text of its line, without the line break. */
  function HeaderTexts(hs: seq<Header>): (r: seq<string>)
    ensures |r| == |hs|
  {
    seq(|hs|, i requires 0 <= i < |hs| => hs[i].name + ": " + hs[i].value)
  }

  /** Lines, each followed by a line break. */
  function Lines(ls: seq<string>): string
  {
    if ls == [] then [] else ls[0] + CRLF + Lines(ls[1..])
  }

  /** The Content-Length line the writer adds: only when there is data. */
  function LengthTexts(data: string): seq<string>
  {
    if data == [] then [] else ["Content-Length: " + DecimalText(|data|)]
  }

  /** Everything HttpRequestWriter::write puts on the device for one request. */
  function RequestText(verb: string, path: string, headers: seq<Header>, data: string): string
  {
    Lines([RequestLine(verb, path)] + HeaderTexts(headers) + LengthTexts(data)) + CRLF + data
  }

  /** Builds the buffer of write: request line, headers in order, the length when there is data, a blank line, the data. */
  method BuildRequest(verb: string, path: string, headers: seq<Header>, data: string) returns (buffer: string)
    ensures buffer == RequestText(verb, path, headers, data)
  {
    buffer := verb + " " + path + " HTTP/1.1\r\n";
    ghost var lines := [RequestLine(verb, path)];
    LinesSingle(RequestLine(verb, path));
    for i := 0 to |headers|
      invariant lines == [RequestLine(verb, path)] + HeaderTexts(headers[..i])
      invariant buffer == Lines(lines)
    {
      var line := headers[i].name + ": " + headers[i].value;
      LinesSnoc(lines, line);
      assert HeaderTexts(headers[..i + 1]) == HeaderTexts(headers[..i]) + [line];
      buffer := buffer + line + CRLF;
      lines := lines + [line];
    }
    assert headers[..|headers|] == headers;
    if data != [] {
      var number := Request.AppendNumber("Content-Length: ", |data|);
      LinesSnoc(lines, number);
      buffer := buffer + number + CRLF;
      lines := lines + [number];
    }
    assert lines == [RequestLine(verb, path)] + HeaderTexts(headers) + LengthTexts(data);
    buffer := buffer + CRLF;
    if data != [] {
      buffer := buffer + data;
    }
  }

  class RequestWriter {
    /** Whether a device is set. */
    var hasDevice: bool
    /** Every byte written to the device. */
    var written: string

    constructor ()
      ensures !hasDevice && written == []
    {
      hasDevice := false;
      written := [];
    }

    /** Writes one request; with no device set it writes nothing. */
    method Write(verb: string, path: string, headers: seq<Header>, data: string)
      modifies this
      ensures hasDevice == old(hasDevice)
      ensures written == old(written) + (if hasDevice then RequestText(verb, path, headers, data) else [])
    {
      if !hasDevice {
        return;
      }
      var buffer := BuildRequest(verb, path, headers, data);
      written := written + buffer;
    }

    method Get(path: string, headers: seq<Header>)
      modifies this
      ensures hasDevice == old(hasDevice)
      ensures written == old(written) + (if hasDevice then RequestText("GET", path, headers, []) else [])
    {
      Write("GET", path, headers, []);
    }

    method Head(path: string, headers: seq<Header>)
      modifies this
      ensures hasDevice == old(hasDevice)
      ensures written == old(written) + (if hasDevice then RequestText("HEAD", path, headers, []) else [])
    {
      Write("HEAD", path, headers, []);
    }

    method Post(path: string, headers: seq<Header>, data: string)
      modifies this
      ensures hasDevice == old(hasDevice)
      ensures written == old(written) + (if hasDevice then RequestText("POST", path, headers, data) else [])
    {
      Write("POST", path, headers, data);
    }

    method Put(path: string, headers: seq<Header>, data: string)
      modifies this
      ensures hasDevice == old(hasDevice)
      ensures written == old(written) + (if hasDevice then RequestText("PUT", path, headers, data) else [])
    {
      Write("PUT", path, headers, data);
    }

    method DeleteResource(path: string, headers: seq<Header>)
      modifies this
      ensures hasDevice == old(hasDevice)
      ensures written == old(written) + (if hasDevice then RequestText("DELETE", path, headers, []) else [])
    {
      Write("DELETE", path, headers, []);
    }

    /** setDevice: setting the device it already has changes nothing. */
    method SetDevice(device: bool)
      modifies this
      ensures hasDevice == device && written == old(written)
    {
      if hasDevice == device {
        return;
      }
      hasDevice := device;
    }
  }

  // ---------------------------------------------------------------------
  // What a server reads back from the writer's output
  // ---------------------------------------------------------------------

  /**
   * The lines of a message head up to the blank line that ends it, and what
   * follows the blank line; None when the text runs out first.
   */
  function ReadHead(s: string): Option<(seq<string>, string)>
    decreases |s|
  {
    match SplitAtLineBreak(s)
    case None => None
    case Some((line, rest)) =>
      if line == [] then Some(([], rest))
      else
        match ReadHead(rest)
        case None => None
        case Some((ls, body)) => Some(([line] + ls, body))
  }

  lemma LinesSingle(l: string)
    ensures Lines([l]) == l + CRLF
  {
    assert [l][1..] == [];
  }

  lemma {:induction false} LinesSnoc(ls: seq<string>, l: string)
    ensures Lines(ls + [l]) == Lines(ls) + l + CRLF
  {
    if ls == [] {
      assert ls + [l] == [l];
      LinesSingle(l);
    } else {
      assert (ls + [l])[1..] == ls[1..] + [l];
      LinesSnoc(ls[1..], l);
    }
  }

  /** Non-empty lines without a carriage return, then a blank line, read back as those lines and the rest. */
  lemma {:induction false} ReadHeadLines(ls: seq<string>, body: string)
    requires forall i :: 0 <= i < |ls| ==> ls[i] != [] && '\r' !in ls[i]
    ensures ReadHead(Lines(ls) + CRLF + body) == Some((ls, body))
  {
    if ls == [] {
      assert Lines(ls) + CRLF + body == [] + CRLF + body;
      SplitAtFirstBreak([], body);
    } else {
      var rest := Lines(ls[1..]) + CRLF + body;
      assert Lines(ls) + CRLF + body == ls[0] + CRLF + rest;
      SplitAtFirstBreak(ls[0], rest);
      ReadHeadLines(ls[1..], body);
      assert [ls[0]] + ls[1..] == ls;
    }
  }

  lemma DecimalTextHasNoBreak(n: nat)
    ensures '\r' !in DecimalText(n) && DecimalText(n) != []
  {
    NatTextValue(n, 10);
    var t := DecimalText(n);
    forall i | 0 <= i < |t| ensures t[i] != '\r' {
      assert IsDecimalDigit(t[i]);
    }
  }

  /**
   * A server reading the writer's output finds the request line, every
   * header line in order, the Content-Length line exactly when there is
   * data, and then the data itself — provided no field holds a carriage
   * return.
   */
  lemma WrittenRequestReadsBack(verb: string, path: string, headers: seq<Header>, data: string)
    requires '\r' !in verb && '\r' !in path
    requires forall i :: 0 <= i < |headers| ==> '\r' !in headers[i].name && '\r' !in headers[i].value
    ensures ReadHead(RequestText(verb, path, headers, data))
            == Some(([RequestLine(verb, path)] + HeaderTexts(headers) + LengthTexts(data), data))
  {
    var ls := [RequestLine(verb, path)] + HeaderTexts(headers) + LengthTexts(data);
    forall i | 0 <= i < |ls| ensures ls[i] != [] && '\r' !in ls[i] {
      if i == 0 {
      } else if i <= |headers| {
        assert ls[i] == headers[i - 1].name + ": " + headers[i - 1].value;
      } else {
        DecimalTextHasNoBreak(|data|);
        assert ls[i] == "Content-Length: " + DecimalText(|data|);
      }
    }
    ReadHeadLines(ls, data);
  }

  /** The Content-Length line the writer adds states the size of the data. */
  lemma WrittenLengthReadsBack(data: string)
    requires data != []
    ensures LengthTexts(data) == ["Content-Length: " + DecimalText(|data|)]
    ensures LengthInLine(LengthTexts(data)[0] + CRLF) == Some(|data|)
  {
    ContentLengthLineRoundTrip(|data|);
    assert LengthTexts(data)[0] + CRLF == ContentLengthLine(|data|);
  }

  // ---------------------------------------------------------------------
  // HttpResponseParser
  // ---------------------------------------------------------------------

  /** The parser's error number, reduced to what the wrapper distinguishes. */
  datatype Errno = Ok | Paused | Failed

  /** The callbacks of the foreign parser (and the status code it records). */
  datatype Callback =
    | MessageBegin
    | StatusCode(code: int)
    | HeaderField(text: string)
    | HeaderValue(text: string)
    | HeadersComplete
    | Body(text: string)
    | MessageComplete
    | ParseError

  /** A callback, with how many of the new bytes the parser had consumed when it made it. */
  datatype Step = Step(callback: Callback, end: nat)

  /** The foreign parser: from the bytes consumed since the last reset and the new bytes, the callbacks it makes. */
  type Oracle = (string, string) -> seq<Step>

  /** HttpResponseParser's fields and the parts of the foreign parser's state that it reads. */
  datatype Parser = Parser(
    errno: Errno,
    fed: string,              // bytes the foreign parser consumed since it was last reset
    status: int,
    field: string,
    value: string,
    lastWasValue: bool,
    headers: seq<Header>,
    content: string)

  /** hasError: any error number other than OK and PAUSED. */
  predicate HasError(p: Parser)
  {
    !(p.errno == Ok || p.errno == Paused)
  }

  /** A freshly constructed parser. */
  const NewParser: Parser := Parser(Ok, [], 0, [], [], false, [], [])

  /** clear: the foreign parser is reset (error number, stream, status) and headers and content are emptied. */
  function Cleared(p: Parser): Parser
  {
    p.(errno := Ok, fed := [], status := 0, headers := [], content := [])
  }

  /** pushHeader: a header is complete only once a value has been seen. */
  function PushHeader(p: Parser): Parser
  {
    if p.lastWasValue then p.(headers := p.headers + [Header(p.field, p.value)], field := [], value := [], lastWasValue := false)
    else p
  }

  /** What each callback does to the wrapper's fields; message completion pauses the parser, an error stops it. */
  function Apply(p: Parser, cb: Callback): Parser
  {
    match cb
    case MessageBegin => p.(headers := [], content := [], lastWasValue := false)
    case StatusCode(code) => p.(status := code)
    case HeaderField(t) => var q := PushHeader(p); q.(field := q.field + t)
    case HeaderValue(t) => p.(value := p.value + t, lastWasValue := true)
    case HeadersComplete => PushHeader(p)
    case Body(t) => p.(content := p.content + t)
    case MessageComplete => p.(errno := Paused)
    case ParseError => p.(errno := Failed)
  }

  /** The callbacks after which the parser makes no more: completion (it pauses) and an error. */
  predicate Stops(cb: Callback)
  {
    cb.MessageComplete? || cb.ParseError?
  }

  /** One run of the foreign parser over length new bytes: the parser after it, the bytes consumed, whether a message completed. */
  datatype Run = Run(parser: Parser, consumed: nat, completed: bool)

  function Execute(p: Parser, steps: seq<Step>, length: nat): (r: Run)
    ensures r.consumed <= length
    decreases |steps|
  {
    if steps == [] then Run(p, length, false)
    else
      var q := Apply(p, steps[0].callback);
      if Stops(steps[0].callback) then
        Run(q, if steps[0].end <= length then steps[0].end else length, steps[0].callback.MessageComplete?)
      else Execute(q, steps[1..], length)
  }

  /**
   * inject: a parser with an error (or still paused) consumes nothing;
   * otherwise it runs.  Either way a pause is lifted afterwards.
   */
  function Injected(p: Parser, oracle: Oracle, data: string): (r: Run)
    ensures r.consumed <= |data|
  {
    if p.errno != Ok then Run(p.(errno := if p.errno == Paused then Ok else p.errno), 0, false)
    else
      var run := Execute(p, oracle(p.fed, data), |data|);
      var q := run.parser.(fed := p.fed + data[..run.consumed]);
      Run(q.(errno := if q.errno == Paused then Ok else q.errno), run.consumed, run.completed)
  }

  /** injectEof: a run with no new bytes. */
  function InjectedEof(p: Parser, oracle: Oracle): (r: Parser)
  {
    Injected(p, oracle, []).parser
  }

  /** Applies the callbacks in order, with no stopping: the reference for Execute. */
  function ApplyAll(p: Parser, cbs: seq<Callback>): Parser
    decreases |cbs|
  {
    if cbs == [] then p else ApplyAll(Apply(p, cbs[0]), cbs[1..])
  }

  /** The index of the first callback that stops the parser, if any. */
  function FirstStop(steps: seq<Step>): (r: Option<nat>)
    ensures r.Some? ==> r.value < |steps| && Stops(steps[r.value].callback)
    ensures r.Some? ==> forall i :: 0 <= i < r.value ==> !Stops(steps[i].callback)
    ensures r.None? ==> forall i :: 0 <= i < |steps| ==> !Stops(steps[i].callback)
  {
    if steps == [] then None
    else if Stops(steps[0].callback) then Some(0)
    else match FirstStop(steps[1..])
      case None => None
      case Some(k) => Some(k + 1)
  }

  function Callbacks(steps: seq<Step>): (r: seq<Callback>)
    ensures |r| == |steps|
  {
    seq(|steps|, i requires 0 <= i < |steps| => steps[i].callback)
  }

  /**
   * A run makes exactly the callbacks up to and including the first that
   * stops it, and consumes the bytes up to that point (all of them when
   * nothing stops it): one run never goes past the end of a message.
   */
  lemma {:induction false} ExecuteStopsAtFirst(p: Parser, steps: seq<Step>, length: nat)
    ensures var r := Execute(p, steps, length);
      match FirstStop(steps)
      case None => r == Run(ApplyAll(p, Callbacks(steps)), length, false)
      case Some(k) =>
        r.parser == ApplyAll(p, Callbacks(steps[..k + 1]))
        && r.consumed == (if steps[k].end <= length then steps[k].end else length)
        && r.completed == steps[k].callback.MessageComplete?
    decreases |steps|
  {
    if steps != [] {
      var q := Apply(p, steps[0].callback);
      assert Callbacks(steps)[1..] == Callbacks(steps[1..]);
      if Stops(steps[0].callback) {
        assert Callbacks(steps[..1]) == [steps[0].callback];
      } else {
        ExecuteStopsAtFirst(q, steps[1..], length);
        match FirstStop(steps[1..])
        case None =>
        case Some(k) =>
          assert steps[1..][..k + 1] == steps[1..k + 2];
          assert Callbacks(steps[..k + 2])[1..] == Callbacks(steps[1..k + 2]);
      }
    }
  }

  /** A completed message leaves the parser running again, ready for the next one; only an error stops it for good. */
  lemma InjectUnpauses(p: Parser, oracle: Oracle, data: string)
    ensures Injected(p, oracle, data).parser.errno != Paused
    ensures p.errno == Paused ==> Injected(p, oracle, data) == Run(p.(errno := Ok), 0, false)
    ensures p.errno != Paused ==>
      (HasError(Injected(p, oracle, data).parser) <==> (HasError(p) || Execute(p, oracle(p.fed, data), |data|).parser.errno == Failed))
  {
  }

  /** The parser ends a run with an error exactly when the first stopping callback is an error. */
  lemma {:induction false} ExecuteFails(p: Parser, steps: seq<Step>, length: nat)
    requires p.errno == Ok
    decreases |steps|
    ensures Execute(p, steps, length).parser.errno == Failed
            <==> (FirstStop(steps).Some? && steps[FirstStop(steps).value].callback.ParseError?)
  {
    if steps != [] && !Stops(steps[0].callback) {
      var q := Apply(p, steps[0].callback);
      assert q.errno == Ok;
      ExecuteFails(q, steps[1..], length);
    }
  }

  /** A parse error persists: injecting more bytes, or the end of the input, changes nothing and consumes nothing. */
  lemma ErrorPersists(p: Parser, oracle: Oracle, data: string)
    requires HasError(p)
    ensures Injected(p, oracle, data) == Run(p, 0, false)
    ensures InjectedEof(p, oracle) == p
  {
  }

  /** clear is the way back: it leaves no error, no stream, no status, no headers, no content. */
  lemma ClearRecovers(p: Parser)
    ensures var q := Cleared(p);
      !HasError(q) && q.errno == Ok && q.fed == [] && q.status == 0 && q.headers == [] && q.content == []
  {
  }

  /** Field and value callbacks accumulate: value fragments join one value, and the header is pushed by the next field. */
  lemma FragmentsAccumulate(p: Parser, f1: string, f2: string, v1: string, v2: string)
    requires !p.lastWasValue
    ensures var q := ApplyAll(p, [HeaderField(f1), HeaderField(f2), HeaderValue(v1), HeaderValue(v2), HeadersComplete]);
      q.headers == p.headers + [Header(p.field + f1 + f2, p.value + v1 + v2)]
      && !q.lastWasValue && q.field == [] && q.value == []
  {
    var cbs := [HeaderField(f1), HeaderField(f2), HeaderValue(v1), HeaderValue(v2), HeadersComplete];
    var p1 := Apply(p, cbs[0]);
    var p2 := Apply(p1, cbs[1]);
    var p3 := Apply(p2, cbs[2]);
    var p4 := Apply(p3, cbs[3]);
    assert p2.field == p.field + f1 + f2;
    assert p4.value == p.value + v1 + v2;
    assert ApplyAll(p, cbs) == ApplyAll(p1, cbs[1..]);
    assert ApplyAll(p1, cbs[1..]) == ApplyAll(p2, cbs[2..]);
    assert ApplyAll(p2, cbs[2..]) == ApplyAll(p3, cbs[3..]);
    assert ApplyAll(p3, cbs[3..]) == ApplyAll(p4, cbs[4..]);
    assert ApplyAll(p4, cbs[4..]) == ApplyAll(Apply(p4, cbs[4]), []);
  }

  /** A second field callback after a value pushes the first header before starting the next name. */
  lemma FieldAfterValuePushes(p: Parser, t: string)
    requires p.lastWasValue
    ensures Apply(p, HeaderField(t)).headers == p.headers + [Header(p.field, p.value)]
    ensures Apply(p, HeaderField(t)).field == t && Apply(p, HeaderField(t)).value == []
  {
  }

  class ResponseParser {
    var p: Parser
    const oracle: Oracle

    constructor (oracle: Oracle)
      ensures p == NewParser && this.oracle == oracle
    {
      p := NewParser;
      this.oracle := oracle;
    }

    /** inject: runs the parser over data and returns how many bytes it consumed. */
    method Inject(data: string) returns (consumed: nat)
      modifies this
      ensures var r := Injected(old(p), oracle, data); p == r.parser && consumed == r.consumed
    {
      var r := Injected(p, oracle, data);
      p := r.parser;
      consumed := r.consumed;
    }

    method InjectEof()
      modifies this
      ensures p == InjectedEof(old(p), oracle)
    {
      p := InjectedEof(p, oracle);
    }

    method Clear()
      modifies this
      ensures p == Cleared(old(p))
    {
      p := Cleared(p);
    }
  }

  // ---------------------------------------------------------------------
  // HttpClient
  // ---------------------------------------------------------------------

  datatype Error = NoError | NetworkError | ResponseInvalidError | RemoteHostClosedError | AbortedError

  /** The socket errors the client tells apart. */
  datatype SocketError = RemoteHostClosed | OtherSocketError

  datatype SocketState = Unconnected | Connecting | Connected

  /**
   * What the client tells the outside world: the finished signal, and the
   * calls it makes on its socket (disconnectFromHost, close, connectToHost).
   */
  datatype ClientEvent = Finished | Disconnected | DeviceClosed | ConnectRequested(host: string, port: int)

  /** The parts of a URL the client uses, the path and query already encoded; an unset port is -1. */
  datatype Url = Url(host: string, port: int, path: string, query: string)

  datatype ClientRequest = ClientRequest(verb: string, url: Url, headers: seq<Header>, data: string)

  datatype ClientState = ClientState(
    parser: Parser,
    pending: bool,
    error: Error,
    request: ClientRequest,
    socket: SocketState,
    written: string,          // every byte written to the socket
    events: seq<ClientEvent>)

  /** The headers every request carries before the caller's. */
  const BaseRequestHeaders: seq<Header> := [Header("Accept", "*")]

  const NoRequest: ClientRequest := ClientRequest([], Url([], -1, [], []), [], [])

  const NewClient: ClientState := ClientState(NewParser, false, NoError, NoRequest, Unconnected, [], [])

  /** The request target: the encoded path, then '?' and the encoded query when there is one. */
  function Target(url: Url): string
  {
    if url.query == [] then url.path else url.path + "?" + url.query
  }

  /** sendRequest: the current request written with the base headers first. */
  function RequestSent(s: ClientState): ClientState
  {
    var r := s.request;
    s.(written := s.written + RequestText(r.verb, Target(r.url), BaseRequestHeaders + r.headers, r.data))
  }

  /**
   * request: refused while a response is pending; otherwise the new request
   * replaces the old, the response is cleared, and the open socket is used
   * only when it is connected to the same host and port.
   */
  function Requested(s: ClientState, r: ClientRequest): ClientState
  {
    if s.pending then s
    else
      var previous := s.request.url;
      var s1 := s.(request := r, pending := true, error := NoError, parser := Cleared(s.parser));
      if s.socket == Connected && r.url.host == previous.host && r.url.port == previous.port then RequestSent(s1)
      else
        var s2 := if s.socket != Unconnected then s1.(socket := Unconnected, events := s1.events + [Disconnected]) else s1;
        s2.(socket := Connecting, events := s2.events + [ConnectRequested(r.url.host, r.url.port)])
  }

  /** abort: only a pending request can be aborted; the socket is closed and no finished signal is sent. */
  function Aborted(s: ClientState): ClientState
  {
    if !s.pending then s
    else s.(socket := Unconnected, pending := false, error := AbortedError, events := s.events + [DeviceClosed])
  }

  /** device_error: ignored unless a response is pending; the remote closing is told apart from other failures. */
  function SocketFailed(s: ClientState, e: SocketError): ClientState
  {
    if !s.pending then s
    else
      s.(error := if e == RemoteHostClosed then RemoteHostClosedError else NetworkError,
         pending := false, events := s.events + [Finished])
  }

  /**
   * The socket dropping on its own, after the remote host closed it or the
   * connection failed: the client connects no slot to this, but the state
   * request reads from the device is Unconnected from then on.
   */
  function SocketDropped(s: ClientState): ClientState
  {
    s.(socket := Unconnected)
  }

  /** device_connected: the request goes out. */
  function ConnectedState(s: ClientState): ClientState
  {
    RequestSent(s.(socket := Connected))
  }

  /** The client's messageComplete: a 100 Continue is ignored, any other status ends the pending response. */
  function MessageCompleted(s: ClientState): ClientState
  {
    if s.parser.status != 100 then s.(pending := false, events := s.events + [Finished]) else s
  }

  /** One inject into the client's parser, with its messageComplete override. */
  function ClientInjected(s: ClientState, oracle: Oracle, data: string): (r: (ClientState, nat))
    ensures r.1 <= |data|
  {
    var run := Injected(s.parser, oracle, data);
    var s1 := s.(parser := run.parser);
    (if run.completed then MessageCompleted(s1) else s1, run.consumed)
  }

  /**
   * device_readyRead: everything available is injected; if bytes remain,
   * the parser has no error and the response is still pending (a 100
   * Continue came first) the rest is injected once more.  A parse error
   * ends the request as an invalid response and closes the socket.
   */
  function ReadyRead(s: ClientState, oracle: Oracle, data: string): ClientState
  {
    var (s1, consumed) := ClientInjected(s, oracle, data);
    var s2 := if !HasError(s1.parser) && consumed < |data| && s1.pending then ClientInjected(s1, oracle, data[consumed..]).0 else s1;
    if HasError(s2.parser) then s2.(pending := false, error := ResponseInvalidError, socket := Unconnected, events := s2.events + [DeviceClosed])
    else s2
  }

  class HttpClient {
    var d: ClientState
    const oracle: Oracle

    constructor (oracle: Oracle)
      ensures d == NewClient && this.oracle == oracle
    {
      d := NewClient;
      this.oracle := oracle;
    }

    /** consumeContent: hands over the content received so far and empties it. */
    method ConsumeContent() returns (c: string)
      modifies this
      ensures c == old(d).parser.content
      ensures d == old(d).(parser := old(d).parser.(content := []))
    {
      c := d.parser.content;
      d := d.(parser := d.parser.(content := []));
    }

    method Request(verb: string, url: Url, headers: seq<Header>, data: string)
      modifies this
      ensures d == Requested(old(d), ClientRequest(verb, url, headers, data))
    {
      if d.pending {
        return;
      }
      var previous := d.request.url;
      d := d.(request := ClientRequest(verb, url, headers, data), pending := true, error := NoError, parser := Cleared(d.parser));
      if d.socket == Connected && url.host == previous.host && url.port == previous.port {
        SendRequest();
      } else {
        if d.socket != Unconnected {
          d := d.(socket := Unconnected, events := d.events + [Disconnected]);
        }
        d := d.(socket := Connecting, events := d.events + [ConnectRequested(url.host, url.port)]);
      }
    }

    method Get(url: Url, headers: seq<Header>)
      modifies this
      ensures d == Requested(old(d), ClientRequest("GET", url, headers, []))
    {
      Request("GET", url, headers, []);
    }

    method Head(url: Url, headers: seq<Header>)
      modifies this
      ensures d == Requested(old(d), ClientRequest("HEAD", url, headers, []))
    {
      Request("HEAD", url, headers, []);
    }

    method Post(url: Url, headers: seq<Header>, data: string)
      modifies this
      ensures d == Requested(old(d), ClientRequest("POST", url, headers, data))
    {
      Request("POST", url, headers, data);
    }

    method Put(url: Url, headers: seq<Header>, data: string)
      modifies this
      ensures d == Requested(old(d), ClientRequest("PUT", url, headers, data))
    {
      Request("PUT", url, headers, data);
    }

    method DeleteResource(url: Url, headers: seq<Header>)
      modifies this
      ensures d == Requested(old(d), ClientRequest("DELETE", url, headers, []))
    {
      Request("DELETE", url, headers, []);
    }

    method Abort()
      modifies this
      ensures d == Aborted(old(d))
    {
      if !d.pending {
        return;
      }
      d := d.(socket := Unconnected, pending := false, error := AbortedError, events := d.events + [DeviceClosed]);
    }

    method DeviceError(e: SocketError)
      modifies this
      ensures d == SocketFailed(old(d), e)
    {
      if !d.pending {
        return;
      }
      if e == RemoteHostClosed {
        d := d.(error := RemoteHostClosedError);
      } else {
        d := d.(error := NetworkError);
      }
      d := d.(pending := false, events := d.events + [Finished]);
    }

    /** The socket's own move to the unconnected state. */
    method DeviceDisconnected()
      modifies this
      ensures d == SocketDropped(old(d))
    {
      d := d.(socket := Unconnected);
    }

    method DeviceConnected()
      modifies this
      ensures d == ConnectedState(old(d))
    {
      d := d.(socket := Connected);
      SendRequest();
    }

    method DeviceReadyRead(data: string)
      modifies this
      ensures d == ReadyRead(old(d), oracle, data)
    {
      var consumed := Inject(data);
      if !HasError(d.parser) && consumed < |data| && d.pending {
        var more := Inject(data[consumed..]);
        consumed := consumed + more;
      }
      if HasError(d.parser) {
        d := d.(pending := false, error := ResponseInvalidError, socket := Unconnected, events := d.events + [DeviceClosed]);
      }
    }

    method SendRequest()
      modifies this
      ensures d == RequestSent(old(d))
    {
      var uri := d.request.url.path;
      var query := d.request.url.query;
      if query != [] {
        uri := uri + "?" + query;
      }
      var headers := BaseRequestHeaders + d.request.headers;
      var buffer := BuildRequest(d.request.verb, uri, headers, d.request.data);
      d := d.(written := d.written + buffer);
    }

    /** The inherited inject, with the client's messageComplete. */
    method Inject(data: string) returns (consumed: nat)
      modifies this
      ensures (d, consumed) == ClientInjected(old(d), oracle, data)
    {
      var run := Injected(d.parser, oracle, data);
      d := d.(parser := run.parser);
      if run.completed && d.parser.status != 100 {
        d := d.(pending := false, events := d.events + [Finished]);
      }
      consumed := run.consumed;
    }
  }

  // ---------------------------------------------------------------------
  // What the client guarantees
  // ---------------------------------------------------------------------

  /** No pipelining: a request made while a response is pending changes nothing at all. */
  lemma RequestRefusedWhilePending(s: ClientState, r: ClientRequest)
    requires s.pending
    ensures Requested(s, r) == s
  {
  }

  /**
   * An accepted request is pending with no error and an empty response; it
   * is written at once exactly when the socket is connected to the same
   * host and port, and otherwise a connection to the new host is started.
   */
  lemma RequestStarts(s: ClientState, r: ClientRequest)
    requires !s.pending
    ensures var t := Requested(s, r);
      t.pending && t.error == NoError && t.request == r
      && t.parser.headers == [] && t.parser.content == [] && !HasError(t.parser)
      && (if s.socket == Connected && r.url.host == s.request.url.host && r.url.port == s.request.url.port
          then t.written == s.written + RequestText(r.verb, Target(r.url), BaseRequestHeaders + r.headers, r.data)
               && t.socket == Connected && t.events == s.events
          else t.written == s.written && t.socket == Connecting
               && t.events[|t.events| - 1] == ConnectRequested(r.url.host, r.url.port))
  {
  }

  /** abort ends a pending request as aborted without a finished signal; with nothing pending it does nothing. */
  lemma AbortEffect(s: ClientState)
    ensures var t := Aborted(s);
      (s.pending ==> !t.pending && t.error == AbortedError && t.events == s.events + [DeviceClosed] && t.socket == Unconnected)
      && (!s.pending ==> t == s)
  {
  }

  /**
   * Once the socket has dropped, the next request connects afresh, whatever
   * host it is for: nothing is written until device_connected.
   */
  lemma RequestAfterDropReconnects(s: ClientState, r: ClientRequest)
    requires !s.pending
    ensures var t := Requested(SocketDropped(s), r);
      t.pending && t.socket == Connecting && t.written == s.written
      && t.events == s.events + [ConnectRequested(r.url.host, r.url.port)]
  {
  }

  /**
   * The remote host closing during a response: the request finishes as
   * RemoteHostClosedError, the socket drops, and the next request, even to
   * the same host and port, reconnects before anything is written.
   */
  lemma RecoverAfterRemoteClose(s: ClientState, r: ClientRequest)
    requires s.pending
    ensures var t := Requested(SocketDropped(SocketFailed(s, RemoteHostClosed)), r);
      t.pending && t.error == NoError && t.socket == Connecting && t.written == s.written
      && t.events == s.events + [Finished, ConnectRequested(r.url.host, r.url.port)]
  {
    var u := SocketDropped(SocketFailed(s, RemoteHostClosed));
    assert u.events == s.events + [Finished] && !u.pending;
    RequestAfterDropReconnects(SocketFailed(s, RemoteHostClosed), r);
  }

  /** A socket error ends a pending request, remote closing and other failures reported differently. */
  lemma SocketErrorEffect(s: ClientState, e: SocketError)
    ensures var t := SocketFailed(s, e);
      (s.pending ==>
         (!t.pending && t.events == s.events + [Finished]
          && (t.error == RemoteHostClosedError <==> e == RemoteHostClosed)
          && (t.error == NetworkError <==> e == OtherSocketError)))
      && (!s.pending ==> t == s)
  {
  }

  /** A 100 Continue completing leaves the response pending and signals nothing; any other status finishes it. */
  lemma ContinueIgnored(s: ClientState)
    ensures s.parser.status == 100 ==> MessageCompleted(s) == s
    ensures s.parser.status != 100 ==> !MessageCompleted(s).pending && MessageCompleted(s).events == s.events + [Finished]
  {
  }

  /** Whatever arrives, a response that cannot be parsed ends the request as invalid and closes the socket. */
  lemma InvalidResponseEnds(s: ClientState, oracle: Oracle, data: string)
    ensures var t := ReadyRead(s, oracle, data);
      HasError(t.parser) ==> !t.pending && t.error == ResponseInvalidError && t.socket == Unconnected
                             && t.events[|t.events| - 1] == DeviceClosed
  {
  }

  /**
   * A 100 Continue and the final response arriving together are both read:
   * the first inject stops after the interim response, and the rest is
   * injected because the response is still pending.
   */
  lemma ContinueThenFinal(s: ClientState, oracle: Oracle, data: string, n: nat)
    requires s.pending && s.parser.errno == Ok
    requires var steps := oracle(s.parser.fed, data);
      |steps| == 2 && steps[0] == Step(StatusCode(100), 0) && steps[1] == Step(MessageComplete, n) && n < |data|
    requires var steps := oracle(s.parser.fed + data[..n], data[n..]);
      |steps| == 2 && steps[0] == Step(StatusCode(200), 0) && steps[1].callback == MessageComplete
    ensures !ReadyRead(s, oracle, data).pending
    ensures ReadyRead(s, oracle, data).parser.status == 200
    ensures ReadyRead(s, oracle, data).events == s.events + [Finished]
  {
    var steps := oracle(s.parser.fed, data);
    var p1 := Apply(Apply(s.parser, steps[0].callback), steps[1].callback);
    assert Execute(s.parser, steps, |data|) == Execute(Apply(s.parser, steps[0].callback), steps[1..], |data|);
    assert Execute(s.parser, steps, |data|) == Run(p1, n, true);
    var (s1, consumed) := ClientInjected(s, oracle, data);
    assert consumed == n && s1.pending && s1.parser.status == 100 && s1.parser.errno == Ok;
    assert s1.parser.fed == s.parser.fed + data[..n];
    var steps2 := oracle(s1.parser.fed, data[n..]);
    assert Execute(s1.parser, steps2, |data[n..]|) == Execute(Apply(s1.parser, steps2[0].callback), steps2[1..], |data[n..]|);
  }
}
