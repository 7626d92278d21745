/**
 * Pieces shared by the server-side request objects (HttpConnection and its
 * older sibling HttpRequest): the connection states, the limits, the offsets
 * the request-line/header parser reports, header and parameter lookup, the
 * error and "100 Continue" responses, and the chunked transfer coding of
 * section 4.1 of RFC 7230.
 */
module Http {
  import opened Bytes

  /** HttpConnection::State, in declaration order. */
  datatype State =
    | Uninitialized | ReceivingHeaders | ReceivingContent | SendingHeaders
    | SendingContent | Completed | Flushing | Closed

  /** Signals, recorded in the order they are emitted. */
  datatype Event = RequestReady | RequestCompleted | ClosedEvent

  const MaximumRequestHeaderLength: nat := 32 * 1024
  const MaximumRequestContentLength: nat := 128 * 1024 * 1024

  // ---------------------------------------------------------------------
  // The parser's report
  // ---------------------------------------------------------------------

  /** A run of bytes in the request buffer: its start and its length. */
  datatype Span = Span(pos: nat, len: nat)

  /** Where one header's field and value lie in the buffer. */
  datatype HeaderRef = HeaderRef(field: Span, value: Span)

  /**
   * The offsets the request-line/header parser reports: the request-line
   * parts, the headers seen so far and where the body starts.
   */
  datatype RequestHead = RequestHead(
    requestMethod: Span, uri: Span, fragment: Span, path: Span, query: Span, version: Span,
    bodyStart: nat)

  const EmptyHead: RequestHead :=
    RequestHead(Span(0, 0), Span(0, 0), Span(0, 0), Span(0, 0), Span(0, 0), Span(0, 0), 0)

  /**
   * One run of the parser over the buffer, resumed at the offset where the
   * previous run left off: how many bytes it has consumed in all, whether
   * it failed, whether the head is complete, the offsets of the request-line
   * parts and of the body, and the header fields it reported through its
   * field callback during this run, in order.  The parser itself is not
   * part of this model; its result is an input.
   */
  datatype ParseResult = ParseResult(nread: nat, error: bool, finished: bool, head: RequestHead, fields: seq<HeaderRef>)

  /** The parser state right after initialisation, before any byte was given to it. */
  const NothingParsed: ParseResult := ParseResult(0, false, false, EmptyHead, [])

  /** The bytes of a span; a span past the end of the buffer reads as nothing. */
  function Slice(buf: string, sp: Span): (r: string)
    ensures sp.pos + sp.len <= |buf| ==> r == buf[sp.pos..sp.pos + sp.len]
    ensures |r| <= sp.len
  {
    if sp.pos + sp.len <= |buf| then buf[sp.pos..sp.pos + sp.len] else []
  }

  /** The headers the references point at. */
  function HeadersOf(buf: string, refs: seq<HeaderRef>): (hs: seq<Header>)
    ensures |hs| == |refs|
    ensures forall i :: 0 <= i < |refs| ==> hs[i] == Header(Slice(buf, refs[i].field), Slice(buf, refs[i].value))
  {
    if refs == [] then []
    else [Header(Slice(buf, refs[0].field), Slice(buf, refs[0].value))] + HeadersOf(buf, refs[1..])
  }

  // ---------------------------------------------------------------------
  // Header lookup
  // ---------------------------------------------------------------------

  /** The first header at or after lo whose name equals field, ignoring ASCII case. */
  function FindHeader(hs: seq<Header>, field: string, lo: nat): (r: Option<nat>)
    requires lo <= |hs|
    ensures r.Some? ==> lo <= r.value < |hs| && AsciiEqualsCI(field, hs[r.value].name)
    ensures r.Some? ==> forall j :: lo <= j < r.value ==> !AsciiEqualsCI(field, hs[j].name)
    ensures r.None? ==> forall j :: lo <= j < |hs| ==> !AsciiEqualsCI(field, hs[j].name)
    decreases |hs| - lo
  {
    if lo == |hs| then None
    else if AsciiEqualsCI(field, hs[lo].name) then Some(lo)
    else FindHeader(hs, field, lo + 1)
  }

  /** requestHeaderValue: the value of the first header with that name, or empty. */
  function HeaderValue(hs: seq<Header>, field: string): string
  {
    match FindHeader(hs, field, 0)
    case Some(i) => hs[i].value
    case None => ""
  }

  /** The last header before hi whose name equals field: the one the parser callback remembers. */
  function FindLastHeader(hs: seq<Header>, field: string, hi: nat): (r: Option<nat>)
    requires hi <= |hs|
    ensures r.Some? ==> r.value < hi && AsciiEqualsCI(field, hs[r.value].name)
    ensures r.Some? ==> forall j :: r.value < j < hi ==> !AsciiEqualsCI(field, hs[j].name)
    ensures r.None? ==> forall j :: 0 <= j < hi ==> !AsciiEqualsCI(field, hs[j].name)
  {
    if hi == 0 then None
    else if AsciiEqualsCI(field, hs[hi - 1].name) then Some(hi - 1)
    else FindLastHeader(hs, field, hi - 1)
  }

  /**
   * The looked-up value is the value of a header with that name, with no
   * earlier header of that name; and when no header has the name it is empty.
   */
  lemma HeaderValueFirst(hs: seq<Header>, field: string)
    ensures (forall j :: 0 <= j < |hs| ==> !AsciiEqualsCI(field, hs[j].name)) ==> HeaderValue(hs, field) == ""
    ensures forall i :: 0 <= i < |hs| && AsciiEqualsCI(field, hs[i].name)
                        && (forall j :: 0 <= j < i ==> !AsciiEqualsCI(field, hs[j].name))
                        ==> HeaderValue(hs, field) == hs[i].value
  {
    var r := FindHeader(hs, field, 0);
    if r.Some? {
      forall i | 0 <= i < |hs| && AsciiEqualsCI(field, hs[i].name)
                 && (forall j :: 0 <= j < i ==> !AsciiEqualsCI(field, hs[j].name))
        ensures HeaderValue(hs, field) == hs[i].value
      {
      }
    }
  }

  /** "name: value" and a line break. */
  function HeaderLine(h: Header): (r: string)
    ensures |r| == |h.name| + |h.value| + 4
    ensures r[..|h.name|] == h.name && r[|r| - 2..] == CRLF
  {
    h.name + ": " + h.value + CRLF
  }

  // ---------------------------------------------------------------------
  // Status lines and canned responses
  // ---------------------------------------------------------------------

  /**
   * The status table lives outside the model: the "code message" text of a
   * status code (None for an unknown code), and the bare message of a code.
   */
  datatype StatusTable = StatusTable(codeAndMessage: int -> Option<string>, message: int -> string)

  /** The text after the version in the status line; an unknown code uses the message of 500. */
  function StatusText(t: StatusTable, code: int): (r: string)
    ensures t.codeAndMessage(code).Some? ==> r == t.codeAndMessage(code).value
    ensures t.codeAndMessage(code).None? ==> r == t.message(500)
  {
    match t.codeAndMessage(code)
    case Some(s) => s
    case None => t.message(500)
  }

  /** QByteArray::right: the last n bytes, all of them when n is too large, none when n <= 0. */
  function Right(s: string, n: int): (r: string)
    ensures 0 <= n <= |s| ==> r == s[|s| - n..]
  {
    if n <= 0 then [] else if n >= |s| then s else s[|s| - n..]
  }

  /**
   * What a server connection consults but does not own: the request parser
   * and the status table.  The parser is resumed where its previous run
   * stopped, so a run sees the buffer and the offset it was left at (its
   * nread), and reports only the fields it met from there on.
   */
  datatype Env = Env(parse: (string, nat) -> ParseResult, statuses: StatusTable)

  /** The status line text of writeRequestErrorResponse; a code without text adds nothing. */
  function ErrorText(t: StatusTable, code: int): string
  {
    match t.codeAndMessage(code)
    case Some(s) => s
    case None => ""
  }

  /** writeRequestErrorResponse: an HTTP/1.0 status line, "Connection: close" and the end of the headers. */
  function ErrorResponse(codeAndMessage: string): string
  {
    "HTTP/1.0 " + codeAndMessage + CRLF + "Connection: close" + CRLF + CRLF
  }

  /** The interim response to "Expect: 100-continue" (section 5.1.1 of RFC 7231). */
  const ContinueResponse: string := "HTTP/1.1 100 Continue\r\n\r\n"

  // ---------------------------------------------------------------------
  // Response Content-Length text
  // ---------------------------------------------------------------------

  /**
   * The Content-Length line as written: the 64-bit length is handed to a
   * number formatter instantiated for int, so it is first cut to 32 bits.
   */
  function ContentLengthLineAsWritten(length: int): string
  {
    "Content-Length: " + DecimalText(TruncateToInt32(length)) + CRLF
  }

  /** The Content-Length line with the full length. */
  function ContentLengthLine(length: int): string
  {
    "Content-Length: " + DecimalText(length) + CRLF
  }

  /** The number in a "Content-Length: n" line. */
  function LengthInLine(line: string): Option<int>
  {
    if |line| >= 18 && line[..16] == "Content-Length: " && line[|line| - 2..] == CRLF
    then ParseDecimal(line[16..|line| - 2])
    else None
  }

  /** The corrected line always states the length it was given. */
  lemma ContentLengthLineRoundTrip(length: int)
    ensures LengthInLine(ContentLengthLine(length)) == Some(length)
  {
    var line := ContentLengthLine(length);
    var t := DecimalText(length);
    assert |t| >= 1 by {
      if length < 0 { } else { }
    }
    assert line[..16] == "Content-Length: ";
    assert line[16..|line| - 2] == t;
    ParseDecimalText(length);
  }

  /** A length of 4 GiB is announced as zero by the line as written. */
  lemma ContentLengthLineAsWrittenWraps()
    ensures LengthInLine(ContentLengthLineAsWritten(0x1_0000_0000)) == Some(0)
    ensures LengthInLine(ContentLengthLine(0x1_0000_0000)) == Some(0x1_0000_0000)
  {
    assert TruncateToInt32(0x1_0000_0000) == 0;
    ContentLengthLineRoundTrip(0);
    assert ContentLengthLineAsWritten(0x1_0000_0000) == ContentLengthLine(0);
    ContentLengthLineRoundTrip(0x1_0000_0000);
  }

  /** Below 2^31 the two lines are the same. */
  lemma ContentLengthLinesAgree(length: int)
    requires Int32Min <= length <= Int32Max
    ensures ContentLengthLineAsWritten(length) == ContentLengthLine(length)
  {
    TruncateToInt32Identity(length);
  }

  // ---------------------------------------------------------------------
  // Chunked transfer coding
  // ---------------------------------------------------------------------

  /** One chunk: the size in hexadecimal, a line break, the data, a line break. */
  function ChunkFrame(data: string): string
  {
    HexText(|data|) + CRLF + data + CRLF
  }

  /** The last chunk and the end of the (empty) trailer. */
  const LastChunk: string := "0\r\n\r\n"

  /** The text before the first line break and the text after it. */
  function SplitAtLineBreak(s: string): (r: Option<(string, string)>)
    ensures r.Some? ==> s == r.value.0 + CRLF + r.value.1 && '\r' !in r.value.0
  {
    if |s| < 2 then None
    else if s[0] == '\r' && s[1] == '\n' then
      assert s == [] + CRLF + s[2..];
      Some(([], s[2..]))
    else if s[0] == '\r' then None
    else
      match SplitAtLineBreak(s[1..])
      case None => None
      case Some((a, b)) =>
        assert s == [s[0]] + s[1..];
        Some(([s[0]] + a, b))
  }

  /** Reads one chunk off the front: its data and what follows it. */
  function DecodeChunk(s: string): Option<(string, string)>
  {
    match SplitAtLineBreak(s)
    case None => None
    case Some((sizeText, rest)) =>
      match ParseHex(sizeText)
      case None => None
      case Some(n) =>
        if |rest| >= n + 2 && rest[n..n + 2] == CRLF then Some((rest[..n], rest[n + 2..])) else None
  }

  lemma {:induction false} SplitAtFirstBreak(a: string, b: string)
    requires '\r' !in a
    ensures SplitAtLineBreak(a + CRLF + b) == Some((a, b))
  {
    var s := a + CRLF + b;
    if a == [] {
      assert s == CRLF + b;
      assert s[2..] == b;
    } else {
      assert s[0] == a[0] && s[0] != '\r';
      assert s[1..] == a[1..] + CRLF + b;
      SplitAtFirstBreak(a[1..], b);
      assert [a[0]] + a[1..] == a;
    }
  }

  lemma HexTextHasNoBreak(n: nat)
    ensures '\r' !in HexText(n)
  {
    NatTextValue(n, 16);
    var t := HexText(n);
    forall i | 0 <= i < |t| ensures t[i] != '\r' {
      assert IsHexDigit(t[i]);
    }
  }

  /** A chunk reads back as its data, leaving what follows untouched. */
  lemma DecodeChunkFrame(data: string, rest: string)
    ensures DecodeChunk(ChunkFrame(data) + rest) == Some((data, rest))
  {
    var t := HexText(|data|);
    HexTextHasNoBreak(|data|);
    assert ChunkFrame(data) + rest == t + CRLF + (data + CRLF + rest);
    SplitAtFirstBreak(t, data + CRLF + rest);
    ParseHexText(|data|);
    var r := data + CRLF + rest;
    assert r[..|data|] == data && r[|data|..|data| + 2] == CRLF && r[|data| + 2..] == rest;
  }

  /** The terminating chunk reads back as a chunk with no data. */
  lemma DecodeLastChunk(rest: string)
    ensures DecodeChunk(LastChunk + rest) == Some(([], rest))
  {
    assert LastChunk + rest == "0" + CRLF + (CRLF + rest);
    SplitAtFirstBreak("0", CRLF + rest);
    assert ParseHex("0") == Some(0);
    assert (CRLF + rest)[0..2] == CRLF;
    assert (CRLF + rest)[2..] == rest;
  }

  // ---------------------------------------------------------------------
  // Query parameters
  // ---------------------------------------------------------------------

  /** A decoded query parameter; a key without '=' has an empty value. */
  datatype Param = Param(name: string, value: string)

  /** The first parameter at or after lo whose name equals name, ignoring ASCII case. */
  function FindParam(ps: seq<Param>, name: string, lo: nat): (r: Option<nat>)
    requires lo <= |ps|
    ensures r.Some? ==> lo <= r.value < |ps| && AsciiEqualsCI(ps[r.value].name, name)
    ensures r.Some? ==> forall j :: lo <= j < r.value ==> !AsciiEqualsCI(ps[j].name, name)
    ensures r.None? ==> forall j :: lo <= j < |ps| ==> !AsciiEqualsCI(ps[j].name, name)
    decreases |ps| - lo
  {
    if lo == |ps| then None
    else if AsciiEqualsCI(ps[lo].name, name) then Some(lo)
    else FindParam(ps, name, lo + 1)
  }

  /** requestParamValue: the value of the first parameter with that name, or empty. */
  function ParamValue(ps: seq<Param>, name: string): string
  {
    match FindParam(ps, name, 0)
    case Some(i) => ps[i].value
    case None => ""
  }

  /** setRequestParam: replace the first match in place, or append. */
  function SetParam(ps: seq<Param>, name: string, value: string): (r: seq<Param>)
  {
    match FindParam(ps, name, 0)
    case Some(i) => ps[i := Param(name, value)]
    case None => ps + [Param(name, value)]
  }

  /**
   * Setting a parameter: the list keeps its length when the name was
   * there and grows by one otherwise; the name then reads back the new
   * value; every other position is untouched.
   */
  lemma SetParamThenRead(ps: seq<Param>, name: string, value: string)
    ensures FindParam(ps, name, 0).Some? ==> |SetParam(ps, name, value)| == |ps|
    ensures FindParam(ps, name, 0).None? ==> SetParam(ps, name, value) == ps + [Param(name, value)]
    ensures ParamValue(SetParam(ps, name, value), name) == value
    ensures FindParam(ps, name, 0).Some? ==>
              forall j :: 0 <= j < |ps| && j != FindParam(ps, name, 0).value ==> SetParam(ps, name, value)[j] == ps[j]
  {
    AsciiEqualsCIIsLowerEquality(name, name);
    var r := SetParam(ps, name, value);
    match FindParam(ps, name, 0)
    case Some(i) =>
      assert forall j :: 0 <= j < i ==> r[j] == ps[j];
      assert AsciiEqualsCI(r[i].name, name);
    case None =>
      assert forall j :: 0 <= j < |ps| ==> r[j] == ps[j];
      assert AsciiEqualsCI(r[|ps|].name, name);
  }

  /** A name is found regardless of the case it is asked with. */
  lemma ParamValueIgnoresCase(ps: seq<Param>, a: string, b: string)
    requires AsciiEqualsCI(a, b)
    ensures ParamValue(ps, a) == ParamValue(ps, b)
  {
    FindParamCase(ps, a, b, 0);
  }

  lemma {:induction false} FindParamCase(ps: seq<Param>, a: string, b: string, lo: nat)
    requires lo <= |ps| && AsciiEqualsCI(a, b)
    ensures FindParam(ps, a, lo) == FindParam(ps, b, lo)
    decreases |ps| - lo
  {
    if lo < |ps| {
      AsciiEqualsCIEquivalence(ps[lo].name, a, b);
      AsciiEqualsCIEquivalence(ps[lo].name, b, a);
      FindParamCase(ps, a, b, lo + 1);
    }
  }

  /** A parameter as a query segment: both sides percent-encoded, joined by '='. */
  function EncodeParam(p: Param): string
  {
    PercentEncode(p.name) + "=" + PercentEncode(p.value)
  }

  /** A parameter list as a query string: the segments joined by '&'. */
  function EncodeQuery(ps: seq<Param>): string
  {
    if ps == [] then []
    else if |ps| == 1 then EncodeParam(ps[0])
    else EncodeParam(ps[0]) + "&" + EncodeQuery(ps[1..])
  }
}
