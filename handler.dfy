/**
 * The handler chain: HttpHandlerStack asks its direct handler children in
 * order and stops at the first that handles the request; the fixed, 404
 * and log handlers; HttpHandlerFile's decision whether and how to serve a
 * file; and HttpHandlerFileTransfer, which streams a large file in pieces
 * no larger than its buffer.
 *
 * A handler's work on the connection is recorded as a list of effects.
 * The filesystem (existence, canonical paths, file kinds and contents),
 * the MIME table and the MD5 digest are given as functions.
 */
module Handler {
  import opened Bytes
  import opened Http

  /** What a handler does to the connection, in order. */
  datatype Effect =
    | Asked(id: nat)                                             // an application handler was consulted
    | Wrote(status: int, headers: seq<Header>, content: string)  // writeResponse
    | WroteHeaders(status: int, headers: seq<Header>)            // writeHeaders, the content to follow
    | TransferStarted(source: string, bufferSize: int)           // a file transfer was set up and its first
                                                                 // payload written (FileTransfer models the rest)
    | TimerStarted                                               // the log handler timed the request

  datatype Outcome = Outcome(handled: bool, effects: seq<Effect>)

  /** What a file handler learns about a path from the filesystem. */
  datatype FileFacts = FileFacts(present: bool, canonical: string, isFile: bool, readable: bool, content: string)

  /** The request as the handlers see it, and the services they consult. */
  datatype Env = Env(
    path: string,                     // the request path, still percent-encoded
    headers: seq<Header>,             // the request headers
    files: string -> FileFacts,       // the filesystem
    mime: string -> string,           // the MIME type for a file name
    md5: string -> string)            // the hex MD5 digest of some content

  /**
   * A QObject child of a handler stack: either a handler, or some other
   * object, whose own children are never consulted.
   */
  datatype Child = Plain(children: seq<Child>) | Node(handler: Handler)

  datatype Handler =
    | Stack(children: seq<Child>)
    | Fixed(status: int, content: string)
    | NotFound
    | Log
    | File(publicPath: string, bufferSize: int)
    | Mock(id: nat, acceptPath: string, status: int)   // an application handler that serves one path

  const DefaultBufferSize: int := 512 * 1024

  /** The smallest buffer a file transfer uses. */
  const MinimumTransferBuffer: int := 512

  function NotFoundText(path: string): string
  {
    "The requested resource '" + path + "' does not exist on this server"
  }

  function ForbiddenText(path: string): string
  {
    "The requested resource '" + path + "' is not accessible"
  }

  /** handleRequest of each kind of handler. */
  function Handle(h: Handler, env: Env): Outcome
    decreases h, if h.Stack? then |h.children| + 1 else 0
  {
    match h
    case Stack(_) => RunFrom(h, 0, env)
    case Fixed(status, content) => Outcome(true, [Wrote(status, [], content)])
    case NotFound => Outcome(true, [Wrote(404, [], NotFoundText(env.path))])
    case Log => Outcome(false, [TimerStarted])
    case File(publicPath, bufferSize) => ServeFile(publicPath, bufferSize, env)
    case Mock(id, acceptPath, status) =>
      if env.path == acceptPath then Outcome(true, [Asked(id), Wrote(status, [], [])])
      else Outcome(false, [Asked(id)])
  }

  /** A stack's children from index i on: the first handler that handles the request ends the run. */
  function RunFrom(h: Handler, i: nat, env: Env): Outcome
    requires h.Stack?
    decreases h, if i <= |h.children| then |h.children| - i else 0
  {
    if i >= |h.children| then Outcome(false, [])
    else match h.children[i]
      case Plain(_) => RunFrom(h, i + 1, env)
      case Node(c) =>
        var o := Handle(c, env);
        if o.handled then o else Then(o.effects, RunFrom(h, i + 1, env))
  }

  /** Effects already made, followed by an outcome. */
  function Then(effects: seq<Effect>, o: Outcome): Outcome
  {
    Outcome(o.handled, effects + o.effects)
  }

  /** GetHandlers: the handler children, in order. */
  function Handlers(cs: seq<Child>): (r: seq<Handler>)
    ensures |r| <= |cs|
  {
    if cs == [] then []
    else if cs[0].Node? then [cs[0].handler] + Handlers(cs[1..])
    else Handlers(cs[1..])
  }

  function Nodes(hs: seq<Handler>): (r: seq<Child>)
    ensures |r| == |hs|
  {
    seq(|hs|, i requires 0 <= i < |hs| => Node(hs[i]))
  }

  // ---------------------------------------------------------------------
  // HttpHandlerStack
  // ---------------------------------------------------------------------

  /** HttpHandlerStack::handleRequest: asks the children in order and returns at the first that handles the request. */
  method HandleStack(children: seq<Child>, env: Env) returns (handled: bool, effects: seq<Effect>)
    ensures Outcome(handled, effects) == Handle(Stack(children), env)
  {
    var h := Stack(children);
    effects := [];
    for i := 0 to |children|
      invariant RunFrom(h, 0, env) == Then(effects, RunFrom(h, i, env))
    {
      if children[i].Node? {
        var o := Handle(children[i].handler, env);
        if o.handled {
          handled := true;
          effects := effects + o.effects;
          return;
        }
        assert (effects + o.effects) + RunFrom(h, i + 1, env).effects == effects + (o.effects + RunFrom(h, i + 1, env).effects);
        effects := effects + o.effects;
      }
    }
    handled := false;
  }

  /** GetHandlers: collects the handler children in order. */
  method GetHandlers(children: seq<Child>) returns (handlers: seq<Handler>)
    ensures handlers == Handlers(children)
  {
    handlers := [];
    for i := 0 to |children|
      invariant handlers + Handlers(children[i..]) == Handlers(children)
    {
      assert children[i..][1..] == children[i + 1..];
      if children[i].Node? {
        handlers := handlers + [children[i].handler];
      }
    }
  }

  /** A stack handles a request exactly when one of its handler children does. */
  lemma {:induction false} RunFromHandled(h: Handler, i: nat, env: Env)
    requires h.Stack?
    ensures RunFrom(h, i, env).handled
            <==> exists j :: i <= j < |h.children| && h.children[j].Node? && Handle(h.children[j].handler, env).handled
    decreases |h.children| - i
  {
    if i < |h.children| {
      RunFromHandled(h, i + 1, env);
    }
  }

  lemma StackHandledIff(cs: seq<Child>, env: Env)
    ensures Handle(Stack(cs), env).handled
            <==> exists j :: 0 <= j < |cs| && cs[j].Node? && Handle(cs[j].handler, env).handled
  {
    RunFromHandled(Stack(cs), 0, env);
  }

  lemma {:induction false} RunFromPrefix(cs: seq<Child>, more: seq<Child>, i: nat, env: Env)
    requires i <= |cs|
    ensures var o := RunFrom(Stack(cs), i, env);
      RunFrom(Stack(cs + more), i, env) == (if o.handled then o else Then(o.effects, RunFrom(Stack(more), 0, env)))
    decreases |cs| - i
  {
    if i == |cs| {
      RunFromShift(cs, more, 0, env);
    } else {
      assert (cs + more)[i] == cs[i];
      RunFromPrefix(cs, more, i + 1, env);
      var o1 := RunFrom(Stack(cs), i + 1, env);
      var tail := RunFrom(Stack(more), 0, env);
      match cs[i]
      case Plain(_) =>
      case Node(c) =>
        var o := Handle(c, env);
        if !o.handled && !o1.handled {
          assert (o.effects + o1.effects) + tail.effects == o.effects + (o1.effects + tail.effects);
        }
    }
  }

  lemma {:induction false} RunFromShift(cs: seq<Child>, more: seq<Child>, j: nat, env: Env)
    requires j <= |more|
    ensures RunFrom(Stack(cs + more), |cs| + j, env) == RunFrom(Stack(more), j, env)
    decreases |more| - j
  {
    if j < |more| {
      assert (cs + more)[|cs| + j] == more[j];
      RunFromShift(cs, more, j + 1, env);
    }
  }

  /** Once a handler has handled the request, the siblings after it are never asked. */
  lemma LaterSiblingsNotAsked(cs: seq<Child>, more: seq<Child>, env: Env)
    requires Handle(Stack(cs), env).handled
    ensures Handle(Stack(cs + more), env) == Handle(Stack(cs), env)
  {
    RunFromPrefix(cs, more, 0, env);
  }

  /** When no child handles the request, the stack goes on to the next children, keeping what the first ones did. */
  lemma DeclinedGoesOn(cs: seq<Child>, more: seq<Child>, env: Env)
    requires !Handle(Stack(cs), env).handled
    ensures Handle(Stack(cs + more), env) == Then(Handle(Stack(cs), env).effects, Handle(Stack(more), env))
  {
    RunFromPrefix(cs, more, 0, env);
  }

  /** Only the handler children count: the stack behaves as the stack of GetHandlers; grandchildren are never asked. */
  lemma {:induction false} OnlyHandlersAsked(cs: seq<Child>, env: Env)
    ensures Handle(Stack(cs), env) == Handle(Stack(Nodes(Handlers(cs))), env)
    decreases |cs|
  {
    if cs != [] {
      var rest := cs[1..];
      OnlyHandlersAsked(rest, env);
      assert [cs[0]] + rest == cs;
      DeclinedOrWon([cs[0]], rest, env);
      var first := Handle(Stack([cs[0]]), env);
      assert RunFrom(Stack([cs[0]]), 1, env) == Outcome(false, []);
      if cs[0].Node? {
        var nodes := Nodes(Handlers(rest));
        assert Nodes(Handlers(cs)) == [cs[0]] + nodes;
        DeclinedOrWon([cs[0]], nodes, env);
      } else {
        assert first == Outcome(false, []);
        assert Then([], Handle(Stack(rest), env)) == Handle(Stack(rest), env);
        assert Handlers(cs) == Handlers(rest);
      }
    }
  }

  /** The two cases of appending children, as one equation. */
  lemma DeclinedOrWon(cs: seq<Child>, more: seq<Child>, env: Env)
    ensures var o := Handle(Stack(cs), env);
      Handle(Stack(cs + more), env) == (if o.handled then o else Then(o.effects, Handle(Stack(more), env)))
  {
    RunFromPrefix(cs, more, 0, env);
  }

  /**
   * Five children: handlers for "/1", a plain object holding a handler for
   * "/", "/2", and two for "/".  A request for "/" asks the first three
   * handlers in order, is answered by the first handler for "/", and never
   * reaches the last one or the handler below the plain object.
   */
  lemma StackExample(env: Env)
    requires env.path == "/"
    ensures var cs := [Node(Mock(1, "/1", 200)), Plain([Node(Mock(11, "/", 403))]), Node(Mock(2, "/2", 302)),
                       Node(Mock(3, "/", 500)), Node(Mock(4, "/", 200))];
      Handle(Stack(cs), env) == Outcome(true, [Asked(1), Asked(2), Asked(3), Wrote(500, [], [])])
  {
    var cs := [Node(Mock(1, "/1", 200)), Plain([Node(Mock(11, "/", 403))]), Node(Mock(2, "/2", 302)),
               Node(Mock(3, "/", 500)), Node(Mock(4, "/", 200))];
    var h := Stack(cs);
    assert RunFrom(h, 3, env) == Outcome(true, [Asked(3), Wrote(500, [], [])]);
    assert RunFrom(h, 2, env) == Outcome(true, [Asked(2), Asked(3), Wrote(500, [], [])]);
    assert RunFrom(h, 1, env) == RunFrom(h, 2, env);
  }

  /** The fixed and 404 handlers always handle the request; the log handler never does. */
  lemma HandlerAnswers(env: Env, status: int, content: string)
    ensures Handle(Fixed(status, content), env) == Outcome(true, [Wrote(status, [], content)])
    ensures Handle(NotFound, env).handled && Handle(NotFound, env).effects[0].status == 404
    ensures !Handle(Log, env).handled
  {
  }

  /** A log handler placed first times every request and lets the next handler answer it. */
  lemma LogIsTransparent(more: seq<Child>, env: Env)
    ensures Handle(Stack([Node(Log)] + more), env) == Then([TimerStarted], Handle(Stack(more), env))
  {
    DeclinedOrWon([Node(Log)], more, env);
    assert RunFrom(Stack([Node(Log)]), 1, env) == Outcome(false, []);
  }

  // ---------------------------------------------------------------------
  // HttpHandlerFile
  // ---------------------------------------------------------------------

  /** Why a file handler declines a request, if it does. */
  predicate Declines(publicPath: string, env: Env)
  {
    var facts := env.files(publicPath + PercentDecode(env.path));
    publicPath == [] || !facts.present || !(publicPath <= facts.canonical) || !facts.isFile
  }

  /**
   * HttpHandlerFile::handleRequest: declines unless a public path is set
   * and the decoded request path names an existing regular file whose
   * canonical path stays inside it; answers 403 when the file cannot be
   * read; sends a file that fits the buffer whole with an ETag (or 304
   * when the client's If-None-Match equals it); and otherwise sends the
   * headers with the length and starts a transfer.
   */
  function ServeFile(publicPath: string, bufferSize: int, env: Env): Outcome
  {
    if publicPath == [] then Outcome(false, [])
    else
      var requestPath := PercentDecode(env.path);
      var facts := env.files(publicPath + requestPath);
      if !facts.present || !(publicPath <= facts.canonical) || !facts.isFile then Outcome(false, [])
      else if !facts.readable then Outcome(true, [Wrote(403, [], ForbiddenText(requestPath))])
      else
        var headers := [Header("Content-Type", env.mime(requestPath))];
        if |facts.content| <= bufferSize then
          var etag := env.md5(facts.content);
          if HeaderValue(env.headers, "If-None-Match") == etag then Outcome(true, [Wrote(304, [], [])])
          else Outcome(true, [Wrote(200, headers + [Header("ETag", etag)], facts.content)])
        else
          Outcome(true, [WroteHeaders(200, headers + [Header("Content-Length", DecimalText(|facts.content|))]),
                         TransferStarted(facts.content, bufferSize)])
  }

  /** The file handler declines exactly on the four conditions of its ladder, and then does nothing. */
  lemma FileDeclinesIff(publicPath: string, bufferSize: int, env: Env)
    ensures !ServeFile(publicPath, bufferSize, env).handled <==> Declines(publicPath, env)
    ensures Declines(publicPath, env) ==> ServeFile(publicPath, bufferSize, env).effects == []
    ensures !Declines(publicPath, env) ==> |ServeFile(publicPath, bufferSize, env).effects| >= 1
  {
  }

  /**
   * The answer to a file it serves: 403 when unreadable, 304 exactly when
   * the file fits the buffer and If-None-Match carries its digest, the
   * whole file when it fits, and a transfer with the exact length when it
   * does not.
   */
  lemma FileAnswer(publicPath: string, bufferSize: int, env: Env)
    requires !Declines(publicPath, env)
    ensures var requestPath := PercentDecode(env.path);
      var facts := env.files(publicPath + requestPath);
      var e := ServeFile(publicPath, bufferSize, env).effects[0];
      (!facts.readable ==> e == Wrote(403, [], ForbiddenText(requestPath)))
      && (facts.readable && |facts.content| <= bufferSize ==>
            (e == Wrote(304, [], []) <==> HeaderValue(env.headers, "If-None-Match") == env.md5(facts.content)))
      && (facts.readable && |facts.content| <= bufferSize && e.status == 200 ==> e.content == facts.content)
      && (facts.readable && |facts.content| > bufferSize ==>
            e.WroteHeaders? && e.headers[1] == Header("Content-Length", DecimalText(|facts.content|))
            && ServeFile(publicPath, bufferSize, env).effects[1] == TransferStarted(facts.content, bufferSize))
  {
  }

  /** The file handler's settings; the canonical form of a directory comes from the filesystem. */
  class FileHandler {
    var publicPath: string
    var bufferSize: int
    const canonical: string -> string

    constructor (publicPath: string, canonical: string -> string)
      ensures this.canonical == canonical && bufferSize == DefaultBufferSize
      ensures this.publicPath == (if publicPath == [] then [] else canonical(publicPath))
    {
      this.publicPath := [];
      this.bufferSize := DefaultBufferSize;
      this.canonical := canonical;
      new;
      SetPublicPath(publicPath);
    }

    /** setPublicPath: the same path again changes nothing; a non-empty path is stored in canonical form. */
    method SetPublicPath(path: string)
      modifies this
      ensures bufferSize == old(bufferSize)
      ensures publicPath == (if path == old(publicPath) then old(publicPath) else if path == [] then [] else canonical(path))
    {
      if publicPath == path {
        return;
      }
      publicPath := path;
      if publicPath != [] {
        publicPath := canonical(publicPath);
      }
    }

    /** setBufferSize: stores the size as given. */
    method SetBufferSize(bytes: int)
      modifies this
      ensures bufferSize == bytes && publicPath == old(publicPath)
    {
      if bufferSize == bytes {
        return;
      }
      bufferSize := bytes;
    }

    method HandleRequest(env: Env) returns (handled: bool, effects: seq<Effect>)
      ensures Outcome(handled, effects) == Handle(File(publicPath, bufferSize), env)
    {
      var o := ServeFile(publicPath, bufferSize, env);
      handled := o.handled;
      effects := o.effects;
    }
  }

  // ---------------------------------------------------------------------
  // HttpHandlerFileTransfer
  // ---------------------------------------------------------------------

  /** The buffer size a transfer uses: requests below 512 bytes are raised to 512. */
  function TransferBuffer(requested: int): (r: int)
    ensures r >= MinimumTransferBuffer
    ensures requested >= MinimumTransferBuffer ==> r == requested
  {
    if requested < MinimumTransferBuffer then MinimumTransferBuffer else requested
  }

  /** How many bytes writeNextPayload sends: what the buffer has room for, at most what is left, never less than 0. */
  function PayloadSize(bufferSize: int, pendingOutput: int, remaining: nat): (r: nat)
    ensures r <= remaining
    ensures r > 0 ==> r <= bufferSize - pendingOutput
    ensures r == 0 <==> (bufferSize - pendingOutput <= 0 || remaining == 0)
    ensures bufferSize - pendingOutput > 0 && remaining > 0 ==>
              (r == bufferSize - pendingOutput || r == remaining)
  {
    var room := bufferSize - pendingOutput;
    if room <= 0 then 0 else if room > remaining then remaining else room
  }

  class FileTransfer {
    /** The content of the source file. */
    const source: string
    const bufferSize: int
    /** The position reached in the source. */
    var pos: nat
    /** What has been written to the connection. */
    var written: string
    /** How many times the finished signal was sent. */
    var finished: nat
    /** Whether the source, the connection and its output device still exist. */
    var attached: bool

    ghost predicate Valid()
      reads this
    {
      pos <= |source| && written == source[..pos]
      && finished <= 1
      && (finished == 1 <==> pos == |source| && pos > 0)
    }

    constructor (source: string, bufferSize: int)
      ensures this.source == source && this.bufferSize == TransferBuffer(bufferSize)
      ensures pos == 0 && written == [] && finished == 0 && attached
      ensures Valid()
    {
      this.source := source;
      this.bufferSize := if bufferSize < MinimumTransferBuffer then MinimumTransferBuffer else bufferSize;
      pos := 0;
      written := [];
      finished := 0;
      attached := true;
    }

    /**
     * writeNextPayload, with pendingOutput the bytes still waiting on the
     * output device: sends the next piece of the file and signals the end
     * once the last byte has been sent.
     */
    method WriteNextPayload(pendingOutput: int)
      requires Valid()
      modifies this
      ensures Valid()
      ensures attached == old(attached)
      ensures var n := if attached then PayloadSize(bufferSize, pendingOutput, |source| - old(pos)) else 0;
        pos == old(pos) + n
        && finished == (if n > 0 && pos == |source| then 1 else old(finished))
    {
      if !attached {
        return;
      }
      var bytesToRead := bufferSize - pendingOutput;
      if bytesToRead <= 0 {
        return;
      }
      var bytesAvailable := |source| - pos;
      if bytesToRead > bytesAvailable {
        bytesToRead := bytesAvailable;
      }
      if bytesToRead > 0 {
        written := written + source[pos..pos + bytesToRead];
        pos := pos + bytesToRead;
        if pos == |source| {
          finished := finished + 1;
        }
      }
    }

    /** The source or the connection went away: later calls do nothing. */
    method Detach()
      modifies this
      ensures !attached && pos == old(pos) && written == old(written) && finished == old(finished)
    {
      attached := false;
    }
  }

  /** Each call with room in the buffer moves the transfer forward until the whole file is written. */
  lemma PayloadProgress(bufferSize: int, pendingOutput: int, remaining: nat)
    requires bufferSize >= MinimumTransferBuffer && pendingOutput < bufferSize && remaining > 0
    ensures PayloadSize(bufferSize, pendingOutput, remaining) > 0
  {
  }

  /** With nothing pending on the output, a file takes ceil(size / buffer) payloads. */
  function PayloadsNeeded(bufferSize: int, size: nat): (r: nat)
    requires bufferSize >= MinimumTransferBuffer
    decreases size
  {
    if size == 0 then 0 else 1 + PayloadsNeeded(bufferSize, size - PayloadSize(bufferSize, 0, size))
  }

  lemma {:induction false} PayloadsNeededIsCeiling(bufferSize: int, size: nat)
    requires bufferSize >= MinimumTransferBuffer
    ensures PayloadsNeeded(bufferSize, size) * bufferSize >= size
    ensures size > 0 ==> (PayloadsNeeded(bufferSize, size) - 1) * bufferSize < size
    decreases size
  {
    if size > 0 {
      var n := PayloadSize(bufferSize, 0, size);
      PayloadsNeededIsCeiling(bufferSize, size - n);
      if size - n > 0 {
        assert n == bufferSize;
      }
    }
  }
}
