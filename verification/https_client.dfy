/**
 * The client side: the request builder with its method table, the read and
 * write handlers of the one connection, and the order in which
 * start_https_client connects, runs the loop and shuts the session down.
 * TLS calls, libev and llhttp are not modelled; their results are parameters.
 */
module HttpsClient {
  import opened Wrappers
  import opened Decimal
  import opened CStrings
  import opened HttpWire
  import opened Hooks

  /** Size of the stack buffer the request is formatted into (`request_buffer`). */
  const REQUEST_BUFFER_SIZE: nat := 4096

  /** The `http_method` enumeration, in declaration order. */
  datatype HttpMethod = GET | POST | PUT | DELETE

  /** The integer value C gives each enumerator. */
  function Ordinal(m: HttpMethod): (n: nat)
    ensures n < 4 && [GET, POST, PUT, DELETE][n] == m
  {
    match m
    case GET => 0
    case POST => 1
    case PUT => 2
    case DELETE => 3
  }

  /** `method_array` inside build_http_request. */
  const METHOD_TABLE: seq<string> := ["GET", "POST", "DELETE", "PUT"]

  /** The method string build_http_request prints: `method_array[method]`. */
  function MethodTableEntry(m: HttpMethod): string {
    METHOD_TABLE[Ordinal(m)]
  }

  /** Reads a request-line method token back (section 9 of RFC 9110). */
  function ParseMethod(token: string): Option<HttpMethod> {
    if token == "GET" then Some(GET)
    else if token == "POST" then Some(POST)
    else if token == "PUT" then Some(PUT)
    else if token == "DELETE" then Some(DELETE)
    else None
  }

  /** The token each enumerator names. */
  function MethodToken(m: HttpMethod): (token: string)
    ensures ParseMethod(token) == Some(m)
    ensures ' ' !in token && '\r' !in token && '\0' !in token
  {
    match m
    case GET => "GET"
    case POST => "POST"
    case PUT => "PUT"
    case DELETE => "DELETE"
  }

  /** The table gets GET and POST right and swaps the other two. */
  lemma MethodTableSwapsPutAndDelete(m: HttpMethod)
    ensures ParseMethod(MethodTableEntry(m)) == Some(m) <==> m == GET || m == POST
    ensures ParseMethod(MethodTableEntry(PUT)) == Some(DELETE)
    ensures ParseMethod(MethodTableEntry(DELETE)) == Some(PUT)
  {
  }

  /** The two fixed header lines of the request. */
  const REQUEST_HEADERS: string := "Host: localhost\r\n" + "Connection: keep-alive\r\n"

  function RequestLine(methodStr: CString, path: CString): string {
    methodStr + " " + path + " HTTP/1.1"
  }

  /** The text the request format string expands to, before any truncation. */
  function RequestText(methodStr: CString, path: CString, body: CString, bodyLength: SizeT): string {
    RequestLine(methodStr, path) + "\r\n"
    + REQUEST_HEADERS
    + "Content-Length: " + NatToDec(bodyLength) + "\r\n"
    + "\r\n"
    + body
  }

  /** build_http_request as written: the table's method string, whatever snprintf stores, and its untruncated length. */
  function BuildHttpRequest(bufferSize: nat, m: HttpMethod, path: CString, body: CString, bodyLength: SizeT): Formatted {
    Snprintf(RequestText(MethodTableEntry(m), path, body, bodyLength), bufferSize)
  }

  /**
   * The builder with the evident intent: the method's own token, and an explicit
   * error instead of a truncated buffer when the request does not fit.
   */
  function BuildHttpRequestChecked(bufferSize: nat, m: HttpMethod, path: CString, body: CString, bodyLength: SizeT)
    : (r: Result<string, BuildError>)
    ensures r.Ok? ==> |r.value| < bufferSize && r.value == RequestText(MethodToken(m), path, body, bodyLength)
    ensures r.Err? <==> |RequestText(MethodToken(m), path, body, bodyLength)| >= bufferSize
  {
    var text := RequestText(MethodToken(m), path, body, bodyLength);
    if |text| >= bufferSize then Err(TooLarge(|text|)) else Ok(text)
  }

  /** A request as a server reads it: method token, target, announced Content-Length, body bytes. */
  datatype Request = Request(token: string, target: string, contentLength: Option<nat>, body: string)

  /** request-line = method SP request-target SP HTTP-version (section 3 of RFC 9112). */
  function ParseRequestLine(line: string): Option<(string, string)> {
    match SplitAt(line, ' ')
    case None => None
    case Some((token, rest)) =>
      if |rest| < 9 || rest[|rest| - 9..] != " HTTP/1.1" then None
      else Some((token, rest[..|rest| - 9]))
  }

  function ParseRequest(wire: string): Option<Request> {
    match Parse(wire)
    case None => None
    case Some(m) =>
      match ParseRequestLine(m.startLine)
      case None => None
      case Some((tok, target)) => Some(Request(tok, target, ContentLength(m), m.body))
  }

  function RequestMessage(methodStr: CString, path: CString, body: CString, bodyLength: SizeT): Message {
    Message(RequestLine(methodStr, path),
            [Field("Host", "localhost"), Field("Connection", "keep-alive"),
             Field("Content-Length", NatToDec(bodyLength))],
            body)
  }

  lemma RequestHeadersAreFieldLines()
    ensures REQUEST_HEADERS + "Content-Length: "
            == FieldLines([Field("Host", "localhost"), Field("Connection", "keep-alive")]) + "Content-Length" + ": "
  {
    var f1, f2 := Field("Host", "localhost"), Field("Connection", "keep-alive");
    HeaderLineText("Host", "localhost", "Host: localhost\r\n");
    HeaderLineText("Connection", "keep-alive", "Connection: keep-alive\r\n");
    FieldLinesAppend([f1], [f2]);
    assert [f1] + [f2] == [f1, f2];
    assert "Content-Length: " == "Content-Length" + ": ";
  }

  lemma RequestTextIsMessage(methodStr: CString, path: CString, body: CString, bodyLength: SizeT)
    ensures RequestText(methodStr, path, body, bodyLength) == Serialize(RequestMessage(methodStr, path, body, bodyLength))
  {
    var m := RequestMessage(methodStr, path, body, bodyLength);
    var n := NatToDec(bodyLength);
    var fs := [Field("Host", "localhost"), Field("Connection", "keep-alive")];
    var last := [Field("Content-Length", n)];
    assert m.fields == fs + last;
    FieldLinesAppend(fs, last);
    assert FieldLines(last) == "Content-Length" + ": " + n + CRLF + FieldLines([]);
    RequestHeadersAreFieldLines();
    Regroup(m.startLine, CRLF, REQUEST_HEADERS, "Content-Length: ", n, body,
            FieldLines(fs), "Content-Length", ": ", FieldLines([]));
  }

  /** The method token and the path come back out of the request line; a path may itself hold spaces. */
  lemma RequestLineRoundTrip(methodStr: CString, path: CString)
    requires ' ' !in methodStr
    ensures ParseRequestLine(RequestLine(methodStr, path)) == Some((methodStr, path))
  {
    var rest := path + " HTTP/1.1";
    assert RequestLine(methodStr, path) == methodStr + [' '] + rest;
    SplitAtFirst(methodStr, ' ', rest);
    assert rest[|rest| - 9..] == " HTTP/1.1";
    assert rest[..|rest| - 9] == path;
  }

  lemma RequestFieldsOk(n: string)
    requires AllDigits(n)
    ensures FieldOk(Field("Host", "localhost")) && FieldOk(Field("Connection", "keep-alive"))
    ensures FieldOk(Field("Content-Length", n))
  {
    assert forall k :: 0 <= k < |n| ==> IsDigit(n[k]);
  }

  lemma RequestFramable(methodStr: CString, path: CString, body: CString, bodyLength: SizeT)
    requires '\r' !in methodStr && '\r' !in path
    ensures Framable(RequestMessage(methodStr, path, body, bodyLength))
  {
    var n := NatToDec(bodyLength);
    RequestFieldsOk(n);
    var f0, f1, f2 := Field("Host", "localhost"), Field("Connection", "keep-alive"), Field("Content-Length", n);
    var fields := [f0, f1, f2];
    assert RequestMessage(methodStr, path, body, bodyLength) == Message(RequestLine(methodStr, path), fields, body);
    assert forall i :: 0 <= i < |fields| ==> fields[i] == f0 || fields[i] == f1 || fields[i] == f2;
  }

  /**
   * Reading back a request recovers the method string, the path and the body;
   * the announced Content-Length is the caller's body_length, whatever the body
   * holds (sections 2.1 and 3 of RFC 9112, section 8.6 of RFC 9110).
   */
  lemma RequestRoundTrip(methodStr: CString, path: CString, body: CString, bodyLength: SizeT)
    requires ' ' !in methodStr && '\r' !in methodStr && '\r' !in path
    ensures ParseRequest(RequestText(methodStr, path, body, bodyLength))
            == Some(Request(methodStr, path, Some(bodyLength), body))
  {
    var m := RequestMessage(methodStr, path, body, bodyLength);
    RequestTextIsMessage(methodStr, path, body, bodyLength);
    RequestLineRoundTrip(methodStr, path);
    RequestFramable(methodStr, path, body, bodyLength);
    ParseSerialize(m);
    NatToDecRoundTrip(bodyLength);
    assert |m.fields[0].name| != 14 && |m.fields[1].name| != 14 && |"Content-Length"| == 14;
    assert FieldValue(m.fields[2..], "Content-Length") == Some(NatToDec(bodyLength));
    assert FieldValue(m.fields, "Content-Length") == FieldValue(m.fields[1..], "Content-Length");
    assert m.fields[1..][1..] == m.fields[2..];
    assert ContentLength(m) == Some(bodyLength);
  }

  /** The request's Content-Length counts the body bytes exactly when body_length == strlen(body). */
  lemma RequestFramedIff(methodStr: CString, path: CString, body: CString, bodyLength: SizeT)
    requires ' ' !in methodStr && '\r' !in methodStr && '\r' !in path
    ensures var m := Parse(RequestText(methodStr, path, body, bodyLength));
      m.Some? && (BodyFramed(m.value) <==> bodyLength == |body|)
  {
    RequestRoundTrip(methodStr, path, body, bodyLength);
    RequestTextIsMessage(methodStr, path, body, bodyLength);
    RequestFramable(methodStr, path, body, bodyLength);
    ParseSerialize(RequestMessage(methodStr, path, body, bodyLength));
  }

  /** A request that fits and is built as written names DELETE for PUT and PUT for DELETE. */
  lemma BuiltRequestMethod(m: HttpMethod, path: CString, body: CString, bodyLength: SizeT)
    requires '\r' !in path
    requires BuildHttpRequest(REQUEST_BUFFER_SIZE, m, path, body, bodyLength).length < REQUEST_BUFFER_SIZE
    ensures var r := ParseRequest(BuildHttpRequest(REQUEST_BUFFER_SIZE, m, path, body, bodyLength).buffer);
      && r.Some?
      && ParseMethod(r.value.token) == Some(match m case PUT => DELETE case DELETE => PUT case _ => m)
  {
    var token := MethodTableEntry(m);
    assert token in METHOD_TABLE;
    assert ' ' !in token && '\r' !in token;
    RequestRoundTrip(token, path, body, bodyLength);
  }

  /** With the corrected builder, a request that fits names its own method and frames its body. */
  lemma CheckedRequestRoundTrip(m: HttpMethod, path: CString, body: CString, bodyLength: SizeT)
    requires '\r' !in path
    requires BuildHttpRequestChecked(REQUEST_BUFFER_SIZE, m, path, body, bodyLength).Ok?
    ensures var r := ParseRequest(BuildHttpRequestChecked(REQUEST_BUFFER_SIZE, m, path, body, bodyLength).value);
      r == Some(Request(MethodToken(m), path, Some(bodyLength), body)) && ParseMethod(r.value.token) == Some(m)
  {
    RequestRoundTrip(MethodToken(m), path, body, bodyLength);
  }

  /**
   * Any body of 4096 bytes or more makes build_http_request return more than
   * its 4096-byte buffer holds.
   */
  lemma LargeRequestOverrunsBuffer(m: HttpMethod, path: CString, body: CString, bodyLength: SizeT)
    requires |body| >= REQUEST_BUFFER_SIZE
    ensures var f := BuildHttpRequest(REQUEST_BUFFER_SIZE, m, path, body, bodyLength);
      f.length > REQUEST_BUFFER_SIZE && |f.buffer| == REQUEST_BUFFER_SIZE - 1
  {
    assert |RequestText(MethodTableEntry(m), path, body, bodyLength)| > |body|;
  }

  /**
   * send_http_request as written, for a body of 4096 bytes or more: SSL_write
   * is asked for the untruncated length, more than the 4095 characters and
   * the NUL the buffer holds, and no whole request is sent.
   */
  lemma LargeRequestWriteOverreads(cb: CallbackRef, m: HttpMethod, path: CString, body: CString, bodyLength: SizeT,
                                   write: WriteResult)
    requires !cb.Uninitialised? && |body| >= REQUEST_BUFFER_SIZE
    ensures var f := BuildHttpRequest(REQUEST_BUFFER_SIZE, m, path, body, bodyLength);
      var t := WriteFrom(cb, f.buffer, f.length, write);
      && f.length > |f.buffer| + 1
      && t[0] == OversizeWrite(f.buffer, f.length)
      && forall e :: e in t ==> !e.Sent?
  {
    var f := BuildHttpRequest(REQUEST_BUFFER_SIZE, m, path, body, bodyLength);
    LargeRequestOverrunsBuffer(m, path, body, bodyLength);
    WriteFromOutcome(cb, f.buffer, f.length, write);
  }

  /**
   * send_http_request as written, for a request that fits: the whole buffer
   * is written, and the request it carries names PUT where DELETE was asked
   * for and DELETE where PUT was.
   */
  lemma FittingRequestWriteSwapsMethod(cb: CallbackRef, m: HttpMethod, path: CString, body: CString, bodyLength: SizeT,
                                       write: WriteResult)
    requires !cb.Uninitialised? && '\r' !in path
    requires |RequestText(MethodTableEntry(m), path, body, bodyLength)| < REQUEST_BUFFER_SIZE
    ensures var f := BuildHttpRequest(REQUEST_BUFFER_SIZE, m, path, body, bodyLength);
      var r := ParseRequest(f.buffer);
      && WriteFrom(cb, f.buffer, f.length, write) == WriteHooks(cb, f.buffer, write)
      && r.Some?
      && ParseMethod(r.value.token) == Some(match m case PUT => DELETE case DELETE => PUT case _ => m)
  {
    var f := BuildHttpRequest(REQUEST_BUFFER_SIZE, m, path, body, bodyLength);
    assert f.buffer[..f.length] == f.buffer;
    BuiltRequestMethod(m, path, body, bodyLength);
  }

  /** The `read <= 0` branch of the client's on_read: nothing is shut down or freed there. */
  function ClientTeardownEvents(cb: CallbackRef, readError: SslError): seq<Event>
    requires !cb.Uninitialised?
  {
    DisconnectedHook(cb) + HandleError(cb, readError, "ssl read failed") + [WatcherStopped]
  }

  /** on_disconnected (if set), then on_error (if set), then the watcher stops; nothing is released. */
  lemma ClientTeardownOrder(cb: CallbackRef, readError: SslError)
    requires !cb.Uninitialised?
    ensures var t := ClientTeardownEvents(cb, readError);
      var d := |DisconnectedHook(cb)|;
      var e := |HandleError(cb, readError, "ssl read failed")|;
      && |t| == d + e + 1
      && (d == 1 <==> cb.Hooked? && cb.hooks.onDisconnected)
      && (d == 1 ==> t[0] == Disconnected)
      && (e == 1 <==> cb.Hooked? && cb.hooks.onError)
      && (e == 1 ==> t[d] == Error(ErrorMessage(readError, "ssl read failed")))
      && t[d + e] == WatcherStopped
      && TlsShutdown !in t && Released !in t
  {
    HandleErrorOnce(cb, readError, "ssl read failed");
  }

  /** One readiness event of the client's read watcher: what SSL_read returned and what llhttp made of it. */
  datatype Readiness = Readiness(read: ReadResult, exec: Execution)

  predicate ReadinessOk(r: Readiness) {
    ChunkOk(r.read) && (r.read.Chunk? ==> SpansOk(r.read.data, r.exec.spans))
  }

  /** The ready ev_run delivers before it returns: chunks, then the failing read that stops the only watcher. */
  predicate LoopReads(ready: seq<Readiness>) {
    && |ready| > 0
    && (forall i :: 0 <= i < |ready| ==> ReadinessOk(ready[i]))
    && (forall i :: 0 <= i < |ready| - 1 ==> ready[i].read.Chunk?)
    && ready[|ready| - 1].read.ReadFailed?
  }

  /** The hooks one on_read call runs. */
  function ReadStep(cb: CallbackRef, r: Readiness): seq<Event>
    requires !cb.Uninitialised? && ReadinessOk(r)
  {
    match r.read
    case Chunk(data) => BodyHooks(cb, data, r.exec.spans)
    case ReadFailed(err) => ClientTeardownEvents(cb, err)
  }

  /** The hooks of successive on_read calls, in order. */
  function Session(cb: CallbackRef, ready: seq<Readiness>): seq<Event>
    requires !cb.Uninitialised?
    requires forall i :: 0 <= i < |ready| ==> ReadinessOk(ready[i])
  {
    if ready == [] then []
    else Session(cb, ready[..|ready| - 1]) + ReadStep(cb, ready[|ready| - 1])
  }

  lemma SessionStep(cb: CallbackRef, ready: seq<Readiness>, i: nat)
    requires !cb.Uninitialised? && i < |ready|
    requires forall k :: 0 <= k < |ready| ==> ReadinessOk(ready[k])
    ensures Session(cb, ready[..i + 1]) == Session(cb, ready[..i]) + ReadStep(cb, ready[i])
  {
    assert ready[..i + 1][..i] == ready[..i];
  }

  /** An event a read can cause. */
  predicate SessionEvent(e: Event) {
    e.DataReceived? || e.Disconnected? || e.Error? || e.WatcherStopped?
  }

  lemma {:induction false} SessionEvents(cb: CallbackRef, ready: seq<Readiness>)
    requires !cb.Uninitialised?
    requires forall i :: 0 <= i < |ready| ==> ReadinessOk(ready[i])
    ensures forall e :: e in Session(cb, ready) ==> SessionEvent(e)
    decreases |ready|
  {
    if ready != [] {
      var r := ready[|ready| - 1];
      SessionEvents(cb, ready[..|ready| - 1]);
      match r.read
      case Chunk(data) =>
        BodyHooksDeliverSegments(cb, data, r.exec.spans);
      case ReadFailed(err) =>
        HandleErrorOnce(cb, err, "ssl read failed");
    }
  }

  /** The body bytes llhttp reported over the ready reads, chunk by chunk, in order. */
  function SessionBytes(ready: seq<Readiness>): string
    requires forall i :: 0 <= i < |ready| ==> ReadinessOk(ready[i])
  {
    if ready == [] then ""
    else
      var r := ready[|ready| - 1];
      assert ReadinessOk(r);
      SessionBytes(ready[..|ready| - 1]) + (if r.read.Chunk? then Segments(r.read.data, r.exec.spans) else "")
  }

  /**
   * Across any number of reads, on_data_received sees exactly the body bytes of
   * every chunk in order (when it is set), and nothing otherwise.
   */
  lemma {:induction false} SessionReceived(cb: CallbackRef, ready: seq<Readiness>)
    requires !cb.Uninitialised?
    requires forall i :: 0 <= i < |ready| ==> ReadinessOk(ready[i])
    ensures Received(Session(cb, ready)) == (if cb.Hooked? && cb.hooks.onDataReceived then SessionBytes(ready) else "")
    decreases |ready|
  {
    if ready != [] {
      var front := ready[..|ready| - 1];
      var r := ready[|ready| - 1];
      SessionReceived(cb, front);
      ReceivedAppend(Session(cb, front), ReadStep(cb, r));
      match r.read
      case Chunk(data) =>
        BodyHooksDeliverSegments(cb, data, r.exec.spans);
      case ReadFailed(err) =>
        HandleErrorOnce(cb, err, "ssl read failed");
        ClientTeardownOrder(cb, err);
        var t := ClientTeardownEvents(cb, err);
        forall e | e in t
          ensures !e.DataReceived?
        {
          var k :| 0 <= k < |t| && t[k] == e;
          assert DisconnectedHook(cb) == [] || DisconnectedHook(cb) == [Disconnected];
        }
        ReceivedNone(t);
    }
  }

  /**
   * What start_https_client does once the socket, SSL object and client are in
   * place. A failed SSL_connect runs handle_error (callbacks is already set) and
   * releases everything. Otherwise on_connected (if set) runs, the watcher starts,
   * the ready run, and SSL_shutdown is called only when no close_notify has been
   * sent yet; then everything is released.
   */
  function ClientEvents(cb: CallbackRef, handshake: Handshake, ready: seq<Readiness>, sentShutdown: bool): seq<Event>
    requires !cb.Uninitialised?
    requires forall i :: 0 <= i < |ready| ==> ReadinessOk(ready[i])
  {
    match handshake
    case HandshakeFailed(err) => HandleError(cb, err, "SSL connect failed") + [Released]
    case Established =>
      RunLayout(ConnectedHook(cb), Session(cb, ready), ClientClosing(sentShutdown))
  }

  /**
   * What start_https_client does after the loop, as written: the descriptor is
   * closed, and only then is SSL_shutdown called when the SSL_SENT_SHUTDOWN bit
   * is clear, so its close_notify goes to a closed descriptor.
   */
  function ClientClosing(sentShutdown: bool): seq<Event> {
    [SocketClosed] + (if sentShutdown then [] else [TlsShutdown])
  }

  /** The order the shutdown needs: the close_notify is written while the descriptor is open. */
  function OrderlyClosing(sentShutdown: bool): seq<Event> {
    (if sentShutdown then [] else [TlsShutdown]) + [SocketClosed]
  }

  /** An established run with the closing steps in the order the shutdown needs. */
  function OrderlyClientEvents(cb: CallbackRef, ready: seq<Readiness>, sentShutdown: bool): seq<Event>
    requires !cb.Uninitialised?
    requires forall i :: 0 <= i < |ready| ==> ReadinessOk(ready[i])
  {
    RunLayout(ConnectedHook(cb), Session(cb, ready), OrderlyClosing(sentShutdown))
  }

  /** The shape of an established run, whatever its parts hold. */
  function RunLayout(a: seq<Event>, s: seq<Event>, z: seq<Event>): seq<Event> {
    a + [WatcherStarted] + s + z + [Released]
  }

  /** Where each part of an established run sits. */
  lemma RunPositions(a: seq<Event>, s: seq<Event>, z: seq<Event>)
    ensures var t := RunLayout(a, s, z);
      && |t| == |a| + |s| + |z| + 2
      && (forall i :: 0 <= i < |a| ==> t[i] == a[i])
      && t[|a|] == WatcherStarted
      && (forall i :: |a| + 1 <= i < |a| + 1 + |s| ==> t[i] == s[i - |a| - 1])
      && (forall i :: |a| + 1 + |s| <= i < |t| - 1 ==> t[i] == z[i - |a| - 1 - |s|])
      && t[|t| - 1] == Released
  {
  }

  /**
   * A handshake failure reports once to on_error (if set), classified as in
   * handle_error, never runs on_connected and releases everything.
   */
  lemma HandshakeFailureReported(cb: CallbackRef, err: SslError, ready: seq<Readiness>, sentShutdown: bool)
    requires !cb.Uninitialised?
    requires forall i :: 0 <= i < |ready| ==> ReadinessOk(ready[i])
    ensures var t := ClientEvents(cb, HandshakeFailed(err), ready, sentShutdown);
      && ErrorCount(t) == (if cb.Hooked? && cb.hooks.onError then 1 else 0)
      && (cb.Hooked? && cb.hooks.onError ==> t[0] == Error(ErrorMessage(err, "SSL connect failed")))
      && Connected !in t && WatcherStarted !in t
      && t[|t| - 1] == Released
  {
    var b := HandleError(cb, err, "SSL connect failed");
    var r: seq<Event> := [Released];
    HandleErrorOnce(cb, err, "SSL connect failed");
    ErrorCountAppend(b, r);
    assert ErrorCount(r) == 0 by { assert r[1..] == []; }
  }

  /**
   * On an established connection on_connected runs at most once, first of all,
   * and before the read watcher starts, hence before any on_data_received.
   */
  lemma ConnectedFirst(cb: CallbackRef, ready: seq<Readiness>, sentShutdown: bool)
    requires !cb.Uninitialised?
    requires forall i :: 0 <= i < |ready| ==> ReadinessOk(ready[i])
    ensures var t := ClientEvents(cb, Established, ready, sentShutdown);
      var c := |ConnectedHook(cb)|;
      && (c == 1 <==> cb.Hooked? && cb.hooks.onConnected)
      && (c == 1 ==> t[0] == Connected)
      && t[c] == WatcherStarted
      && (forall i :: 0 < i < |t| ==> t[i] != Connected)
      && (forall i :: 0 <= i < |t| && t[i].DataReceived? ==> i > c)
  {
    var a := ConnectedHook(cb);
    var s := Session(cb, ready);
    var z := ClientClosing(sentShutdown);
    RunPositions(a, s, z);
    SessionEvents(cb, ready);
    var t := RunLayout(a, s, z);
    forall i | |a| + 1 <= i < |a| + 1 + |s|
      ensures SessionEvent(t[i])
    {
      assert s[i - |a| - 1] in s;
    }
  }

  /** Before its closing steps, an established run holds only on_connected and the reads' events. */
  lemma RunQuiet(cb: CallbackRef, ready: seq<Readiness>)
    requires !cb.Uninitialised?
    requires forall i :: 0 <= i < |ready| ==> ReadinessOk(ready[i])
    ensures forall e :: e in ConnectedHook(cb) ==> e == Connected
    ensures forall e :: e in Session(cb, ready) ==> SessionEvent(e)
  {
    SessionEvents(cb, ready);
  }

  /**
   * Only the closing steps of an established run close the socket or shut TLS
   * down, and they sit just before the release, which comes last and only then.
   */
  lemma ClosingPart(a: seq<Event>, s: seq<Event>, z: seq<Event>)
    requires forall e :: e in a ==> e == Connected
    requires forall e :: e in s ==> SessionEvent(e)
    requires Released !in z
    ensures var t := RunLayout(a, s, z);
      var k := |a| + 1 + |s|;
      && |t| == k + |z| + 1
      && (forall i :: 0 <= i < |z| ==> t[k + i] == z[i])
      && (forall i :: 0 <= i < |t| && (t[i].TlsShutdown? || t[i].SocketClosed?) ==> k <= i < k + |z|)
      && t[|t| - 1] == Released
      && (forall i :: 0 <= i < |t| - 1 ==> t[i] != Released)
  {
    var t := RunLayout(a, s, z);
    var k := |a| + 1 + |s|;
    RunPositions(a, s, z);
    forall i | 0 <= i < k
      ensures !t[i].TlsShutdown? && !t[i].SocketClosed? && t[i] != Released
    {
      if i < |a| {
        assert a[i] in a;
      } else if i > |a| {
        assert s[i - |a| - 1] in s;
      }
    }
    forall i | k <= i < |t| - 1
      ensures t[i] != Released
    {
      assert z[i - k] in z;
    }
  }

  /**
   * SSL_shutdown runs after the loop only when the SSL_SENT_SHUTDOWN bit is
   * clear, so at most once, and the connection is released last. The socket
   * is closed exactly once, and before SSL_shutdown: the close_notify of
   * section 6.1 of RFC 8446 is written to a closed descriptor and never
   * reaches the server.
   */
  lemma ShutdownAtMostOnce(cb: CallbackRef, ready: seq<Readiness>, sentShutdown: bool)
    requires !cb.Uninitialised?
    requires forall i :: 0 <= i < |ready| ==> ReadinessOk(ready[i])
    ensures var t := ClientEvents(cb, Established, ready, sentShutdown);
      && (TlsShutdown in t <==> !sentShutdown)
      && (forall i, j :: 0 <= i < j < |t| && t[i] == TlsShutdown ==> t[j] != TlsShutdown)
      && SocketClosed in t
      && (forall i, j :: 0 <= i < j < |t| && t[i] == SocketClosed ==> t[j] != SocketClosed)
      && (forall i, j :: 0 <= i < |t| && 0 <= j < |t| && t[i] == SocketClosed && t[j] == TlsShutdown ==> i < j)
      && t[|t| - 1] == Released
      && (forall i :: 0 <= i < |t| - 1 ==> t[i] != Released)
  {
    var a := ConnectedHook(cb);
    var s := Session(cb, ready);
    var z := ClientClosing(sentShutdown);
    RunQuiet(cb, ready);
    ClosingPart(a, s, z);
    var t := RunLayout(a, s, z);
    var k := |a| + 1 + |s|;
    assert t[k] == z[0] == SocketClosed;
    forall i | 0 <= i < |t| && t[i] == SocketClosed
      ensures i == k
    {
      assert t[i] == z[i - k];
    }
    forall i | 0 <= i < |t| && t[i] == TlsShutdown
      ensures i == k + 1 && !sentShutdown
    {
      assert t[i] == z[i - k];
    }
    if !sentShutdown {
      assert t[k + 1] == z[1] == TlsShutdown;
    }
  }

  /**
   * With the closing steps reordered, SSL_shutdown (when it runs, at most once)
   * comes before the one close of the socket, so the close_notify is written
   * while the descriptor is open.
   */
  lemma OrderlyShutdownBeforeClose(cb: CallbackRef, ready: seq<Readiness>, sentShutdown: bool)
    requires !cb.Uninitialised?
    requires forall i :: 0 <= i < |ready| ==> ReadinessOk(ready[i])
    ensures var t := OrderlyClientEvents(cb, ready, sentShutdown);
      && (TlsShutdown in t <==> !sentShutdown)
      && (forall i, j :: 0 <= i < j < |t| && t[i] == TlsShutdown ==> t[j] != TlsShutdown)
      && SocketClosed in t
      && (forall i, j :: 0 <= i < j < |t| && t[i] == SocketClosed ==> t[j] != SocketClosed)
      && (forall i, j :: 0 <= i < |t| && 0 <= j < |t| && t[i] == TlsShutdown && t[j] == SocketClosed ==> i < j)
      && t[|t| - 1] == Released
      && (forall i :: 0 <= i < |t| - 1 ==> t[i] != Released)
  {
    var a := ConnectedHook(cb);
    var s := Session(cb, ready);
    var z := OrderlyClosing(sentShutdown);
    RunQuiet(cb, ready);
    ClosingPart(a, s, z);
    var t := RunLayout(a, s, z);
    var k := |a| + 1 + |s|;
    var c := if sentShutdown then k else k + 1;
    assert t[c] == z[c - k] == SocketClosed;
    forall i | 0 <= i < |t| && t[i] == SocketClosed
      ensures i == c
    {
      assert t[i] == z[i - k];
    }
    forall i | 0 <= i < |t| && t[i] == TlsShutdown
      ensures i == k && !sentShutdown
    {
      assert t[i] == z[i - k];
    }
    if !sentShutdown {
      assert t[k] == z[0] == TlsShutdown;
    }
  }

  /** The client connection while start_https_client runs it. */
  class Client {
    const fd: int
    /** Written before SSL_connect, so every handler sees the caller's set. */
    const callbacks: CallbackRef
    /** The read watcher is registered with the loop. */
    var watching: bool
    /** Everything the connection did, in order. */
    var trace: seq<Event>

    constructor (fd: int, callbacks: CallbackRef)
      requires !callbacks.Uninitialised?
      ensures this.fd == fd && this.callbacks == callbacks
      ensures !watching && trace == []
    {
      this.fd := fd;
      this.callbacks := callbacks;
      watching := false;
      trace := [];
    }

    /** After a successful SSL_connect: on_connected (if set), then the watcher starts. */
    method Connect()
      requires !callbacks.Uninitialised?
      modifies this
      ensures watching
      ensures trace == old(trace) + ConnectedHook(callbacks) + [WatcherStarted]
    {
      if callbacks.Hooked? && callbacks.hooks.onConnected {
        trace := trace + [Connected];
      }
      watching := true;
      trace := trace + [WatcherStarted];
    }

    /** ev_run: on_read for each readiness event, until the failing read stops the watcher. */
    method RunLoop(ready: seq<Readiness>)
      requires watching && !callbacks.Uninitialised?
      requires LoopReads(ready)
      modifies this
      ensures !watching
      ensures trace == old(trace) + Session(callbacks, ready)
    {
      ghost var start := trace;
      var i := 0;
      while i < |ready|
        invariant 0 <= i <= |ready|
        invariant watching <==> i < |ready|
        invariant trace == start + Session(callbacks, ready[..i])
      {
        OnRead(ready[i]);
        SessionStep(callbacks, ready, i);
        AppendAssoc(start, Session(callbacks, ready[..i]), ReadStep(callbacks, ready[i]));
        i := i + 1;
      }
      assert ready[..i] == ready;
    }

    /**
     * on_read. A chunk is fed once to the parser and every body segment reaches
     * on_data_received; a parser error is only logged. A read of 0 or less runs
     * on_disconnected and handle_error and stops the watcher.
     */
    method OnRead(r: Readiness)
      requires watching && !callbacks.Uninitialised?
      requires ReadinessOk(r)
      modifies this
      ensures trace == old(trace) + ReadStep(callbacks, r)
      ensures watching <==> r.read.Chunk?
    {
      match r.read
      case ReadFailed(err) =>
        var events := DisconnectedHook(callbacks);
        trace := trace + events;
        HandleErrorStep(err, "ssl read failed");
        watching := false;
        trace := trace + [WatcherStopped];
      case Chunk(data) =>
        Execute(data, r.exec);
    }

    /** llhttp_execute over one chunk: on_body runs for each segment, in order. */
    method Execute(data: string, exec: Execution)
      requires !callbacks.Uninitialised? && SpansOk(data, exec.spans)
      modifies this`trace
      ensures trace == old(trace) + BodyHooks(callbacks, data, exec.spans)
    {
      var i := 0;
      while i < |exec.spans|
        invariant 0 <= i <= |exec.spans|
        invariant SpansOk(data, exec.spans[..i])
        invariant trace == old(trace) + BodyHooks(callbacks, data, exec.spans[..i])
      {
        var span := exec.spans[i];
        OnBody(data[span.start..span.end]);
        assert exec.spans[..i + 1] == exec.spans[..i] + [span];
        i := i + 1;
      }
      assert exec.spans[..i] == exec.spans;
    }

    /** on_body: the segment goes to on_data_received if that hook is set. */
    method OnBody(segment: string)
      requires !callbacks.Uninitialised?
      modifies this`trace
      ensures trace == old(trace)
        + (if callbacks.Hooked? && callbacks.hooks.onDataReceived then [DataReceived(segment)] else [])
    {
      if callbacks.Hooked? && callbacks.hooks.onDataReceived {
        trace := trace + [DataReceived(segment)];
      }
    }

    /** The client's handle_error. */
    method HandleErrorStep(err: SslError, context: string)
      requires !callbacks.Uninitialised?
      modifies this`trace
      ensures trace == old(trace) + HandleError(callbacks, err, context)
    {
      var message := ErrorMessage(err, context);
      if callbacks.Hooked? && callbacks.hooks.onError {
        trace := trace + [Error(message)];
      }
    }

    /**
     * send_data_to_server(data, length): `data` is the string the buffer holds
     * before its NUL, and `length` the count handed to SSL_write.
     */
    method SendDataToServer(data: string, length: nat, write: WriteResult) returns (ok: bool)
      requires !callbacks.Uninitialised?
      modifies this`trace
      ensures ok <==> write.Written?
      ensures trace == old(trace) + WriteFrom(callbacks, data, length, write)
    {
      if length > |data| + 1 {
        trace := trace + [OversizeWrite(data, length)];
      }
      match write
      case Written =>
        if length <= |data| {
          trace := trace + [Sent(data[..length])];
        } else if length == |data| + 1 {
          trace := trace + [Sent(data + ['\0'])];
        }
        ok := true;
      case WriteFailed(e) =>
        if !Retryable(e) && callbacks.Hooked? && callbacks.hooks.onError {
          trace := trace + [Error("SSL write failed")];
        }
        ok := false;
    }

    /**
     * send_http_request as written: the buffer build_http_request filled from
     * the method table, with the length it returned, goes to send_data_to_server.
     */
    method SendHttpRequest(m: HttpMethod, path: CString, body: CString, bodyLength: SizeT, write: WriteResult)
      returns (ok: bool)
      requires !callbacks.Uninitialised?
      modifies this`trace
      ensures var f := BuildHttpRequest(REQUEST_BUFFER_SIZE, m, path, body, bodyLength);
        (ok <==> write.Written?) && trace == old(trace) + WriteFrom(callbacks, f.buffer, f.length, write)
    {
      var f := BuildHttpRequest(REQUEST_BUFFER_SIZE, m, path, body, bodyLength);
      ok := SendDataToServer(f.buffer, f.length, write);
    }

    /**
     * send_http_request over the corrected builder: a request that fits is
     * written whole with its own method token; one that does not is refused
     * before any write.
     */
    method SendCheckedRequest(m: HttpMethod, path: CString, body: CString, bodyLength: SizeT, write: WriteResult)
      returns (ok: bool)
      requires !callbacks.Uninitialised?
      modifies this`trace
      ensures var text := RequestText(MethodToken(m), path, body, bodyLength);
        if |text| < REQUEST_BUFFER_SIZE then
          (ok <==> write.Written?) && trace == old(trace) + WriteHooks(callbacks, text, write)
        else
          !ok && trace == old(trace)
    {
      var built := BuildHttpRequestChecked(REQUEST_BUFFER_SIZE, m, path, body, bodyLength);
      match built
      case Err(_) =>
        ok := false;
      case Ok(request) =>
        assert request[..|request|] == request;
        ok := SendDataToServer(request, |request|, write);
    }
  }

  /**
   * start_https_client once the TLS context exists. A failure to create the
   * context, the socket, the SSL object or the client returns false and runs no
   * hook. Otherwise the run is ClientEvents, and the result is true exactly when
   * the handshake succeeded.
   */
  method StartHttpsClient(callbacks: CallbackRef, contextCreated: bool, clientFd: int, sslCreated: bool,
                          clientAllocated: bool, handshake: Handshake, ready: seq<Readiness>, sentShutdown: bool)
    returns (ok: bool, events: seq<Event>)
    requires !callbacks.Uninitialised?
    requires LoopReads(ready)
    ensures !contextCreated || clientFd < 0 || !sslCreated || !clientAllocated ==> !ok && events == []
    ensures contextCreated && clientFd >= 0 && sslCreated && clientAllocated ==>
      (ok <==> handshake.Established?) && events == ClientEvents(callbacks, handshake, ready, sentShutdown)
  {
    ok := false;
    events := [];
    if !contextCreated || clientFd < 0 || !sslCreated || !clientAllocated {
      return;
    }
    var client := new Client(clientFd, callbacks);
    match handshake
    case HandshakeFailed(err) =>
      client.HandleErrorStep(err, "SSL connect failed");
      events := client.trace + [Released];
    case Established =>
      client.Connect();
      client.RunLoop(ready);
      events := client.trace + ClientClosing(sentShutdown) + [Released];
      ok := true;
  }
}
