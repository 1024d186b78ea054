/**
 * The server side: the response builder, and the per-connection handlers that
 * accept a client, react to read readiness and write responses. TLS calls,
 * libev and llhttp are not modelled; their results are parameters.
 */
module HttpsServer {
  import opened Wrappers
  import opened Decimal
  import opened CStrings
  import opened HttpWire
  import opened Hooks

  /** Size of the stack buffer the response is formatted into. */
  const RESPONSE_BUFFER_SIZE: nat := 4096

  /** The two fixed header lines (`headers` in build_http_response). */
  const RESPONSE_HEADERS: string := "Content-Type: text/plain\r\n" + "Connection: keep-alive\r\n"

  /** The text the response format string expands to, before any truncation. */
  function ResponseText(statusCode: Int32, statusMessage: CString, body: CString): string {
    StatusLine(statusCode, statusMessage) + "\r\n"
    + RESPONSE_HEADERS
    + "Content-Length: " + NatToDec(|body|) + "\r\n"
    + "\r\n"
    + body
  }

  function StatusLine(statusCode: Int32, statusMessage: CString): string {
    "HTTP/1.1 " + IntToDec(statusCode) + " " + statusMessage
  }

  /** build_http_response as written: whatever snprintf stores, and its untruncated length. */
  function BuildHttpResponse(bufferSize: nat, statusCode: Int32, statusMessage: CString, body: CString): Formatted {
    Snprintf(ResponseText(statusCode, statusMessage, body), bufferSize)
  }

  /** The builder with the explicit size error: the full response, or an error when it does not fit. */
  function BuildHttpResponseChecked(bufferSize: nat, statusCode: Int32, statusMessage: CString, body: CString)
    : (r: Result<string, BuildError>)
    ensures r.Ok? ==> |r.value| < bufferSize && r.value == BuildHttpResponse(bufferSize, statusCode, statusMessage, body).buffer
    ensures r.Err? <==> BuildHttpResponse(bufferSize, statusCode, statusMessage, body).length >= bufferSize
  {
    var text := ResponseText(statusCode, statusMessage, body);
    if |text| >= bufferSize then Err(TooLarge(|text|)) else Ok(text)
  }

  /** A response as a reader sees it: status line parts, announced Content-Length, body bytes. */
  datatype Response = Response(status: int, reason: string, contentLength: Option<nat>, body: string)

  function ParseStatusLine(line: string): Option<(int, string)> {
    if |line| < 9 || line[..9] != "HTTP/1.1 " then None
    else
      match SplitAt(line[9..], ' ')
      case None => None
      case Some((code, reason)) =>
        match ParseInt(code)
        case None => None
        case Some(c) => Some((c, reason))
  }

  function ParseResponse(wire: string): Option<Response> {
    match Parse(wire)
    case None => None
    case Some(m) =>
      match ParseStatusLine(m.startLine)
      case None => None
      case Some((code, reason)) => Some(Response(code, reason, ContentLength(m), m.body))
  }

  function ResponseMessage(statusCode: Int32, statusMessage: CString, body: CString): Message {
    Message(StatusLine(statusCode, statusMessage),
            [Field("Content-Type", "text/plain"), Field("Connection", "keep-alive"),
             Field("Content-Length", NatToDec(|body|))],
            body)
  }

  lemma HeadersAreFieldLines()
    ensures RESPONSE_HEADERS + "Content-Length: "
            == FieldLines([Field("Content-Type", "text/plain"), Field("Connection", "keep-alive")]) + "Content-Length" + ": "
  {
    var f1, f2 := Field("Content-Type", "text/plain"), Field("Connection", "keep-alive");
    HeaderLineText("Content-Type", "text/plain", "Content-Type: text/plain\r\n");
    HeaderLineText("Connection", "keep-alive", "Connection: keep-alive\r\n");
    FieldLinesAppend([f1], [f2]);
    assert [f1] + [f2] == [f1, f2];
    assert "Content-Length: " == "Content-Length" + ": ";
  }

  lemma ResponseTextIsMessage(statusCode: Int32, statusMessage: CString, body: CString)
    ensures ResponseText(statusCode, statusMessage, body) == Serialize(ResponseMessage(statusCode, statusMessage, body))
  {
    var m := ResponseMessage(statusCode, statusMessage, body);
    var n := NatToDec(|body|);
    var fs := [Field("Content-Type", "text/plain"), Field("Connection", "keep-alive")];
    var last := [Field("Content-Length", n)];
    assert m.fields == fs + last;
    FieldLinesAppend(fs, last);
    assert FieldLines(last) == "Content-Length" + ": " + n + CRLF + FieldLines([]);
    HeadersAreFieldLines();
    Regroup(m.startLine, CRLF, RESPONSE_HEADERS, "Content-Length: ", n, body,
            FieldLines(fs), "Content-Length", ": ", FieldLines([]));
  }

  lemma StatusLineRoundTrip(statusCode: Int32, statusMessage: CString)
    ensures '\r' !in StatusLine(statusCode, statusMessage) <==> '\r' !in statusMessage
    ensures ParseStatusLine(StatusLine(statusCode, statusMessage)) == Some((statusCode as int, statusMessage))
  {
    var line := StatusLine(statusCode, statusMessage);
    var code := IntToDec(statusCode);
    assert line[..9] == "HTTP/1.1 ";
    assert line[9..] == code + [' '] + statusMessage;
    SplitAtFirst(code, ' ', statusMessage);
    IntToDecRoundTrip(statusCode);
  }

  lemma ResponseFieldsOk(n: string)
    requires AllDigits(n)
    ensures FieldOk(Field("Content-Type", "text/plain")) && FieldOk(Field("Connection", "keep-alive"))
    ensures FieldOk(Field("Content-Length", n))
  {
    assert forall k :: 0 <= k < |n| ==> IsDigit(n[k]);
  }

  lemma ResponseFramable(statusCode: Int32, statusMessage: CString, body: CString)
    requires '\r' !in StatusLine(statusCode, statusMessage)
    ensures Framable(ResponseMessage(statusCode, statusMessage, body))
  {
    var n := NatToDec(|body|);
    ResponseFieldsOk(n);
    var f0, f1, f2 := Field("Content-Type", "text/plain"), Field("Connection", "keep-alive"), Field("Content-Length", n);
    var fields := [f0, f1, f2];
    assert ResponseMessage(statusCode, statusMessage, body) == Message(StatusLine(statusCode, statusMessage), fields, body);
    assert forall i :: 0 <= i < |fields| ==> fields[i] == f0 || fields[i] == f1 || fields[i] == f2;
  }

  /**
   * Reading back a response recovers the status code, the status text and the body,
   * and the announced Content-Length equals the number of body bytes (RFC 9112
   * sections 2.1 and 4, RFC 9110 section 8.6).
   */
  lemma ResponseRoundTrip(statusCode: Int32, statusMessage: CString, body: CString)
    requires '\r' !in statusMessage
    ensures ParseResponse(ResponseText(statusCode, statusMessage, body))
            == Some(Response(statusCode, statusMessage, Some(|body|), body))
  {
    var m := ResponseMessage(statusCode, statusMessage, body);
    ResponseTextIsMessage(statusCode, statusMessage, body);
    StatusLineRoundTrip(statusCode, statusMessage);
    ResponseFramable(statusCode, statusMessage, body);
    ParseSerialize(m);
    NatToDecRoundTrip(|body|);
    assert |m.fields[0].name| != 14 && |m.fields[1].name| != 14 && |"Content-Length"| == 14;
    assert FieldValue(m.fields[2..], "Content-Length") == Some(NatToDec(|body|));
    assert FieldValue(m.fields, "Content-Length") == FieldValue(m.fields[1..], "Content-Length");
    assert m.fields[1..][1..] == m.fields[2..];
    assert ContentLength(m) == Some(|body|);
  }

  /**
   * When the response fits the buffer, the buffer holds the whole response and the
   * Content-Length it announces is the number of body bytes after the empty line.
   */
  lemma FittingResponseIsFramed(bufferSize: nat, statusCode: Int32, statusMessage: CString, body: CString)
    requires '\r' !in statusMessage
    requires BuildHttpResponse(bufferSize, statusCode, statusMessage, body).length < bufferSize
    ensures var f := BuildHttpResponse(bufferSize, statusCode, statusMessage, body);
      && Parse(f.buffer).Some?
      && BodyFramed(Parse(f.buffer).value)
      && Parse(f.buffer).value.body == body
  {
    var m := ResponseMessage(statusCode, statusMessage, body);
    ResponseRoundTrip(statusCode, statusMessage, body);
    ResponseTextIsMessage(statusCode, statusMessage, body);
    NatToDecRoundTrip(|body|);
  }

  /**
   * The length returned is the untruncated one in both branches: a response of
   * bufferSize bytes or more is cut to bufferSize - 1 bytes, and nothing but the
   * length itself tells the caller.
   */
  lemma OversizeResponseTruncatedSilently(bufferSize: nat, statusCode: Int32, statusMessage: CString, body: CString)
    requires bufferSize > 0
    requires |ResponseText(statusCode, statusMessage, body)| >= bufferSize
    ensures var f := BuildHttpResponse(bufferSize, statusCode, statusMessage, body);
      f.length == |ResponseText(statusCode, statusMessage, body)| && |f.buffer| == bufferSize - 1 < f.length
  {
  }

  /** Any body of 4096 bytes or more makes build_http_response return more than its 4096-byte buffer holds. */
  lemma LargeBodyOverrunsBuffer(statusCode: Int32, statusMessage: CString, body: CString)
    requires |body| >= RESPONSE_BUFFER_SIZE
    ensures BuildHttpResponse(RESPONSE_BUFFER_SIZE, statusCode, statusMessage, body).length > RESPONSE_BUFFER_SIZE
  {
    assert |ResponseText(statusCode, statusMessage, body)| > |body|;
  }

  /** The finding's input made concrete: a 4096-byte body with status 200 "OK". */
  lemma {:induction false} ResponseOverrunWitness()
    ensures exists body: CString :: (|body| == RESPONSE_BUFFER_SIZE
      && BuildHttpResponse(RESPONSE_BUFFER_SIZE, 200, "OK", body).length > RESPONSE_BUFFER_SIZE)
  {
    var body: CString := seq(RESPONSE_BUFFER_SIZE, _ => 'a');
    LargeBodyOverrunsBuffer(200, "OK", body);
  }

  /**
   * send_response_to_client as written, for a body of 4096 bytes or more:
   * SSL_write is asked for the untruncated length, more than the 4095
   * characters and the NUL the buffer holds, and no whole response is sent.
   */
  lemma LargeResponseWriteOverreads(cb: CallbackRef, statusCode: Int32, statusMessage: CString, body: CString,
                                    write: WriteResult)
    requires !cb.Uninitialised? && |body| >= RESPONSE_BUFFER_SIZE
    ensures var f := BuildHttpResponse(RESPONSE_BUFFER_SIZE, statusCode, statusMessage, body);
      var t := WriteFrom(cb, f.buffer, f.length, write);
      && f.length > |f.buffer| + 1 && |f.buffer| == RESPONSE_BUFFER_SIZE - 1
      && t[0] == OversizeWrite(f.buffer, f.length)
      && forall e :: e in t ==> !e.Sent?
  {
    var f := BuildHttpResponse(RESPONSE_BUFFER_SIZE, statusCode, statusMessage, body);
    LargeBodyOverrunsBuffer(statusCode, statusMessage, body);
    WriteFromOutcome(cb, f.buffer, f.length, write);
  }

  /** A response that fits is sent the same way as written and by the corrected builder. */
  lemma FittingResponseWriteAgrees(cb: CallbackRef, statusCode: Int32, statusMessage: CString, body: CString,
                                   write: WriteResult)
    requires !cb.Uninitialised?
    requires |ResponseText(statusCode, statusMessage, body)| < RESPONSE_BUFFER_SIZE
    ensures var f := BuildHttpResponse(RESPONSE_BUFFER_SIZE, statusCode, statusMessage, body);
      WriteFrom(cb, f.buffer, f.length, write) == WriteHooks(cb, ResponseText(statusCode, statusMessage, body), write)
  {
    var f := BuildHttpResponse(RESPONSE_BUFFER_SIZE, statusCode, statusMessage, body);
    assert f.buffer[..f.length] == f.buffer;
  }

  /** What happens when a read fails or the peer closes: on_read's terminal path. */
  function TeardownEvents(cb: CallbackRef, readError: SslError, shutdownRet: int, shutdownError: SslError): seq<Event>
    requires !cb.Uninitialised?
  {
    DisconnectedHook(cb)
    + HandleError(cb, readError, "ssl read failed")
    + [WatcherStopped]
    + [TlsShutdown]
    + (if shutdownRet < 0 then HandleError(cb, shutdownError, "ssl read failed") else [])
    + [Released]
  }

  /** The trace shape of the terminal read path, whatever its hook parts hold. */
  function Layout(a: seq<Event>, b: seq<Event>, c: seq<Event>): seq<Event> {
    a + b + [WatcherStopped] + [TlsShutdown] + c + [Released]
  }

  lemma TeardownIsLayout(cb: CallbackRef, readError: SslError, shutdownRet: int, shutdownError: SslError)
    requires !cb.Uninitialised?
    ensures TeardownEvents(cb, readError, shutdownRet, shutdownError)
         == Layout(DisconnectedHook(cb), HandleError(cb, readError, "ssl read failed"),
                   if shutdownRet < 0 then HandleError(cb, shutdownError, "ssl read failed") else [])
  {
  }

  /** Where each part of the layout sits. */
  lemma LayoutPositions(a: seq<Event>, b: seq<Event>, c: seq<Event>)
    ensures var t := Layout(a, b, c);
      && |t| == |a| + |b| + |c| + 3
      && (forall i :: 0 <= i < |a| ==> t[i] == a[i])
      && (forall i :: 0 <= i < |b| ==> t[|a| + i] == b[i])
      && t[|a| + |b|] == WatcherStopped && t[|a| + |b| + 1] == TlsShutdown
      && t[|t| - 1] == Released
  {
  }

  /** Released appears only at the end when no hook part holds it. */
  lemma LayoutReleasedLast(a: seq<Event>, b: seq<Event>, c: seq<Event>)
    requires Released !in a && Released !in b && Released !in c
    ensures var t := Layout(a, b, c);
      forall i :: 0 <= i < |t| - 1 ==> t[i] != Released
  {
    var t := Layout(a, b, c);
    var front := a + b + [WatcherStopped] + [TlsShutdown] + c;
    assert t == front + [Released];
    forall i | 0 <= i < |t| - 1
      ensures t[i] != Released
    {
      assert t[i] == front[i] && front[i] in front;
    }
  }

  /** An event other than on_connected, on_data_received or a write. */
  predicate Closing(e: Event) {
    !e.Connected? && !e.DataReceived? && !e.Sent?
  }

  /** Every event of the layout comes from a hook part or is a fixed step. */
  lemma LayoutOnly(a: seq<Event>, b: seq<Event>, c: seq<Event>)
    requires forall e :: e in a ==> Closing(e)
    requires forall e :: e in b ==> Closing(e)
    requires forall e :: e in c ==> Closing(e)
    ensures var t := Layout(a, b, c);
      forall i :: 0 <= i < |t| ==> Closing(t[i])
  {
    var t := Layout(a, b, c);
    forall i | 0 <= i < |t|
      ensures Closing(t[i])
    {
      assert t[i] in t;
    }
  }

  /** The layout's on_error calls are those of its hook parts. */
  lemma LayoutErrorCount(a: seq<Event>, b: seq<Event>, c: seq<Event>)
    ensures ErrorCount(Layout(a, b, c)) == ErrorCount(a) + ErrorCount(b) + ErrorCount(c)
  {
    var w: seq<Event> := [WatcherStopped];
    var x: seq<Event> := [TlsShutdown];
    var r: seq<Event> := [Released];
    ErrorCountAppend(a, b);
    ErrorCountAppend(a + b, w);
    ErrorCountAppend(a + b + w, x);
    ErrorCountAppend(a + b + w + x, c);
    ErrorCountAppend(a + b + w + x + c, r);
    assert ErrorCount(w) == 0 by { assert w[1..] == []; }
    assert ErrorCount(x) == 0 by { assert x[1..] == []; }
    assert ErrorCount(r) == 0 by { assert r[1..] == []; }
  }

  /**
   * The terminal read path, in order: on_disconnected (if set), on_error with the
   * classified read failure (if set), the watcher stops, close_notify is sent, a
   * failed shutdown adds a second on_error, and the connection is released last.
   */
  lemma TeardownOrder(cb: CallbackRef, readError: SslError, shutdownRet: int, shutdownError: SslError)
    requires !cb.Uninitialised?
    ensures var t := TeardownEvents(cb, readError, shutdownRet, shutdownError);
      var d := |DisconnectedHook(cb)|;
      var e := |HandleError(cb, readError, "ssl read failed")|;
      && (d == 1 <==> cb.Hooked? && cb.hooks.onDisconnected)
      && (d == 1 ==> t[0] == Disconnected)
      && (e == 1 <==> cb.Hooked? && cb.hooks.onError)
      && (e == 1 ==> t[d] == Error(ErrorMessage(readError, "ssl read failed")))
      && t[d + e] == WatcherStopped && t[d + e + 1] == TlsShutdown
      && t[|t| - 1] == Released
      && (forall i :: 0 <= i < |t| - 1 ==> t[i] != Released)
  {
    var a := DisconnectedHook(cb);
    var b := HandleError(cb, readError, "ssl read failed");
    var c := if shutdownRet < 0 then HandleError(cb, shutdownError, "ssl read failed") else [];
    TeardownIsLayout(cb, readError, shutdownRet, shutdownError);
    LayoutPositions(a, b, c);
    HandleErrorOnce(cb, readError, "ssl read failed");
    HandleErrorOnce(cb, shutdownError, "ssl read failed");
    LayoutReleasedLast(a, b, c);
  }

  /** The terminal read path never calls on_connected or on_data_received and writes nothing. */
  lemma TeardownCallsNoOtherHook(cb: CallbackRef, readError: SslError, shutdownRet: int, shutdownError: SslError)
    requires !cb.Uninitialised?
    ensures var t := TeardownEvents(cb, readError, shutdownRet, shutdownError);
      forall i :: 0 <= i < |t| ==> !t[i].Connected? && !t[i].DataReceived? && !t[i].Sent?
  {
    var a := DisconnectedHook(cb);
    var b := HandleError(cb, readError, "ssl read failed");
    var c := if shutdownRet < 0 then HandleError(cb, shutdownError, "ssl read failed") else [];
    TeardownIsLayout(cb, readError, shutdownRet, shutdownError);
    HandleErrorOnce(cb, readError, "ssl read failed");
    HandleErrorOnce(cb, shutdownError, "ssl read failed");
    LayoutOnly(a, b, c);
  }

  /**
   * The terminal read path calls on_error once for the read failure and once more
   * when SSL_shutdown fails. A clean close (ZeroReturn) is still reported to
   * on_error, as "ssl connection closed".
   */
  lemma TeardownErrors(cb: CallbackRef, readError: SslError, shutdownRet: int, shutdownError: SslError)
    requires !cb.Uninitialised?
    ensures var t := TeardownEvents(cb, readError, shutdownRet, shutdownError);
      && ErrorCount(t) == (if cb.Hooked? && cb.hooks.onError then (if shutdownRet < 0 then 2 else 1) else 0)
      && (readError == ZeroReturn && cb.Hooked? && cb.hooks.onError ==> Error("ssl connection closed") in t)
  {
    var a := DisconnectedHook(cb);
    var b := HandleError(cb, readError, "ssl read failed");
    var c := if shutdownRet < 0 then HandleError(cb, shutdownError, "ssl read failed") else [];
    TeardownIsLayout(cb, readError, shutdownRet, shutdownError);
    LayoutErrorCount(a, b, c);
    LayoutPositions(a, b, c);
    HandleErrorOnce(cb, readError, "ssl read failed");
    HandleErrorOnce(cb, shutdownError, "ssl read failed");
    assert ErrorCount(a) == 0 by { assert a != [] ==> a[1..] == []; }
  }

  /** One accepted client connection (`struct st_client`). */
  class Client {
    const fd: int
    var callbacks: CallbackRef
    /** The read watcher is registered with the loop. */
    var watching: bool
    /** SSL_free, close and free have run: the object is gone. */
    var released: bool
    /** Everything the connection did, in order. */
    var trace: seq<Event>

    /** `malloc` and the field writes before the handshake: callbacks is not yet written. */
    constructor (fd: int)
      ensures this.fd == fd && callbacks == Uninitialised
      ensures !watching && !released && trace == []
    {
      this.fd := fd;
      callbacks := Uninitialised;
      watching := false;
      released := false;
      trace := [];
    }

    /**
     * on_read. A chunk is fed once to the parser and every body segment reaches
     * on_data_received with exactly its bytes; a parser error is only logged.
     * A read of 0 or less (whatever the reason, WANT_READ included) tears the
     * connection down.
     */
    method OnRead(read: ReadResult, exec: Execution, shutdownRet: int, shutdownError: SslError)
      requires watching && !released && !callbacks.Uninitialised?
      requires ChunkOk(read) && (read.Chunk? ==> SpansOk(read.data, exec.spans))
      modifies this
      ensures callbacks == old(callbacks)
      ensures read.Chunk? ==> (watching && !released
        && trace == old(trace) + BodyHooks(callbacks, read.data, exec.spans))
      ensures read.ReadFailed? ==> (!watching && released
        && trace == old(trace) + TeardownEvents(callbacks, read.error, shutdownRet, shutdownError))
    {
      match read
      case ReadFailed(err) =>
        Teardown(err, shutdownRet, shutdownError);
      case Chunk(data) =>
        Execute(data, exec);
    }

    /** The `read <= 0` branch of on_read. */
    method Teardown(readError: SslError, shutdownRet: int, shutdownError: SslError)
      requires !callbacks.Uninitialised?
      modifies this
      ensures callbacks == old(callbacks) && !watching && released
      ensures trace == old(trace) + TeardownEvents(callbacks, readError, shutdownRet, shutdownError)
    {
      var events := DisconnectedHook(callbacks);
      events := events + HandleError(callbacks, readError, "ssl read failed");
      watching := false;
      events := events + [WatcherStopped];
      events := events + [TlsShutdown];
      events := events + if shutdownRet < 0 then HandleError(callbacks, shutdownError, "ssl read failed") else [];
      released := true;
      events := events + [Released];
      trace := trace + events;
    }

    /** llhttp_execute over one chunk: on_body runs for each segment, in order; the return code is only logged. */
    method Execute(data: string, exec: Execution)
      requires !callbacks.Uninitialised? && SpansOk(data, exec.spans)
      modifies this`trace
      ensures trace == old(trace) + BodyHooks(callbacks, data, exec.spans)
    {
      var i := 0;
      while i < |exec.spans|
        invariant 0 <= i <= |exec.spans|
        invariant SpansOk(data, exec.spans[..i])
        invariant trace == old(trace) + BodyHooks(callbacks, data, exec.spans[..i])
      {
        var span := exec.spans[i];
        OnBody(data[span.start..span.end]);
        assert exec.spans[..i + 1] == exec.spans[..i] + [span];
        i := i + 1;
      }
      assert exec.spans[..i] == exec.spans;
    }

    /** on_body: the segment goes to on_data_received if that hook is set. */
    method OnBody(segment: string)
      requires !callbacks.Uninitialised?
      modifies this`trace
      ensures trace == old(trace)
        + (if callbacks.Hooked? && callbacks.hooks.onDataReceived then [DataReceived(segment)] else [])
    {
      if callbacks.Hooked? && callbacks.hooks.onDataReceived {
        trace := trace + [DataReceived(segment)];
      }
    }

    /** handle_error (src/https_server.c:20-40). */
    method HandleErrorStep(err: SslError, context: string)
      modifies this`trace
      ensures trace == old(trace) + HandleError(callbacks, err, context)
    {
      var message := ErrorMessage(err, context);
      match callbacks
      case NoCallbacks =>
      case Hooked(h) =>
        if h.onError {
          trace := trace + [Error(message)];
        }
      case Uninitialised =>
        trace := trace + [ErrorHookIndeterminate(message)];
    }

    /**
     * send_data_to_client(data, length): `data` is the string the buffer holds
     * before its NUL, and `length` the count handed to SSL_write.
     */
    method SendDataToClient(data: string, length: nat, write: WriteResult) returns (ok: bool)
      requires !released && !callbacks.Uninitialised?
      modifies this`trace
      ensures ok <==> write.Written?
      ensures trace == old(trace) + WriteFrom(callbacks, data, length, write)
    {
      if length > |data| + 1 {
        trace := trace + [OversizeWrite(data, length)];
      }
      match write
      case Written =>
        if length <= |data| {
          trace := trace + [Sent(data[..length])];
        } else if length == |data| + 1 {
          trace := trace + [Sent(data + ['\0'])];
        }
        ok := true;
      case WriteFailed(e) =>
        if !Retryable(e) && callbacks.Hooked? && callbacks.hooks.onError {
          trace := trace + [Error("SSL write failed")];
        }
        ok := false;
    }

    /**
     * send_response_to_client as written: the buffer build_http_response
     * filled, with the length it returned, goes to send_data_to_client.
     */
    method SendResponseToClient(statusCode: Int32, statusMessage: CString, body: CString, write: WriteResult)
      returns (ok: bool)
      requires !released && !callbacks.Uninitialised?
      modifies this`trace
      ensures var f := BuildHttpResponse(RESPONSE_BUFFER_SIZE, statusCode, statusMessage, body);
        (ok <==> write.Written?) && trace == old(trace) + WriteFrom(callbacks, f.buffer, f.length, write)
    {
      var f := BuildHttpResponse(RESPONSE_BUFFER_SIZE, statusCode, statusMessage, body);
      ok := SendDataToClient(f.buffer, f.length, write);
    }

    /**
     * send_response_to_client over the corrected builder: a response that
     * fits is written whole; one that does not is refused before any write.
     */
    method SendCheckedResponse(statusCode: Int32, statusMessage: CString, body: CString, write: WriteResult)
      returns (ok: bool)
      requires !released && !callbacks.Uninitialised?
      modifies this`trace
      ensures var text := ResponseText(statusCode, statusMessage, body);
        if |text| < RESPONSE_BUFFER_SIZE then
          (ok <==> write.Written?) && trace == old(trace) + WriteHooks(callbacks, text, write)
        else
          !ok && trace == old(trace)
    {
      var built := BuildHttpResponseChecked(RESPONSE_BUFFER_SIZE, statusCode, statusMessage, body);
      match built
      case Err(_) =>
        ok := false;
      case Ok(response) =>
        assert response[..|response|] == response;
        ok := SendDataToClient(response, |response|, write);
    }
  }

  /**
   * on_client_accept. Failures of accept, malloc or SSL_new release what was taken
   * and call no hook. A failed handshake runs handle_error while `callbacks` is
   * still unwritten, so whether on_error runs is undefined; on_connected never runs.
   * On success on_connected runs once, then the read watcher starts.
   */
  method OnClientAccept(serverCallbacks: CallbackRef, acceptedFd: int, clientAllocated: bool,
                        sslCreated: bool, handshake: Handshake)
    returns (client: Client?, events: seq<Event>)
    requires !serverCallbacks.Uninitialised?
    ensures acceptedFd < 0 || !clientAllocated || !sslCreated ==> client == null && events == []
    ensures acceptedFd >= 0 && clientAllocated && sslCreated && handshake.HandshakeFailed? ==>
      client == null
      && events == HandleError(Uninitialised, handshake.error, "SSL accept failed") + [Released]
    ensures acceptedFd >= 0 && clientAllocated && sslCreated && handshake.Established? ==>
      && client != null && fresh(client)
      && client.fd == acceptedFd && client.callbacks == serverCallbacks
      && client.watching && !client.released
      && client.trace == events == ConnectedHook(serverCallbacks) + [WatcherStarted]
  {
    client := null;
    events := [];
    if acceptedFd < 0 || !clientAllocated || !sslCreated {
      return;
    }
    var c := new Client(acceptedFd);
    match handshake
    case HandshakeFailed(err) =>
      c.HandleErrorStep(err, "SSL accept failed");
      c.released := true;
      c.trace := c.trace + [Released];
      events := c.trace;
    case Established =>
      c.callbacks := serverCallbacks;
      c.trace := c.trace + ConnectedHook(serverCallbacks);
      c.watching := true;
      c.trace := c.trace + [WatcherStarted];
      client := c;
      events := c.trace;
  }
}
