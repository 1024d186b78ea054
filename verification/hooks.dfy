/**
 * The four-hook callback contract (`event_callbacks`) shared by the client
 * and the server, the TLS outcomes the connection code reacts to, and the
 * ordered record of what a connection did.
 */
module Hooks {
  /** What `SSL_get_error` reports after a TLS call returned 0 or less. */
  datatype SslError =
    | WantRead
    | WantWrite
    | ZeroReturn   // the peer sent close_notify
    | Syscall
    | SslLib
    | Other        // every remaining code, SSL_ERROR_NONE included

  predicate Retryable(e: SslError) {
    e == WantRead || e == WantWrite
  }

  /** Which of the four function pointers of an `event_callbacks` set are non-NULL. */
  datatype Callbacks = Callbacks(onDataReceived: bool, onConnected: bool, onDisconnected: bool, onError: bool)

  /** The connection's `callbacks` pointer: NULL, a set of hooks, or a field not yet written after `malloc`. */
  datatype CallbackRef = NoCallbacks | Hooked(hooks: Callbacks) | Uninitialised

  /** One thing a connection did, in the order it did it. */
  datatype Event =
    | Connected                           // on_connected
    | DataReceived(data: string)          // on_data_received with exactly these bytes
    | Disconnected                        // on_disconnected
    | Error(message: string)              // on_error with this text
    | ErrorHookIndeterminate(message: string)
        // handle_error tested a callbacks pointer that was never written: whether
        // on_error runs (or the process crashes) is undefined
    | Sent(data: string)                  // SSL_write accepted these bytes
    | OversizeWrite(stored: string, count: nat)
        // SSL_write was asked for count bytes from a buffer that holds only
        // `stored` and its NUL: the bytes after those lie past the buffer
    | WatcherStarted                      // ev_io_start on the read watcher
    | WatcherStopped                      // ev_io_stop on the read watcher
    | TlsShutdown                         // SSL_shutdown: a close_notify is written to the descriptor
    | SocketClosed                        // close of the descriptor on its own, ahead of the release
    | Released                            // SSL_free and free of the connection, and close of its
                                          // descriptor unless SocketClosed came first

  /** Result of one `SSL_read` into the 4096-byte stack buffer. */
  datatype ReadResult = Chunk(data: string) | ReadFailed(error: SslError)

  /** Result of one `SSL_write` (all or nothing: partial writes are not enabled). */
  datatype WriteResult = Written | WriteFailed(error: SslError)

  /** Result of `SSL_accept` / `SSL_connect`. */
  datatype Handshake = Established | HandshakeFailed(error: SslError)

  /** A body segment that llhttp hands to `on_body`: the bytes chunk[start..end]. */
  datatype Span = Span(start: nat, end: nat)

  /** What one `llhttp_execute` call over a chunk does: the body segments it reports, in order, and its return code. */
  datatype Execution = Execution(spans: seq<Span>, errno: nat)

  /** A positive SSL_read result: between 1 and 4096 bytes. */
  predicate ChunkOk(r: ReadResult) {
    r.Chunk? ==> 0 < |r.data| <= 4096
  }

  /** Body segments are non-empty, inside the chunk, in order and non-overlapping. */
  predicate SpansOk(chunk: string, spans: seq<Span>) {
    && (forall i :: 0 <= i < |spans| ==> spans[i].start < spans[i].end <= |chunk|)
    && (forall i :: 0 <= i < |spans| - 1 ==> spans[i].end <= spans[i + 1].start)
  }

  /** The four classes a fatal TLS failure is reported as. */
  datatype ErrorClass = ProtocolError | SyscallError | ConnectionClosed | Unknown

  function ClassOf(err: SslError): ErrorClass {
    match err
    case SslLib => ProtocolError
    case Syscall => SyscallError
    case ZeroReturn => ConnectionClosed
    case _ => Unknown
  }

  /** The message text handle_error passes to on_error. */
  function ErrorMessage(err: SslError, context: string): string {
    match err
    case SslLib => "ssl library error"
    case Syscall => "system call error"
    case ZeroReturn => "ssl connection closed"
    case _ => context
  }

  /** How an on_error receiver reads a message back into a class. */
  function ClassOfMessage(message: string): ErrorClass {
    if message == "ssl library error" then ProtocolError
    else if message == "system call error" then SyscallError
    else if message == "ssl connection closed" then ConnectionClosed
    else Unknown
  }

  predicate IsFixedMessage(s: string) {
    s == "ssl library error" || s == "system call error" || s == "ssl connection closed"
  }

  /** handle_error: one on_error with the classified message, when there is a hook to call. */
  function HandleError(cb: CallbackRef, err: SslError, context: string): seq<Event> {
    match cb
    case NoCallbacks => []
    case Hooked(h) => if h.onError then [Error(ErrorMessage(err, context))] else []
    case Uninitialised => [ErrorHookIndeterminate(ErrorMessage(err, context))]
  }

  /** A direct on_error call with a fixed message (the write paths). */
  function ReportError(cb: CallbackRef, message: string): seq<Event>
    requires !cb.Uninitialised?
  {
    if cb.Hooked? && cb.hooks.onError then [Error(message)] else []
  }

  function ConnectedHook(cb: CallbackRef): seq<Event>
    requires !cb.Uninitialised?
  {
    if cb.Hooked? && cb.hooks.onConnected then [Connected] else []
  }

  function DisconnectedHook(cb: CallbackRef): seq<Event>
    requires !cb.Uninitialised?
  {
    if cb.Hooked? && cb.hooks.onDisconnected then [Disconnected] else []
  }

  /** on_body for each segment llhttp reports, in order. */
  function BodyHooks(cb: CallbackRef, chunk: string, spans: seq<Span>): seq<Event>
    requires !cb.Uninitialised?
    requires SpansOk(chunk, spans)
  {
    if cb.Hooked? && cb.hooks.onDataReceived then
      seq(|spans|, i requires 0 <= i < |spans| => DataReceived(chunk[spans[i].start..spans[i].end]))
    else []
  }

  /** The write paths: success sends, a retryable failure is silent, any other failure reports "SSL write failed". */
  function WriteHooks(cb: CallbackRef, data: string, write: WriteResult): seq<Event>
    requires !cb.Uninitialised?
  {
    match write
    case Written => [Sent(data)]
    case WriteFailed(e) => if Retryable(e) then [] else ReportError(cb, "SSL write failed")
  }

  /**
   * send_data_to_*(data, length, ...) over a buffer that holds the string
   * `stored` and its NUL. A length up to the string's length writes that
   * prefix; one more writes the NUL too. A longer length makes SSL_write read
   * beyond the buffer, which the trace marks; the outcome is then reported as
   * for any write, and no bytes are recorded as sent.
   */
  function WriteFrom(cb: CallbackRef, stored: string, count: nat, write: WriteResult): seq<Event>
    requires !cb.Uninitialised?
  {
    if count <= |stored| then WriteHooks(cb, stored[..count], write)
    else if count == |stored| + 1 then WriteHooks(cb, stored + ['\0'], write)
    else [OversizeWrite(stored, count)] + (if write.Written? then [] else WriteHooks(cb, stored, write))
  }

  /** Concatenation of the bytes handed to on_data_received. */
  function Received(t: seq<Event>): string {
    if t == [] then "" else (if t[0].DataReceived? then t[0].data else "") + Received(t[1..])
  }

  /** Number of on_error calls. */
  function ErrorCount(t: seq<Event>): nat {
    if t == [] then 0 else (if t[0].Error? then 1 else 0) + ErrorCount(t[1..])
  }

  /** The bytes of the chunk that the segments cover, in order. */
  function Segments(chunk: string, spans: seq<Span>): string
    requires SpansOk(chunk, spans)
  {
    if spans == [] then ""
    else chunk[spans[0].start..spans[0].end] + Segments(chunk, spans[1..])
  }

  /**
   * When the failure is classified (SSL library, system call, peer close), the message
   * names the class; the retryable conditions and the remaining codes are reported
   * with the caller's context text, which names no class.
   */
  lemma ErrorMessageNamesClass(err: SslError, context: string)
    requires !IsFixedMessage(context)
    ensures ClassOfMessage(ErrorMessage(err, context)) == ClassOf(err)
    ensures ErrorMessage(err, context) == context <==> ClassOf(err) == Unknown
  {
  }

  /** handle_error calls on_error at most once, and exactly once when the hook is set. */
  lemma HandleErrorOnce(cb: CallbackRef, err: SslError, context: string)
    requires !cb.Uninitialised?
    ensures ErrorCount(HandleError(cb, err, context)) == (if cb.Hooked? && cb.hooks.onError then 1 else 0)
    ensures forall e :: e in HandleError(cb, err, context) ==> e == Error(ErrorMessage(err, context))
  {
  }

  /**
   * A write either goes out whole, or fails: silently when the condition is
   * retryable, with one on_error (if set) otherwise. No other hook runs.
   */
  lemma WriteOutcome(cb: CallbackRef, data: string, write: WriteResult)
    requires !cb.Uninitialised?
    ensures var t := WriteHooks(cb, data, write);
      && (Sent(data) in t <==> write.Written?)
      && ErrorCount(t) == (if write.WriteFailed? && !Retryable(write.error) && cb.Hooked? && cb.hooks.onError then 1 else 0)
      && (forall e :: e in t ==> e == Sent(data) || e == Error("SSL write failed"))
  {
    var t := WriteHooks(cb, data, write);
    assert t != [] ==> t[1..] == [];
  }

  /**
   * A count within the buffer sends exactly that many of its bytes (the NUL
   * being the last of them) when the write succeeds. A count beyond the
   * buffer marks the read past it first and records no bytes as sent. Either
   * way a failure is reported exactly as for an ordinary write.
   */
  lemma WriteFromOutcome(cb: CallbackRef, stored: string, count: nat, write: WriteResult)
    requires !cb.Uninitialised?
    ensures var t := WriteFrom(cb, stored, count, write);
      && (count == |stored| ==> t == WriteHooks(cb, stored, write))
      && (count <= |stored| + 1 ==>
            && (forall e :: e in t ==> !e.OversizeWrite?)
            && (write.Written? ==> t == [Sent((stored + ['\0'])[..count])]))
      && (count > |stored| + 1 ==>
            && t[0] == OversizeWrite(stored, count)
            && (forall e :: e in t ==> !e.Sent?))
      && ErrorCount(t) == ErrorCount(WriteHooks(cb, stored, write))
  {
    var t := WriteFrom(cb, stored, count, write);
    WriteOutcome(cb, stored, write);
    if count <= |stored| + 1 {
      var sent := (stored + ['\0'])[..count];
      if count <= |stored| {
        assert sent == stored[..count];
      } else {
        assert sent == stored + ['\0'];
      }
      assert t == WriteHooks(cb, sent, write);
      WriteOutcome(cb, sent, write);
      if write.WriteFailed? {
        assert WriteHooks(cb, sent, write) == WriteHooks(cb, stored, write);
      }
    } else {
      var head: seq<Event> := [OversizeWrite(stored, count)];
      var rest := if write.Written? then [] else WriteHooks(cb, stored, write);
      ErrorCountAppend(head, rest);
      assert ErrorCount(head) == 0 by { assert head[1..] == []; }
      if write.Written? {
        assert ErrorCount(WriteHooks(cb, stored, write)) == 0 by {
          assert WriteHooks(cb, stored, write)[1..] == [];
        }
      }
    }
  }

  /** Regrouping a trace that grows by appends. */
  lemma AppendAssoc(a: seq<Event>, b: seq<Event>, c: seq<Event>)
    ensures a + b + c == a + (b + c)
  {
  }

  lemma {:induction false} ReceivedAppend(a: seq<Event>, b: seq<Event>)
    ensures Received(a + b) == Received(a) + Received(b)
    decreases |a|
  {
    if a == [] {
      assert a + b == b;
    } else {
      assert (a + b)[0] == a[0] && (a + b)[1..] == a[1..] + b;
      ReceivedAppend(a[1..], b);
    }
  }

  /** A trace without on_data_received calls delivers no bytes. */
  lemma {:induction false} ReceivedNone(t: seq<Event>)
    requires forall e :: e in t ==> !e.DataReceived?
    ensures Received(t) == ""
    decreases |t|
  {
    if t != [] {
      assert t[0] in t;
      assert forall e :: e in t[1..] ==> e in t;
      ReceivedNone(t[1..]);
    }
  }

  lemma {:induction false} ErrorCountAppend(a: seq<Event>, b: seq<Event>)
    ensures ErrorCount(a + b) == ErrorCount(a) + ErrorCount(b)
    decreases |a|
  {
    if a == [] {
      assert a + b == b;
    } else {
      assert (a + b)[0] == a[0] && (a + b)[1..] == a[1..] + b;
      ErrorCountAppend(a[1..], b);
    }
  }

  /**
   * on_data_received sees exactly the body bytes llhttp reported, in order, as one
   * call per segment; nothing else is called.
   */
  lemma {:induction false} BodyHooksDeliverSegments(cb: CallbackRef, chunk: string, spans: seq<Span>)
    requires !cb.Uninitialised? && SpansOk(chunk, spans)
    ensures var t := BodyHooks(cb, chunk, spans);
      && (forall e :: e in t ==> e.DataReceived?)
      && (cb.Hooked? && cb.hooks.onDataReceived ==>
            |t| == |spans| && forall i :: 0 <= i < |spans| ==> t[i] == DataReceived(chunk[spans[i].start..spans[i].end]))
      && (!(cb.Hooked? && cb.hooks.onDataReceived) ==> t == [])
      && Received(t) == (if cb.Hooked? && cb.hooks.onDataReceived then Segments(chunk, spans) else "")
    decreases |spans|
  {
    var t := BodyHooks(cb, chunk, spans);
    assert forall i :: 0 <= i < |t| ==> t[i].DataReceived?;
    if cb.Hooked? && cb.hooks.onDataReceived && spans != [] {
      var rest := spans[1..];
      var u := BodyHooks(cb, chunk, rest);
      forall i | 0 <= i < |u|
        ensures t[i + 1] == u[i]
      {
        assert rest[i] == spans[i + 1];
      }
      assert t[1..] == u;
      assert t[0] == DataReceived(chunk[spans[0].start..spans[0].end]);
      BodyHooksDeliverSegments(cb, chunk, rest);
    }
  }
}
