# x-https core, modelled in Dafny

x-https is a small C library that wraps OpenSSL, libev and llhttp into an
HTTPS client and server with four user hooks (`on_connected`,
`on_data_received`, `on_disconnected`, `on_error`). This project models five
pieces of its core and proves properties of them.

- **The HTTP/1.1 wire builders.** `build_http_response` and
  `build_http_request` are modelled as functions over the text the format
  string expands to, with `snprintf`'s truncation rule (C11 section 7.21.6.5).
  A reader for the RFC 9112 message shape (start line, CRLF-terminated field
  lines, an empty line, the body) is the partner of both builders, and the
  round trips through it are proved. The request method table is proved to
  swap PUT and DELETE.
- **Connection event sequencing.** On the server this covers `handle_error`,
  `on_body`, `on_read`, `on_client_accept`, `send_data_to_client` and
  `send_response_to_client`. On the client it covers `handle_error`,
  `on_body`, `on_read`, `send_data_to_server`, `send_http_request` and the
  handshake, loop and shutdown decisions of `start_https_client`. A connection
  is a class whose `trace` field records, in order, every hook call, every
  write, the start and stop of the read watcher, the TLS shutdown, the socket close and the
  release of the connection. Every TLS call, the llhttp parser and the event
  loop are inputs: the outcome of each call is a parameter.
- **The INI configuration reader.** This covers `trim_whitespace` over a
  character array, the line loop of `parse_config` over lines already read,
  and `get_config_value`. The table is a `seq` of sections, each holding a
  `seq` of entries.
- **The bump allocator.** This covers `create_memory_pool`, `pool_alloc` and
  `destroy_memory_pool`. Pointers are (block identity, offset from `data`)
  pairs. What each `malloc` returns is an input.
- **The logger.** This covers `basename`, `set_log_level`, and the level
  filter and level name of `log_message`.

Files, in import order:

- `wrappers.dfy`: Option and Result.
- `decimal.dfy`: the `%d`/`%zu` numerals and their readers.
- `cstrings.dfy`: NUL-terminated strings, `strlen`, and the split at the first occurrence of a character.
- `http_wire.dfy`: the message shape, its reader, and `snprintf`.
- `hooks.dfy`: TLS outcomes, the callback set, the event record, and `handle_error`'s classification.
- `https_server.dfy`
- `https_client.dfy`
- `config.dfy`
- `memory_pool.dfy`
- `log.dfy`

## Model

| member | source | states |
|---|---|---|
| Decimal.NatToDecRoundTrip | src/https_server.c:49 | Reading back the `%zu` numeral gives the number it was printed from. |
| Decimal.IntToDecRoundTrip | src/https_server.c:47 | Reading back the `%d` numeral, with its minus sign, gives the integer it was printed from. |
| Decimal.NatToDecInjective | src/https_client.c:26 | Two Content-Length numerals are equal exactly when the lengths are equal. |
| CStrings.SplitAt | src/config.c:61-63 | The split at the first occurrence of c: the prefix holds no c and prefix + c + suffix is the input. There is no split exactly when c does not occur. |
| CStrings.SplitAtFirst | src/config.c:61-63 | Splitting a + c + b, where a holds no c, gives exactly (a, b). |
| CStrings.Strlen | src/config.c:16 | The length is the index of the first NUL: there is a NUL there and none before it. |
| HttpWire.Snprintf | src/https_server.c:46-52 | The return value is the full text's length. At most size - 1 characters are stored, and they are a prefix of the text. The buffer holds the whole text exactly when the length is below the size. |
| HttpWire.ParseSerialize | src/https_server.c:46-52 | The reader recovers the start line, every field and the body of any message whose start line and field lines hold no CR and whose names hold no ':'. |
| Hooks.ErrorMessageNamesClass | src/https_server.c:20-36 | handle_error's message names the class of an SSL library error, a system-call error or a peer close. Every other code, retryable ones included, is reported with the caller's context text. |
| Hooks.HandleErrorOnce | src/https_server.c:37-40 | handle_error calls on_error exactly once when callbacks and on_error are both set, and not otherwise. The call carries the classified message. |
| Hooks.WriteOutcome | src/https_server.c:197-217 | A write either sends the data, or fails silently when the condition is WANT_READ/WANT_WRITE. Any other failure gives exactly one on_error("SSL write failed") when the hook is set. No other hook runs. |
| Hooks.BodyHooksDeliverSegments | src/https_server.c:93-99 | With the hook set there are exactly as many on_data_received calls as segments llhttp reports, and the i-th call carries the i-th segment's bytes. Their concatenation is the segment bytes. Without the hook nothing is called. |
| Hooks.WriteFromOutcome | src/https_server.c:196-217 | A count within the buffer (up to the string's length, or one more for its NUL) sends exactly that many of its bytes when the write succeeds, and the string's own length is the ordinary write of it. A count beyond the buffer first records that SSL_write reads past it and records nothing as sent. Either way a failure is reported exactly as for an ordinary write. |
| HttpsServer.BuildHttpResponseChecked | src/https_server.c:43-58 | The corrected builder. It fails exactly when build_http_response's return value reaches the buffer size. Otherwise it yields the whole response, which is what build_http_response stores. |
| HttpsServer.StatusLineRoundTrip | src/https_server.c:47 | The status line reads back as the status code and the status text. It holds no CR unless the text does. |
| HttpsServer.ResponseRoundTrip | src/https_server.c:44-52 | Reading the response back gives the status code, the status text and the body. The announced Content-Length is strlen(body). |
| HttpsServer.FittingResponseIsFramed | src/https_server.c:45-57 | When the response fits the buffer, the buffer parses as a message whose Content-Length equals the number of body bytes after the empty line, and that body is the caller's body. |
| HttpsServer.OversizeResponseTruncatedSilently | src/https_server.c:54-57 | When the response does not fit, both branches return the full length: the buffer holds only size - 1 characters and nothing else signals the cut. |
| HttpsServer.LargeBodyOverrunsBuffer | src/https_server.c:220-222 | Any body of 4096 bytes or more makes build_http_response return more than the 4096-byte buffer holds, while only 4095 characters are stored. |
| HttpsServer.ResponseOverrunWitness | src/https_server.c:220-222 | A concrete body of 4096 bytes with status 200 "OK" makes the returned length exceed the response buffer. |
| HttpsServer.LargeResponseWriteOverreads | src/https_server.c:220-223 | For a body of 4096 bytes or more, the length handed on to SSL_write exceeds the stored 4095 characters and their NUL, the write is recorded as reading past the buffer, and the response is never sent whole. |
| HttpsServer.FittingResponseWriteAgrees | src/https_server.c:220-223 | A response that fits is written as the whole response text, the same as with the corrected builder. |
| HttpsServer.TeardownOrder | src/https_server.c:113-125 | A failed read runs on_disconnected (if set), then on_error with the classified read failure (if set), then stops the watcher and shuts TLS down. The connection is released last and only then. |
| HttpsServer.TeardownCallsNoOtherHook | src/https_server.c:113-125 | A failed read never calls on_connected or on_data_received and writes nothing. |
| HttpsServer.TeardownErrors | src/https_server.c:113-122 | A failed read gives one on_error, or two when SSL_shutdown fails, and none without the hook. A clean close still reports "ssl connection closed". |
| HttpsServer.Client.constructor | src/https_server.c:146-152 | A connection starts with its descriptor set, `callbacks` not yet written, no watcher and an empty record. |
| HttpsServer.Client.OnRead | src/https_server.c:107-135 | A chunk runs the body hooks and keeps the connection open. A failed read appends the teardown events, stops the watcher and releases the connection. |
| HttpsServer.Client.Teardown | src/https_server.c:113-125 | The record grows by exactly the teardown events. The watcher is stopped and the connection released. |
| HttpsServer.Client.Execute | src/https_server.c:129-133 | The loop over llhttp's segments appends exactly the body-hook events for them. |
| HttpsServer.Client.OnBody | src/https_server.c:93-99 | One segment reaches on_data_received when the hook is set. Otherwise nothing happens. |
| HttpsServer.Client.HandleErrorStep | src/https_server.c:20-41 | The record grows by handle_error's events, including the undefined case of an unwritten `callbacks`. |
| HttpsServer.Client.SendDataToClient | src/https_server.c:196-218 | The result is true exactly when the write succeeds. The record grows by the write's events for the given count: a count within the buffer sends that prefix of the string and its NUL, and a longer count records a read past the buffer instead. |
| HttpsServer.Client.SendResponseToClient | src/https_server.c:220-224 | As written: the buffer build_http_response filled goes to the write with the length build_http_response returned. The result is true exactly when the write succeeds. |
| HttpsServer.Client.SendCheckedResponse | src/https_server.c:220-224 | Over the corrected builder, a response that fits is written whole. A response that does not fit is refused with false before any write. |
| HttpsServer.OnClientAccept | src/https_server.c:137-194 | Failures of accept, malloc or SSL_new give no connection and no event. A failed handshake reaches handle_error with `callbacks` unwritten, then releases the connection; on_connected never runs. A successful handshake gives a fresh connection with the server's hooks, on_connected (if set) exactly once, then the watcher start. |
| HttpsClient.Ordinal | include/structs.h:59-64 | The enum values 0..3, in declaration order GET, POST, PUT, DELETE. |
| HttpsClient.MethodToken | include/structs.h:59-64 | Each method's own token reads back as that method. It holds no space, CR or NUL. |
| HttpsClient.MethodTableSwapsPutAndDelete | src/https_client.c:20-21 | The table entry reads back as the method exactly for GET and POST. HTTP_METHOD_PUT prints "DELETE" and HTTP_METHOD_DELETE prints "PUT". |
| HttpsClient.BuildHttpRequestChecked | src/https_client.c:19-31 | The corrected builder. It uses the method's own token and fails exactly when the request would not fit the buffer. |
| HttpsClient.RequestLineRoundTrip | src/https_client.c:23 | The request line reads back as the method string and the path, even when the path holds spaces. |
| HttpsClient.RequestRoundTrip | src/https_client.c:22-29 | Reading the request back gives the method string, the path and the body. The announced Content-Length is the caller's body_length. |
| HttpsClient.RequestFramedIff | src/https_client.c:22-29 | The request's Content-Length counts the body bytes if and only if body_length == strlen(body). |
| HttpsClient.BuiltRequestMethod | src/https_client.c:19-30 | A fitting request built as written is read as DELETE for PUT and as PUT for DELETE. GET and POST are read as themselves. |
| HttpsClient.CheckedRequestRoundTrip | src/https_client.c:19-30 | A request from the corrected builder reads back with its own method, the path, the body and body_length. |
| HttpsClient.LargeRequestOverrunsBuffer | src/https_client.c:162-163 | Any body of 4096 bytes or more makes build_http_request return more than its 4096-byte buffer holds, while only 4095 characters are stored. |
| HttpsClient.LargeRequestWriteOverreads | src/https_client.c:161-165 | For a body of 4096 bytes or more, the length handed on to SSL_write exceeds the stored 4095 characters and their NUL, the write is recorded as reading past the buffer, and the request is never sent whole. |
| HttpsClient.FittingRequestWriteSwapsMethod | src/https_client.c:161-165 | A request that fits is written whole, and the request on the wire names DELETE for PUT and PUT for DELETE. |
| HttpsClient.ClientTeardownOrder | src/https_client.c:119-124 | A failed read runs on_disconnected (if set), then on_error (if set), then stops the watcher. Nothing is shut down or released in the handler. |
| HttpsClient.SessionEvents | src/https_client.c:115-134 | Reads only ever cause on_data_received, on_disconnected, on_error or a watcher stop. |
| HttpsClient.SessionReceived | src/https_client.c:100-134 | Across any number of reads, on_data_received sees exactly the body bytes of every chunk, chunk after chunk and in order, when the hook is set, and nothing otherwise. |
| HttpsClient.HandshakeFailureReported | src/https_client.c:215-222 | A failed SSL_connect gives exactly one on_error (if set), classified as in handle_error. It never runs on_connected or starts the watcher, and it releases everything. |
| HttpsClient.ConnectedFirst | src/https_client.c:231-236 | On an established connection on_connected runs at most once, first of all, before the watcher starts and so before any on_data_received. |
| HttpsClient.ShutdownAtMostOnce | src/https_client.c:238-249 | SSL_shutdown runs after the loop exactly when no close_notify was sent yet, so at most once. The socket is closed exactly once, and before SSL_shutdown, so the close_notify goes to a closed descriptor. The release comes last and only then. |
| HttpsClient.OrderlyShutdownBeforeClose | src/https_client.c:238-245 | With the closing steps reordered, SSL_shutdown (when it runs, at most once) comes before the one socket close, so the close_notify is written while the descriptor is open. The release still comes last. |
| HttpsClient.Client.constructor | src/https_client.c:189-199 | The client is created with its descriptor and the caller's hooks set, no watcher and an empty record. |
| HttpsClient.Client.Connect | src/https_client.c:231-235 | on_connected (if set) runs, then the watcher starts. |
| HttpsClient.Client.RunLoop | src/https_client.c:235-236 | The loop's on_read calls append exactly the session's events, and the failing read leaves the watcher stopped. |
| HttpsClient.Client.OnRead | src/https_client.c:115-134 | The record grows by one read's events. The watcher stays on exactly when the read returned data. |
| HttpsClient.Client.Execute | src/https_client.c:129-132 | The loop over llhttp's segments appends exactly the body-hook events for them. |
| HttpsClient.Client.OnBody | src/https_client.c:100-107 | One segment reaches on_data_received when the hook is set. Otherwise nothing happens. |
| HttpsClient.Client.HandleErrorStep | src/https_client.c:34-54 | The record grows by handle_error's events. |
| HttpsClient.Client.SendDataToServer | src/https_client.c:137-158 | The result is true exactly when the write succeeds. The record grows by the write's events for the given count: a count within the buffer sends that prefix of the string and its NUL, and a longer count records a read past the buffer instead. |
| HttpsClient.Client.SendHttpRequest | src/https_client.c:161-165 | As written: the buffer build_http_request filled from the method table goes to the write with the length build_http_request returned. The result is true exactly when the write succeeds. |
| HttpsClient.Client.SendCheckedRequest | src/https_client.c:161-165 | Over the corrected builder, a request that fits is written whole with its own method. A request that does not fit is refused with false before any write. |
| HttpsClient.StartHttpsClient | src/https_client.c:168-251 | A failure to get a context, socket, SSL object or client returns false and runs no hook. Otherwise the events are the handshake-failure or established run, the latter closing the socket before SSL_shutdown as written, and the result is true exactly when the handshake succeeded. |
| Config.TrimEnd | src/config.c:16-18 | A prefix of the input with only whitespace cut off, which does not end in whitespace. |
| Config.Trimmed | src/config.c:10-19 | What trim_whitespace leaves: an all-whitespace string unchanged, otherwise a prefix ending at the last non-space character with only whitespace after it. |
| Config.TrimmedAt | src/config.c:16-18 | The last non-space character decides where the trimmed string ends. |
| Config.TrimmedIdempotent | src/config.c:10-19 | Trimming twice is trimming once. |
| Config.TrimmedKeepsLeading | src/config.c:12 | Leading whitespace survives trimming unless the string is all whitespace. |
| Config.TrimmedDropsOnlyTrailing | src/config.c:16-18 | The input is the trimmed text followed by whitespace only. A string not ending in whitespace is unchanged. |
| Config.TrimWhitespace | src/config.c:10-19 | The buffer's string becomes its trimmed form through one NUL written after the last non-space character. No other byte changes. |
| Config.SkipSpaces | src/config.c:12 | The skip stops at the first non-space character or at the NUL, having passed only whitespace. |
| Config.LastNonSpace | src/config.c:16-17 | The backward scan stops at a non-space character with only whitespace after it. |
| Config.StrlenOf | src/config.c:16 | The loop returns the index of the first NUL. |
| Config.Strncpy | src/config.c:66-67 | Copying a string shorter than the field gives a fresh, terminated buffer of the field's size holding the same string. |
| Config.Strchr | src/config.c:61 | The index of the first '=' in the string, or its length when there is none. |
| Config.EntryValueFirst | src/config.c:89-93 | The inner scan finds nothing exactly when no entry has the key, and otherwise returns the value of the first entry that has it. |
| Config.LookupFirstMatch | src/config.c:86-97 | get_config_value finds nothing exactly when no section of that name holds the key. Otherwise it returns the first match: earliest section, then earliest entry. |
| Config.ApplyLineExtends | src/config.c:35-79 | A line has exactly one of three effects: none; one new section with no entries appended; or one entry appended to the last section, whose name and earlier entries stay. Every earlier section is untouched. |
| Config.ExtendsTransitive | src/config.c:35-79 | Growth by appends composes. |
| Config.EntryValueStable | src/config.c:89-93 | A key already found keeps its value when entries are appended. |
| Config.LookupStable | src/config.c:86-97 | A value already found stays the answer however the table grows by appends. |
| Config.ParseLinesExtends | src/config.c:35-79 | The table after more lines extends the table after fewer. |
| Config.FirstValueWins | src/config.c:86-97 | With duplicate keys, the first one in the file is the answer whatever lines follow. |
| Config.KeyLineAppends | src/config.c:60-75 | A key line under an open section appends the trimmed key and value to the last section. |
| Config.LookupAppendedEntry | src/config.c:71-75 | An entry appended to the last section answers for its key there, unless an earlier entry already did. |
| Config.KeyLineIsFound | src/config.c:60-77 | After a `key=value` line under an open section, get_config_value on that section and the trimmed key gives the trimmed value, unless an earlier entry already answered. |
| Config.UntrimmedKeyLine | src/config.c:61-75 | A `k=v` line that trimming leaves alone appends the entry (k, v) as written. |
| Config.IndentedCommentIsAnEntry | src/config.c:36-41 | " #k=v" is not a comment: trimming keeps the indent, so the line adds the entry (" #k", "v"). |
| Config.ValueKeepsLaterEquals | src/config.c:61-67 | "k=a=b" is split at the first '=', giving the entry ("k", "a=b"). |
| Config.SplitAtDelimiter | src/config.c:61-63 | The first '=' at index d splits the line into the text before it and the text after it. |
| Config.EntryLine | src/config.c:60-77 | A trimmed key line whose first '=' is at index d appends the trimmed halves to the last section. |
| Config.ConfigFile.constructor | src/config.c:32-33 | The table starts empty. |
| Config.ConfigFile.ParseConfig | src/config.c:22-83 | When the file cannot be opened, it returns -1 and the table is unchanged. Otherwise it returns 0 and the table is the lines' effect applied in order from an empty table. |
| Config.ConfigFile.ProcessLine | src/config.c:36-78 | The loop body changes the table by exactly one line's effect. |
| Config.ConfigFile.ProcessTrimmed | src/config.c:39-78 | Blank and '#' lines change nothing. A header adds a section. Before the first section, or without '=', nothing changes. Otherwise an entry is added. |
| Config.ConfigFile.AddSection | src/config.c:47-58 | A `[name]` line appends exactly one section, named by the inner text with trailing whitespace trimmed, with no entries. |
| Config.ConfigFile.AddEntry | src/config.c:60-75 | A key line appends one entry with the trimmed key and value to the last section. Every other section is unchanged. |
| Config.ConfigFile.GetConfigValue | src/config.c:86-97 | The nested scan returns the first matching value in file order, or nothing. The table is only read. |
| MemoryPool.MaskRoundsDown | src/memory_pool.c:36 | Clearing the low three bits with `& ~7` subtracts the remainder modulo 8. |
| MemoryPool.AlignUpBounds | src/memory_pool.c:36 | The rounded size is a multiple of 8, at least the request and below the request plus 8. Only a request within 7 of 2^64 wraps, to 0. |
| MemoryPool.AllocOutcomes | src/memory_pool.c:34-56 | A fitting request is served at the old bump offset, which advances by the rounded size, and the lists are unchanged. Otherwise the new block is pushed, becomes current and serves the request from its start. A failed malloc gives NULL and leaves the pool unchanged. |
| MemoryPool.RunDisjoint | src/memory_pool.c:34-56 | Over any run of allocations on a fresh pool, every pointer is 8-byte aligned. Two pointers in the same block are increasing and do not overlap. |
| MemoryPool.RunStaysInBlock | src/memory_pool.c:39 | With every rounded request at most POOL_BLOCK_SIZE, the bump offset and every allocation's end stay within POOL_BLOCK_SIZE. |
| MemoryPool.RunInBounds | src/memory_pool.c:5-56 | With requests that fit a block and a first block of at least sizeof(pool_block_t) bytes, every allocation lies inside the block it points into. |
| MemoryPool.SmallFirstBlockOverruns | src/memory_pool.c:5-19 | After create_memory_pool(100), whose block has 92 data bytes, a 200-byte request is served from that block and runs past its end. |
| MemoryPool.LargeRequestOverrunsBlock | src/memory_pool.c:39-55 | A 5000-byte request is served from a new 4096-byte block and runs past its end. |
| MemoryPool.BlockReleasesExact | src/memory_pool.c:25-29 | Exactly the listed blocks are freed, each once when the list has no repeats. The pool itself is not among them. |
| MemoryPool.Pool.constructor | src/memory_pool.c:14-17 | A new pool has no pushed blocks and its bump offset at the start of the first block. |
| MemoryPool.Pool.Alloc | src/memory_pool.c:34-56 | The fields and the result are one allocation step from the old fields. The first block is never pushed, and no block is pushed twice. |
| MemoryPool.CreateMemoryPool | src/memory_pool.c:5-19 | If the pool malloc fails, the result is NULL. If the block malloc fails, the result is NULL and the pool struct is freed. Otherwise the result is a fresh pool at the start of the new block. |
| MemoryPool.DestroyMemoryPool | src/memory_pool.c:21-32 | A NULL pool frees nothing. Otherwise the blocks on free_blocks are freed from the head, then the pool. On a pool that keeps its invariant, every pushed block is freed exactly once, the pool last, and the first block never. |
| MemoryPool.DestroyLeaksFirstBlock | src/memory_pool.c:5-32 | destroy frees every pushed block exactly once and nothing twice, but never the first block from create. |
| Log.LastIndexOf | src/log.c:21 | strrchr: the index of the last occurrence, or none exactly when the character does not occur. |
| Log.BasenameIsLastComponent | src/log.c:20-23 | basename is a suffix of the path with no '/': the whole path when it has no '/', and otherwise the text after its last '/'. |
| Log.BasenameOfJoin | src/log.c:20-23 | basename(dir + "/" + name) is name, whatever dir holds. |
| Log.BasenameIdempotent | src/log.c:20-23 | basename applied twice is basename applied once. |
| Log.Logger.constructor | src/log.c:11 | The threshold starts at LOG_INFO. |
| Log.Logger.SetLogLevel | src/log.c:26-28 | The threshold becomes the given level, and nothing else changes. |
| Log.Logger.LogMessage | src/log.c:30-55 | Nothing is printed exactly when the level is below the threshold. Otherwise one line with the level's name from the table is printed. A level outside 0..3 reads past the name table. |
| Log.LogLineFields | src/log.c:46-53 | The printed line starts with the time and the level name in brackets, then the file's basename, and ends with a newline. |

## Left out

- TLS, libev and llhttp are not modelled. Each outcome of SSL_read, SSL_write, SSL_accept, SSL_connect, SSL_get_error, SSL_shutdown and SSL_get_shutdown is an input. So are the body segments llhttp_execute reports and its return code.
- The second `ev_io_stop` after `ev_run` in start_https_client stops a watcher that is already stopped, so it adds no event.
- Hooks are recorded as events; what a hook does is not modelled. That includes a hook that re-enters the library.
- `start_https_server`, the socket, epoll and TLS-context helpers, and the `signal(SIGPIPE)` calls are plumbing outside this model. So are the example programs and the test mains.
- The log-only llhttp callbacks (on_message_begin, on_url, on_status, on_header_field, on_header_value, on_headers_complete, on_message_complete) are left out. Only their lack of effect on the hooks is captured. Their unbounded strncpy into 4096-byte stack buffers is a memory-safety defect that is not modelled.
- `buffer[read] = '\0'` in on_read writes one past the 4096-byte buffer when a read fills it. Chunks are sequences of 1 to 4096 characters, so this write is not modelled.
- HttpsClient.StartHttpsClient: the loop is given as a finite list of readiness events that ends with the failing read, so a session that never ends is not modelled. Connect failures inside create_client_socket, which exits the process, are not modelled either.
- HttpWire.Snprintf: the length is an unbounded number, so snprintf's failure for texts of 2^31 bytes or more and the `int request_length` conversion in send_http_request are not modelled.
- HttpsClient.HttpMethod: only the four enumerators exist. A value outside 0..3 would index past the method table in C and cannot be expressed.
- Config.ConfigFile.ParseConfig: requires every section name to be under 50 bytes and every key and value under 50 and 100 bytes. strncpy leaves a field of that size unterminated, and the later reads of it are undefined, so those lines are excluded rather than modelled.
- Config.ConfigFile.ParseConfig: fopen, fgets and fclose are left out. The lines are given as fgets returns them, so a line longer than 255 characters arrives already split. realloc failure is not modelled: the source does not check it.
- `free_config` only frees memory and is not part of this model.
- `pool_free` is left out: it derives a block header from an arbitrary interior pointer, which has no meaning at the level of block identities.
- MemoryPool.Pool.Alloc: the fit test compares offsets as unbounded integers, so a pointer sum that overflows the address space is not modelled. The `!pool->current_block` test is never true after create_memory_pool, so it is left out.
- MemoryPool.CreateMemoryPool: the `int size` argument is passed through to malloc; whether malloc(size) succeeds is an input, including for negative sizes.
- Log.Logger.LogMessage: the timestamp (gettimeofday, localtime) is the `time` argument. The vprintf of the caller's format is the `message` argument. printf and fflush are the returned line.

## Findings

| source | as written | input that shows it | evidently intended | confidence | as-written member | corrected member |
|---|---|---|---|---|---|---|
| src/https_server.c:54-57 | build_http_response returns snprintf's untruncated length in both branches, and send_response_to_client passes it to SSL_write with the 4096-byte stack buffer | any body of 4096 bytes, e.g. 4096 'a' with status 200 "OK" | a response that does not fit is refused, not sent from past the buffer's end | high; not executed | HttpsServer.LargeResponseWriteOverreads | HttpsServer.Client.SendCheckedResponse |
| src/https_client.c:30 | build_http_request returns snprintf's untruncated length, and send_http_request passes it to SSL_write with the 4096-byte stack buffer | any body of 4096 bytes | a request that does not fit is refused, not sent from past the buffer's end | high; not executed | HttpsClient.LargeRequestWriteOverreads | HttpsClient.Client.SendCheckedRequest |
| src/https_client.c:20-21 | method_array is {"GET","POST","DELETE","PUT"} while the enum order is GET, POST, PUT, DELETE | HTTP_METHOD_PUT, which is sent as "DELETE" | each method is sent under its own name | high; not executed | HttpsClient.FittingRequestWriteSwapsMethod | HttpsClient.CheckedRequestRoundTrip |
| src/https_client.c:239-245 | start_https_client calls close(client_fd) before SSL_get_shutdown and SSL_shutdown | any established session whose loop ends without a close_notify sent, i.e. SSL_SENT_SHUTDOWN clear | the close_notify is written before the descriptor is closed | high; not executed | HttpsClient.ShutdownAtMostOnce | HttpsClient.OrderlyShutdownBeforeClose |
