# Deno web stack core, modelled in Dafny

This project models four pieces of the Deno web stack and proves properties of them.

- **WebSocket engine** of the Deno standard library `ws` module (std 0.61.0):
  - the frame codec `unmask` / `writeFrame` / `readFrame` (section 5.2 of RFC 6455);
  - the `WebSocketImpl` object: its send queue with `enqueue` / `dequeue`, `send`, `ping`, `close` and `ensureSocketClosed`, and the receiving loop of its async iterator;
  - the opening handshake: `acceptable`, `acceptWebSocket`, the request text and response checks of `handshake` (section 4 of RFC 6455);
  - the transport and port choice of `connectWebSocket`.
- **`globrex`**, the glob-to-regex translator of the std `path` module, including its inner `add`.
- **oak's cookie serialisation** (oak 6.0.0):
  - `validateCookieProperty`;
  - the `Cookie` object: its constructor, `toString` and `toHeader`;
  - the in-place header list update `pushCookie`;
  - `Cookies.set` and `Cookies.delete`.
- **oak's middleware composition** (oak 6.0.1): `compose` and its inner `dispatch`.

There is one module per file:

| module | file | models |
|---|---|---|
| `Wrappers` | `wrappers.dfy` | `Option` and `Result`, the failure-carrying values of every module. |
| `Bytes` | `bytes.dfy` | The `Byte` type, XOR, and big-endian integers. |
| `Casing` | `casing.dfy` | `toLowerCase`: exact on Latin-1 and on the Kelvin sign, the one character beyond Latin-1 that lower-cases into ASCII. |
| `WsFrame` | `ws_frame.dfy` | Masking, the encoder and the decoder of frames. |
| `WsSocket` | `ws_socket.dfy` | The close payload and the iterator's frame handling. Also the class `WebSocket`: its fields are `sendQueue`, `isClosed`, the frames written, the settled deferreds and the number of `conn.close()` calls. |
| `WsHandshake` | `ws_handshake.dfy` | The header list, the server's acceptance test and response, the client's request text and response checks, and the connection target. |
| `Globrex` | `globrex.dfy` | The scanning loop: as the imperative method `Globrex.Globrex`, and as a step function with lemmas about each branch. |
| `Cookies` | `cookies.dfy` | The class `Cookie`, the attribute rendering, `pushCookie`, and the outcome of `set` and `delete`. |
| `Middleware` | `middleware.dfy` | The class `Dispatcher`, whose fields are the `index` the closure updates and the list of entered functions, plus the recursive description of a dispatch chain. |

The imperative parts of the source are methods with loops, and classes with `modifies` clauses. Each method's result or new state is tied to a specification function by its postcondition. The lemmas then state the promised properties of those functions.

Source paths below are relative to the repository root. The frequent prefixes are:

- `ws/…` for `deno_dir/gen/https/deno.land/std@0.61.0/ws/mod.ts.js`;
- `globrex/…` for `deno_dir/gen/https/deno.land/std@0.61.0/path/_globrex.ts.js`;
- `cookies/…` for `deno_dir/gen/https/deno.land/x/oak@v6.0.0/cookies.ts.js`;
- `middleware/…` for `deno_dir/gen/https/deno.land/x/oak@v6.0.1/middleware.ts.js`.

The table itself uses the full paths.

## Model

| member | source | states |
|---|---|---|
| Bytes.XorTwice | deno_dir/gen/https/deno.land/std@0.61.0/ws/mod.ts.js:32 | XOR-ing a byte twice with the same key byte gives back the byte. |
| Bytes.Pow256IsPow2 | deno_dir/gen/https/deno.land/std@0.61.0/ws/mod.ts.js:46-59 | w bytes hold exactly the values of 8·w bits: 256^w = 2^(8·w). |
| Bytes.BigEndian | deno_dir/gen/https/deno.land/std@0.61.0/ws/mod.ts.js:46-59 | The extended length is written as exactly `w` bytes. |
| Bytes.BigEndianRoundTrip | deno_dir/gen/https/deno.land/std@0.61.0/ws/mod.ts.js:89-98 | A length below 256^w, written as `w` big-endian bytes and read back, is unchanged. This is the 16- and 64-bit length pair of writer and reader. |
| Casing.Lower | deno_dir/gen/https/deno.land/std@0.61.0/ws/mod.ts.js:283 | Each character is lower-cased on its own and the length is kept. A-Z and the Latin-1 capitals U+00C0–U+00DE (except U+00D7) move up by 0x20, and the Kelvin sign becomes `k`. |
| Casing.LowerCharToAscii | deno_dir/gen/https/deno.land/std@0.61.0/ws/mod.ts.js:283 | A character lower-cases into ASCII exactly when it is ASCII or the Kelvin sign, and a Latin-1 character stays within Latin-1. So the model's comparisons with ASCII words agree with JavaScript's full `toLowerCase`. |
| WsFrame.Unmask | deno_dir/gen/https/deno.land/std@0.61.0/ws/mod.ts.js:29-35 | The array afterwards holds each byte `i` XOR `mask[i & 3]`; an index past a short mask uses 0, as `undefined` does. Without a mask the array is unchanged. |
| WsFrame.MaskedTwice | deno_dir/gen/https/deno.land/std@0.61.0/ws/mod.ts.js:29-35 | Applying `unmask` twice with the same mask restores the original payload. |
| WsFrame.EncodeFrame | deno_dir/gen/https/deno.land/std@0.61.0/ws/mod.ts.js:36-42 | The encoder fails exactly when a mask is present whose length is not 4, and the error carries that length. |
| WsFrame.BaseHeaderFields | deno_dir/gen/https/deno.land/std@0.61.0/ws/mod.ts.js:43-45 | The first byte has FIN set whatever `isLastFrame` says and carries the opcode. The second carries the mask bit and the 7-bit length field. |
| WsFrame.ExtendedLengthValue | deno_dir/gen/https/deno.land/std@0.61.0/ws/mod.ts.js:43-60 | There is no extension below 126 bytes, 2 bytes below 0xffff and 8 bytes from 0xffff on, so 65535 takes the 64-bit form. The bytes hold the length big-endian. |
| WsFrame.EncodeFrameLayout | deno_dir/gen/https/deno.land/std@0.61.0/ws/mod.ts.js:36-65 | An encoded frame is, in order: the base header, the extended length, the 4 mask bytes when masked, and the masked payload. Its total length is the sum of the parts. |
| WsFrame.WriteFrame | deno_dir/gen/https/deno.land/std@0.61.0/ws/mod.ts.js:36-69 | It outputs what `EncodeFrame` describes. On success the caller's payload array is left masked in place; on the mask error it is untouched. |
| WsFrame.WriteTwice | deno_dir/gen/https/deno.land/std@0.61.0/ws/mod.ts.js:61-64 | Writing the same buffer twice with a 4-byte mask leaves it masked after the first write, so the second frame carries the original bytes unmasked and the buffer ends as it started. This is what a client's two `send(buf)` calls of one buffer put on the wire. |
| WsFrame.ReadFrame | deno_dir/gen/https/deno.land/std@0.61.0/ws/mod.ts.js:70-112 | A top nibble other than 0b1000 and 0b0000 throws "invalid signature". Otherwise: isLastFrame is whether the nibble is 0b1000; the opcode is the low nibble; a mask is read exactly when bit 7 of the second byte is set; the payload is the last bytes consumed. |
| WsFrame.ReadAfterHeader | deno_dir/gen/https/deno.land/std@0.61.0/ws/mod.ts.js:85-111 | After the base header the reader consumes within the input, keeps FIN, opcode and mask bit, and returns the payload it read last. |
| WsFrame.ReadFrameOfEncodeFrame | deno_dir/gen/https/deno.land/std@0.61.0/ws/mod.ts.js:36-112 | Reading back a written frame, followed by any bytes, gives FIN set, the same opcode and mask, and the masked payload. It consumes exactly the written bytes. |
| WsFrame.ReceivedPayload | deno_dir/gen/https/deno.land/std@0.61.0/ws/mod.ts.js:131-137 | Unmasking the payload read back gives the sender's original payload. |
| WsSocket.WriteOutcomeOfEncodeFrame | deno_dir/gen/https/deno.land/std@0.61.0/ws/mod.ts.js:190-192 | A queue entry's deferred resolves exactly when `writeFrame` succeeds, and is rejected with its error otherwise. |
| WsSocket.WireAppend | deno_dir/gen/https/deno.land/std@0.61.0/ws/mod.ts.js:183-197 | Writing one more frame appends its encoded bytes to what the connection has received. `Dequeue` uses it to state the connection's bytes. |
| WsSocket.ClosePayload | deno_dir/gen/https/deno.land/std@0.61.0/ws/mod.ts.js:234-246 | The close payload is two code bytes followed by exactly the reason bytes. |
| WsSocket.CloseCode | deno_dir/gen/https/deno.land/std@0.61.0/ws/mod.ts.js:162 | The received close code `(p[0] << 8) \| p[1]` is below 2^16. |
| WsSocket.ClosePayloadRoundTrip | deno_dir/gen/https/deno.land/std@0.61.0/ws/mod.ts.js:162-163 | Parsing a payload built by `close(code, reason)` gives `code` modulo 2^16 and the reason unchanged. |
| WsSocket.CloseEchoesPayload | deno_dir/gen/https/deno.land/std@0.61.0/ws/mod.ts.js:161-164 | At the byte level, the close frame sent in answer to a received one repeats its payload, and pads a payload shorter than 2 bytes with zeros. The source decodes and re-encodes the reason, so this matches it only for a reason in valid UTF-8 without a leading BOM (see Left out). |
| WsSocket.HandleAnswersPing | deno_dir/gen/https/deno.land/std@0.61.0/ws/mod.ts.js:168-178 | One pass of the iterator keeps the pongs it sent equal to the pings it yielded. |
| WsSocket.PongsAnswerPings | deno_dir/gen/https/deno.land/std@0.61.0/ws/mod.ts.js:125-182 | Over a whole session every ping is answered by a pong with the same payload, in arrival order, and no other pong is sent. |
| WsSocket.HandleClosesLast | deno_dir/gen/https/deno.land/std@0.61.0/ws/mod.ts.js:161-178 | One pass keeps the close invariant below. |
| WsSocket.CloseEndsSession | deno_dir/gen/https/deno.land/std@0.61.0/ws/mod.ts.js:125-182 | Every reply is an unmasked pong except possibly the last, the close frame. A close event is the last event. There is no close event when the reply could not be written. |
| WsSocket.IncomingStep | deno_dir/gen/https/deno.land/std@0.61.0/ws/mod.ts.js:128-137 | A frame that reads successfully is unmasked and handled, and the loop goes on with the bytes after it. |
| WsSocket.FragmentsJoin | deno_dir/gen/https/deno.land/std@0.61.0/ws/mod.ts.js:138-160 | A non-final text frame followed by a final continuation frame yields one text message joining both unmasked payloads. The iterator then goes on with an empty buffer. |
| WsSocket.WebSocket.constructor | deno_dir/gen/https/deno.land/std@0.61.0/ws/mod.ts.js:117-124 | A new socket is open, with an empty queue and nothing written. |
| WsSocket.WebSocket.Dequeue | deno_dir/gen/https/deno.land/std@0.61.0/ws/mod.ts.js:183-197 | It starts writing the head of the queue unless the queue is empty or the socket is closed, and changes nothing else. The connection's bytes grow by exactly that frame's encoding. |
| WsSocket.WebSocket.StartWrite | deno_dir/gen/https/deno.land/std@0.61.0/ws/mod.ts.js:190 | The write `dequeue` starts puts the frame's encoded bytes on the connection after everything written before, and changes nothing else. |
| WsSocket.WebSocket.Enqueue | deno_dir/gen/https/deno.land/std@0.61.0/ws/mod.ts.js:198-208 | Once closed it throws ConnectionReset and changes nothing. Otherwise it appends the entry at the tail, starts a write only when the queue was empty, and returns the entry's ticket. |
| WsSocket.WebSocket.Push | deno_dir/gen/https/deno.land/std@0.61.0/ws/mod.ts.js:202-203 | A fresh deferred is created and its entry is appended at the tail of the queue. |
| WsSocket.WebSocket.CompleteWrite | deno_dir/gen/https/deno.land/std@0.61.0/ws/mod.ts.js:190-196 | When the head's write ends, its deferred settles with the write's outcome. The head is shifted off and the next entry's write starts, so frames go out in FIFO order. |
| WsSocket.WebSocket.Await | deno_dir/gen/https/deno.land/std@0.61.0/ws/mod.ts.js:190-196 | Awaiting an entry completes the writes ahead of it in order. Each of those settles with its own write outcome, and settled deferreds never change. |
| WsSocket.WebSocket.Send | deno_dir/gen/https/deno.land/std@0.61.0/ws/mod.ts.js:209-220 | `send` enqueues one final frame: text for a string, binary otherwise, masked with the socket's key. Once closed it throws. |
| WsSocket.WebSocket.SendPing | deno_dir/gen/https/deno.land/std@0.61.0/ws/mod.ts.js:221-230 | `ping` enqueues one final ping frame masked with the socket's key. Once closed it throws. |
| WsSocket.WebSocket.EnsureSocketClosed | deno_dir/gen/https/deno.land/std@0.61.0/ws/mod.ts.js:264-279 | It is idempotent. The socket ends closed with an empty queue, and every entry still pending is rejected with ConnectionReset. The connection is closed exactly once. |
| WsSocket.WebSocket.RejectAll | deno_dir/gen/https/deno.land/std@0.61.0/ws/mod.ts.js:275-277 | Every entry of the list is rejected with ConnectionReset, and no other deferred changes. |
| WsSocket.WebSocket.Close | deno_dir/gen/https/deno.land/std@0.61.0/ws/mod.ts.js:234-260 | It enqueues a final close frame with payload `[code >>> 8, code & 0xff] + reason` (code 1000 by default) and waits for it. The socket ends closed whatever happened. It throws the enqueue or write error. |
| WsSocket.WebSocket.JoinPayloads | deno_dir/gen/https/deno.land/std@0.61.0/ws/mod.ts.js:145-150 | The copy loop leaves the payloads of the buffered frames one after another, in arrival order. |
| WsSocket.WebSocket.CopyInto | deno_dir/gen/https/deno.land/std@0.61.0/ws/mod.ts.js:148 | `set(payload, offs)` copies the payload at the offset and leaves the bytes before it alone. |
| WsSocket.WebSocket.Assemble | deno_dir/gen/https/deno.land/std@0.61.0/ws/mod.ts.js:138-160 | A data frame joins the buffer. On a final one the whole buffer is yielded (text when the first frame is a text frame) and the buffer and its length reset to empty. |
| WsSocket.WebSocket.HandleFrame | deno_dir/gen/https/deno.land/std@0.61.0/ws/mod.ts.js:137-180 | One pass of the `switch` yields, replies and closes as the specification function describes. A Ping enqueues a pong with the same payload before yielding. |
| WsSocket.WebSocket.Receive | deno_dir/gen/https/deno.land/std@0.61.0/ws/mod.ts.js:125-182 | The loop yields the session's events, enqueues its replies and throws its error as `Incoming` describes. It stops on a Close frame or a read error, and leaves the socket closed. |
| WsHandshake.Get | deno_dir/gen/https/deno.land/std@0.61.0/ws/mod.ts.js:282 | `headers.get(name)` has a value exactly when an entry of that name exists. |
| WsHandshake.SetThenGet | deno_dir/gen/https/deno.land/std@0.61.0/ws/mod.ts.js:331-337 | After `set`, that name reads the new value and every other name reads its old value. Names stay unique. |
| WsHandshake.Acceptable | deno_dir/gen/https/deno.land/std@0.61.0/ws/mod.ts.js:281-290 | An acceptable request has both an `upgrade` and a `sec-websocket-key` header; the converse for the client's own request is `ClientRequestAcceptable`. |
| WsHandshake.AcceptResponse | deno_dir/gen/https/deno.land/std@0.61.0/ws/mod.ts.js:306-314 | The response has status 101, `upgrade: websocket`, `connection: Upgrade`, and the accept token computed from the client's key. |
| WsHandshake.AcceptWebSocket | deno_dir/gen/https/deno.land/std@0.61.0/ws/mod.ts.js:298-318 | It succeeds exactly for an acceptable request, with a fresh open server socket without a mask and the 101 response. Otherwise it throws "request is not acceptable" and writes nothing. |
| WsHandshake.FinalHeadersGet | deno_dir/gen/https/deno.land/std@0.61.0/ws/mod.ts.js:331-337 | `host` is kept when present and set to the hostname otherwise; `upgrade`, the key and version 13 are set. |
| WsHandshake.ClientRequestAcceptable | deno_dir/gen/https/deno.land/std@0.61.0/ws/mod.ts.js:281-290 | The request headers `handshake` sends pass the server's `acceptable` exactly when the key is non-empty. The server reads back the client's own key. |
| WsHandshake.RequestText | deno_dir/gen/https/deno.land/std@0.61.0/ws/mod.ts.js:338-342 | The request text starts with `GET ` and ends with CRLF. |
| WsHandshake.HeaderLinesAppend | deno_dir/gen/https/deno.land/std@0.61.0/ws/mod.ts.js:339-341 | The header lines of two lists back to back are those of each list in turn, so each header gives its own line. |
| WsHandshake.BuildRequest | deno_dir/gen/https/deno.land/std@0.61.0/ws/mod.ts.js:338-342 | The loop writes the request line `GET path+search HTTP/1.1`, one `key: value` line per header in order, and a blank line. |
| WsHandshake.NonSpaceRun | deno_dir/gen/https/deno.land/std@0.61.0/ws/mod.ts.js:350 | `\S+` takes the longest whitespace-free prefix. |
| WsHandshake.ParseStatusLine | deno_dir/gen/https/deno.land/std@0.61.0/ws/mod.ts.js:350-355 | When the status line matches, both groups are non-empty. |
| WsHandshake.ParseStatusLineSpec | deno_dir/gen/https/deno.land/std@0.61.0/ws/mod.ts.js:350-355 | A line matches with groups (version, statusCode) exactly when it starts with `version + " " + statusCode + " "` and both are non-empty and free of whitespace. |
| WsHandshake.CheckResponse | deno_dir/gen/https/deno.land/std@0.61.0/ws/mod.ts.js:346-369 | The answer passes exactly when the status line is present, parses, and says HTTP/1.1 101, and the `sec-websocket-accept` header equals the expected token. A missing status line is UnexpectedEof. |
| WsHandshake.AcceptedByClient | deno_dir/gen/https/deno.land/std@0.61.0/ws/mod.ts.js:356-369 | The response of `acceptWebSocket`, after a `HTTP/1.1 101` status line, passes every check of the client that sent the key. |
| WsHandshake.Handshake | deno_dir/gen/https/deno.land/std@0.61.0/ws/mod.ts.js:328-370 | It leaves the caller's headers as the final headers and writes the request text for them. Its verdict is `CheckResponse` against `createSecAccept(key)`. |
| WsHandshake.ConnectTargetChoice | deno_dir/gen/https/deno.land/std@0.61.0/ws/mod.ts.js:375-385 | `http:` and `ws:` use TCP with default port 80, and `https:` and `wss:` use TLS with default port 443. An explicit port is used as given. Any other scheme throws "unsupported protocol". |
| WsHandshake.ConnectWebSocket | deno_dir/gen/https/deno.land/std@0.61.0/ws/mod.ts.js:371-401 | An unsupported scheme throws before connecting and leaves the caller's headers alone. Otherwise it sends the handshake request, leaves the caller's headers as the final headers, and closes the connection exactly when the handshake throws, rethrowing its error. On success it returns an open client socket masking with the given key. |
| Globrex.Globrex | deno_dir/gen/https/deno.land/std@0.61.0/path/_globrex.ts.js:9-239 | The imperative loop, which advances its index inside the body as well, computes the patterns the step function's run describes. |
| Globrex.Add | deno_dir/gen/https/deno.land/std@0.61.0/path/_globrex.ts.js:18-38 | `add` appends to the regex unless `only` is "path". It touches the path outputs only for file paths and unless `only` is "regex", and then writes SEP for a separator string. |
| Globrex.Emit | deno_dir/gen/https/deno.land/std@0.61.0/path/_globrex.ts.js:18-21 | `add(str)` with the default options appends `str` to the regex. |
| Globrex.Anchor | deno_dir/gen/https/deno.land/std@0.61.0/path/_globrex.ts.js:223-228 | Unless the flags contain "g", a pattern is wrapped as `^…$`; with "g" it is unchanged. |
| Globrex.Finish | deno_dir/gen/https/deno.land/std@0.61.0/path/_globrex.ts.js:229-238 | The path patterns are present exactly for file paths. |
| Globrex.StarRunEnd | deno_dir/gen/https/deno.land/std@0.61.0/path/_globrex.ts.js:197-200 | The inner loop stops on the last `*` of the run. |
| Globrex.SkipStars | deno_dir/gen/https/deno.land/std@0.61.0/path/_globrex.ts.js:197-200 | The `while` over the stars ends where `StarRunEnd` says. |
| Globrex.ClassEnd | deno_dir/gen/https/deno.land/std@0.61.0/path/_globrex.ts.js:132-137 | The bounded class-name scan stops at the next `:` or the end of the glob, having passed no `:` on the way. |
| Globrex.ScanClass | deno_dir/gen/https/deno.land/std@0.61.0/path/_globrex.ts.js:133-137 | The scan collects the class name between the colons and stops where `ClassEnd` does. |
| Globrex.PlainChar | deno_dir/gen/https/deno.land/std@0.61.0/path/_globrex.ts.js:43-52 | The branches for escaped characters, separators and other characters do one step of the loop. |
| Globrex.ExtglobChar | deno_dir/gen/https/deno.land/std@0.61.0/path/_globrex.ts.js:53-131 | The branches for `( ) \| + @ ! ?` do one step of the loop. |
| Globrex.BracketChar | deno_dir/gen/https/deno.land/std@0.61.0/path/_globrex.ts.js:132-189 | The branches for `[ ] { } ,` do one step of the loop. |
| Globrex.Stars | deno_dir/gen/https/deno.land/std@0.61.0/path/_globrex.ts.js:190-220 | The branch for `*` does one step of the loop. |
| Globrex.EscapedCharacter | deno_dir/gen/https/deno.land/std@0.61.0/path/_globrex.ts.js:43-46 | `\ $ ^ . =` are always emitted behind a backslash. |
| Globrex.SeparatorCharacter | deno_dir/gen/https/deno.land/std@0.61.0/path/_globrex.ts.js:47-52 | A separator emits SEP, followed by `?` when the next character is a separator and the options are not strict. For file paths it closes the current segment, which is kept (anchored) when non-empty. |
| Globrex.StarRunWithoutGlobstar | deno_dir/gen/https/deno.land/std@0.61.0/path/_globrex.ts.js:190-204 | With globstar off, a whole run of stars emits exactly one `.*`. |
| Globrex.GlobstarRun | deno_dir/gen/https/deno.land/std@0.61.0/path/_globrex.ts.js:205-213 | With globstar on, two or more stars with a separator or an edge of the glob on both sides emit GLOBSTAR and consume the character after the run. |
| Globrex.WildcardRun | deno_dir/gen/https/deno.land/std@0.61.0/path/_globrex.ts.js:214-217 | Any other run of stars emits WILDCARD. |
| Globrex.StarRunOnPath | deno_dir/gen/https/deno.land/std@0.61.0/path/_globrex.ts.js:205-217 | On the path, a globstar emits GLOBSTAR_SEGMENT and closes the segment with it. Any other run adds WILDCARD_SEGMENT to the segment. |
| Globrex.BraceCharacter | deno_dir/gen/https/deno.land/std@0.61.0/path/_globrex.ts.js:164-189 | In extended mode `{` emits `(?:` and opens a group and `}` emits `)` and closes it. `,` is `\|` inside a group and escaped outside one. |
| Globrex.ExtglobOpens | deno_dir/gen/https/deno.land/std@0.61.0/path/_globrex.ts.js:53-59 | `@( *( +( ?(` push their operator onto `ext` and open a group `(?:`. |
| Globrex.NegatedExtglobOpens | deno_dir/gen/https/deno.land/std@0.61.0/path/_globrex.ts.js:101-112 | `!(` pushes `!`, emits `(?!` and consumes the `(` too. Inside a range `!` emits `^`. |
| Globrex.ExtglobCloses | deno_dir/gen/https/deno.land/std@0.61.0/path/_globrex.ts.js:61-75 | `)` with an open extglob pops it and emits `)` then `{1}` for `@`, WILDCARD for `!`, and the operator otherwise. |
| Globrex.StepConsistent | deno_dir/gen/https/deno.land/std@0.61.0/path/_globrex.ts.js:40-222 | Outside extended mode one step opens no extglob, range or group. |
| Globrex.RunConsistent | deno_dir/gen/https/deno.land/std@0.61.0/path/_globrex.ts.js:40-222 | Outside extended mode the whole loop opens no extglob, range or group. |
| Globrex.NonExtendedCharacter | deno_dir/gen/https/deno.land/std@0.61.0/path/_globrex.ts.js:119-189 | In non-extended mode `? [ ] ( ) \| + ! { }` are emitted escaped, `,` is escaped and `@` is copied. |
| Globrex.OrdinaryCharacter | deno_dir/gen/https/deno.land/std@0.61.0/path/_globrex.ts.js:221 | A character no rule handles is appended unchanged. |
| Globrex.LiteralRun | deno_dir/gen/https/deno.land/std@0.61.0/path/_globrex.ts.js:40-222 | From any state, the rest of a glob without glob syntax appends its quoted text to the regex. |
| Globrex.LiteralGlob | deno_dir/gen/https/deno.land/std@0.61.0/path/_globrex.ts.js:40-228 | A glob without glob syntax compiles to its quoted text, anchored unless the flags contain "g". |
| Globrex.ScanAsWrittenAgrees | deno_dir/gen/https/deno.land/std@0.61.0/path/_globrex.ts.js:136-137 | When a closing `:` follows, the scan as written stops where the bounded scan does, with the same name. |
| Globrex.ScanAsWrittenRunsOn | deno_dir/gen/https/deno.land/std@0.61.0/path/_globrex.ts.js:136-137 | When no `:` follows, the scan as written does not stop after any number of passes. |
| Globrex.UnclosedClassName | deno_dir/gen/https/deno.land/std@0.61.0/path/_globrex.ts.js:132-137 | In extended mode, the glob `[[:x` reaches the class scan, which as written never stops; the bounded scan ends at the end of the glob. |
| Cookies.MatchesFieldContent | deno_dir/gen/https/deno.land/x/oak@v6.0.0/cookies.ts.js:2 | `FIELD_CONTENT_REGEXP` matches exactly the non-empty strings of tab, 0x20–0x7E and 0x80–0xFF. |
| Cookies.ValidateProperty | deno_dir/gen/https/deno.land/x/oak@v6.0.0/cookies.ts.js:21-25 | It throws exactly for a non-empty value holding a character outside those ranges, naming the property and the value. |
| Cookies.Initial | deno_dir/gen/https/deno.land/x/oak@v6.0.0/cookies.ts.js:27-41 | Defaults are httpOnly true, overwrite false, path "/", sameSite false and secure false, each overridden by a given attribute. A missing value is "". An empty value forces expires to the epoch and clears maxAge. |
| Cookies.Cookie.constructor | deno_dir/gen/https/deno.land/x/oak@v6.0.0/cookies.ts.js:27-41 | The fields after the constructor's assignments are `Initial`. |
| Cookies.NewCookie | deno_dir/gen/https/deno.land/x/oak@v6.0.0/cookies.ts.js:27-48 | The constructor throws the first failing check's error, in the order name, value, path, domain, sameSite. Otherwise it returns a fresh cookie with the initial fields. |
| Cookies.CheckCookieErrors | deno_dir/gen/https/deno.land/x/oak@v6.0.0/cookies.ts.js:21-48 | The constructor throws only InvalidProperty or InvalidSameSite. |
| Cookies.SameSiteGuard | deno_dir/gen/https/deno.land/x/oak@v6.0.0/cookies.ts.js:44-47 | Once the other fields are valid, it throws exactly for a non-empty `sameSite` string other than lax, none or strict in any case. |
| Cookies.Pair | deno_dir/gen/https/deno.land/x/oak@v6.0.0/cookies.ts.js:74-76 | `name=value`: the name, one `=`, found first when the name has none, then the value. |
| Cookies.Cookie.ToString | deno_dir/gen/https/deno.land/x/oak@v6.0.0/cookies.ts.js:74-76 | `toString()` is the pair of the current fields. |
| Cookies.Cookie.ToHeader | deno_dir/gen/https/deno.land/x/oak@v6.0.0/cookies.ts.js:49-73 | A truthy maxAge resets expires to now + maxAge and nothing else changes. The header is the pair followed by the attribute text of the new fields. |
| Cookies.RenderAttributes | deno_dir/gen/https/deno.land/x/oak@v6.0.0/cookies.ts.js:54-71 | The six `if` blocks produce the attribute text. |
| Cookies.AppendAttribute | deno_dir/gen/https/deno.land/x/oak@v6.0.0/cookies.ts.js:54-71 | Each block appends its attribute's text, which is empty when the field is falsy. |
| Cookies.RenderPresent | deno_dir/gen/https/deno.land/x/oak@v6.0.0/cookies.ts.js:54-71 | The list of present attributes renders to the attribute text. |
| Cookies.PresentMembers | deno_dir/gen/https/deno.land/x/oak@v6.0.0/cookies.ts.js:54-71 | An attribute is listed exactly when its field is truthy, carrying that field's value. |
| Cookies.PresentOrdered | deno_dir/gen/https/deno.land/x/oak@v6.0.0/cookies.ts.js:54-71 | Names in increasing order give attributes in increasing order. |
| Cookies.AttrsInOrder | deno_dir/gen/https/deno.land/x/oak@v6.0.0/cookies.ts.js:49-73 | The header writes path, expires, domain, samesite, secure and httponly in that fixed order, each at most once and exactly when the field is truthy. sameSite true reads `strict` and a string is lower-cased. |
| Cookies.RemoveEntries | deno_dir/gen/https/deno.land/x/oak@v6.0.0/cookies.ts.js:13-17 | The backward splice loop leaves exactly the entries that do not begin with `name=`, in their order. |
| Cookies.KeepMembers | deno_dir/gen/https/deno.land/x/oak@v6.0.0/cookies.ts.js:13-17 | An entry survives exactly when it does not begin with the prefix. |
| Cookies.KeepUnmatched | deno_dir/gen/https/deno.land/x/oak@v6.0.0/cookies.ts.js:13-17 | With no entry beginning with the prefix, the list is unchanged. |
| Cookies.PushCookie | deno_dir/gen/https/deno.land/x/oak@v6.0.0/cookies.ts.js:11-20 | With overwrite, the cookie's old entries are first removed; the list is otherwise kept. The cookie's header is then appended at the end, and the cookie changes only as `toHeader` changes it. |
| Cookies.SignCookie | deno_dir/gen/https/deno.land/x/oak@v6.0.0/cookies.ts.js:192-193 | The cookie's value becomes the signature of its `toString()`, and its name gains `.sig`. |
| Cookies.Set | deno_dir/gen/https/deno.land/x/oak@v6.0.0/cookies.ts.js:173-200 | `set` returns exactly the outcome `SetOutcome` describes. |
| Cookies.BuildAndPush | deno_dir/gen/https/deno.land/x/oak@v6.0.0/cookies.ts.js:185-195 | It builds the cookie, and either passes on the constructor's error or does the pushes. |
| Cookies.PushSetCookies | deno_dir/gen/https/deno.land/x/oak@v6.0.0/cookies.ts.js:186-195 | It sets secure and pushes the cookie. When signing it needs keys, then pushes the signature cookie of the refreshed fields. |
| Cookies.PushSignature | deno_dir/gen/https/deno.land/x/oak@v6.0.0/cookies.ts.js:192-194 | The pushed cookie is turned into its signature cookie and pushed again. |
| Cookies.Delete | deno_dir/gen/https/deno.land/x/oak@v6.0.0/cookies.ts.js:108-111 | `delete(name)` is `set(name, null, options)`. |
| Cookies.SetInsecure | deno_dir/gen/https/deno.land/x/oak@v6.0.0/cookies.ts.js:180-184 | `set` throws the insecure-connection error exactly when `secure: true` is asked for over a connection that is not secure. |
| Cookies.SetErrors | deno_dir/gen/https/deno.land/x/oak@v6.0.0/cookies.ts.js:181-191 | It throws "keys required" exactly when it signs without keys. The constructor's error passes through. It succeeds exactly when no check fails. |
| Cookies.SignatureSpares | deno_dir/gen/https/deno.land/x/oak@v6.0.0/cookies.ts.js:192-194 | The cookie's header does not begin with `name.sig=`, so pushing the signature cookie keeps it. |
| Cookies.SignedAppends | deno_dir/gen/https/deno.land/x/oak@v6.0.0/cookies.ts.js:192-194 | After the signed push, the cookie's header is second to last. The last header begins with `name.sig=` followed by the signature of `name=value`. |
| Cookies.CheckedAppends | deno_dir/gen/https/deno.land/x/oak@v6.0.0/cookies.ts.js:186-195 | The pushes append the cookie's header last. When signing, it is followed by the signature cookie's header. |
| Cookies.SetAppends | deno_dir/gen/https/deno.land/x/oak@v6.0.0/cookies.ts.js:173-200 | On success `set` appends the cookie's header last. When it signs, that header is followed by a second cookie `name.sig` whose value is the signature of `name=value`. |
| Cookies.DeleteExpires | deno_dir/gen/https/deno.land/x/oak@v6.0.0/cookies.ts.js:38-41 | The cookie `delete` writes is `name=` and expires at the epoch whatever maxAge was given. |
| Middleware.FnAt | deno_dir/gen/https/deno.land/x/oak@v6.0.1/middleware.ts.js:9-12 | Only indexes up to the list's length name a function; the one at the length is the outer `next`. |
| Middleware.Dispatcher.constructor | deno_dir/gen/https/deno.land/x/oak@v6.0.1/middleware.ts.js:3 | A composed call's index starts at -1 with nothing entered. |
| Middleware.Dispatcher.Dispatch | deno_dir/gen/https/deno.land/x/oak@v6.0.1/middleware.ts.js:4-17 | `dispatch(i)`'s result, its final index and the functions it enters are those `DispatchOutcome` describes. |
| Middleware.ComposedMiddleware | deno_dir/gen/https/deno.land/x/oak@v6.0.1/middleware.ts.js:1-19 | One call of the composed function is `dispatch(0)` from index -1. |
| Middleware.DispatchFacts | deno_dir/gen/https/deno.land/x/oak@v6.0.1/middleware.ts.js:5-8 | A dispatch with `i <= index` throws "next() called multiple times". A dispatch never lowers the index and one that passes its check records at least `i`, so recorded indexes strictly increase. Functions are entered in increasing index order. |
| Middleware.CallsFacts | deno_dir/gen/https/deno.land/x/oak@v6.0.1/middleware.ts.js:16 | The `next` calls of one function keep its index bounds and the increasing order of the entered functions. |
| Middleware.DoubleNextFails | deno_dir/gen/https/deno.land/x/oak@v6.0.1/middleware.ts.js:5-8 | A function that calls its `next` twice makes the dispatch throw "next() called multiple times". |
| Middleware.OuterNext | deno_dir/gen/https/deno.land/x/oak@v6.0.1/middleware.ts.js:9-15 | `dispatch(middleware.length)` runs the outer `next`, and without one returns at once with no effect. |
| Middleware.ChainRuns | deno_dir/gen/https/deno.land/x/oak@v6.0.1/middleware.ts.js:4-18 | When every function calls `next` once, the chain enters the middleware in array order, then the outer `next`, and succeeds. |
| Middleware.ComposedChainRuns | deno_dir/gen/https/deno.land/x/oak@v6.0.1/middleware.ts.js:1-19 | Such a chain, run by the composed function, enters indexes 0, 1, … in order and succeeds. |

## Left out

- Socket I/O is not modelled: `BufReader`, `BufWriter`, `Deno.connect`, `Deno.connectTls` and `writeResponse`. The connection is the frames handed to `writeFrame` (`written`, whose bytes are `Wire(written)`) and the bytes given to `Receive`. `conn.close()` is counted and assumed not to throw, so the `console.error` path is left out.
- Write failures of the stream itself are not modelled; only the mask check of `writeFrame` can reject a queue entry.
- Promises and `deferred` are sequential steps. `Await` completes writes in queue order. Interleaving the iterator with other senders is not modelled, because the source's order of effects does not depend on it in the cases modelled.
- SHA-1 and base64 (`createSecAccept`) are a function parameter, and UTF-8 `encode`/`decode` are left out: text is carried as its UTF-8 bytes.
- `createMask` and `createSecKey` use randomness; the mask and the key are parameters.
- `readFrame`'s null reads (`assert(b !== null)` and `readFull`) become UnexpectedEof. The iterator treats every read error alike.
- `readLong`'s `Number(l)` is not modelled past 2^53. Lengths are unbounded integers, and the written 64-bit length is taken modulo 2^64.
- The `isWebSocket…Event` type guards test JavaScript values; the `Event` datatype separates the cases instead.
- `closeForce`, `createWebSocket` and the `isClosed` getter have no members of their own: they are `EnsureSocketClosed`, the constructor and the field.
- WsSocket.WebSocket.Send, WsSocket.WebSocket.SendPing: for binary data the source puts the caller's own `Uint8Array` into the queued frame, and a client's `writeFrame` masks it in place when the frame's write starts. The queue holds frames as values, so this sharing is not modelled. The frame written carries the bytes as they were at `send`, whereas the source carries them as they are when the write starts, and the caller's buffer is not left masked. `WsFrame.WriteTwice` shows the effect on one buffer written twice.
- WsSocket.CloseReply, WsSocket.CloseEchoesPayload: the source answers a close frame with `close(code, decode(reason))`, which encodes the decoded text again. `TextDecoder` replaces invalid UTF-8 with U+FFFD and drops a leading byte order mark. The model echoes the reason bytes unchanged, which agrees only for a reason in valid UTF-8 without a leading BOM: `[0x03, 0xE8, 0xFF]` is answered with `[0x03, 0xE8, 0xEF, 0xBF, 0xBD]` in the source. The same decoding applies to text messages and close reasons yielded as events, which the model yields as bytes.
- Casing.Lower: characters above U+00FF other than the Kelvin sign are kept as they are, whereas JavaScript lower-cases them, some to two characters (U+0130). None of them lower-cases into ASCII (`Casing.LowerCharToAscii`), so comparisons with the ASCII words `websocket`, `lax`, `none` and `strict` come out as in the source. The `/i` flag of `SAME_SITE_REGEXP`, without `u`, folds only ASCII onto ASCII, and those words contain no `k`.
- The Deno `Headers` class is not part of this model. Headers are a list of (lower-case name, value) entries in insertion order, where `set` replaces in place.
- `TextProtoReader` (`readLine`, `readMIMEHeader`) and URL parsing are not modelled: the status line, the response headers and the URL's parts are parameters. A URL's port is empty or decimal digits.
- `WsHandshake.Acceptable`: its own contract gives only the direction "acceptable implies both headers present". The full condition is its definition, and the lemma `ClientRequestAcceptable` states it for the headers `handshake` sends.
- `globrex` builds no `RegExp` objects and gives no matching semantics; the patterns are text. `sepPattern` is the predicate `MatchesSep`, the flags are tested only for "g", and `isWindows` is the option `windows`.
- The POSIX class scan as written runs past the end of the glob (see Findings). The model of the loop uses the scan bounded by the end of the glob.
- Dates are milliseconds since the epoch. `Date.now()` is the parameter `now`, used as one instant for both `toHeader` calls of a signed `set`. `toUTCString` is the parameter `utc`.
- The keystore (`keys.sign`, `keys.indexOf`) is left out: signing is the parameter `sign`, and the keys' presence is a flag.
- `Cookies.set` returns the `Set-Cookie` values it appends instead of appending them to response headers. The existing `Set-Cookie` value is a parameter.
- The request side of `Cookies` is left out: `get`, `keys`, `values`, `entries`, `forEach`, the iterator, `#requestKeys`, `getPattern` and `matchCache`.
- `Object.assign` copies only the attributes given: a property explicitly set to `undefined` is not modelled, and neither are non-numeric `maxAge` values.
- A middleware function is abstracted as the number of times it awaits its `next`, one call after the other, letting any error through. Its own work, its use of the context, error handling inside it, and non-awaited or concurrent calls of `next` are not modelled, nor are holes in the middleware array.

## Findings

| source | as written | input that shows it | evidently intended | confidence | as-written member | corrected member |
|---|---|---|---|---|---|---|
| deno_dir/gen/https/deno.land/std@0.61.0/path/_globrex.ts.js:136 | `while (glob[++i] !== ":")` has no bound. Past the end of the glob `glob[i]` is `undefined`, never `:`, so without a closing `:` the loop runs on, appending "undefined" until the string outgrows memory. | `globrex("[[:x", { extended: true })` | The class-name scan stops at the end of the glob. | not executed | Globrex.UnclosedClassName | Globrex.ClassEnd |
