# ESP-01 AT-command bridge: a Dafny model

The bridge drives an ESP-01 Wi-Fi modem over a serial port and uses it to
speak a minimal MQTT to a broker on the local network. A console task reads
lines from standard input. Each line either goes straight to the modem (an
AT command with CR LF, or raw bytes when it ends in `~`) or becomes an event
on a channel. A single event loop takes events off the channel and runs the
handler registered for the event's kind. The six handlers move one shared
protocol state between `Ready`, `WaitingConnectAck`, `Connected` and
`WaitingPublishAck`. They write AT commands and three hand-built frames
(CONNECT, PUBLISH and DISCONNECT, after sections 3.1, 3.3 and 3.14 of MQTT
3.1.1) to the port, and spawn workers that poll the shared read buffer for
the modem's `OK`.

The model has one module per concern:

- `Text` holds the string and byte primitives the source borrows from the
  Rust standard library. These are `trim`, `split(':')`,
  `split_whitespace`, `contains`, UTF-8 `as_bytes`, radix digits and
  `format!("{}", n)`.
- `Wifi` holds the states, the event kinds, `Event` and its string form.
- `AckWait` is the read buffer and the workers' poll loop. The bytes the
  modem delivers and whether each poll's blocking `lock()` returns `Ok`
  form an oracle: a sequence of `Poll`s, one per iteration.
- `Utils` holds `parse_bytes` and `wait_for_msg_on_buffer`.
- `Frames` holds the AT commands and the frame encoders, with decoders
  that read the frames back.
- `EventHandlers` holds the six handlers. Each is a step function on a
  `Config`: the state, the buffer, and the log of port writes. Each is
  also a method of the `Engine` class, proved equal to its step function.
- `Dispatch` is the registry, `on` and `start`.
- `Bridge` is `register_event_handlers` and whole-protocol scenarios.
- `UserInput` is the classifier chain of the console task and the task's
  loop over a finite list of lines.

## Model

| member | source | states |
|---|---|---|
| Wifi.EventString | src/lib.rs:35-39 | `String::from(event)`: the kind's `Debug` name, `: ` and the data; `EventStringRoundTrip` and `EventStringInjective` state what it preserves |
| Wifi.KindNameShape | src/lib.rs:35-39 | each kind's `Debug` name is colon-free and names that kind and no other |
| Wifi.EventStringRoundTrip | src/lib.rs:35-39 | the `"<Kind>: <data>"` form of an event reads back to the same kind and data |
| Wifi.EventStringInjective | src/lib.rs:35-39 | distinct events have distinct string forms |
| Wifi.ConfigureEventString | src/lib.rs:35-39 | a configure event with empty data prints as `Configure: ` |
| Text.CharUtf8 | src/user_input.rs:108 | each character encodes to 1 to 4 bytes: one byte, its own code, exactly for ASCII, and bytes of 0x80 and above otherwise |
| Text.Utf8Append | src/user_input.rs:108 | encoding a concatenation is concatenating the encodings |
| Text.Utf8Length | src/event_handlers.rs:159-160 | `len()` counts bytes: the encoding is at least as long as the text, and exactly as long when the text is ASCII |
| Text.ContainsAt | src/utils.rs:24 | `contains` holds exactly when the pattern occurs at some position |
| Text.SplitOn | src/event_handlers.rs:147 | `split(':')` gives at least one piece, and every piece is colon-free |
| Text.JoinSplitOn | src/event_handlers.rs:147 | joining the pieces of a split with the separator restores the text |
| Text.SplitOnJoin | src/event_handlers.rs:147 | splitting a join of separator-free fields gives the fields back |
| Text.TrimStart | src/user_input.rs:29 | the result is a suffix of the input and starts with no white space |
| Text.TrimEnd | src/user_input.rs:29 | the result is a prefix of the input and ends with no white space |
| Text.TrimIdempotent | src/user_input.rs:29 | trimming a trimmed line changes nothing |
| Text.SplitWhitespace | src/utils.rs:7 | the tokens are non-empty and hold no white space |
| Text.SplitWhitespaceBlank | src/utils.rs:7 | blank text has no tokens |
| Text.SplitWhitespaceJoin | src/utils.rs:7 | tokens joined by single spaces split back into the same tokens |
| Text.SplitWhitespaceRuns | src/utils.rs:7 | the tokens are the maximal white-space-free runs of the text in order: the text is the tokens with white-space gaps between them, every inner gap non-empty |
| Text.SplitWhitespaceUnique | src/utils.rs:7 | conversely, any text laid out that way from non-empty white-space-free tokens splits into exactly those tokens |
| Text.DigitsShape | src/utils.rs:9 | a numeral written in base 2..36 is non-empty and has no white space |
| Text.DigitsRoundTrip | src/utils.rs:9 | reading a numeral written in any base 2..36 gives its value back |
| AckWait.FirstHitFrom | src/event_handlers.rs:106-122 | the first iteration that holds the lock and sees the marker, and no earlier one |
| AckWait.SeenGrows | src/event_handlers.rs:107-122 | between clears, the text a worker sees only grows |
| AckWait.HitPersists | src/event_handlers.rs:107-122 | once the marker is in the buffer, every later locked poll sees it |
| AckWait.NoMarkerTimesOut | src/event_handlers.rs:106-122 | when the marker never reached the buffer by the last poll, the wait times out |
| AckWait.MarkerSeenSucceeds | src/event_handlers.rs:106-122 | a locked poll that sees the marker ends the wait, at that poll or earlier |
| AckWait.WorkerWait | src/event_handlers.rs:105-122 | a worker's loop succeeds exactly when some poll within budget + 1 sees `OK`; the buffer ends as that poll left it |
| Utils.ParseU8 | src/utils.rs:9 | `u8::from_str_radix`: an optional leading `+`, then digits below the radix, with a value of at most 255; `ParseU8Digits` and `ParseBytesRejectsOverflow` state it |
| Utils.ParseBytes | src/utils.rs:5-12 | `parse_bytes`: the tokens of `split_whitespace` parsed in order; `ParseTokens` (with `Text.SplitWhitespaceRuns`), `ParseBytesBlank` and `ParseBytesRoundTrip` state it |
| Utils.ParseTokens | src/utils.rs:8-11 | Ok exactly when every token is a valid `u8` numeral, with one byte per token in order; an error names the first invalid token |
| Utils.ParseBytesBlank | src/utils.rs:5-12 | an empty or blank line parses to no bytes, not to an error |
| Utils.ParseU8Digits | src/utils.rs:9 | every byte's numeral in base 2..36 parses back to that byte |
| Utils.ParseBytesRoundTrip | src/utils.rs:5-12 | bytes written as space-separated numerals parse back to the same bytes |
| Utils.ParseBytesRejectsOverflow | src/utils.rs:9 | `100` in base 16 is too large for a byte, and the error names that token |
| Utils.WaitForMsgOnBuffer | src/utils.rs:14-34 | clears the buffer, then succeeds exactly when one of 1002 polls holds the lock and sees the message; otherwise it reports a timeout |
| Frames.CipStart | src/event_handlers.rs:52 | the socket command for a host; `CipStartText` gives its text |
| Frames.CipSend | src/event_handlers.rs:181 | the prime for `n` bytes; `CipSendText` gives its text |
| Frames.Ate0Text | src/event_handlers.rs:18 | the echo-off command is the bytes of `ATE0\r\n` |
| Frames.CipCloseText | src/event_handlers.rs:38 | the close command is the bytes of `AT+CIPCLOSE\r\n` |
| Frames.CipStartText | src/event_handlers.rs:52 | the socket command is the bytes of `AT+CIPSTART="TCP","192.168.0.<host>",1883\r\n` |
| Frames.CipSendText | src/event_handlers.rs:181 | the prime for `n` bytes is the bytes of `AT+CIPSEND=<n in decimal>\r\n` |
| Frames.CipSendTwoText | src/event_handlers.rs:234 | the acknowledgment prime is the bytes of `AT+CIPSEND=2\r\n` |
| Frames.ConnectFrame | src/event_handlers.rs:92 | the 21 CONNECT bytes the connect handler writes; `ConnectFrameLayout` decodes them |
| Frames.ConnectFrameLayout | src/event_handlers.rs:82-92 | CONNECT is 21 bytes; its remaining length covers the rest; it decodes to protocol `MQTT`, level 4, flags 0x02, keep-alive 60, client `client1` |
| Frames.ConnectPrimeText | src/event_handlers.rs:92-95 | the connect prime is the bytes of `AT+CIPSEND=21\r\n` |
| Frames.PublishFields | src/event_handlers.rs:147-157 | fields 1 and 2 of the request's split on `:`, with defaults `/test/topic` and `hello`; `PublishFieldsOfJoin` and `PublishFieldsDefaults` state it |
| Frames.PublishPayload | src/event_handlers.rs:147-175 | the bytes of topic and message; `PublishPayloadEncodes` ties it to `PublishFields` |
| Frames.DefaultTopicText | src/event_handlers.rs:149-152 | the default topic bytes are the encoding of `/test/topic` |
| Frames.DefaultMessageText | src/event_handlers.rs:154-157 | the default message bytes are the encoding of `hello` |
| Frames.PublishPayloadEncodes | src/event_handlers.rs:147-175 | the published bytes are the encodings of fields 1 and 2 of the request, or of their defaults |
| Frames.RemainingLength | src/event_handlers.rs:170 | the clamped `u8` sum plus 2, or a panic on overflow; `RemainingLengthRange` states when each happens |
| Frames.PublishHeader | src/event_handlers.rs:168-173 | the four header bytes; `PublishHeaderBytes` states them |
| Frames.PublishFrame | src/event_handlers.rs:168-177 | the header followed by topic and message; `PublishRoundTrip` decodes it |
| Frames.RemainingLengthRange | src/event_handlers.rs:170 | the `u8` length byte exists exactly when topic and message total at most 253 bytes, and is then that total plus 2 |
| Frames.PublishHeaderBytes | src/event_handlers.rs:168-173 | when it does not overflow, the header is `30, total + 2, 00, topic length` |
| Frames.PublishRoundTrip | src/event_handlers.rs:168-177 | the PUBLISH frame is 4 bytes longer than topic and message and decodes back to them |
| Frames.PublishRemainingLengthConformant | src/event_handlers.rs:168-177 | the length byte is a single-byte remaining length (below 128) exactly when topic and message total at most 125 bytes |
| Frames.DefaultPublishFrame | src/event_handlers.rs:162-177 | the frame for `/test/topic` and `hello` fits, begins `30 12 00 0B` and is 20 bytes long |
| Frames.PublishFieldsOfJoin | src/event_handlers.rs:147-157 | for `<x>:<topic>:<message>:...` with colon-free fields, the topic and message are the second and third fields |
| Frames.PublishPayloadOfJoin | src/event_handlers.rs:147-175 | the payload of such a request is the encoded topic and message |
| Frames.PublishFieldsDefaults | src/event_handlers.rs:149-157 | a request with no colon gets the default topic and message; with one colon it gets the given topic and the default message |
| Frames.DisconnectPrime | src/event_handlers.rs:234-261 | the literal prime `AT+CIPSEND=2` announces exactly DISCONNECT's length, and DISCONNECT's remaining length is 0 |
| EventHandlers.ConfigureStep | src/event_handlers.rs:15-24 | the configure handler's effect; `ConfigureKeepsState` states it |
| EventHandlers.ResetStep | src/event_handlers.rs:28-44 | the reset handler's effect; `ResetFromAnyState` states it |
| EventHandlers.ConnectRequestStep | src/event_handlers.rs:48-71 | the connect-request handler's effect; `ConnectRequestOutcome` states it |
| EventHandlers.ConnAckStep | src/event_handlers.rs:75-136 | the connect-acknowledgment handler and its worker; `ConnAckOutcome` and `TimeoutWritesNoFrame` state it |
| EventHandlers.PublishStep | src/event_handlers.rs:140-223 | the publish handler and its worker; `PublishOutcome`, `PublishWritesRequest` and `TimeoutWritesNoFrame` state it |
| EventHandlers.AckReceivedStep | src/event_handlers.rs:227-273 | the acknowledgment handler and its worker: gated on `WaitingPublishAck`, always writes `AT+CIPSEND=2`, then DISCONNECT only after a written prime and `OK`; `AckReceivedOutcome` and `TimeoutWritesNoFrame` state it |
| EventHandlers.Step | src/event_handlers.rs:15-273 | the registered closure for each handler; `Gating`, `WritesAppend`, `FramesAnnounced` and `CoreStatesClosed` state it for every handler |
| EventHandlers.Gating | src/event_handlers.rs:15-271 | a handler with a required state changes nothing exactly when it is called in another state |
| EventHandlers.WritesAppend | src/event_handlers.rs:15-271 | a handler keeps everything already written and adds at most two writes |
| EventHandlers.ConfigureKeepsState | src/event_handlers.rs:15-24 | configure never changes state or buffer; in `Ready` it writes `ATE0` |
| EventHandlers.ResetFromAnyState | src/event_handlers.rs:28-44 | from any state, reset clears the buffer, writes DISCONNECT then `AT+CIPCLOSE`, and ends `Ready` |
| EventHandlers.ConnectRequestOutcome | src/event_handlers.rs:48-71 | from `Ready`: writes the socket command for the event's host and clears the buffer; ends `WaitingConnectAck` exactly when the write succeeded, and `Ready` otherwise |
| EventHandlers.ConnAckOutcome | src/event_handlers.rs:75-136 | ends `Connected` exactly when the prime was written and the worker saw `OK`, and `Ready` otherwise; CONNECT follows the prime exactly then |
| EventHandlers.PublishOutcome | src/event_handlers.rs:140-223 | panics exactly when topic and message exceed 253 bytes; otherwise ends `WaitingPublishAck` exactly when the worker saw `OK`, and `Ready` otherwise |
| EventHandlers.PublishWritesRequest | src/event_handlers.rs:159-214 | when the worker sees `OK`, the prime announces the frame's length and the frame decodes to the request's topic and message |
| EventHandlers.AckReceivedOutcome | src/event_handlers.rs:227-273 | stays `WaitingPublishAck` exactly when the prime write failed, and ends `Ready` otherwise; the log gains `AT+CIPSEND=2` and DISCONNECT exactly when the prime was written and the worker saw `OK`, and `AT+CIPSEND=2` alone on every other path |
| EventHandlers.FramesAnnounced | src/event_handlers.rs:95-261 | whenever a handler writes a frame after its prime, the prime announces the frame's exact length |
| EventHandlers.TimeoutWritesNoFrame | src/event_handlers.rs:106-122 | no `OK` in the buffer by the last poll means `Ready` and no frame; `OK` seen by a locked last poll means the frame is written |
| EventHandlers.CoreStatesClosed | src/event_handlers.rs:15-271 | the handlers only ever set `Ready`, `WaitingConnectAck`, `Connected` and `WaitingPublishAck` |
| EventHandlers.Engine.Write | src/event_handlers.rs:18 | a `write` on the port: the bytes are logged as attempted, the result is the oracle's, and the state is kept |
| EventHandlers.Engine.Configure | src/event_handlers.rs:15-24 | the configure handler on the shared state and port does what `ConfigureStep` says |
| EventHandlers.Engine.Reset | src/event_handlers.rs:28-44 | the reset handler does what `ResetStep` says |
| EventHandlers.Engine.PublishConnectRequest | src/event_handlers.rs:48-71 | the connect-request handler does what `ConnectRequestStep` says |
| EventHandlers.Engine.ConnAck | src/event_handlers.rs:75-136 | the connect-acknowledgment handler and its worker do what `ConnAckStep` says |
| EventHandlers.Engine.Publish | src/event_handlers.rs:140-223 | the publish handler and its worker do what `PublishStep` says, including the overflow panic |
| EventHandlers.Engine.AckReceived | src/event_handlers.rs:227-273 | the acknowledgment handler and its worker do what `AckReceivedStep` says |
| EventHandlers.Engine.Handle | src/event_loop.rs:60-63 | calling the registered closure is one step of that handler |
| Dispatch.Deliver | src/event_loop.rs:56-69 | one turn of the loop: a failed receive, a busy registry or an unregistered kind changes nothing, otherwise the handler runs; `DroppedEvents` states it |
| Dispatch.Run | src/event_loop.rs:54-71 | the loop over the deliveries in order, ended by a handler panic; `RunAppend`, `RunKeepsCore` and `RunKeepsWrites` state it |
| Dispatch.RunAppend | src/event_loop.rs:54-71 | the loop over two batches is the loop over the first, then over the second unless a handler panicked |
| Dispatch.DroppedEvents | src/event_loop.rs:59-63 | an event that meets a busy registry or has no handler is dropped and changes nothing |
| Dispatch.RunKeepsCore | src/event_loop.rs:54-71 | started in a core state, the loop only reaches core states |
| Dispatch.RunKeepsWrites | src/event_loop.rs:54-71 | the port log only grows over the loop |
| Dispatch.EventLoop.constructor | src/event_loop.rs:45-52 | a new loop has an empty registry |
| Dispatch.EventLoop.On | src/event_loop.rs:73-80 | registers the handler for its kind, replacing any earlier one and keeping the others |
| Dispatch.EventLoop.Start | src/event_loop.rs:54-71 | the loop's final state and panic flag are those of `Run` over the deliveries |
| Bridge.RegisterEventHandlers | src/event_handlers.rs:8-275 | installs the six handlers over the registry |
| Bridge.StandardRegistry | src/event_handlers.rs:8-275 | exactly the kinds other than `Close` and `Timeout` get a handler, each the one written for that kind |
| Bridge.CloseAndTimeoutIgnored | src/event_loop.rs:59-63 | `Close` and `Timeout` events change nothing in any state |
| Bridge.UnlistedPairsNoop | src/event_handlers.rs:15-271 | every non-`Reset` event arriving outside its handler's state changes nothing |
| Bridge.StandardRunsStayCore | src/event_loop.rs:54-71 | with the standard registry, the loop only reaches core states |
| Bridge.ConnectScenario | src/event_handlers.rs:48-71 | a request for host `243` from `Ready` opens the socket to `192.168.0.243` and waits for the connect acknowledgment |
| Bridge.ConnAckScenario | src/event_handlers.rs:75-136 | an immediate `OK` after a written prime leads to CONNECT and `Connected` |
| Bridge.PublishTimeoutScenario | src/event_handlers.rs:181-222 | with no `OK`, a publish writes only its prime and falls back to `Ready` |
| UserInput.Classify | src/user_input.rs:29-108 | the first-match chain on the trimmed line (`~`, `configure`, `start`, `reset`, `con`, `msg`, `close`, `full`, otherwise an AT command); the lemmas below state each branch |
| UserInput.FullMacro | src/user_input.rs:69-106 | the `full` macro with defaults `243`, `/home` and `heLLOAS`; `FullMacroFields` and `FullLine` state it |
| UserInput.Payload | src/user_input.rs:32-109 | the bytes a line writes: its parsed numerals, or its text with CR LF; `RawRoundTrip` and `CommandPayload` state it |
| UserInput.ClassifyTrimmed | src/user_input.rs:29 | only the trimmed line matters |
| UserInput.TildeBeforeKeywords | src/user_input.rs:32-36 | the `~` test comes first: `reset~` is a raw-byte line that fails to parse |
| UserInput.ResetIsNotNumerals | src/user_input.rs:34-35 | `reset` is not a line of base-16 numerals |
| UserInput.RawRoundTrip | src/user_input.rs:32-36 | bytes written as numerals and followed by `~` are sent as exactly those bytes |
| UserInput.ConfigureKeyword | src/user_input.rs:38-40 | `configure` sends a configure event with empty data |
| UserInput.StartPrefixDefaultsHost | src/user_input.rs:41-48 | every `start...` line with no `:` (such as `starter`) requests host `243` |
| UserInput.StartLine | src/user_input.rs:41-48 | `start:<host>` sends a connect request for that host |
| UserInput.ClassifyStart | src/user_input.rs:41-48 | a `start` line sends a connect request for field 1, or for `243` |
| UserInput.ResetKeyword | src/user_input.rs:49-51 | `reset` sends a reset event |
| UserInput.ConPrefixClaimsLongerWord | src/user_input.rs:38-54 | the exact-keyword test for `configure` does not catch `configure now`, which the `con` prefix claims as a connect acknowledgment |
| UserInput.ClassifyCon | src/user_input.rs:52-54 | every line starting with `con`, other than `configure` and `~` lines, is a connect acknowledgment carrying the trimmed line |
| UserInput.MsgLine | src/user_input.rs:55-64 | `msg:<topic>:<message>` sends a publish whose payload is that topic and message |
| UserInput.ClassifyMsg | src/user_input.rs:55-64 | a `msg` line sends a publish with the text after `msg` |
| UserInput.CloseKeyword | src/user_input.rs:65-67 | `close` sends a close event |
| UserInput.FullLine | src/user_input.rs:69-106 | `full:<host>:<topic>:<message>` requests the connect, then waits for `CONNECT`, `SEND OK` and `SEND OK`, sending the acknowledgment, the publish and the close |
| UserInput.FullMacroFields | src/user_input.rs:72-105 | the script's host, topic and message are fields 1 to 3 of the line |
| UserInput.ClassifyFull | src/user_input.rs:69-106 | a `full` line not claimed earlier runs the macro |
| UserInput.CommandLines | src/user_input.rs:107-108 | any other line, the empty line included, is an AT command of the trimmed text |
| UserInput.CommandPayload | src/user_input.rs:108 | an AT command is written as its encoded text followed by CR LF |
| UserInput.Session | src/user_input.rs:22-125 | the task over the lines in order, stopping at the first failed parse or write; `StoppedStays`, `BadLineEndsTask`, `PayloadLine` and `SessionGrows` state it |
| UserInput.Feed | src/user_input.rs:32-124 | one line: an event or macro is sent with nothing written; a built payload is logged exactly and the task stops with a write failure exactly when the port rejects it; the task stops on a parse error exactly for a bad `~` line |
| UserInput.StoppedStays | src/user_input.rs:34-35 | once the task has ended, later lines change nothing |
| UserInput.BadLineEndsTask | src/user_input.rs:34-35 | a bad `~` line ends the task with nothing written or sent for it |
| UserInput.PayloadLine | src/user_input.rs:111-124 | a running line with a built payload writes exactly that payload; a rejected write ends the task, and later lines are not read |
| UserInput.SessionGrows | src/user_input.rs:111-124 | each line writes at most once and sends at most one event |
| UserInput.InputTask | src/user_input.rs:22-125 | the task's loop (classify, send the event or build and write the payload, stop on a parse error or a failed write) is `Session` |

## Left out

- Threads, the channel's blocking and the sleeps are not modelled. A spawned worker runs to completion right after its handler, as one step, and the sleeps between polls have no effect on the model.
- The port reader in `src/main.rs` and `src/port_input.rs` is not part of this model. What it puts into the read buffer is the `Poll` oracle.
- Lock poisoning is modelled only in the poll loops, and loosely. There, a `lock()` that returns `Err` (a poisoned buffer mutex) is the oracle's `locked == false`, allowed at any poll independently of the others, although a real poisoned mutex stays poisoned. Every other blocking `lock()` (the buffer clears, `on`, the shared state) is taken to succeed. The registry's `try_lock` in `start` is the delivery's `registryBusy` flag.
- The shared state's `get` and `change_to` are a plain read and overwrite of one field.
- `try_clone` and `flush` are taken to succeed. A failed `try_clone` at registration, or a flush error in the console task, is not modelled.
- A write either succeeds or fails, as the oracle says; partial writes are not modelled.
- Console output (`println!`) is not modelled.
- The command-line arguments other than the radix are not modelled.
- Standard input is a finite list of lines. End of input and read errors are not modelled.
- The radix must lie in 2..36 (`requires`), because `from_str_radix` panics outside that range.
- The two copies of the event types disagree. The model takes the event kinds from `src/event_loop.rs:9-19` (which has `Reset`), and the states and the two-argument handlers from `src/lib.rs`.
- `Close` and `Timeout` have no registered handler, so the loop drops them.
- UserInput.FullLine: the macro's waits are recorded as the reply each one awaits and the event it sends, not run. Their four-argument form of `wait_for_msg_on_buffer` is not in `src/utils.rs`.
- Utils.ParseTokens: the error is the offending token; `ErrorText` gives the formatted message.
- EventHandlers.PublishOutcome: a topic and message over 253 bytes make the `u8` addition overflow. The model treats this as a panic, as in a debug build, and the panic ends the event loop; the wrap-around of a release build is not modelled.
- UserInput.Feed: a parse error ending the task stands for the `?` return of an error, and a failed port write stands for the `break`.
- Bridge.PublishTimeoutScenario: stated for any request whose payload is known, not for one literal request.
- EventHandlers.Engine.Publish: the written log is ghost. The method's contract ties the log to `PublishStep`, rather than to the bytes on a real port.
