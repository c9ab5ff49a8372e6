# Streaming chat: the record stream and the client session, in Dafny

The application is a small chat front end for OpenAI completions. The
server route `POST /api/chat/stream` turns the model's text chunks into a
`text/event-stream` body. Each chunk becomes one record,
`data: {"content": <chunk>, "is_final": false}` followed by a blank line,
and the body closes with a sentinel record whose `is_final` is true. The
browser's `ChatApp`:
- sends the trimmed input together with the whole history;
- reads the response body chunk by chunk;
- splits each chunk on `"\n\n"`;
- appends the content of every non-final `data:` record to `fullResponse`;
- repaints the reply bubble with the whole text;
- at end of stream, commits a non-empty reply to the history;
- resets the session on every terminal path.

The model has seven modules:

- `Json` (json.dfy): the payload `{content, is_final}`.
  - `Encode` is `json.dumps` with Python's defaults: `", "` and `": "`
    separators, and `ensure_ascii`, i.e. short escapes, lower-case
    `\uXXXX`, and surrogate pairs above U+FFFF.
  - `Decode` is `JSON.parse` restricted to that object shape.
  - Proved: `Decode(Encode(p)) == Some(p)` for every payload, and the
    encoding is printable ASCII, so it never holds a newline.
- `EventStream` (event_stream.dfy): `String.prototype.split("\n\n")` as
  `Split`, with its inverse `Join`, and the facts about splitting that the
  round trip needs.
- `ChatRoute` (chat_route.dfy): `event_generator` as a loop method,
  proved against the recursive specification `Emitted`.
- `ChatClient` (chat_client.dfy): `ChatApp` as a class.
  - Its fields are those of the source. Ghost fields stand in for the
    page: `view`, the chat bubbles; `inputEnabled`, the input box and
    button; `currentAiMessageElement`, the index of the reply bubble.
  - `Valid()` is the session invariant. An idle session holds no stream
    handle, no reply bubble and no partial text. The input is enabled
    exactly when the session is idle. History entries are never empty.
  - The read loop and the per-chunk loop over segments are `while`/`for`
    loops, proved against the functions `ChunkText`, `StreamText`,
    `AnyApplied` and `StreamApplied`.
- `RoundTrip` (round_trip.dfy): the server body fed to the client parser.
  - Splitting the body gives exactly the record bodies plus one empty
    piece.
  - Whether the body arrives in one read or one read per record, the
    client accumulates exactly the concatenation of the server's chunks.
  - `HelloSession` is the session "Hi" answered by "Hel" and "lo", which
    ends with the history `[user "Hi", assistant "Hello"]`.
- `Wrappers` (`Option`) and `SeqFacts` (regrouping of concatenations) are
  support modules.

The transport is a parameter. `Reply` is either a refused request (an HTTP
status or a network error) or a sequence of already-decoded text chunks
with an end: `Done`, or `ReadError` for a failed read.

Two details of the client code that the model keeps:
- On a failed or non-OK `fetch`, the error text goes into a *new*
  assistant bubble (app/static/js/chat.js:77). The typing placeholder is
  not replaced and stays on the page (`OnFetchFailed`).
- `TextDecoder` is called without `{stream: true}` (app/static/js/chat.js:84,
  100), so each chunk is decoded on its own. Multi-byte safety across reads
  is not claimed. Chunks are given as text.

## Model

| member | source | states |
|---|---|---|
| Json.Hex4RoundTrip | app/routes/chat.py:25-26 | the four lower-case hex digits of a `\uXXXX` escape read back as the code unit they encode |
| Json.EscapeCharParses | app/routes/chat.py:25-26 | parsing the escape of any character (short escape, plain ASCII, `\u` escape or surrogate pair) yields that character and leaves the following text |
| Json.EscapeStringRoundTrip | app/routes/chat.py:25-26 | the string parser reads an escaped string up to its closing quote as exactly the original string, and returns the text after the quote |
| Json.EscapeCharPrintable | app/routes/chat.py:25-26 | every character's escape is non-empty printable ASCII (`ensure_ascii`) |
| Json.EscapeString | app/routes/chat.py:25-26 | the escaped body of a string is printable ASCII |
| Json.EncodePrintable | app/routes/chat.py:25-26 | the encoded payload is printable ASCII, so it contains no newline |
| Json.DecodeEncode | app/static/js/chat.js:106 | parsing what the server encoded yields exactly the payload, content and flag both |
| Json.Encode | app/routes/chat.py:25-26 | `json.dumps` of `{'content': …, 'is_final': …}` with Python's default separators and `ensure_ascii`; its properties are stated by Json.EncodePrintable and Json.DecodeEncode |
| Json.Decode | app/static/js/chat.js:106 | `JSON.parse` of a payload text, `None` when it does not parse; its round trip with Json.Encode is Json.DecodeEncode |
| EventStream.Split | app/static/js/chat.js:101 | splitting yields at least one piece, and the first piece is a prefix of the chunk |
| EventStream.SplitJoin | app/static/js/chat.js:101 | joining the split pieces with `"\n\n"` gives the chunk back |
| EventStream.SplitPiecesHaveNoSeparator | app/static/js/chat.js:101 | no piece of a split contains `"\n\n"` |
| EventStream.SplitAfterRecord | app/static/js/chat.js:101 | a newline-free text followed by `"\n\n"` splits off as the first piece, and the rest splits on its own |
| EventStream.SplitTakesLeftmost | app/static/js/chat.js:101 | every piece but the last is followed by the separator at the earliest place: it does not end with a newline, so with Split's other lemmas the pieces are determined |
| ChatRoute.RecordBody | app/routes/chat.py:25-26 | the `data: <json>` line of a record; its properties are stated by ChatRoute.RecordBodyNoNewline and ChatRoute.RecordBodyDecodes |
| ChatRoute.Record | app/routes/chat.py:25-26 | the line followed by the blank line; its framing is ChatRoute.RecordFramed |
| ChatRoute.Emitted | app/routes/chat.py:17-29 | the records the generator yields, the specification of ChatRoute.EventGenerator; its shape is ChatRoute.EmittedShape and ChatRoute.EmittedFramed |
| ChatRoute.RecordBodyNoNewline | app/routes/chat.py:25-26 | a record's `data: <json>` line holds no newline |
| ChatRoute.RecordBodyDecodes | app/routes/chat.py:25-26 | a record line starts with `data: ` and the rest decodes to the payload it was made from |
| ChatRoute.RecordFramed | app/routes/chat.py:25-26 | a record starts with `data: ` and ends with `"\n\n"` |
| ChatRoute.EventGenerator | app/routes/chat.py:15-29 | the loop yields exactly the records of the specification (one per chunk, in order, then the sentinel), and `full_response` ends as the concatenation of the chunks |
| ChatRoute.EmittedShape | app/routes/chat.py:17-29 | n chunks give n + 1 records: record i is chunk i with `is_final` false, and the last is the sentinel `{'content': '', 'is_final': True}` |
| ChatRoute.EmittedFramed | app/routes/chat.py:25-29 | every yielded record starts with `data: ` and ends with `"\n\n"` |
| ChatClient.TrimStart | app/static/js/chat.js:30 | the start of `String.prototype.trim`; its meaning is ChatClient.TrimStartShape |
| ChatClient.TrimEnd | app/static/js/chat.js:30 | the end of `String.prototype.trim`; its meaning is ChatClient.TrimEndShape |
| ChatClient.Trim | app/static/js/chat.js:30 | `messageInput.value.trim()`; characterised by ChatClient.TrimIsInfix (all leading and all trailing whitespace removed, the rest kept), with ChatClient.TrimStartShape, ChatClient.TrimEndShape and ChatClient.TrimEmptyIff |
| ChatClient.TrimStartShape | app/static/js/chat.js:30 | trimming the start drops exactly a leading run of whitespace and stops at the first other character |
| ChatClient.TrimEndShape | app/static/js/chat.js:30 | trimming the end drops exactly a trailing run of whitespace and stops at the last other character |
| ChatClient.TrimEmptyIff | app/static/js/chat.js:30-32 | the trimmed input is empty if and only if every character is ECMAScript whitespace |
| ChatClient.TrimIsInfix | app/static/js/chat.js:30 | the trimmed input is the infix of the input between a whitespace prefix and a whitespace suffix, and a non-empty result starts and ends with a non-whitespace character, so the dropped runs are the longest ones |
| ChatClient.SkippedSegmentDoesNotBlock | app/static/js/chat.js:104-127 | a segment that is final, lacks `data: ` or fails to parse adds nothing, and the segments after it still add theirs |
| ChatClient.Fragment | app/static/js/chat.js:104-112 | the three tests on one segment (the `data: ` prefix, `JSON.parse` of the rest, `is_final` false) and the content it then adds; stated by ChatClient.SkippedSegmentDoesNotBlock, RoundTrip.DataRecordApplies and RoundTrip.FinalRecordSkipped |
| ChatClient.NothingAppliedNothingAdded | app/static/js/chat.js:103-129 | a chunk none of whose segments applies leaves `fullResponse` unchanged |
| ChatClient.DecimalDigits | app/static/js/chat.js:69 | `${response.status}` is a non-empty run of decimal digits that denotes the status (read back by `DecimalValue`), with no leading zero (so for 0 it is exactly `0`) |
| ChatClient.ErrorText | app/static/js/chat.js:69-77 | the error bubble's text, `Ошибка: ` and the error's message: `HTTP error! status: ` and the status in decimal (ChatClient.DecimalDigits), or the network error's message; shown by ChatClient.ChatApp.OnFetchFailed |
| ChatClient.ChatApp.Valid | app/static/js/chat.js:4-5 | the session invariant: an idle session holds no stream handle, no reply bubble and no partial text, so the `close()` branch at chat.js:51-53 is dead; the input is enabled exactly when idle; every method below requires and keeps it |
| ChatClient.ChatApp.constructor | app/static/js/chat.js:2-9 | a new session is idle and valid, with an empty history and an empty page |
| ChatClient.ChatApp.SendMessage | app/static/js/chat.js:28-53 | the send is ignored, and nothing changes, exactly when the trimmed input is empty or a stream is running. Otherwise: one user entry with the trimmed text is appended and earlier entries are kept; the request carries the new history, `gpt-3.5-turbo` and 1000 tokens; the session leaves idle; the input is disabled; the page gains the user bubble and the typing placeholder. The `close()` of an old stream is provably unreachable |
| ChatClient.ChatApp.OnFetchFailed | app/static/js/chat.js:68-78 | a non-OK status or a failed fetch adds an assistant bubble reading `Ошибка: ` and the message, leaves the history unchanged and resets |
| ChatClient.ChatApp.OnStreamOpened | app/static/js/chat.js:72-73 | the stream handle is stored and `fullResponse` is cleared before any chunk is read |
| ChatClient.ChatApp.ApplySegment | app/static/js/chat.js:104-127 | a segment appends its content exactly when it starts with `data: `, parses and is not final; the reply bubble then shows the whole `fullResponse`, as a replacement and not an append |
| ChatClient.ChatApp.ProcessChunk | app/static/js/chat.js:100-129 | one chunk grows `fullResponse` by exactly the in-order contents of its applying segments; the bubble shows the whole text if any applied, and is unchanged otherwise |
| ChatClient.ChatApp.ReadNext | app/static/js/chat.js:88-130 | one more read keeps the accumulated text equal to the text of all chunks so far, and the bubble equal to the whole text once anything applied |
| ChatClient.ChatApp.ConsumeStream | app/static/js/chat.js:86-135 | after the reads, a normal end appends one assistant entry with the whole reply if and only if it is non-empty; a read error appends nothing; either way the session ends idle with input enabled |
| ChatClient.ChatApp.ResetInput | app/static/js/chat.js:163-171 | the session becomes idle with input enabled, no handles and empty `fullResponse`, and history and page are untouched |
| ChatClient.ChatApp.Exchange | app/static/js/chat.js:28-80 | a whole accepted turn ends idle, with the user entry and then at most one assistant entry (only for a stream that ends normally with text) appended to the history; a refused send changes nothing |
| ChatClient.ResetInputTwice | app/static/js/chat.js:163-171 | resetting twice leaves the state the first reset left (idempotence) |
| RoundTrip.DataRecordApplies | app/static/js/chat.js:104-112 | the client takes from a data record exactly the chunk the server put in it |
| RoundTrip.FinalRecordSkipped | app/static/js/chat.js:108-110 | a record with `is_final` true adds nothing, whatever its content |
| RoundTrip.WireSplits | app/routes/chat.py:25-29 | splitting the whole response body on `"\n\n"` yields exactly the record lines, in order, plus one empty piece |
| RoundTrip.BodiesYieldChunks | app/static/js/chat.js:103-112 | the record lines of a response contribute exactly the concatenation of the server's chunks |
| RoundTrip.WholeResponseInOneChunk | app/static/js/chat.js:100-112 | a whole response read as one chunk adds exactly the concatenation of the server's chunks |
| RoundTrip.WholeResponseAsStream | app/static/js/chat.js:88-112 | the same, for the read loop over a one-chunk stream |
| RoundTrip.RecordAlone | app/static/js/chat.js:100-112 | a record read as a chunk of its own adds what its line adds |
| RoundTrip.OneRecordPerChunk | app/static/js/chat.js:88-112 | a response read one record per chunk also adds exactly the concatenation of the server's chunks |
| RoundTrip.ServedTurn | app/routes/chat.py:15-29 | a turn answered by the generator commits exactly the generated text to the history (no assistant entry when it is empty), in either chunking |
| RoundTrip.HelloExample | app/routes/chat.py:17-29 | the chunks "Hel" and "lo", sent with the sentinel and read in one chunk, give "Hello" |
| RoundTrip.HelloSession | app/static/js/chat.js:28-112 | a fresh session that sends "Hi" and gets "Hel", "lo" ends idle with the history [user "Hi", assistant "Hello"] |

## Left out

- Transport: `fetch`, `response.ok` and the `ReadableStream` reader are not modelled. The reply is a parameter: a refusal, or a given sequence of chunks with a normal end or a read error.
- `TextDecoder`: chunks are already-decoded text. Bytes, and multi-byte characters cut between reads, are not modelled.
- `reader.cancel()`: the `close` handle is never called. The only call site is proved unreachable, so the handle is an opaque `EventSource` value.
- Asynchronous scheduling: `processStream` runs sequentially after the send is accepted. The one ordering detail that matters, `fullResponse = ''` before the first chunk, is kept (`OnStreamOpened`).
- DOM: bubbles are a ghost sequence of (role, text); the input box and button are one ghost flag. Clearing the input box on an accepted send (`messageInput.value = ''`, app/static/js/chat.js:34) is not modelled: the box's text is not state of the model, only the value passed to `SendMessage`. CSS classes, focus, scrolling, event listeners, `handleKeyPress` and the global wrappers are UI and not modelled; `handleKeyPress` gates on `isStreaming`, as `sendMessage` does.
- `console.error` and `console.warn` logging: no effect on state.
- Json.Decode: accepts only the shape the server writes, `{"content": <string>, "is_final": <bool>}` in that key order with JSON whitespace between tokens. Other texts `JSON.parse` accepts are treated as parse failures: other key orders, extra keys, missing fields, non-boolean flags. In JavaScript a missing `content` would append "undefined".
- Json.ParseEscape: a lone surrogate `\u` escape is rejected, because a Dafny `char` is a Unicode scalar value. `JSON.parse` accepts it. The model's chunks are Dafny strings of Unicode scalar values, so the modelled server writes no such escape; a real chunk holding a lone surrogate, which `json.dumps` would write as a `\udXXX` escape, is outside the model.
- `fullResponse` is undefined in JavaScript before the first accepted send; the model starts it at "". The two agree once a stream opens.
- `temperature: 0.7`: a floating-point constant passed through to OpenAI; the request models only the messages, the model name and `max_tokens`.
- Records cut across chunk boundaries: the per-chunk split is modelled as written. No general drop or survive property is stated for cut records, because a cut just before `"\n\n"` still parses.
- Errors raised inside `event_generator` while streaming, the `HTTPException` path, `chat_normal`, `health_check`, the OpenAI service, the FastAPI app setup and the pydantic schemas have no logic to model here.
- `full_response` in the generator is computed but never used by the route; the model returns it so its value can be stated.
