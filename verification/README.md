# resp3: a Redis Streams producer and consumer speaking RESP3

The repository provides two Node.js object streams over raw TCP sockets to a
Redis server that speaks protocol version 3 (RESP3):

- `RedisWritableStream` (resp3/writable.js) is the producer. Every object
  written to it becomes an `XADD <stream> * <field> <value> ...` command,
  encoded as a RESP array of blob strings. Objects written while the socket is
  still connecting are held back and flushed, in order, once the server has
  answered the HELLO handshake.
- `RedisReadableStream` (resp3/readable.js) is the consumer. It runs a
  connection sequence (HELLO, `CLIENT ID`, `XGROUP CREATE ... MKSTREAM`), then
  reads one entry at a time with `XREADGROUP ... BLOCK 0 COUNT 1`. Its
  `_transform` turns each reply into a plain record: it drops every `$<len>`
  line, checks a fixed line offset for the shape, pairs the fields, and
  decodes values that look like JSON.

The model has five modules:

- `Text`: the JavaScript string operations the code relies on. These are
  `split`/`join` on CR LF and on spaces, `parseInt` of digit runs, `${n}`,
  the string comparison `>`, `.length` (UTF-16 code units) and
  `Buffer.byteLength` (UTF-8 bytes).
- `Protocol`: what both endpoints share. This covers the credentials they
  keep, the socket's life, the inline HELLO and QUIT lines, and the `-ERR`
  test.
- `Readable`: the consumer's commands, its `CLIENT ID` parse, the decoder as
  a chain of functions with lemmas, and the class `ConsumerStream`. The class
  holds the fields the event handlers update: socket, handshake phase, client
  id, `autoReconnect`, deferred reads, whether the stream was destroyed or is
  stuck after a throw, and everything written, pushed and emitted.
- `Writable`: the `XADD` argument list, its encoding, and the class
  `ProducerStream` with its offline queue.
- `RoundTrip`: what the consumer's decoder makes of what the producer's
  encoder writes, and of the reply the store sends for such an entry.

Behaviours of the code that the lemmas pin down:

- The HELLO template closes the password with a stray `}`, so `}` is sent as
  part of the password (`Protocol.HelloWords`).
- The decoder compares a blob's declared length, which is the byte length the
  store sends, with the JavaScript `.length` of the next line. Any non-ASCII
  value therefore raises a spurious "Wrong length" error, although the record
  is still delivered (`RoundTrip.DecodeStoreReply`, `Text.ByteLengthVersusLength`).
  In Node that first complaint also makes the pipe let go of the socket, so
  no later entry is transformed; the model does not follow this (see
  "Left out").
- A string field value that contains CR LF is split by the consumer into
  extra lines, so the decoded record no longer matches what was written. The
  producer sends the correct byte length, but the decoder compares it line by
  line. `RoundTrip.WriteThenRead` therefore covers only values without CR LF.
- The marker filter drops any line shaped like `$<digits>`, including a field
  value such as `"$1"`. It then checks the length of the line after it. An
  entry `{key: "$1"}` reaches the consumer as `{key: ""}`, with one complaint
  (`RoundTrip.MarkerShapedValueIsLost`).
- A marker as the last line of a chunk makes the filter read `.length` of
  `undefined` and throw a TypeError that nothing catches. It leaves the
  socket's `'data'` emit, so the `'data'` listeners registered after the
  pipe's are skipped for that chunk: after the `XGROUP` reply, the
  `once('data')` listener that starts the reads stays armed for the next
  chunk (`Readable.ConsumerStream.OnGroupReply`). By default Node then ends
  the process. The model follows a process that survives it: only the
  complaints raised before the throw are emitted, and the callback is never
  invoked. The write that the transform was serving never completes, so the
  stream never calls `_transform` again and every later chunk is lost
  (`Readable.ConsumerStream.Transform`, `Readable.ConsumerStream.OnPipedData`).
  A chunk ending in CR LF cannot do this (`Readable.TerminatedChunkNeverThrows`).
- The code does not guarantee at most one read in flight. The consumer's
  sequence can send every read deferred during connection, and then one more
  read after the `XGROUP` reply (`Readable.ConsumerStream.OnClientIdReply`,
  `Readable.ConsumerStream.OnGroupReply`). The model follows the code.

`JSON.parse` and `JSON.stringify` are parameters of the model:
`parse: string -> Option<J>` is `None` where the parse throws, and
`stringify: J -> string`.

## Model

| member | source | states |
|---|---|---|
| Protocol.HelloWords | resp3/readable.js:81-85 | `Hello` applied to `CredentialsOf`, which gives the credentials both constructors keep by the password test (resp3/readable.js:54-57). The producer writes the same line (resp3/writable.js:59-63). With a non-empty password, and a username and password without space, CR or LF, the HELLO line is the single CR LF-terminated line `HELLO 3 AUTH <username> <password>}`, stray `}` included. Without a password, or with the empty one JavaScript takes as false, it is `HELLO 3`, whatever the username. |
| Protocol.InlineCommandOf | resp3/readable.js:81-85 | Bare words joined by spaces and terminated by CR LF form exactly one line, and splitting that line at spaces gives the words back. |
| Protocol.ErrorReplyMessage | resp3/readable.js:69-72 | `ErrorReply`: an `-ERR <text>` chunk yields the error message `<text>` with its CR LF. A chunk that does not start with `-ERR` yields no error. |
| Readable.GroupCreateWords | resp3/readable.js:98-102 | `GroupCreate`: for names without space, CR or LF, the group is created with the words `XGROUP CREATE <stream> <group> $ MKSTREAM` on one line. |
| Readable.ReadRequestWords | resp3/readable.js:119-124 | `ReadRequest`: for names without space, CR or LF, the read is `XREADGROUP GROUP <group> <consumer> BLOCK 0 COUNT 1 STREAMS <stream> >` on one line: one entry, no timeout, only entries never delivered. |
| Readable.UnblockWords | resp3/readable.js:199 | `Unblock`: `CLIENT UNBLOCK <id>` is one line of three words whose last word is the id in decimal, which parses back to the id. |
| Readable.ClientIdRoundTrip | resp3/readable.js:90-94 | `ParseClientId`: a reply `:` then a run of digits (leading zeros allowed) then a non-digit or nothing yields the digits' value, so `:<n>` yields `n`. A reply yields an id exactly when it is `:` followed by a digit; any other reply, `:` alone and `:x` included, yields none (`NaN`). |
| Readable.DropMarkersSpec | resp3/readable.js:147-157 | `DropMarkers`: the filter throws exactly when the last line is a marker. Otherwise it keeps exactly the non-marker lines, in order. It complains about a marker exactly when the next line's JavaScript length differs from the declared length, and every complaint comes from such a marker. The complaints are exactly one per such marker, in the markers' order. |
| Readable.DropMarkersInOrder | resp3/readable.js:147-157 | The complaints are, in order, one for each marker whose next line has another JavaScript length, taken in increasing position. The enumeration of those positions is strictly increasing and holds every such marker. |
| Readable.DropMarkersThrows | resp3/readable.js:151 | The filter throws exactly when the last line is a marker. |
| Readable.DropMarkersKeeps | resp3/readable.js:147-157 | When the filter does not throw, it keeps the lines that are not markers, in order. |
| Readable.DropMarkersComplete | resp3/readable.js:151-155 | Each marker whose next line has another JavaScript length produces its complaint. |
| Readable.DropMarkersSound | resp3/readable.js:151-155 | Each complaint names a marker whose next line has another JavaScript length. |
| Readable.TerminatedChunkNeverThrows | resp3/readable.js:147-157 | A chunk ending in CR LF has an empty last line, so the filter never throws on it. |
| Readable.OurEntryIff | resp3/readable.js:160-166 | `IsOurEntry`: a chunk is taken exactly when line 1 is the stream's name and line 5 is `*<digits>` with digits other than `0`, so `*00` is taken. `FieldList`: the field list is the lines after that header, as many as it counts or as many as there are. |
| Readable.Pairs | resp3/readable.js:168-171 | The field list gives one pair per even index, in order. The last key of an odd-length list has no value. |
| Readable.PairUp | resp3/readable.js:168-171 | The accumulating loop of the `reduce` produces exactly `Pairs` of the list. |
| Readable.LooksLikeJsonIff | resp3/readable.js:174 | `/^\s*(\{\|\[)/` holds exactly when the first character that is not JavaScript whitespace opens an object or an array. |
| Readable.TryDecodeSpec | resp3/readable.js:173-180 | `TryDecode`: a missing value stays `undefined`. A value becomes its parse exactly when its first character that is not whitespace opens an object or an array and the parse succeeds. Otherwise it stays the same string. |
| Readable.FromEntriesLastWins | resp3/readable.js:164-181 | `FromEntries`: the keys of `Object.fromEntries` are exactly the entries' keys, and a key whose entry is not repeated later maps to that entry's value. |
| Readable.FromEntriesKeys | resp3/readable.js:164-181 | The keys of `Object.fromEntries` are exactly the entries' keys. |
| Readable.FromEntriesValues | resp3/readable.js:164-181 | A key not repeated by a later entry maps to its own entry's value. |
| Readable.RecordFromFieldList | resp3/readable.js:163-181 | The record's keys are exactly the keys at even indices of the field list. A key not repeated later maps to its decoded next value. |
| Readable.RecordKeys | resp3/readable.js:163-181 | The record's keys are exactly the keys at even indices of the field list. |
| Readable.RecordValues | resp3/readable.js:163-181 | A key not repeated later maps to its decoded next value. |
| Readable.DecodeSpec | resp3/readable.js:147-184 | `Decode`: the decoder throws, with no record, exactly when the chunk's last line is a marker. Otherwise a record comes out exactly when the lines that are not markers have the shape of this stream's entry, and it is built from their field list. |
| Readable.ConsumerStream.constructor | resp3/readable.js:31-58 | Credentials are kept only for a non-empty password. The socket starts connecting with `autoReconnect` on and nothing sent, pushed or emitted. |
| Readable.ConsumerStream.OnReady | resp3/readable.js:78-85 | On `'ready'` the HELLO line is written and the sequence waits for its reply. |
| Readable.ConsumerStream.ReadMore | resp3/readable.js:113-126 | With `autoReconnect` off nothing happens. While connecting, one more read is deferred to `'connect'`. Otherwise one read request is written. |
| Readable.ConsumerStream.EmitConnect | resp3/readable.js:106 | `'connect'` runs every deferred `_readMore`, writing one read request each while `autoReconnect` is on, and leaves none deferred. |
| Readable.ConsumerStream.Transform | resp3/readable.js:128-186 | One chunk pushes the decoded record, if any, and then asks for the next read, and the callback is invoked once. When the filter throws, only the complaints raised before the throw are emitted, nothing is pushed, the callback is never invoked and the stream is left stuck. |
| Readable.ConsumerStream.OnPipedData | resp3/readable.js:105 | A chunk reaches `_transform` through the pipe only while no earlier call threw and the stream is not destroyed. Otherwise nothing is pushed, emitted or written and no callback is invoked. |
| Readable.ConsumerStream.PushAndReadMore | resp3/readable.js:182-183 | The record is pushed, then `_readMore` runs. |
| Readable.ConsumerStream.OnData | resp3/readable.js:69-72 | Every chunk is tested for `-ERR` first. Then the handler armed by the connection sequence runs: the replies to HELLO and `CLIENT ID` invoke no transform callback, and after that each chunk goes to the transform through the pipe. A throw on the `XGROUP` reply leaves the read listener armed, so the next chunk starts the reads. |
| Readable.ConsumerStream.OnHelloReply | resp3/readable.js:86-89 | The reply to HELLO makes the client ask for its id. |
| Readable.ConsumerStream.OnClientIdReply | resp3/readable.js:90-106 | The reply to `CLIENT ID` sets the client id, writes `XGROUP CREATE`, and then releases every deferred read on `'connect'`. |
| Readable.ConsumerStream.OnGroupReply | resp3/readable.js:105-109 | The reply to `XGROUP CREATE` reaches the transform, through the pipe, and then the `once('data')` listener, so it sends one or two read requests and streaming starts. When the transform throws on it, the listener is skipped: nothing is sent, and the sequence keeps waiting for the next chunk. |
| Readable.ConsumerStream.OnEnd | resp3/readable.js:75-77 | On `'end'` a fresh connecting socket replaces the old one only while `autoReconnect` is on. |
| Readable.ConsumerStream.Destroy | resp3/readable.js:188-204 | On a stream already destroyed nothing happens. Otherwise the stream is destroyed and `autoReconnect` turned off. Unless the socket is already destroyed, `CLIENT UNBLOCK <id>` is produced when the id is an integer, and the shutdown race starts. |
| Readable.ConsumerStream.FinishShutdown | resp3/readable.js:207-216 | When the race settles, QUIT is written. The race waits only for `'data'`, `'error'` and `'timeout'`, so it can resolve only while the socket is open or connecting, never after its `'end'`. The socket is left open for the server to close, because `super.destroy()` is the stream's own destroy, already under way. |
| Writable.FieldArgs | resp3/writable.js:89-92 | Entry `i` contributes its key at `2i` and its value at `2i + 1`. A string is sent as it is, anything else as `JSON.stringify` of it. |
| Writable.XaddLayout | resp3/writable.js:85-101 | `XaddArgs` and `EncodeXadd`: the arguments are `XADD`, the stream, `*`, then each entry's key and value in order. The encoding is `*<3 + 2n>` CR LF followed by one blob string per argument. |
| Writable.BlobLines | resp3/writable.js:98 | Each argument becomes the line `$<byte length>` followed by the argument. |
| Writable.JoinBlobLines | resp3/writable.js:94-101 | Joining the blob lines and a final empty line gives `$<len> CR LF <arg> CR LF` for each argument. |
| Writable.EncodeLayout | resp3/writable.js:94-101 | `EncodeCommand`: the encoding is `*<argument count> CR LF` followed by one blob string per argument, and it ends with CR LF. |
| Writable.EncodeLines | resp3/writable.js:94-101 | When no argument contains CR LF, splitting the encoding gives back the header, the blob lines and the empty last line, `2 + 2n` parts. |
| Writable.Encodings | resp3/writable.js:85-101 | A batch of objects is encoded one object per command, in order. |
| Writable.ProducerStream.constructor | resp3/writable.js:27-45 | Credentials are kept only for a non-empty password. The socket starts connecting, nothing is held back and nothing is written. |
| Writable.ProducerStream.Write | resp3/writable.js:78-104 | While the socket is connecting, or an object is already held back, the object joins the queue. Otherwise its `XADD` encoding is pushed. |
| Writable.ProducerStream.OnConnect | resp3/writable.js:53-64 | On `'connect'` the HELLO line is written. |
| Writable.ProducerStream.OnData | resp3/writable.js:65-70 | The first chunk on a socket announces `'connect'` and flushes every held-back object in order. Every chunk is tested for `-ERR`. A pending `_destroy` destroys the socket. |
| Writable.ProducerStream.AnnounceConnect | resp3/writable.js:65 | The held-back objects are pushed as their encodings, in order, and the queue empties. |
| Writable.ProducerStream.OnEnd | resp3/writable.js:73-75 | On `'end'` a fresh connecting socket replaces the old one only while `autoReconnect` is on. |
| Writable.ProducerStream.Destroy | resp3/writable.js:106-118 | `autoReconnect` is turned off. A socket that is still writable is ended with QUIT, and the next chunk destroys it. |
| Text.JoinSplit | resp3/readable.js:147 | Joining the parts of a split at CR LF gives the input back. |
| Text.SplitJoin | resp3/writable.js:94-101 | Splitting a join of parts free of CR LF gives the parts back. |
| Text.SplitPartsHaveNoCrlf | resp3/readable.js:147 | No part of a split at CR LF contains CR LF. |
| Text.SplitAppendCrlf | resp3/readable.js:147 | A trailing CR LF adds exactly one empty last part. |
| Text.SplitJoinWords | resp3/readable.js:81-85 | Splitting a space-join of bare words at spaces gives the words back. |
| Text.DecimalRoundTrip | resp3/writable.js:96-98 | `${n}` is a run of digits with no leading zero, and `parseInt` of it gives `n` back. |
| Text.LeadingDigitsOf | resp3/readable.js:92 | `\d+` consumes exactly the digits before the first non-digit. |
| Text.DigitsAboveZero | resp3/readable.js:162 | For a run of digits, the string comparison `> '0'` holds exactly when the digits are not `"0"`. |
| Text.ByteLengthVersusLength | resp3/writable.js:98 | The byte length is at least the JavaScript length, and equals it exactly for ASCII text. |
| RoundTrip.DropMarkersAppend | resp3/readable.js:147-157 | Filtering a chunk on which the filter does not throw, followed by more lines, is filtering each part in turn. |
| RoundTrip.YieldsBlob | resp3/writable.js:98 | The filter keeps the payload of one blob string, and complains exactly when the payload is not ASCII. |
| RoundTrip.YieldsBlobLines | resp3/writable.js:94-101 | The filter keeps exactly the arguments of a run of blob strings, and complains exactly when some argument is not ASCII. |
| RoundTrip.ReaderRecoversArguments | resp3/writable.js:94-101 | Decoding the markers of an encoded command recovers the array header, the arguments and the empty last line. This holds when no argument contains CR LF or looks like a marker. A complaint is raised exactly when an argument is not ASCII. |
| RoundTrip.ReplyLinesSplit | resp3/readable.js:130-144 | The store's reply for one entry splits back into its RESP3 lines. |
| RoundTrip.ReplyLinesFilter | resp3/readable.js:147-157 | On such a reply the filter keeps `%1`, the stream, `*1`, `*2`, the id, `*<field count>`, the fields and `""`. It complains exactly when a name, the id or a field is not ASCII. |
| RoundTrip.ReplyEntryShape | resp3/readable.js:160-166 | Line 5 of the kept lines is `*<field count>`. The entry is taken exactly when the stream name matches and the entry has fields, and then the field list is the entry's fields. |
| RoundTrip.ArrayHeaderCount | resp3/readable.js:160-163 | `*<n>` matches the array header with count `n`, and passes `> '0'` exactly when `n > 0`. |
| RoundTrip.DecodeStoreReply | resp3/readable.js:128-186 | The store's reply for an entry of this stream decodes without throwing to the record of its fields, with complaints exactly for non-ASCII text. An entry with no fields, or of another stream, gives no record. |
| RoundTrip.WriteThenRead | resp3/writable.js:85-101 | For an object written by the producer, whose arguments hold no CR LF and no marker shape, the consumer receives a record with exactly the object's keys. Each key not repeated later maps to the decoded value that was sent. A string that does not look like JSON comes back as itself, and one that does and parses comes back parsed. A non-string whose stringified text looks like JSON, and which `JSON.parse` gives back, comes back as that value. |
| RoundTrip.RecordKeysOfEntries | resp3/readable.js:164-181 | The keys of the record read back are exactly the written object's keys. |
| RoundTrip.RecordValueOfEntry | resp3/readable.js:164-181 | A key not repeated later maps to its value as sent, passed through the JSON test and parse. |
| RoundTrip.MarkerShapedValueFiltered | resp3/readable.js:147-157 | In the reply for `{key: "$1"}` the value is taken for a marker. Its payload becomes the empty last line, with one complaint. |
| RoundTrip.MarkerShapedValueIsLost | resp3/readable.js:147-181 | An entry `{key: "$1"}` reaches the consumer as `{key: ""}`, with the complaint that `""` is not 1 long. |

## Left out

- Sockets, TCP, host and port, DNS and the OS are left out. The socket's events (`'ready'`, `'connect'`, `'data'`, `'end'`) are method calls, and what the code writes or pushes is recorded in sequences.
- `setImmediate` timing and Node's stream machinery are left out: backpressure, high-water marks, `pipe`, and `objectMode` buffering. A callback deferred with `setImmediate` is counted as invoked.
- The second connection that `_destroy` of the consumer opens to send `CLIENT UNBLOCK` and QUIT is left out: `Destroy` returns the command instead.
- `Promise.race` in the consumer's `_destroy` is left out, together with its `'timeout'` and rejection paths. It is the `FinishShutdown` transition.
- Readable.ConsumerStream.OnData and Writable.ProducerStream.OnData assume that the user listens for `'error'` on each stream. Without a listener, `this.emit('error', …)` on an `-ERR` reply throws `ERR_UNHANDLED_ERROR` out of the socket's `'data'` emit (resp3/readable.js:69-71, resp3/writable.js:67-70), and the `'data'` listeners registered after it are skipped. In the consumer's handshake, before the pipe adds its own listener, the awaited `once(socket, 'data')` is then skipped and the handshake stalls. In the producer, `this.pipe(socket)` listens on the socket, not on the producer, so every `-ERR` reply throws and skips the `once('data')` of `_destroy` (resp3/writable.js:116). The model records the error and goes on, and the producer's socket is still destroyed.
- The `'error'` events re-emitted from the sockets are left out; only `-ERR` replies and the decoder's complaints are recorded.
- What Node's `pipe` (resp3/readable.js:105) does with the consumer's own `'error'` events is left out. The pipe unpipes the socket on the first `'error'` the consumer emits, either an `-ERR` reply or a wrong length (resp3/readable.js:71, 152). With no other listener, the consumer is then destroyed. The model keeps the pipe, so later chunks still reach the transform.
- The `end: true` default of that `pipe` is left out. It ends the consumer when the first socket emits `'end'`, so after a reconnect the new socket is piped into an ended stream whose writes fail. The model lets the new socket's chunks reach the transform.
- JSON is left out: `JSON.parse` and `JSON.stringify` are parameters. A `stringify` returning `undefined` is left out. The source gives `undefined` for a function value, for `undefined` and for a Symbol, so for `{a: undefined}` `Buffer.byteLength(undefined)` throws in the producer's `_transform` (resp3/writable.js:98). The model's `stringify` always returns a string and encodes such an object.
- `JSON.stringify` throwing, for a BigInt or a cyclic value, is left out because `stringify` is total. In the source the producer's `_transform` would throw on such an object, while the model encodes it.
- The order in which `Object.entries` lists an object's keys is left out, because an object is taken as its sequence of entries.
- The `username = 'default'` default (resp3/readable.js:42, resp3/writable.js:32) is left out: the username is a constructor parameter, and omitting it is passing `"default"`.
- The default consumer group and consumer name, hashes of the host name, the user and the time, are left out; they are constructor parameters.
- Readable.ParseClientId: the id is an unbounded natural, so the loss of precision of `parseInt` beyond 2^53 is not modelled.
- Writable.ProducerStream.Write: requires the stream not to be destroyed. A write after `destroy()`, which Node rejects with an error event, is not modelled.
- Readable.ConsumerStream.Transform: the uncaught TypeError of a throwing chunk is not modelled as ending the process, which is Node's default. The model continues as a process with an `'uncaughtException'` handler would, with later `-ERR` tests, reconnects and `destroy()`.
- Names are interpolated into the commands unescaped. A name holding a space, CR or LF changes the words or the lines sent; the lemmas about the commands cover only names without them.
- Lone surrogates are left out. A JavaScript string may hold them, and `Buffer.byteLength` counts 3 bytes for each where `.length` counts 1. A Dafny `string` holds only Unicode scalar values, so such strings are not represented.
- `_transform`'s `encoding` argument is left out, because both sockets are set to UTF-8 and the streams are in object mode.
