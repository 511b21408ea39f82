# txapns in Dafny

A model of the Twisted client for Apple's legacy push notification service in
the `txapns` package:

- the binary wire codec, `txapns/encoding.py`:
  - `encode_notifications` packs (hex token, JSON payload) pairs into
    "simple notification" frames (command 0).
  - `decode_feedback` splits the feedback stream into 38-byte
    (timestamp, token) records.
- the connection logic, `txapns/apns.py`:
  - `APNSService.write` creates the `APNSClientFactory` on first use and
    connects to the gateway.
  - Writes issued while no connection is live are queued as deferreds,
    each guarded by a timeout call.
  - The factory's `addClient` and `removeClient` fire or drop that queue.
  - Reconnection resets the factory's back-off.
  - `APNSService.read` opens a one-shot feedback connection. Its
    `APNSFeedbackHandler` accumulates raw bytes until the peer closes.
- the payload builder, `txapns/payload.py`:
  - `PayloadAlert.dict` and `Payload.dict` assemble the `aps` dictionary.
  - A payload is rejected at construction when its JSON is longer than 256
    bytes.

Modules:

- `Wrappers`: `Option` and `Result`.
- `Bytes`:
  - the `struct` integer fields `!H` and `!l`
  - `hexlify` and `decode('hex')`
- `Values`:
  - the Python values that reach the codec
  - their truth test
  - `int()`
- `Encoding`: `encoding.py`, with a frame reader as the inverse of the
  encoder.
- `Deferreds`: a Twisted `Deferred` together with the timeout call and the
  `cancel_timeout` callback that `write` and `read` attach to it. It is a
  state machine (`Step`), and a class whose methods follow it.
- `Apns`: the classes of `apns.py` as Dafny classes. The reactor becomes
  methods the environment calls:
  - a connection is made, lost or fails
  - a timeout elapses
  - data arrives
- `Payloads`: `payload.py`.

`json.dumps(..., separators=(',',':'), ensure_ascii=False).encode('utf-8')`
is the function parameter `dumps` of the codec and of the payload builder.

Behaviour of the code that a reader might not expect, each stated in the
model:

- `decode_feedback` unpacks every 38-byte slice with `struct.unpack`, so a
  stream that ends in a partial record raises `struct.error`
  (txapns/encoding.py:51-56, `Encoding.DecodeFeedback`).
- Token and notification lists of unequal length are truncated to the
  shorter one, as `zip` does. Any other combination of argument types falls
  through every branch and returns `None` (txapns/encoding.py:40-44,
  `Encoding.EncodeListsTruncates`, `Encoding.EncodeNotifications`).
- On connection loss, `removeClient` drops the queued deferreds without
  resolving them. Their timeout calls stay scheduled, so each one still
  times out later (`Apns.ClientFactory.RemoveClient`).
- A feedback timeout fails the deferred but does not close the connection.
  The later `connectionLost` then raises `AlreadyCalledError`
  (`Apns.FeedbackHandler.ConnectionLost`).
- `clientConnectionLost` and `clientConnectionFailed` both retry through
  `ReconnectingClientFactory`: the factory reconnects by itself
  (`Apns.Service.ConnectionLost`, `Apns.Service.ConnectionFailed`).

## Model

| member | source | states |
|---|---|---|
| Bytes.U16 | txapns/encoding.py:37-38 | the two-byte big-endian field `!H` has length 2 and reads back as `n` |
| Bytes.ReadU16 | txapns/encoding.py:37-38 | a two-byte field always reads as a value below 65536 |
| Bytes.ReadI32 | txapns/encoding.py:51-55 | `!l` reads a signed 32-bit value, negative exactly when the top bit of the first byte is set |
| Bytes.I32 | txapns/encoding.py:51-55 | the four bytes written for a signed 32-bit value read back as that value |
| Bytes.I32OfReadI32 | txapns/encoding.py:51-55 | reading four bytes and writing the value back gives the same four bytes |
| Bytes.HexDigit | txapns/encoding.py:54 | `hexlify` writes a lower-case digit, and that digit decodes to its nibble |
| Bytes.HexValue | txapns/encoding.py:39 | a digit decodes to a nibble below 16 |
| Bytes.HexEncode | txapns/encoding.py:54 | `hexlify` writes two characters per byte |
| Bytes.HexEncodeDigits | txapns/encoding.py:54 | characters `2i` and `2i+1` are the high and low nibble digits of byte `i` |
| Bytes.HexRoundTrip | txapns/encoding.py:39 | `decode('hex')` of `hexlify(b)` is `b` |
| Bytes.HexDecode | txapns/encoding.py:39 | a decoded text gives one byte per two digits, the first byte being the value of the first two digits |
| Bytes.HexDecodeSucceedsIff | txapns/encoding.py:39 | `decode('hex')` succeeds if and only if the text has even length and only hex digits, in either case |
| Bytes.HexDecodeThenEncode | txapns/encoding.py:39 | a decoded token has half as many bytes as digits, and hexlifying it gives the text folded to lower case |
| Values.Truthy | txapns/payload.py:46-53 | a value tests false exactly when it is `None`, `False`, `0`, or the empty string, list or dict |
| Values.ParseInt | txapns/payload.py:91 | `int()` on text accepts only an integer literal: white space, an optional sign, white space, at least one decimal digit, white space; the result is the signed value of the digits |
| Values.ParseIntAccepts | txapns/payload.py:91 | every such literal is accepted, with its signed value, so `' -5 '`, `'+7'` and `'- 5'` convert and `'5a'` or `''` do not |
| Values.ParseIntAt | txapns/payload.py:91 | the same acceptance stated on the positions of the sign and the digits in the text |
| Values.ParseIntNeedsDigit | txapns/payload.py:91 | text without any decimal digit is rejected |
| Values.IntOf | txapns/payload.py:91 | `int()` keeps an integer, maps booleans to 1 and 0, fails on `None`, lists and dicts, and parses text as above |
| Values.DecimalText | txapns/payload.py:91 | the decimal text of a natural number is a non-empty string of digits |
| Values.DecimalTextValue | txapns/payload.py:91 | those digits denote the number |
| Values.ParseDecimalText | txapns/payload.py:91 | `int(str(n)) == n` |
| Encoding.FitTo | txapns/encoding.py:38 | the format `32s` pads a token with zero bytes, or cuts it, to exactly 32 bytes |
| Encoding.Frame | txapns/encoding.py:37-38 | packing succeeds if and only if the payload is shorter than 65536 bytes; the frame is command 0, then 32, the token, the payload length and the payload; otherwise the error carries the length |
| Encoding.TokenBytes | txapns/encoding.py:39 | a token decodes if and only if it is a string of paired hex digits; its bytes hexlify back to the token in lower case |
| Encoding.EncodePair | txapns/encoding.py:38-43 | one pair packs exactly when its token decodes and its JSON fits the length field; a bad token is reported before a long payload |
| Encoding.Zip | txapns/encoding.py:44 | `zip` pairs elements up to the shorter length, keeping positions |
| Encoding.EncodeAll | txapns/encoding.py:43-44 | a failed batch reports the error of one of its pairs; a batch that encodes begins with the frame of its first pair |
| Encoding.EncodeAllSucceedsIff | txapns/encoding.py:43-44 | a batch encodes if and only if every pair does |
| Encoding.EncodeNotifications | txapns/encoding.py:40-44 | the result is `None` exactly for argument types other than string/dict and list/list; a string with a dict encodes like that one pair |
| Encoding.EncodeAllAppend | txapns/encoding.py:43-44 | the frames of `a + b` are those of `a` followed by those of `b`; the first error wins |
| Encoding.EncodeListsTruncates | txapns/encoding.py:44 | tokens or notifications past the shorter list's length have no effect on the result |
| Encoding.ParseFrameThenRest | txapns/encoding.py:37-38 | a frame is read back as its token and payload, followed by the frames after it |
| Encoding.EncodeAllParses | txapns/encoding.py:43-44 | an encoded batch reads back as its pairs in order: each token's 32 bytes and each payload's JSON |
| Encoding.EncodedBatchReadsBack | txapns/encoding.py:40-44 | for two lists, frame `i` is token `i` with notification `i`, for every `i` below the shorter length, and there is nothing else |
| Encoding.DecodeRecord | txapns/encoding.py:54-55 | a record gives a signed 32-bit timestamp and a 64-character hex token |
| Encoding.DecodeFeedback | txapns/encoding.py:51-56 | decoding succeeds if and only if the length is a multiple of 38, with one record per 38 bytes, so an empty stream gives no records; otherwise it fails reporting the leftover length |
| Encoding.DecodeFeedbackRecordAt | txapns/encoding.py:53-56 | record `i` is decoded from bytes `38i` up to `38i+38`, in stream order |
| Encoding.SerializeRecords | txapns/encoding.py:51 | the stream the feedback service sends is 38 bytes per record |
| Encoding.FeedbackRoundTrip | txapns/encoding.py:51-56 | decoding that stream gives every record's timestamp and hex token in order, whatever its length field holds |
| Encoding.DecodeWireRecord | txapns/encoding.py:55 | a record at the head of a stream decodes to its timestamp and token, and the rest of the stream follows |
| Encoding.FeedbackTokenReencodes | txapns/encoding.py:39 | a token from feedback, given back to the encoder as text, is packed as the same 32 bytes |
| Deferreds.Cancel | txapns/apns.py:204-207 | cancelling leaves the timer unscheduled; cancelling a timer that already ran or was cancelled changes nothing |
| Deferreds.Step | txapns/apns.py:201-211 | a callback on a resolved deferred raises and changes nothing; a resolved deferred keeps its result; reachable states stay reachable |
| Deferreds.ResolvedOnce | txapns/apns.py:201-211 | once a deferred has a result, no later callback or timeout changes it |
| Deferreds.RunFromInitial | txapns/apns.py:200-212 | from a fresh deferred, the result is whichever of callback and timeout came first, and the timer is cancelled or has run |
| Deferreds.ReachableRun | txapns/apns.py:200-212 | every sequence of events keeps the timer scheduled exactly while no result is set |
| Deferreds.ExpireIsIdempotent | txapns/apns.py:201-207 | a second timeout, or a timeout after the callback, has no effect |
| Deferreds.Deferred.constructor | txapns/apns.py:200-203 | a new deferred is waiting, with its timeout scheduled |
| Deferreds.Deferred.Callback | txapns/apns.py:140 | `callback` raises exactly when the deferred already has a result; otherwise it stores the value and cancels the timer |
| Deferreds.Deferred.Expire | txapns/apns.py:201-203 | the timeout fails only a deferred that is still waiting |
| Apns.GatewayEndpoint | txapns/apns.py:189-191 | the sandbox gateway exactly for `'sandbox'`, production otherwise, port 2195 |
| Apns.FeedbackEndpoint | txapns/apns.py:218-220 | the sandbox feedback host exactly for `'sandbox'`, production otherwise, port 2196, never the gateway |
| Apns.Protocol.constructor | txapns/apns.py:152 | a new protocol has written nothing |
| Apns.Protocol.SendMessage | txapns/apns.py:69-71 | the message is appended to the transport's output |
| Apns.MessagesNext | txapns/apns.py:139-140 | the output of `k + 1` turns of the loop is that of `k` turns plus message `k` |
| Apns.FlushedNext | txapns/apns.py:139-140 | one more entry adds its message if it was waiting, and nothing otherwise |
| Apns.FlushedAllWaiting | txapns/apns.py:139-140 | when every entry is waiting, the corrected loop sends exactly what the original loop sends |
| Apns.FiredUpToNone | txapns/apns.py:139 | before the loop, no state has changed |
| Apns.FiredUpToNext | txapns/apns.py:139-140 | each turn changes only the state at its own position |
| Apns.FiredAllOutcomes | txapns/apns.py:139-140 | after firing every waiting entry, each of them has succeeded with the client and its timer is no longer scheduled; already resolved entries are unchanged |
| Apns.Deliver | txapns/apns.py:139-140 | `d.callback(p)` raises exactly on a resolved entry; otherwise the entry's message goes out on `p`; only that entry's state changes |
| Apns.ClientFactory.constructor | txapns/apns.py:127-129 | nothing is queued and no client is live |
| Apns.ClientFactory.NewDeferred | txapns/apns.py:131-135 | the `deferred` property appends a new waiting deferred to the end of the queue |
| Apns.ClientFactory.AddClient | txapns/apns.py:137-141 | (corrected) the client is set; every waiting deferred is fired in queue order and its message is sent on the client; resolved ones are skipped; the queue ends empty |
| Apns.ClientFactory.FireWaiting | txapns/apns.py:139-140 | the corrected loop: the output is the messages of the waiting entries in order, and each waiting state is fired |
| Apns.ClientFactory.CallbackWaiting | txapns/apns.py:139-140 | the loop as written: it runs through the waiting entries up to the first resolved one, sending their messages |
| Apns.ClientFactory.AddClientAsWritten | txapns/apns.py:137-141 | (as written) the client is set; the loop raises at the first resolved entry, leaving nothing sent after it and the queue not emptied; otherwise everything is sent and the queue is emptied |
| Apns.ClientFactory.RemoveClient | txapns/apns.py:143-145 | the queue is dropped and no client is live; no dropped deferred is resolved or otherwise changed |
| Apns.ClientFactory.BuildProtocol | txapns/apns.py:150-154 | the back-off is reset and a new protocol is returned |
| Apns.ClientFactory.Retry | txapns/apns.py:156-162 | each lost or failed connection counts one more reconnect attempt |
| Apns.FeedbackHandler.constructor | txapns/apns.py:104-110 | a handler starts with an empty open buffer and the factory's deferred |
| Apns.FeedbackHandler.DataReceived | txapns/apns.py:84-86 | the buffer holds every chunk received, in arrival order; writing to a closed buffer raises |
| Apns.FeedbackHandler.ConnectionLost | txapns/apns.py:92-95 | the deferred gets the concatenated chunks unless the buffer is closed or the timeout already failed the deferred; either case raises and changes nothing |
| Apns.FeedbackClientFactory.constructor | txapns/apns.py:101-102 | one new waiting deferred |
| Apns.FeedbackClientFactory.BuildProtocol | txapns/apns.py:104-110 | the handler shares the factory's deferred and starts with an empty buffer |
| Apns.Service.constructor | txapns/apns.py:174-180 | no factory yet and nothing dialled |
| Apns.Service.Write | txapns/apns.py:185-212 | the first call creates the factory and dials the gateway once; with a live client the bytes go out at once; otherwise one waiting deferred is queued behind the earlier ones |
| Apns.Service.Connected | txapns/apns.py:65-67 | (corrected) a completed connection resets the back-off; every waiting deferred's message goes out on the new protocol, in queue order; the queue is empty |
| Apns.Service.ConnectionLost | txapns/apns.py:73-75 | the client and the queue are cleared and a reconnect is counted |
| Apns.Service.ConnectionFailed | txapns/apns.py:160-162 | a reconnect is counted and the queue is kept |
| Apns.Service.Read | txapns/apns.py:214-238 | each read dials the feedback service once, with a new factory whose fresh deferred has its timeout scheduled |
| Apns.AddClientAsWrittenStrands | txapns/apns.py:137-141 | two queued writes, the first timed out: as written, the call raises, nothing is sent, and the second entry stays queued and waiting |
| Apns.AddClientSkipsTimedOut | txapns/apns.py:137-141 | the same trace with the correction: the first entry stays timed out, the second is sent and succeeds, and the queue is empty |
| Payloads.PutIfTruthy | txapns/payload.py:46-53 | `if v: d[k] = v` adds the key exactly for a truthy value and leaves every other entry as it was |
| Payloads.AlertDict | txapns/payload.py:44-54 | `body` is always present; each of `action-loc-key`, `loc-key`, `loc-args` and `launch-image` is present if and only if its attribute is truthy, holding that attribute; there are no other keys |
| Payloads.AlertDictReadsBack | txapns/payload.py:44-54 | reading the dictionary back recovers the body and every truthy attribute; exactly the falsy ones are lost |
| Payloads.AlertTruthy | txapns/payload.py:81 | `if self.alert` is false only for the six falsy raw values; a `PayloadAlert` instance is always true |
| Payloads.AlertEntry | txapns/payload.py:84-87 | a `PayloadAlert` contributes its dictionary, with its body and only alert keys; any other alert is stored as it is |
| Payloads.ApsDict | txapns/payload.py:80-91 | `alert` is present if and only if the alert is truthy (a `PayloadAlert` always is), holding its dictionary or the raw value; `sound` is present if and only if it is truthy; `badge` is present if and only if it is not `None` (so 0 is kept), coerced by `int()`; a badge `int()` rejects is an error |
| Payloads.PayloadDict | txapns/payload.py:93-95 | the keys are `aps` plus the custom keys; every custom value, `aps` included, wins over the built one |
| Payloads.Json | txapns/payload.py:97-98 | serialising fails only when building the dictionary does |
| Payloads.PayloadTooLargeError.Size | txapns/payload.py:57-63 | the `size` property is the size the error was built with |
| Payloads.PayloadTooLargeError.Len | txapns/payload.py:65-66 | `len()` of the error is its `size` property |
| Payloads.NonNumericBadgeRejected | txapns/payload.py:91 | a badge text without any digit makes both `dict()` and the constructor fail with the badge error |
| Payloads.CheckSize | txapns/payload.py:100-103 | the size error is raised if and only if the size is above 256; its `size` and `len()` are that size |
| Payloads.NewPayload | txapns/payload.py:70-76 | construction succeeds if and only if the badge converts and the JSON is at most 256 bytes, and it stores the arguments; otherwise a bad badge, or a size error carrying the JSON length |
| Payloads.AcceptedPayloadFrames | txapns/payload.py:100-103 | an accepted payload with a hex token always packs into one frame of at most 293 bytes, carrying exactly its JSON |

## Left out

- TLS: `APNSClientContextFactory` and loading the certificate and key (`apns.py:44-61`). These are OpenSSL calls, and `getContextFactory` only passes the result on.
- The reactor:
  - `connectSSL` is recorded as the endpoint dialled.
  - `callLater` is the timer a `Deferred` carries.
  - The delay `timeout` is stored but plays no part: when a timer runs is the environment's choice of calling `Expire`.
- The back-off delay itself: `ReconnectingClientFactory`'s delay growth, jitter and cap. Only the count of attempts since `resetDelay` is kept.
- The deferred callback chains:
  - `addCallback(lambda p: p.sendMessage(...))` is folded into firing the deferred.
  - `log_errback` and all other logging are left out.
  - The timeout exception's message is left out.
- `json.dumps`: its exact bytes are a parameter. Key order of Python 2 dictionaries is therefore not modelled.
- `datetime.datetime.fromtimestamp`: it depends on the local time zone, so a feedback timestamp stays the integer count of seconds.
- The `StringIO` context-manager wrapper (`encoding.py:18-29`), `LineReceiver` line mode and `MAX_LENGTH`. The handler is always in raw mode.
- `APNSFeedbackClientFactory.clientConnectionLost` and `clientConnectionFailed` (`apns.py:115-121`): they only log and call the base `ClientFactory` handler, which does nothing.
- `app_ids`, `IAPNSService`, `startedConnecting`, the service start and stop hooks, and `Payload.__repr__`.
- Python's `str` and `unicode` are one string type. Custom payload keys are strings. Badge values of type `float` and `long` are not among the modelled values.
- Apns.ClientFactory.RemoveClient: the dropped deferreds keep their own `Deferred` objects and timers, so each still times out when its `Expire` runs. No lemma follows them after the drop.
- Apns.Service.Connected: it uses the corrected `addClient`, so it skips a queued deferred whose timeout already fired. The code as written raises there; that behaviour is `Apns.ClientFactory.AddClientAsWritten` (see "## Findings").
- Values.IntOf: `int()` of a `unicode` badge also accepts Unicode decimal digits and Unicode white space; only the ASCII digits and the six ASCII white-space characters are modelled.
- Apns.Service.Write: the caller passes the already encoded bytes. The encoding step before it is `Encoding.EncodeNotifications`.
- Payloads.Json: it states only when serialising fails. The bytes produced are whatever the `dumps` parameter returns.

## Findings

| source | as written | input that shows it | evidently intended | confidence | as-written member | corrected member |
|---|---|---|---|---|---|---|
| txapns/apns.py:137-141 | `addClient` calls `d.callback(p)` on every queued deferred, including one whose timeout has already failed it; that call raises `AlreadyCalledError`, ending the loop after `clientProtocol` was set and before `_deferred` is reset | write twice while disconnected, let the first write's timeout run, then connect: `addClient` raises before sending the second write. Its own state then holds the second deferred still queued next to a live client. In the process, the exception escapes `connectionMade`, the connection is dropped, `removeClient` clears the queue, and the second write is never sent and later times out | fire only the deferreds still waiting, in order, then empty the queue | not executed | Apns.ClientFactory.AddClientAsWritten, Apns.AddClientAsWrittenStrands | Apns.ClientFactory.AddClient, Apns.AddClientSkipsTimedOut |
