# qy_translate API layer, modelled in Dafny

The browser extension's API layer (`src/api/api.ts`) has two parts: a REST
request pipeline that talks to the phrase-collection server, and a WebSocket
QR-code login handshake. This project models both and proves what the code
promises about them.

- **Environment** (`environment.dfy`). The module picks the endpoint once, when
  it loads. Production uses `https://` and `wss://` against
  `www.fishfit.fun:8080/p`. The `test` and `jest` build modes use `http://` and
  `ws://` against `localhost:8080/p`.
- **Transport** (`transport.dfy`). `baseFetch` splits one network exchange
  three ways. It resolves with the response when the status is in the
  accepted set. It rejects with the same response for any other status. It
  rejects with `'fetch_err'` when the transport throws.
- **Normalizer** (`normalizer.dfy`). `getResult` turns a response into the
  uniform record `{status, errMsg, data, toastMsg, serveToastMsg}`. Its
  `return` sits in a `finally` block, so a body that cannot be read or parsed
  still yields a record. When an error tag is given and the body has no toast,
  it supplies the fallback toast `网络开小差!`. A local toast always clears the
  server's toast.
- **Pipeline** (`pipeline.dfy`). `serveBaseReq` works in five steps:
  1. When `auth` is set, it reads the credential. A `needLogin` or
     `needRelogin` answer short-circuits the call.
  2. It writes `Authorization`, `c` and `cv` into the caller's header object
     in place.
  3. It dispatches the request.
  4. It picks an error tag and a toast for each failure path.
  5. It emits one `serveReqOk` or `serveReqFail` telemetry record and calls
     the matching observer.

  The module also holds the four domain operations `collectResult`,
  `reduceCollect`, `updateMark` and `sendEvent`, each a fixed configuration of
  the pipeline.
- **QR login** (`qrlogin.dfy`). `qrLogin` is a class, `Handshake`, over the
  caller's `loginStatus` and `qrUrl` refs. It also records the frames sent, the
  credentials handed to the store and the telemetry log. Its event methods
  are:
  - `Start`;
  - `OnOpen`, which sends `"login"`;
  - `OnMessage`, which decodes the frame byte by byte with `getStrFromBuf`.
    A token frame is acknowledged and persisted. The exact text `{err` is
    ignored. Anything else is shown as a base64 `data:` image (RFC 2397)
    and the status becomes `scanQr`;
  - `OnPersisted`, the credential store's callback and the only place
    `loginOk` is set;
  - `OnClose`, which settles a pending status to `invalidQr` or
    `loadQrFail`.

  `Valid()` is the invariant that every handler preserves. Four short
  end-to-end handshakes are proved as methods, including one where the socket
  closes before the store's callback has run.
- **Base64** (`base64.dfy`). `window.btoa` is base64 as section 4 of RFC 4648
  defines it. The module proves that decoding inverts the encoding. The
  decoder accepts only canonical text, with the bits a pad leaves unused set
  to zero. It is proved that every text it accepts is the encoding of what it
  decodes to. Together these pin `btoa`'s result down to the one text that
  decodes to the string's character codes.
- **Bytes** (`bytes.dfy`). `String.fromCharCode` applied byte by byte turns
  bytes into a Latin-1 string, and `charCodeAt` inverts it.

The credential lookup, the network exchange, `JSON.parse` of a token frame and
every clock reading are inputs to the model. The frames sent, the credentials
saved, the observer calls and the telemetry records are outputs.

### Behaviour that is easy to misread

- The `{err` test compares a slice of up to five characters with a
  four-character literal (line 49). It therefore matches only the exact text
  `{err`. A longer error frame falls through to the image branch.
- The QR events compute `cost` as `start - now` (lines 46 and 56). That value
  is not positive unless the clock goes back. The pipeline computes
  `now - start` (lines 151 and 163). Both are modelled as written, and
  nothing is assumed about the clock readings.
- On the server-rejection path, line 145 rejects with the promise that
  `getResult` returns, and `reject` does not adopt promises. The `fail`
  observer therefore receives a promise of the record (`PromiseOf`), not the
  record itself. The value the call returns is the record.
- A transport failure is reported through the `.catch` branch, as a
  `serveReqFail` record. `.catch` returns the record, so the promise that
  `serveBaseReq` returns resolves with the `fetchReq_…_err` record. It
  resolves on every path and never rejects.

## Model

| member | source | states |
|---|---|---|
| Environment.ForMode | src/api/api.ts:7-15 | `test`/`jest` select `http://`, `ws://` and `localhost:8080/p`; every other mode selects `https://`, `wss://` and `www.fishfit.fun:8080/p`; client identity is passed through |
| Transport.BaseFetch | src/api/api.ts:96-107 | resolves iff a response arrived with an accepted status; rejects with that same response iff the status is not accepted; fails with `fetch_err` iff the transport threw |
| Normalizer.GetResult | src/api/api.ts:177-204 | status and errMsg always come from the inputs, even when the body does not parse; data is absent exactly when the body read or parse threw; the toast is the fallback exactly when an error tag is given and the body has no truthy toast, and is the body's otherwise; an error tag always yields a truthy toast; a truthy toast clears the server toast, so the two are never both set |
| Pipeline.Serve | src/api/api.ts:113-175 | nothing is dispatched iff `auth` is set and the credential is a session marker; then the result is status 0 with the marker as errMsg and data null; a dispatched request targets protocol+base+url, sends the stringified data, and carries `c` and `cv` always and `Authorization` (the credential) when `auth`; ok iff the status is accepted; the error tag is `""`, `authReq_<url>_err` or `fetchReq_<url>_err` by path, with toast `网络开小差了!` and no status on a transport failure; every failure of a dispatched request has a toast, the session-marker short-circuit has none, and the two toasts are never both set; one ok/fail telemetry record with cost end-start; observers receive the returned value, except on the server-rejection path (a status that is not accepted), where the `fail` observer receives a promise of it |
| Pipeline.ServeBaseReq | src/api/api.ts:119-134 | the caller's header object ends up with the `Authorization`, `c` and `cv` writes (only `Authorization` on the short-circuit), and the outcome is `Serve` on the headers as they were before the call |
| Pipeline.Headers.constructor | src/api/api.ts:113 | the header object holds the caller's fields |
| Pipeline.CollectResult | src/api/api.ts:206-218 | POST to `/phrase` with the credential, dispatched iff the credential is not a session marker; ok iff the status is 201; the caller's `success` observer runs iff the call is ok and it was supplied, and its `fail` observer runs iff the call failed and it was supplied |
| Pipeline.ReduceCollect | src/api/api.ts:220-230 | DELETE to `/phrase` with the credential, dispatched iff not a session marker; ok iff the status is 200; the caller's observers run as for `collectResult` |
| Pipeline.UpdateMark | src/api/api.ts:232-242 | PUT to `/phrase` with the credential, dispatched iff not a session marker; ok iff the status is 200; the caller's observers run as for `collectResult` |
| Pipeline.SendEvent | src/api/api.ts:244-253 | always dispatched, as a POST to `/phrase` whose headers are exactly `c` and `cv` (no credential); ok iff the status is 200 or 201 |
| Bytes.FromCharCodes | src/api/api.ts:80-82 | decoding keeps the length of the frame |
| Bytes.FromCharCodesCodes | src/api/api.ts:81 | each decoded character's code is its byte, so the text is Latin-1 |
| Bytes.CharCodes | src/api/api.ts:51 | `charCodeAt` over a Latin-1 string keeps its length |
| Bytes.CharCodesOfFromCharCodes | src/api/api.ts:76-84 | the character codes of a decoded frame are the frame's bytes |
| Bytes.FromCharCodesOfCharCodes | src/api/api.ts:76-84 | every Latin-1 string decodes back from its own character codes |
| Base64.Digit | src/api/api.ts:51 | each 6-bit value maps to an alphabet character whose value it is |
| Base64.Encode | src/api/api.ts:51 | an encoding consists only of alphabet characters and `=` |
| Base64.EncodedLength | src/api/api.ts:51 | an encoding has 4 characters for every started group of 3 bytes |
| Base64.FullGroupRoundTrip | src/api/api.ts:51 | a full 3-byte group decodes back from its 4 characters |
| Base64.LastOneRoundTrip | src/api/api.ts:51 | a final 1-byte group with `==` padding decodes back |
| Base64.LastTwoRoundTrip | src/api/api.ts:51 | a final 2-byte group with `=` padding decodes back |
| Base64.LastThreeRoundTrip | src/api/api.ts:51 | an unpadded final group decodes back |
| Base64.DecodeGroupThenRest | src/api/api.ts:51 | a text longer than one group decodes group by group |
| Base64.EncodeTail | src/api/api.ts:51 | the encoding of more than 3 bytes is the first group's encoding followed by the rest's |
| Base64.RoundTripOne | src/api/api.ts:51 | one byte round-trips |
| Base64.RoundTripTwo | src/api/api.ts:51 | two bytes round-trip |
| Base64.RoundTripThree | src/api/api.ts:51 | three bytes round-trip |
| Base64.DecodeEncode | src/api/api.ts:51 | decoding the encoding of any byte sequence gives it back |
| Base64.DigitOfSextet | src/api/api.ts:51 | every alphabet character is the digit of its own value |
| Base64.SextetsRegroup | src/api/api.ts:51 | four 6-bit values regrouped as three bytes give back the same four values |
| Base64.Block3Digits | src/api/api.ts:51 | a group of three bytes encodes as the digits of its four 6-bit values |
| Base64.FullGroupEncode | src/api/api.ts:51 | a 4-character group that decodes is the encoding of its three bytes |
| Base64.LastOneEncode | src/api/api.ts:51 | a `==`-padded final group that decodes (its unused bits zero) is the encoding of its byte |
| Base64.LastTwoEncode | src/api/api.ts:51 | a `=`-padded final group that decodes is the encoding of its two bytes |
| Base64.LastThreeEncode | src/api/api.ts:51 | an unpadded final group that decodes is the encoding of its three bytes |
| Base64.LastGroupEncode | src/api/api.ts:51 | any final group that decodes is the encoding of what it decodes to |
| Base64.EncodeOfDecode | src/api/api.ts:51 | every text that decodes is the encoding of its decoding, so each byte sequence has exactly one encoding |
| Base64.Btoa | src/api/api.ts:51 | `btoa` succeeds iff the string is Latin-1, and then its result decodes to the string's character codes |
| Base64.BtoaIsCanonical | src/api/api.ts:51 | `btoa`'s result is the only text that decodes to the string's character codes, that is, the canonical RFC 4648 encoding |
| QrLogin.Slice | src/api/api.ts:36 | `slice(0, n)` is the prefix of length min(n, length) |
| QrLogin.Classify | src/api/api.ts:36-50 | token frame iff the text starts with `{"token":`; error frame iff the text is exactly `{err`; image frame otherwise |
| QrLogin.GetStrFromBuf | src/api/api.ts:76-84 | the string has one character per byte, each character's code equals its byte, and it equals `FromCharCodes` of the buffer |
| QrLogin.DecodeFrame | src/api/api.ts:35 | the handler's message is `FromCharCodes` of the received frame |
| QrLogin.AfterClose | src/api/api.ts:63-67 | `scanQr` becomes `invalidQr`, `loadingQr` becomes `loadQrFail`, other states are kept; the result is never pending |
| QrLogin.QrImageUrl | src/api/api.ts:51 | the URL starts with `data:image/jpeg;base64,` followed by the base64 of the message's character codes |
| QrLogin.QrImageUrlOfFrame | src/api/api.ts:35-51 | the QR image URL of a decoded frame encodes that frame's own bytes |
| QrLogin.Handshake.constructor | src/api/api.ts:17 | the handshake starts from the caller's refs, with no socket, no frames, no saves and no events |
| QrLogin.Handshake.Start | src/api/api.ts:18-27 | emits `load_qr` with the prior status, then sets `loadingQr`, records the start time and opens the socket at wsProtocol+base+`/user/login_qr`; Valid is preserved |
| QrLogin.Handshake.OnOpen | src/api/api.ts:30-32 | sends `"login"` and nothing else changes |
| QrLogin.Handshake.OnMessage | src/api/api.ts:34-60 | in any status, a token frame sends `"loginOk"`, hands over the parsed credential and emits `qr_loginOk` with cost start-now, leaving the status alone; `{err` changes nothing; any other frame sets `scanQr`, sets the URL to the data prefix plus the frame's base64 and emits `qr_load`; Valid is preserved |
| QrLogin.Handshake.AcknowledgeToken | src/api/api.ts:37-48 | the token branch: `"loginOk"` is sent, the credential is saved (unless `JSON.parse` throws) and `qr_loginOk` with the openid is logged; status and URL are unchanged |
| QrLogin.Handshake.ShowQrImage | src/api/api.ts:51-58 | the image branch: URL is `QrImageUrl(msg)`, the status is `scanQr`, one `qr_load` is logged |
| QrLogin.Handshake.OnPersisted | src/api/api.ts:39-41 | the store's callback sets `loginOk`, and Valid ties `loginOk` to a completed save; it may run after the socket closes |
| QrLogin.Handshake.OnClose | src/api/api.ts:62-74 | the status becomes `AfterClose` of the old status and `qr_ws_close` reports that new status; once closed the handshake is never pending |
| QrLogin.NonBraceFrameIsImage | src/api/api.ts:36-51 | a frame whose first byte is not `{` is always drawn as an image |
| QrLogin.ImageThenClose | src/api/api.ts:17-74 | an image followed by a close ends in `invalidQr`, showing the frame's base64, with the events `load_qr`, `qr_load`, `qr_ws_close(invalidQr)` |
| QrLogin.TokenLogin | src/api/api.ts:17-48 | a token frame followed by the store's callback ends in `loginOk`; frames sent are `login`, `loginOk`; one credential is saved; events are `load_qr`, `qr_loginOk` |
| QrLogin.Stall | src/api/api.ts:17-74 | a socket that closes without a frame ends in `loadQrFail` |
| QrLogin.CloseBeforePersisted | src/api/api.ts:34-74 | a close between the token frame and the store's callback reports `invalidQr`, yet the status ends in `loginOk` |

## Left out

- The network, the WebSocket, the Chrome credential store and the analytics
  sink are not run. The model sees them only through its inputs (the
  exchange, the credential, the frames, the parse result) and its outputs
  (the dispatched request, `sent`, `saved`, the event records).
- Timing and interleaving are not modelled. Each handler and each pipeline
  call is one atomic step. The one ordering that matters, a close before the
  store's callback, is played out in `CloseBeforePersisted`.
- An observer callback that throws inside `.then` would also trigger `.catch`
  and a second telemetry record. The pipeline assumes callbacks that do not
  throw.
- `JSON.parse` and `JSON.stringify` are not implemented. A body arrives
  already parsed, or as unparsable. A token frame's parse result is an input.
  The request body is the symbolic `Stringified(data)`.
- A body that parses to a JSON number, string or array is treated as an
  object without the fields the client reads. The toasts come out the same,
  but the result's `data` does not hold that non-object value.
- Only string-valued body fields are kept. A non-string `toastMsg` (a number,
  say) is not modelled.
- A credential lookup that rejects is not modelled. The credential is always
  a string.
- A `JSON.stringify(data)` that throws, on circular data say (line 133), is
  not modelled. It would throw inside the promise executor after the
  `await`, so the call would never settle and no telemetry would be sent.
  The model's request body is always `Stringified(data)`.
- `console.log` of a transport error and the `ws.binaryType` setting have no
  effect on the model.
- The caller's `loginStatus` values other than those the handshake writes are
  modelled together as `Idle`.
- A second `qrLogin` on the same refs while a socket is still open is not
  modelled. `Start` requires a fresh handshake.
- Body reading is treated as repeatable. The single-use nature of a
  `Response` body plays no part, because `getResult` reads it once.
- The Vue mounting in `src/content/main.ts` has no logic and is not part of
  this model.
- `Bytes.FromCharCodes`: the function's own contract states only the length.
  The per-character codes and the Latin-1 range are stated in the lemma
  `Bytes.FromCharCodesCodes`.
