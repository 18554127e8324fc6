/** The QR-login handshake `qrLogin` (src/api/api.ts lines 17-85): the
    caller's `loginStatus` and `qrUrl` refs, driven by the socket's events.
    Each handler is one atomic step; the socket, the credential store, the
    analytics sink and the clock are outside, seen through the frames sent,
    the credentials handed over, the events emitted and the `now` inputs. */
module QrLogin {
  import opened Wrappers
  import opened Bytes
  import opened Environment
  import Base64

  /** The values the handshake writes into `loginStatus`; `Idle` stands for
      whatever else the caller's ref held before the handshake began. */
  datatype Status = Idle | LoadingQr | ScanQr | LoginOk | InvalidQr | LoadQrFail

  /** The object `JSON.parse` makes of a token frame. */
  datatype TokenInfo = TokenInfo(token: string, openid: string)

  /** The telemetry records the handshake emits (`load_qr`, `qr_loginOk`,
      `qr_load`, `qr_ws_close`). */
  datatype QrEvent =
    | LoadQr(status: Status)
    | QrLoginOk(openid: string, cost: int)
    | QrLoad(cost: int)
    | QrWsClose(status: Status)

  datatype Socket = NotOpened | Connecting | Open | Closed

  const LoginPath := "/user/login_qr"
  const TokenPrefix := "{\"token\":"
  const ErrLiteral := "{err"
  /** The `data:` URL prefix (RFC 2397) of the displayed QR image. */
  const DataUrlPrefix := "data:image/jpeg;base64,"

  /** `s.slice(0, n)`. */
  function Slice(s: string, n: nat): (r: string)
    ensures |r| == (if n <= |s| then n else |s|)
    ensures r == s[..|r|]
  {
    if n <= |s| then s[..n] else s
  }

  datatype FrameKind = TokenFrame | ErrFrame | ImageFrame

  /** The dispatch of lines 36 and 49. The `{err` test compares a slice of up
      to five characters with a four-character literal, so it holds only of the
      exact text `{err`. */
  function Classify(msg: string): (k: FrameKind)
    ensures k == TokenFrame <==> |msg| >= |TokenPrefix| && msg[..|TokenPrefix|] == TokenPrefix
    ensures k == ErrFrame <==> msg == ErrLiteral
    ensures k == ImageFrame <==>
      !(|msg| >= |TokenPrefix| && msg[..|TokenPrefix|] == TokenPrefix) && msg != ErrLiteral
  {
    if Slice(msg, 9) == TokenPrefix then TokenFrame
    else if Slice(msg, 5) == ErrLiteral then ErrFrame
    else ImageFrame
  }

  /** `getStrFromBuf`: one character per byte, its code the byte's value. */
  method GetStrFromBuf(buf: array<byte>) returns (s: string)
    ensures |s| == buf.Length
    ensures forall i :: 0 <= i < buf.Length ==> s[i] as int == buf[i] as int
    ensures s == FromCharCodes(buf[..])
  {
    s := "";
    for i := 0 to buf.Length
      invariant |s| == i
      invariant forall k :: 0 <= k < i ==> s[k] as int == buf[k] as int
    {
      s := s + [(buf[i] as int) as char];
    }
    assert forall k :: 0 <= k < |s| ==> s[k] == FromCharCodes(buf[..])[k];
  }

  /** `getStrFromBuf(e.data)`: the frame's bytes seen through a fresh
      `Uint8Array` over the received buffer. */
  method DecodeFrame(frame: seq<byte>) returns (msg: string)
    ensures msg == FromCharCodes(frame)
  {
    var view := new byte[|frame|](i requires 0 <= i < |frame| => frame[i]);
    assert view[..] == frame;
    msg := GetStrFromBuf(view);
  }

  /** The status the close handler leaves (lines 63-67). */
  function AfterClose(s: Status): (r: Status)
    ensures r != ScanQr && r != LoadingQr
    ensures s == ScanQr ==> r == InvalidQr
    ensures s == LoadingQr ==> r == LoadQrFail
    ensures s != ScanQr && s != LoadingQr ==> r == s
  {
    match s
    case ScanQr => InvalidQr
    case LoadingQr => LoadQrFail
    case _ => s
  }

  predicate IsQrImageUrl(u: string)
  {
    |u| >= |DataUrlPrefix| && u[..|DataUrlPrefix|] == DataUrlPrefix
  }

  /** `"data:image/jpeg;base64," + window.btoa(msg)` for a decoded frame:
      `btoa` cannot throw on it, and it encodes the frame's own bytes. */
  function QrImageUrl(msg: string): (u: string)
    requires IsLatin1(msg)
    ensures IsQrImageUrl(u)
    ensures u == DataUrlPrefix + Base64.Encode(CharCodes(msg))
  {
    var u := DataUrlPrefix + Base64.Btoa(msg).value;
    assert u[..|DataUrlPrefix|] == DataUrlPrefix;
    u
  }

  /** The QR image URL of a frame shows that frame's own bytes. */
  lemma QrImageUrlOfFrame(frame: seq<byte>)
    requires IsLatin1(FromCharCodes(frame))
    ensures QrImageUrl(FromCharCodes(frame)) == DataUrlPrefix + Base64.Encode(frame)
  {
    CharCodesOfFromCharCodes(frame);
  }

  class Handshake {
    const cfg: Config
    /** The caller's refs. */
    var loginStatus: Status
    var qrUrl: string
    /** This handshake's socket, its URL and the time it was opened. */
    var socket: Socket
    var socketUrl: string
    var start: int
    /** Frames sent on the socket. */
    var sent: seq<string>
    /** Credentials handed to `saveTokenInfo`, and how many of those calls
        have run their completion callback. */
    var saved: seq<TokenInfo>
    var savesDone: nat
    /** Telemetry records, oldest first. */
    var events: seq<QrEvent>

    ghost predicate Valid()
      reads this
    {
      && (socket == NotOpened ==> sent == [] && saved == [] && savesDone == 0 && events == [])
      && (socket == Connecting ==> sent == [])
      && (socket == Open ==> sent != [])
      // the client sends "login" once, then only "loginOk"
      && (sent != [] ==> sent[0] == "login")
      && (forall i :: 0 < i < |sent| ==> sent[i] == "loginOk")
      // every credential handed over follows a "loginOk"; callbacks follow saves
      && |saved| <= (if sent == [] then 0 else |sent| - 1)
      && savesDone <= |saved|
      && (socket != NotOpened ==>
            && socketUrl == cfg.webSocketProtocol + cfg.baseUrl + LoginPath
            && loginStatus != Idle
            // a scannable state always has an image to scan
            && (loginStatus == ScanQr ==> IsQrImageUrl(qrUrl))
            // `loginOk` comes only from the persistence callback
            && (loginStatus == LoginOk ==> savesDone > 0))
      // once the socket is closed the handshake is never left pending
      && (socket == Closed ==> loginStatus != LoadingQr && loginStatus != ScanQr)
    }

    /** The handshake's view of the caller's refs before `qrLogin` runs. */
    constructor (cfg: Config, loginStatus: Status, qrUrl: string)
      ensures Valid()
      ensures this.cfg == cfg && this.loginStatus == loginStatus && this.qrUrl == qrUrl
      ensures socket == NotOpened && sent == [] && saved == [] && savesDone == 0 && events == []
    {
      this.cfg := cfg;
      this.loginStatus := loginStatus;
      this.qrUrl := qrUrl;
      socket := NotOpened;
      socketUrl := "";
      start := 0;
      sent := [];
      saved := [];
      savesDone := 0;
      events := [];
    }

    /** The body of `qrLogin` (lines 18-28): report the prior status, show the
        loading state, note the time and open the socket. */
    method Start(now: int)
      requires Valid() && socket == NotOpened
      modifies this
      ensures Valid()
      ensures events == old(events) + [LoadQr(old(loginStatus))]
      ensures loginStatus == LoadingQr && start == now
      ensures socket == Connecting && socketUrl == cfg.webSocketProtocol + cfg.baseUrl + LoginPath
      ensures qrUrl == old(qrUrl) && sent == old(sent) && saved == old(saved) && savesDone == old(savesDone)
    {
      events := events + [LoadQr(loginStatus)];
      loginStatus := LoadingQr;
      start := now;
      socketUrl := cfg.webSocketProtocol + cfg.baseUrl + LoginPath;
      socket := Connecting;
    }

    /** `ws.onopen` (lines 30-32). */
    method OnOpen()
      requires Valid() && socket == Connecting
      modifies this
      ensures Valid()
      ensures socket == Open && sent == old(sent) + ["login"]
      ensures loginStatus == old(loginStatus) && qrUrl == old(qrUrl) && start == old(start)
      ensures socketUrl == old(socketUrl)
      ensures saved == old(saved) && savesDone == old(savesDone) && events == old(events)
    {
      sent := sent + ["login"];
      socket := Open;
    }

    /** `ws.onmessage` (lines 34-60), whatever the current status. `parsed` is
        what `JSON.parse` makes of a token frame; `None` means it throws, which
        ends the handler after the acknowledgement was sent. */
    method OnMessage(frame: seq<byte>, parsed: Option<TokenInfo>, now: int)
      requires Valid() && socket == Open
      modifies this
      ensures Valid()
      ensures socket == old(socket) && socketUrl == old(socketUrl) && start == old(start)
      ensures savesDone == old(savesDone)
      ensures Classify(FromCharCodes(frame)) == TokenFrame ==>
        && sent == old(sent) + ["loginOk"]
        && saved == old(saved) + (if parsed.Some? then [parsed.value] else [])
        && events == old(events) + (if parsed.Some? then [QrLoginOk(parsed.value.openid, start - now)] else [])
        && loginStatus == old(loginStatus) && qrUrl == old(qrUrl)
      ensures Classify(FromCharCodes(frame)) == ErrFrame ==>
        && sent == old(sent) && saved == old(saved) && events == old(events)
        && loginStatus == old(loginStatus) && qrUrl == old(qrUrl)
      ensures Classify(FromCharCodes(frame)) == ImageFrame ==>
        && loginStatus == ScanQr
        && qrUrl == DataUrlPrefix + Base64.Encode(frame)
        && events == old(events) + [QrLoad(start - now)]
        && sent == old(sent) && saved == old(saved)
    {
      var msg := DecodeFrame(frame);
      var kind := Classify(msg);
      if kind == TokenFrame {
        AcknowledgeToken(parsed, now);
      } else if kind == ErrFrame {
      } else {
        FromCharCodesCodes(frame);
        QrImageUrlOfFrame(frame);
        ShowQrImage(msg, now);
      }
    }

    /** The token branch (lines 37-48): acknowledge, hand the credential to
        the store and report; the status is left to the store's callback. */
    method AcknowledgeToken(parsed: Option<TokenInfo>, now: int)
      requires Valid() && socket == Open
      modifies this
      ensures Valid()
      ensures sent == old(sent) + ["loginOk"]
      ensures saved == old(saved) + (if parsed.Some? then [parsed.value] else [])
      ensures events == old(events) + (if parsed.Some? then [QrLoginOk(parsed.value.openid, start - now)] else [])
      ensures loginStatus == old(loginStatus) && qrUrl == old(qrUrl) && savesDone == old(savesDone)
      ensures socket == old(socket) && socketUrl == old(socketUrl) && start == old(start)
    {
      sent := sent + ["loginOk"];
      assert sent[0] == old(sent)[0];
      assert forall i :: 0 < i < |sent| ==> sent[i] == "loginOk";
      if parsed.Some? {
        var tokenInfo := parsed.value;
        saved := saved + [tokenInfo];
        events := events + [QrLoginOk(tokenInfo.openid, start - now)];
      }
    }

    /** The image branch (lines 51-58). */
    method ShowQrImage(msg: string, now: int)
      requires Valid() && socket == Open && IsLatin1(msg)
      modifies this
      ensures Valid()
      ensures loginStatus == ScanQr && qrUrl == QrImageUrl(msg)
      ensures events == old(events) + [QrLoad(start - now)]
      ensures sent == old(sent) && saved == old(saved) && savesDone == old(savesDone)
      ensures socket == old(socket) && socketUrl == old(socketUrl) && start == old(start)
    {
      var url := QrImageUrl(msg);
      assert IsQrImageUrl(url);
      qrUrl := url;
      loginStatus := ScanQr;
      events := events + [QrLoad(start - now)];
    }

    /** The completion callback of `saveTokenInfo` (lines 39-41): the only
        place `loginOk` is set. It may run after the socket has closed. */
    method OnPersisted()
      requires Valid() && savesDone < |saved|
      modifies this
      ensures Valid()
      ensures loginStatus == LoginOk && savesDone == old(savesDone) + 1
      ensures qrUrl == old(qrUrl) && socket == old(socket) && socketUrl == old(socketUrl) && start == old(start)
      ensures sent == old(sent) && saved == old(saved) && events == old(events)
    {
      loginStatus := LoginOk;
      savesDone := savesDone + 1;
    }

    /** `ws.onclose` (lines 62-74): settle a pending status, then report it. */
    method OnClose()
      requires Valid() && (socket == Connecting || socket == Open)
      modifies this
      ensures Valid()
      ensures socket == Closed && loginStatus == AfterClose(old(loginStatus))
      ensures events == old(events) + [QrWsClose(loginStatus)]
      ensures qrUrl == old(qrUrl) && socketUrl == old(socketUrl) && start == old(start)
      ensures sent == old(sent) && saved == old(saved) && savesDone == old(savesDone)
    {
      loginStatus := AfterClose(loginStatus);
      socket := Closed;
      events := events + [QrWsClose(loginStatus)];
    }
  }

  // ---- Handshakes played end to end ----

  /** A frame that does not begin with `{` is always taken for an image. */
  lemma NonBraceFrameIsImage(b: seq<byte>)
    requires |b| > 0 && b[0] as int != '{' as int
    ensures Classify(FromCharCodes(b)) == ImageFrame
  {
    var msg := FromCharCodes(b);
    FromCharCodesCodes(b);
    assert msg[0] != '{';
    assert |msg| >= |TokenPrefix| ==> msg[..|TokenPrefix|][0] != TokenPrefix[0];
    assert msg != ErrLiteral by { assert ErrLiteral[0] == '{'; }
  }

  /** The server sends a 50-byte image, then closes the socket before it is scanned. */
  method ImageThenClose(cfg: Config, frame: seq<byte>, t0: int, t1: int)
    returns (status: Status, url: string, events: seq<QrEvent>)
    requires |frame| == 50 && frame[0] as int != '{' as int
    ensures status == InvalidQr && IsQrImageUrl(url)
    ensures url == DataUrlPrefix + Base64.Encode(frame)
    ensures events == [LoadQr(Idle), QrLoad(t0 - t1), QrWsClose(InvalidQr)]
  {
    var h := new Handshake(cfg, Idle, "");
    h.Start(t0);
    h.OnOpen();
    NonBraceFrameIsImage(frame);
    h.OnMessage(frame, None, t1);
    h.OnClose();
    status, url, events := h.loginStatus, h.qrUrl, h.events;
  }

  /** The server sends a token; the credential store then reports the save. */
  method TokenLogin(cfg: Config, t0: int, t1: int)
    returns (status: Status, sent: seq<string>, saved: seq<TokenInfo>, events: seq<QrEvent>)
    ensures status == LoginOk && sent == ["login", "loginOk"]
    ensures saved == [TokenInfo("abc", "u1")]
    ensures events == [LoadQr(Idle), QrLoginOk("u1", t0 - t1)]
  {
    var h := new Handshake(cfg, Idle, "");
    h.Start(t0);
    h.OnOpen();
    var text := "{\"token\":\"abc\",\"openid\":\"u1\"}";
    assert IsLatin1(text);
    var bytes := CharCodes(text);
    FromCharCodesOfCharCodes(text);
    assert text[..9] == TokenPrefix;
    h.OnMessage(bytes, Some(TokenInfo("abc", "u1")), t1);
    h.OnPersisted();
    status, sent, saved, events := h.loginStatus, h.sent, h.saved, h.events;
  }

  /** No frame ever arrives before the socket closes. */
  method Stall(cfg: Config, t0: int) returns (status: Status, events: seq<QrEvent>)
    ensures status == LoadQrFail
    ensures events == [LoadQr(Idle), QrWsClose(LoadQrFail)]
  {
    var h := new Handshake(cfg, Idle, "");
    h.Start(t0);
    h.OnOpen();
    h.OnClose();
    status, events := h.loginStatus, h.events;
  }

  /** The socket closes after the token frame but before the credential store
      reports the save: the close report says `invalidQr`, yet the user ends
      up logged in. */
  method CloseBeforePersisted(cfg: Config, image: seq<byte>, token: seq<byte>, info: TokenInfo, t0: int, t1: int, t2: int)
    returns (status: Status, events: seq<QrEvent>)
    requires Classify(FromCharCodes(image)) == ImageFrame
    requires Classify(FromCharCodes(token)) == TokenFrame
    ensures status == LoginOk
    ensures events == [LoadQr(Idle), QrLoad(t0 - t1), QrLoginOk(info.openid, t0 - t2), QrWsClose(InvalidQr)]
  {
    var h := new Handshake(cfg, Idle, "");
    h.Start(t0);
    h.OnOpen();
    h.OnMessage(image, None, t1);
    assert h.loginStatus == ScanQr && h.events == [LoadQr(Idle), QrLoad(t0 - t1)];
    h.OnMessage(token, Some(info), t2);
    assert h.events == [LoadQr(Idle), QrLoad(t0 - t1), QrLoginOk(info.openid, t0 - t2)];
    h.OnClose();
    h.OnPersisted();
    status, events := h.loginStatus, h.events;
  }
}
