/** The authenticated request pipeline `serveBaseReq` (src/api/api.ts lines
    113-175) and the four domain operations built on it (lines 206-253).

    Each call is one sequential run: the credential lookup, the network
    exchange and the two clock readings are inputs; the settled result, the
    request handed to `fetch`, the observer call and the telemetry record are
    the outputs. */
module Pipeline {
  import opened Wrappers
  import opened Environment
  import opened Transport
  import opened Normalizer

  /** The caller's `data` object, opaque here. */
  type Payload = map<string, string>

  /** `JSON.stringify(data)`, left symbolic. */
  datatype Wire = Stringified(data: Payload)

  /** What is handed to `fetch`. */
  datatype Request = Request(target: string, httpMethod: string, headers: map<string, string>, body: Wire)

  /** The arguments of `serveBaseReq` other than `headers`; `success` and
      `fail` say whether the optional callbacks were supplied. */
  datatype Call = Call(
    url: string,
    httpMethod: string,
    data: Payload,
    auth: bool,
    successStatusCode: seq<int>,
    success: bool,
    fail: bool)

  /** The telemetry record sent to the analytics sink. */
  datatype Event =
    | ServeReqOk(url: string, httpMethod: string, cost: int)
    | ServeReqFail(url: string, httpMethod: string, cost: int)

  /** What an observer callback receives: the record itself, or a promise of
      it (the `reject(getResult(...))` path rejects with a promise, and
      `reject` does not unwrap promises). */
  datatype Passed = Record(r: RequestResult) | PromiseOf(r: RequestResult)

  datatype Notified = NoObserver | SuccessCalled(arg: Passed) | FailCalled(arg: Passed)

  /** One settled call. `ok` says whether the internal promise resolved (the
      `.then` branch) or rejected (the `.catch` branch); the outer promise
      resolves with `result` in both cases. */
  datatype Outcome = Outcome(
    dispatched: Option<Request>,
    ok: bool,
    result: RequestResult,
    notified: Notified,
    event: Event)

  const NeedLogin := "needLogin"
  const NeedRelogin := "needRelogin"

  /** The toast of a request that never reached the server. */
  const FetchHiccup := "网络开小差了!"

  /** The credential store's answers that mean there is no usable session. */
  predicate IsSessionMarker(token: string)
  {
    token == NeedLogin || token == NeedRelogin
  }

  function AuthFailTag(url: string): string
  {
    "authReq_" + url + "_err"
  }

  function FetchFailTag(url: string): string
  {
    "fetchReq_" + url + "_err"
  }

  /** The caller's header object after the writes of lines 120 and 127-128:
      `Authorization` first (when `auth`), then `c` and `cv`, which the
      short-circuit of lines 121-124 skips. */
  function WrittenHeaders(cfg: Config, auth: bool, token: string, headers: map<string, string>): map<string, string>
  {
    var withAuth := if auth then headers["Authorization" := token] else headers;
    if auth && IsSessionMarker(token) then withAuth
    else withAuth["c" := cfg.client]["cv" := cfg.clientVersion]
  }

  /** The `.then`/`.catch` tail of lines 150-174: one telemetry record, then the
      observer, then the value is passed on. */
  function Settle(call: Call, dispatched: Option<Request>, ok: bool, passed: Passed, start: int, end: int): Outcome
  {
    var cost := end - start;
    Outcome(
      dispatched,
      ok,
      passed.r,
      if ok then (if call.success then SuccessCalled(passed) else NoObserver)
      else (if call.fail then FailCalled(passed) else NoObserver),
      if ok then ServeReqOk(call.url, call.httpMethod, cost) else ServeReqFail(call.url, call.httpMethod, cost))
  }

  /** `serveBaseReq` for a caller whose observer callbacks do not throw.
      `headers` is the caller's header object before the call, `token` the
      answer of the credential store (read only when `auth`), `exchange` what
      the network did with the request, `start` and `end` the clock readings. */
  function Serve(cfg: Config, call: Call, headers: map<string, string>, token: string,
                 exchange: Exchange, start: int, end: int): (o: Outcome)
    // the auth short-circuit: no request, status 0, the marker as tag
    ensures o.dispatched.None? <==> call.auth && IsSessionMarker(token)
    ensures o.dispatched.None? ==>
      !o.ok && o.result == RequestResult(Some(0), token, Some(JsonNull), None, None)
    // what is handed to fetch
    ensures o.dispatched.Some? ==>
      var req := o.dispatched.value;
      && req.target == cfg.protocol + cfg.baseUrl + call.url
      && req.httpMethod == call.httpMethod
      && req.body == Stringified(call.data)
      && req.headers == WrittenHeaders(cfg, call.auth, token, headers)
      && req.headers["c"] == cfg.client && req.headers["cv"] == cfg.clientVersion
      && (call.auth ==> req.headers["Authorization"] == token)
      && ("Authorization" in req.headers <==> call.auth || "Authorization" in headers)
    // resolved exactly on an accepted status
    ensures o.ok <==>
      o.dispatched.Some? && exchange.Responded? && exchange.res.status in call.successStatusCode
    // the error tag and toast of each path
    ensures o.ok ==> o.result == GetResult(exchange.res, "")
    ensures o.dispatched.Some? && exchange.Responded? && !o.ok ==>
      o.result == GetResult(exchange.res, AuthFailTag(call.url))
    ensures o.dispatched.Some? && exchange.TransportError? ==>
      o.result == RequestResult(None, FetchFailTag(call.url), None, Some(FetchHiccup), None)
    // every failure of a dispatched request shows a toast; at most one toast ever
    ensures o.dispatched.Some? && !o.ok ==> Truthy(o.result.toastMsg)
    ensures !(Truthy(o.result.toastMsg) && Truthy(o.result.serveToastMsg))
    // exactly one telemetry record, chosen by the branch
    ensures o.event == (if o.ok then ServeReqOk(call.url, call.httpMethod, end - start)
                        else ServeReqFail(call.url, call.httpMethod, end - start))
    // observers see the settled value (the server-rejection path: a promise of it)
    ensures o.ok ==> o.notified == (if call.success then SuccessCalled(Record(o.result)) else NoObserver)
    ensures !o.ok ==>
      var arg := if o.dispatched.Some? && exchange.Responded? then PromiseOf(o.result) else Record(o.result);
      o.notified == (if call.fail then FailCalled(arg) else NoObserver)
  {
    if call.auth && IsSessionMarker(token) then
      Settle(call, None, false, Record(RequestResult(Some(0), token, Some(JsonNull), None, None)), start, end)
    else
      var req := Request(cfg.protocol + cfg.baseUrl + call.url, call.httpMethod,
                         WrittenHeaders(cfg, call.auth, token, headers), Stringified(call.data));
      match BaseFetch(exchange, call.successStatusCode)
      case Resolved(res) =>
        Settle(call, Some(req), true, Record(GetResult(res, "")), start, end)
      case Rejected(res) =>
        Settle(call, Some(req), false, PromiseOf(GetResult(res, AuthFailTag(call.url))), start, end)
      case FetchErr =>
        Settle(call, Some(req), false,
               Record(RequestResult(None, FetchFailTag(call.url), None, Some(FetchHiccup), None)), start, end)
  }

  /** The caller's `headers` object, which `serveBaseReq` writes into. */
  class Headers {
    var fields: map<string, string>

    constructor (fields: map<string, string>)
      ensures this.fields == fields
    {
      this.fields := fields;
    }
  }

  /** `serveBaseReq` with its in-place header writes. */
  method ServeBaseReq(cfg: Config, call: Call, headers: Headers, token: string,
                      exchange: Exchange, start: int, end: int) returns (o: Outcome)
    modifies headers
    ensures headers.fields == WrittenHeaders(cfg, call.auth, token, old(headers.fields))
    ensures o == Serve(cfg, call, old(headers.fields), token, exchange, start, end)
  {
    if call.auth {
      headers.fields := headers.fields["Authorization" := token];
      if IsSessionMarker(headers.fields["Authorization"]) {
        o := Settle(call, None, false,
                    Record(RequestResult(Some(0), headers.fields["Authorization"], Some(JsonNull), None, None)),
                    start, end);
        return;
      }
    }
    headers.fields := headers.fields["c" := cfg.client];
    headers.fields := headers.fields["cv" := cfg.clientVersion];
    var req := Request(cfg.protocol + cfg.baseUrl + call.url, call.httpMethod, headers.fields, Stringified(call.data));
    var settled := BaseFetch(exchange, call.successStatusCode);
    var passed;
    if settled.Resolved? {
      passed := Record(GetResult(settled.res, ""));
    } else if settled.Rejected? {
      passed := PromiseOf(GetResult(settled.res, AuthFailTag(call.url)));
    } else {
      passed := Record(RequestResult(None, FetchFailTag(call.url), None, Some(FetchHiccup), None));
    }
    o := Settle(call, Some(req), settled.Resolved?, passed, start, end);
  }

  // ---- Domain operations: fixed configurations of the pipeline ----

  const PhrasePath := "/phrase"

  /** `collectResult`: create a marked phrase (POST, authenticated, accepts 201 only).
      `success` and `fail` say whether the caller supplied its optional
      observers; the wrappers of the domain operations pass the value on to
      them when they are present. */
  function CollectResult(cfg: Config, data: Payload, success: bool, fail: bool, token: string,
                         exchange: Exchange, start: int, end: int): (o: Outcome)
    ensures o.dispatched.Some? <==> !IsSessionMarker(token)
    ensures o.dispatched.Some? ==>
      && o.dispatched.value.httpMethod == "POST"
      && o.dispatched.value.target == cfg.protocol + cfg.baseUrl + PhrasePath
      && "Authorization" in o.dispatched.value.headers
      && o.dispatched.value.headers["Authorization"] == token
    ensures o.ok <==> !IsSessionMarker(token) && exchange.Responded? && exchange.res.status == 201
    ensures o.notified.SuccessCalled? <==> o.ok && success
    ensures o.notified.FailCalled? <==> !o.ok && fail
  {
    Serve(cfg, Call(PhrasePath, "POST", data, true, [201], success, fail), map[], token, exchange, start, end)
  }

  /** `reduceCollect`: delete a marked phrase (DELETE, authenticated, accepts 200 only). */
  function ReduceCollect(cfg: Config, data: Payload, success: bool, fail: bool, token: string,
                         exchange: Exchange, start: int, end: int): (o: Outcome)
    ensures o.dispatched.Some? <==> !IsSessionMarker(token)
    ensures o.dispatched.Some? ==>
      && o.dispatched.value.httpMethod == "DELETE"
      && o.dispatched.value.target == cfg.protocol + cfg.baseUrl + PhrasePath
      && "Authorization" in o.dispatched.value.headers
      && o.dispatched.value.headers["Authorization"] == token
    ensures o.ok <==> !IsSessionMarker(token) && exchange.Responded? && exchange.res.status == 200
    ensures o.notified.SuccessCalled? <==> o.ok && success
    ensures o.notified.FailCalled? <==> !o.ok && fail
  {
    Serve(cfg, Call(PhrasePath, "DELETE", data, true, [200], success, fail), map[], token, exchange, start, end)
  }

  /** `updateMark`: update a marked phrase (PUT, authenticated, accepts 200 only). */
  function UpdateMark(cfg: Config, data: Payload, success: bool, fail: bool, token: string,
                         exchange: Exchange, start: int, end: int): (o: Outcome)
    ensures o.dispatched.Some? <==> !IsSessionMarker(token)
    ensures o.dispatched.Some? ==>
      && o.dispatched.value.httpMethod == "PUT"
      && o.dispatched.value.target == cfg.protocol + cfg.baseUrl + PhrasePath
      && "Authorization" in o.dispatched.value.headers
      && o.dispatched.value.headers["Authorization"] == token
    ensures o.ok <==> !IsSessionMarker(token) && exchange.Responded? && exchange.res.status == 200
    ensures o.notified.SuccessCalled? <==> o.ok && success
    ensures o.notified.FailCalled? <==> !o.ok && fail
  {
    Serve(cfg, Call(PhrasePath, "PUT", data, true, [200], success, fail), map[], token, exchange, start, end)
  }

  /** `sendEvent`: fire-and-forget tracking (POST, no credential, default
      accepted set, no-op observers). The credential store is never read, so no
      token is an input. */
  function SendEvent(cfg: Config, data: Payload, exchange: Exchange, start: int, end: int): (o: Outcome)
    ensures o.dispatched.Some?
    ensures o.dispatched.value.httpMethod == "POST"
    ensures o.dispatched.value.target == cfg.protocol + cfg.baseUrl + PhrasePath
    ensures o.dispatched.value.headers == map["c" := cfg.client, "cv" := cfg.clientVersion]
    ensures o.ok <==> exchange.Responded? && exchange.res.status in {200, 201}
  {
    Serve(cfg, Call(PhrasePath, "POST", data, false, DefaultSuccessStatusCode, true, true), map[], "", exchange, start, end)
  }
}
