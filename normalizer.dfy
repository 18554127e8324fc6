/** The result normalizer `getResult` (src/api/api.ts lines 177-204). */
module Normalizer {
  import opened Wrappers
  import opened Transport

  /** The uniform result record (`IRequestResult`). `None` is JavaScript's
      `undefined`: an absent field. */
  datatype RequestResult = RequestResult(
    status: Option<int>,
    errMsg: string,
    data: Option<Json>,
    toastMsg: Option<string>,
    serveToastMsg: Option<string>)

  /** JavaScript truthiness of an optional string. */
  predicate Truthy(v: Option<string>)
  {
    v.Some? && v.value != ""
  }

  /** The toast synthesized when a failure's body carries none. */
  const NetworkHiccup := "网络开小差!"

  function Lookup(fields: map<string, string>, key: string): Option<string>
  {
    if key in fields then Some(fields[key]) else None
  }

  /** `data.toastMsg` as the try block left it (undefined if it threw). */
  function BodyToast(body: BodyRead): Option<string>
  {
    if body.Parsed? && body.json.JsonObject? then Lookup(body.json.fields, "toastMsg") else None
  }

  /** `data.serveToastMsg` as the try block left it. */
  function BodyServeToast(body: BodyRead): Option<string>
  {
    if body.Parsed? && body.json.JsonObject? then Lookup(body.json.fields, "serveToastMsg") else None
  }

  /** The result record for a response. The `return` inside `finally` means a
      throw while reading or parsing the body only leaves `data` and the body's
      toasts undefined (or `data` null when the body was the JSON `null`, on
      which reading `data.toastMsg` throws). */
  function GetResult(res: Response, errMsg: string): (r: RequestResult)
    ensures r.status == Some(res.status) && r.errMsg == errMsg
    ensures r.data.None? <==> res.body.Unparsable?
    ensures res.body.Parsed? ==> r.data == Some(res.body.json)
    // toast synthesis
    ensures errMsg != "" && !Truthy(BodyToast(res.body)) ==> r.toastMsg == Some(NetworkHiccup)
    ensures errMsg == "" || Truthy(BodyToast(res.body)) ==> r.toastMsg == BodyToast(res.body)
    ensures errMsg != "" ==> Truthy(r.toastMsg)
    // at most one toast is shown, and a local one wins
    ensures !(Truthy(r.toastMsg) && Truthy(r.serveToastMsg))
    ensures Truthy(r.toastMsg) ==> r.serveToastMsg == None
    ensures !Truthy(r.toastMsg) ==> r.serveToastMsg == BodyServeToast(res.body)
  {
    // try block
    var data := if res.body.Parsed? then Some(res.body.json) else None;
    var toastMsg := BodyToast(res.body);
    var serveToastMsg := BodyServeToast(res.body);
    // finally block
    var toastMsg' := if errMsg != "" && !Truthy(toastMsg) then Some(NetworkHiccup) else toastMsg;
    var serveToastMsg' := if Truthy(toastMsg') then None else serveToastMsg;
    RequestResult(Some(res.status), errMsg, data, toastMsg', serveToastMsg')
  }
}
