/** The minimal fetch wrapper `baseFetch` (src/api/api.ts lines 88-109):
    success and failure are told apart by the status code alone. */
module Transport {

  /** What `JSON.parse` made of a body. Only string-valued fields are kept;
      a parsed number, string or array behaves like an object without the
      fields the client looks at. */
  datatype Json = JsonNull | JsonObject(fields: map<string, string>)

  /** The outcome of `JSON.parse(await res.text())`; `Unparsable` stands for
      reading the body or parsing it throwing. */
  datatype BodyRead = Unparsable | Parsed(json: Json)

  datatype Response = Response(status: int, body: BodyRead)

  /** What the network did with one dispatched request. */
  datatype Exchange = Responded(res: Response) | TransportError

  /** How the promise returned by `baseFetch` settles: resolved with the
      response, rejected with the response, or rejected with `'fetch_err'`. */
  datatype Settled = Resolved(res: Response) | Rejected(res: Response) | FetchErr

  /** The default of `successStatusCode`. */
  const DefaultSuccessStatusCode: seq<int> := [200, 201]

  function BaseFetch(exchange: Exchange, successStatusCode: seq<int>): (s: Settled)
    ensures s.Resolved? <==> exchange.Responded? && exchange.res.status in successStatusCode
    ensures s.Rejected? <==> exchange.Responded? && exchange.res.status !in successStatusCode
    ensures s.FetchErr? <==> exchange.TransportError?
    ensures !s.FetchErr? ==> s.res == exchange.res
  {
    match exchange
    case TransportError => FetchErr
    case Responded(res) => if res.status in successStatusCode then Resolved(res) else Rejected(res)
  }
}
