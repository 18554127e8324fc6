/** Endpoint and client identity, chosen once when the module loads
    (src/api/api.ts lines 7-15) and never changed afterwards. */
module Environment {

  datatype Config = Config(
    protocol: string,
    webSocketProtocol: string,
    baseUrl: string,
    client: string,
    clientVersion: string)

  /** The build modes that select the local endpoint. */
  predicate IsLocalMode(mode: string)
  {
    mode == "test" || mode == "jest"
  }

  /** The configuration for a build mode; `client` and `clientVersion` come
      from the build configuration, which is not part of this model. */
  function ForMode(mode: string, client: string, clientVersion: string): (c: Config)
    ensures c.client == client && c.clientVersion == clientVersion
    ensures IsLocalMode(mode) ==> c.protocol == "http://" && c.webSocketProtocol == "ws://"
    ensures !IsLocalMode(mode) ==> c.protocol == "https://" && c.webSocketProtocol == "wss://"
    ensures c.baseUrl == (if IsLocalMode(mode) then "localhost:8080/p" else "www.fishfit.fun:8080/p")
  {
    var production := Config("https://", "wss://", "www.fishfit.fun:8080/p", client, clientVersion);
    if IsLocalMode(mode) then
      production.(protocol := "http://", webSocketProtocol := "ws://", baseUrl := "localhost:8080/p")
    else production
  }
}
