/** The shared HTTP client of the web app: the request interceptor that
    attaches the stored JWT as a Bearer header, and the response
    interceptor that forgets the token when the server answers 401. */
module ApiClient {

  import opened Js
  import AuthRoutes

  /** `localStorage`, as a map from item name to stored string. */
  type Storage = map<string, string>

  /** Where the token lives. */
  const TokenKey: string := "authToken"

  /** The parts of an outgoing request the interceptor touches. */
  datatype RequestConfig = RequestConfig(url: string, headers: map<string, string>)

  /** `localStorage.getItem('authToken')`: null when absent. */
  function StoredToken(storage: Storage): Option<string> {
    if TokenKey in storage then Some(storage[TokenKey]) else None
  }

  /** The request interceptor: with a truthy stored token, the Authorization
      header becomes `Bearer <token>`; otherwise the config goes out as it came. */
  function OnRequest(config: RequestConfig, storage: Storage): (r: RequestConfig)
    ensures TruthyStr(StoredToken(storage)) ==>
              r == config.(headers := config.headers["Authorization" := "Bearer " + storage[TokenKey]])
    ensures !TruthyStr(StoredToken(storage)) ==> r == config
    ensures r.url == config.url
    ensures forall h :: h in config.headers && h != "Authorization" ==> h in r.headers && r.headers[h] == config.headers[h]
  {
    var token := StoredToken(storage);
    if TruthyStr(token) then config.(headers := config.headers["Authorization" := "Bearer " + token.value])
    else config
  }

  /** A failed response as the interceptor sees it: `error.response?.status`
      is `None` when there was no response at all. */
  datatype HttpError = HttpError(status: Option<int>)

  /** The outcome handed to the caller: every response passes through, every
      error is rejected again. */
  datatype Settled<+T> = Resolved(response: T) | Rejected(error: HttpError)

  /** The success side of the response interceptor. */
  function OnResponse<T>(response: T): (r: Settled<T>)
    ensures r == Resolved(response)
  {
    Resolved(response)
  }

  /** The error side: a 401 drops the token; the error is rejected either way. */
  function OnResponseError<T>(error: HttpError, storage: Storage): (r: (Settled<T>, Storage))
    ensures r.0 == Rejected(error)
    ensures error.status == Some(401) ==> TokenKey !in r.1
    ensures error.status != Some(401) ==> r.1 == storage
    ensures forall k :: k != TokenKey ==> (k in r.1 <==> k in storage) && (k in storage ==> r.1[k] == storage[k])
  {
    if error.status == Some(401) then (Rejected(error), storage - {TokenKey}) else (Rejected(error), storage)
  }

  /** After a 401 the next request carries no new Authorization header. */
  lemma NoBearerAfterUnauthorized<T>(config: RequestConfig, storage: Storage)
    ensures var s := OnResponseError<T>(HttpError(Some(401)), storage).1;
            OnRequest(config, s) == config
  {
  }

  /** The header the client builds is the one the server's JWT strategy
      reads back: for a stored token without spaces, extracting the token
      from the sent Authorization header gives the stored token. */
  lemma SentTokenReachesServer(config: RequestConfig, storage: Storage)
    requires TokenKey in storage && storage[TokenKey] != "" && ' ' !in storage[TokenKey]
    ensures "Authorization" in OnRequest(config, storage).headers
    ensures AuthRoutes.ExtractToken(Some(OnRequest(config, storage).headers["Authorization"]))
            == Some(storage[TokenKey])
  {
    AuthRoutes.BearerRoundTrip(storage[TokenKey]);
  }
}
