// src/api/apiKey.js: `createApiKey`, which exchanges an access token for an
// API key. Unlike the profile requests it tolerates an unparseable body.

module ApiKey {
  import opened Js
  import opened Fetch
  import ApiErrors

  const LoginFirst := "Please log in to create an API key."
  const NetworkMessage := "Network error: Unable to connect to the server."
  const KeyNotFound := "API key not found in response."

  /** `Failed to create API key (${response.status})` */
  function Fallback(status: int): string {
    "Failed to create API key (" + IntToString(status) + ")"
  }

  /** The request sent for a (truthy) token. `BASE_URL` comes from ./config,
      which is not part of this model. */
  function KeyRequest(baseUrl: string, accessToken: Value): Request {
    Request(baseUrl + "/auth/create-api-key", "POST",
            map["Authorization" := Str("Bearer " + ToJsString(accessToken))], NoBody)
  }

  /** What happens to the response: the body is read, null if it does not
      parse; an error status throws the API's message; a success must carry
      a truthy `data.key`. */
  function HandleKeyResponse(resp: Response): (o: Outcome)
    ensures o.Return? ==> resp.Resp? && Ok(resp) && Truthy(o.value)
  {
    match resp
    case NetworkFailure => Throw(Error(NetworkMessage))
    case Resp(status, body) =>
      var data := if body.Some? then body.value else Null;
      if !Ok(resp) then ThrowError(ApiErrors.ApiErrorMessage(data, Str(Fallback(status))))
      else
        var key := OptGet(OptGet(data, "data"), "key");
        if !Truthy(key) then Throw(Error(KeyNotFound)) else Return(key)
  }

  /** `createApiKey(accessToken)` */
  function CreateApiKey(accessToken: Value, baseUrl: string, net: Request -> Response): (c: Call)
    ensures c.sent.None? <==> !Truthy(accessToken)
    ensures c.sent.None? ==> c.outcome == Throw(Error(LoginFirst))
    ensures c.sent.Some? ==> c.sent.value == KeyRequest(baseUrl, accessToken)
  {
    if !Truthy(accessToken) then Call(None, Throw(Error(LoginFirst)))
    else
      var req := KeyRequest(baseUrl, accessToken);
      Call(Some(req), HandleKeyResponse(net(req)))
  }

  /** The request is a POST to `/auth/create-api-key` whose only header is
      the bearer token; no API key is sent, since none exists yet. */
  lemma RequestCarriesOnlyToken(baseUrl: string, accessToken: Value, net: Request -> Response)
    requires Truthy(accessToken)
    ensures var req := CreateApiKey(accessToken, baseUrl, net).sent.value;
      && req.url == baseUrl + "/auth/create-api-key"
      && req.httpMethod == "POST"
      && req.headers.Keys == {"Authorization"}
      && req.headers["Authorization"] == Str("Bearer " + ToJsString(accessToken))
      && req.body == NoBody
  {
  }

  /** The network message is specific to this call. */
  lemma NetworkFailureMessage()
    ensures HandleKeyResponse(NetworkFailure) == Throw(Error(NetworkMessage))
  {
  }

  /** An error status with an unparseable body fails with exactly the
      status-bearing fallback. */
  lemma UnparsedErrorGivesFallback(status: int)
    requires !(200 <= status <= 299)
    ensures HandleKeyResponse(Resp(status, None)) == Throw(Error(Fallback(status)))
  {
    ApiErrors.NullishDataGivesFallback(Null, Str(Fallback(status)));
  }

  /** An error status with a body fails with the API's message, by the
      precedence of `getApiErrorMessage`. */
  lemma ErrorStatusMessage(status: int, data: Value)
    requires !(200 <= status <= 299)
    ensures HandleKeyResponse(Resp(status, Some(data))) ==
      ThrowError(ApiErrors.ApiErrorMessage(data, Str(Fallback(status))))
  {
  }

  /** A successful response yields `data.data.key` when it is truthy and
      fails with "API key not found in response." otherwise, in particular
      when the body does not parse. */
  lemma SuccessYieldsKey(status: int, body: Option<Value>)
    requires 200 <= status <= 299
    ensures var data := if body.Some? then body.value else Null;
      var key := OptGet(OptGet(data, "data"), "key");
      HandleKeyResponse(Resp(status, body)) ==
        if Truthy(key) then Return(key) else Throw(Error(KeyNotFound))
    ensures body.None? ==> HandleKeyResponse(Resp(status, body)) == Throw(Error(KeyNotFound))
  {
  }
}
