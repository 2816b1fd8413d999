// src/api/auth.js: `registerUser`, one POST and a conditional throw or return.

module Auth {
  import opened Js
  import opened Fetch
  import ApiErrors

  /** `${BASE_URL}/auth/register`, with this module's own BASE_URL. */
  const RegisterUrl := "https://v2.api.noroff.dev/auth/register"
  const RegistrationFailed := "Registration failed"

  /** The request: a JSON POST of the user data. */
  function RegisterRequest(userData: Value): Request {
    Request(RegisterUrl, "POST", map["Content-Type" := Str("application/json")], JsonBody(userData))
  }

  /** Nothing guards `fetch` or `response.json()`; `data.errors` on a null
      error body is a TypeError. The message falls through with `||`, so an
      empty message is replaced as well. A success returns the whole body. */
  function HandleRegisterResponse(resp: Response): (o: Outcome)
    ensures o.Return? ==> resp.Resp? && Ok(resp) && resp.body == Some(o.value)
  {
    match resp
    case NetworkFailure => Throw(TypeError)
    case Resp(status, body) =>
      if body.None? then Throw(SyntaxError)
      else
        var data := body.value;
        if !Ok(resp) then
          if Nullish(data) then Throw(TypeError)
          else ThrowError(Or(ApiErrors.FirstMessage(OptGet(data, "errors")), Str(RegistrationFailed)))
        else Return(data)
  }

  /** `registerUser(userData)` */
  function RegisterUser(userData: Value, net: Request -> Response): (c: Call)
    ensures c.sent == Some(RegisterRequest(userData))
  {
    var req := RegisterRequest(userData);
    Call(Some(req), HandleRegisterResponse(net(req)))
  }

  lemma RequestShape(userData: Value)
    ensures var req := RegisterRequest(userData);
      && req.url == RegisterUrl
      && req.httpMethod == "POST"
      && req.headers == map["Content-Type" := Str("application/json")]
      && req.body == JsonBody(userData)
  {
  }

  /** An error response fails with the first structured error's message if
      it is truthy, and with "Registration failed" otherwise. */
  lemma ErrorMessage(status: int, data: Value)
    requires !(200 <= status <= 299) && !Nullish(data)
    ensures var m := ApiErrors.FirstMessage(OptGet(data, "errors"));
      HandleRegisterResponse(Resp(status, Some(data))) ==
        if Truthy(m) then ThrowError(m) else Throw(Error(RegistrationFailed))
  {
  }

  /** Unlike `getApiErrorMessage`, an empty message is replaced. */
  lemma EmptyMessageReplaced(status: int)
    requires !(200 <= status <= 299)
    ensures var data := Obj(map["errors" := Arr([Obj(map["message" := Str("")])])]);
      && HandleRegisterResponse(Resp(status, Some(data))) == Throw(Error(RegistrationFailed))
      && ApiErrors.ApiErrorMessage(data, Undefined) == Str("")
  {
    var data := Obj(map["errors" := Arr([Obj(map["message" := Str("")])])]);
    assert ApiErrors.FirstMessage(OptGet(data, "errors")) == Str("");
    ApiErrors.EmptyMessageKept(data, Undefined);
  }

  /** The top-level `message` of an error body is never consulted. */
  lemma TopLevelMessageIgnored(status: int, fields: map<string, Value>, m: Value)
    requires !(200 <= status <= 299)
    ensures HandleRegisterResponse(Resp(status, Some(Obj(fields["message" := m])))) ==
            HandleRegisterResponse(Resp(status, Some(Obj(fields - {"message"}))))
  {
    var with := Obj(fields["message" := m]);
    var without := Obj(fields - {"message"});
    assert OptGet(with, "errors") == OptGet(without, "errors");
  }

  /** A success returns the parsed body as it is, even when it wraps `data`
      and even when it is null. */
  lemma SuccessReturnsBody(status: int, data: Value)
    requires 200 <= status <= 299
    ensures HandleRegisterResponse(Resp(status, Some(data))) == Return(data)
  {
  }
}
