// src/api/posts.js: `getAllPosts`, which does not go through the shared
// `request` helper and so handles failures its own way.

module Posts {
  import opened Js
  import opened Fetch
  import ApiErrors

  /** `${BASE_URL}/social/posts?_author=true&_reactions=true&_comments=true`,
      with this module's own BASE_URL. */
  const PostsUrl := "https://v2.api.noroff.dev/social/posts?_author=true&_reactions=true&_comments=true"
  const FetchFailed := "Failed to fetch posts"

  /** The request: a GET (the `fetch` default) of the posts with their
      author, reactions and comments, carrying the stored token and API key. */
  function PostsRequest(token: Value, apiKey: Value): Request {
    Request(PostsUrl, "GET", map["Authorization" := Str("Bearer " + ToJsString(token)),
                                 "x-Noroff-Api-Key" := apiKey], NoBody)
  }

  /** Nothing guards `fetch` or `response.json()`, so a transport failure is
      the TypeError `fetch` rejects with and an unparseable body is a
      SyntaxError; `data.errors` and `data.data` on a null body are TypeErrors. */
  function HandlePostsResponse(resp: Response): (o: Outcome)
    ensures o.Return? ==> resp.Resp? && Ok(resp) && !o.value.Null?
  {
    match resp
    case NetworkFailure => Throw(TypeError)
    case Resp(status, body) =>
      if body.None? then Throw(SyntaxError)
      else
        var data := body.value;
        if Nullish(data) then Throw(TypeError)
        else if !Ok(resp) then ThrowError(Coalesce(ApiErrors.FirstMessage(OptGet(data, "errors")), Str(FetchFailed)))
        else Return(Coalesce(OptGet(data, "data"), data))
  }

  /** `getAllPosts()`, with `getToken()` and `getApiKey()` as inputs. */
  function GetAllPosts(token: Value, apiKey: Value, net: Request -> Response): (c: Call)
    ensures c.sent == Some(PostsRequest(token, apiKey))
  {
    var req := PostsRequest(token, apiKey);
    Call(Some(req), HandlePostsResponse(net(req)))
  }

  /** The headers are the bearer token and the API key, under the header name
      this module spells "x-Noroff-Api-Key". */
  lemma RequestShape(token: Value, apiKey: Value)
    ensures var req := PostsRequest(token, apiKey);
      && req.headers.Keys == {"Authorization", "x-Noroff-Api-Key"}
      && req.headers["Authorization"] == Str("Bearer " + ToJsString(token))
      && req.headers["x-Noroff-Api-Key"] == apiKey
      && req.url == PostsUrl && req.httpMethod == "GET" && req.body == NoBody
  {
  }

  /** An error response fails with the first structured error's message, or
      "Failed to fetch posts" when that is null or missing; an empty message
      is kept. */
  lemma ErrorMessage(status: int, data: Value)
    requires !(200 <= status <= 299) && !Nullish(data)
    ensures var m := ApiErrors.FirstMessage(OptGet(data, "errors"));
      HandlePostsResponse(Resp(status, Some(data))) ==
        if Nullish(m) then Throw(Error(FetchFailed)) else ThrowError(m)
  {
  }

  /** The top-level `message` of an error body is never consulted. */
  lemma TopLevelMessageIgnored(status: int, fields: map<string, Value>, m: Value)
    requires !(200 <= status <= 299)
    ensures HandlePostsResponse(Resp(status, Some(Obj(fields["message" := m])))) ==
            HandlePostsResponse(Resp(status, Some(Obj(fields - {"message"}))))
  {
    var with := Obj(fields["message" := m]);
    var without := Obj(fields - {"message"});
    assert OptGet(with, "errors") == OptGet(without, "errors");
  }

  /** A successful body is unwrapped from `data` unless that is null or missing. */
  lemma SuccessUnwrapsData(status: int, data: Value)
    requires 200 <= status <= 299 && !Nullish(data)
    ensures HandlePostsResponse(Resp(status, Some(data))) == Return(Coalesce(OptGet(data, "data"), data))
    ensures !Nullish(OptGet(data, "data")) ==>
      HandlePostsResponse(Resp(status, Some(data))) == Return(data.fields["data"])
  {
  }

  /** Where `request` would report its own message, this call surfaces the
      runtime's errors. */
  lemma UnguardedFailures(status: int)
    ensures HandlePostsResponse(NetworkFailure) == Throw(TypeError)
    ensures HandlePostsResponse(Resp(status, None)) == Throw(SyntaxError)
    ensures HandlePostsResponse(Resp(status, Some(Null))) == Throw(TypeError)
  {
  }
}
