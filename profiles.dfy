// src/api/profiles.js: authenticated requests to the profile endpoints.
// `request` is one pass over one response; each endpoint validates its
// arguments, builds a path and hands it to `request`.

module Profiles {
  import opened Js
  import opened Fetch
  import ApiErrors
  import Uri
  import Strings

  const NetworkMessage := "Network error. Please check your connection and try again."
  const MissingName := "Missing profile name."
  const NotLoggedIn := "User not logged in."
  const InvalidData := "Invalid profile data."

  /** The fallback message each endpoint hands to `request`. */
  const ProfileFailed := "Failed to fetch profile"
  const PostsFailed := "Failed to fetch profile posts"
  const FollowFailed := "Failed to follow profile"
  const UnfollowFailed := "Failed to unfollow profile"
  const UpdateFailed := "Failed to update profile"

  /** What the module reads from elsewhere: `BASE_URL` from ./config and the
      stored token and API key (`getToken()`, `getApiKey()`), none of which
      is part of this model. */
  datatype Env = Env(baseUrl: string, token: Value, apiKey: Value)

  /** `createAuthHeaders(extraHeaders)`: the bearer token and the API key,
      then the caller's headers spread over them. */
  function AuthHeaders(token: Value, apiKey: Value, extra: map<string, Value>): (h: map<string, Value>)
    ensures h.Keys == extra.Keys + {"Authorization", "X-Noroff-API-Key"}
    ensures forall k :: k in extra ==> h[k] == extra[k]
    ensures "Authorization" !in extra ==> h["Authorization"] == Str("Bearer " + ToJsString(token))
    ensures "X-Noroff-API-Key" !in extra ==> h["X-Noroff-API-Key"] == apiKey
  {
    map["Authorization" := Str("Bearer " + ToJsString(token)), "X-Noroff-API-Key" := apiKey] + extra
  }

  /** `encodeName(name)`: None stands for the "Missing profile name." error
      thrown for a falsy name. The encoded name holds no path or query
      delimiter and decodes back to the name. */
  function EncodeName(name: Value): (r: Option<string>)
    ensures r.None? <==> !Truthy(name)
    ensures r.Some? ==> forall i :: 0 <= i < |r.value| ==>
      Uri.Unreserved(r.value[i]) || r.value[i] == '%'
    ensures r.Some? ==> Uri.DecodeComponent(r.value) == Some(ToJsString(name))
  {
    if !Truthy(name) then None
    else
      var s := ToJsString(name);
      Uri.EncodedIsSafe(s);
      Uri.DecodeEncode(s);
      Some(Uri.EncodeComponent(s))
  }

  /** The status-bearing fallback `${fallbackMessage} (Status: ${status})`. */
  function StatusFallback(fallback: string, status: int): string {
    fallback + " (Status: " + IntToString(status) + ")"
  }

  /** What `request` does with the response `fetch` produced. */
  function HandleResponse(resp: Response, fallback: string): (o: Outcome)
    ensures o.Return? ==> resp.Resp? && (resp.status == 204 || Ok(resp))
  {
    match resp
    case NetworkFailure => Throw(Error(NetworkMessage))
    case Resp(status, body) =>
      if status == 204 then Return(Null)
      else if body.None? then Throw(SyntaxError)
      else
        var data := body.value;
        if !Ok(resp) then ThrowError(ApiErrors.ApiErrorMessage(data, Str(StatusFallback(fallback, status))))
        else if Nullish(data) then Throw(TypeError)
        else Return(Coalesce(OptGet(data, "data"), data))
  }

  /** `request(path, {method, headers, body}, fallbackMessage)`. */
  function Send(path: string, httpMethod: string, extra: map<string, Value>, body: Body,
                fallback: string, env: Env, net: Request -> Response): (c: Call)
    ensures c.sent.Some? && c.sent.value.url == env.baseUrl + path
    ensures c.sent.value.headers == AuthHeaders(env.token, env.apiKey, extra)
    ensures c.sent.value.httpMethod == httpMethod && c.sent.value.body == body
    ensures c.outcome == HandleResponse(net(c.sent.value), fallback)
  {
    var req := Request(env.baseUrl + path, httpMethod, AuthHeaders(env.token, env.apiKey, extra), body);
    Call(Some(req), HandleResponse(net(req), fallback))
  }

  /** The paths of the profile endpoints: `/social/profiles/<name>`, then
      `/<action>` when there is one, then `?<query>` when there is one. */
  function ProfilePath(safeName: string, action: string, query: string): string {
    ProfileRoute(safeName, action) + (if query == "" then "" else "?" + query)
  }

  function ProfileRoute(safeName: string, action: string): string {
    "/social/profiles/" + safeName + (if action == "" then "" else "/" + action)
  }

  function ProfilesQuery(): string {
    "_posts=true&_followers=true&_following=true"
  }

  /** `{ limit = 20, page = 1 }`: a destructuring default replaces only undefined. */
  function Default(v: Value, d: Value): Value {
    if v.Undefined? then d else v
  }

  function PostsQuery(limit: Value, page: Value): string {
    "_reactions=true&_comments=true&_limit=" + ToJsString(Default(limit, Num(20)))
      + "&_page=" + ToJsString(Default(page, Num(1))) + "&_author=true"
  }

  function GetProfileByName(name: Value, env: Env, net: Request -> Response): (c: Call)
    ensures c.sent.None? <==> !Truthy(name)
    ensures c.sent.None? ==> c.outcome == Throw(Error(MissingName))
    ensures c.sent.Some? ==> (c.sent.value.httpMethod == "GET" &&
      c.sent.value.url == env.baseUrl + ProfilePath(EncodeName(name).value, "", ProfilesQuery()))
    ensures c.sent.Some? ==>
      c.sent.value.body == NoBody && c.sent.value.headers == AuthHeaders(env.token, env.apiKey, map[])
    ensures c.sent.Some? ==> c.outcome == HandleResponse(net(c.sent.value), ProfileFailed)
  {
    match EncodeName(name)
    case None => Call(None, Throw(Error(MissingName)))
    case Some(safeName) =>
      Send(ProfilePath(safeName, "", ProfilesQuery()), "GET", map[], NoBody, ProfileFailed, env, net)
  }

  function GetProfilePosts(name: Value, limit: Value, page: Value, env: Env, net: Request -> Response): (c: Call)
    ensures c.sent.None? <==> !Truthy(name)
    ensures c.sent.None? ==> c.outcome == Throw(Error(MissingName))
    ensures c.sent.Some? ==> (c.sent.value.httpMethod == "GET" &&
      c.sent.value.url == env.baseUrl + ProfilePath(EncodeName(name).value, "posts", PostsQuery(limit, page)))
    ensures c.sent.Some? ==>
      c.sent.value.body == NoBody && c.sent.value.headers == AuthHeaders(env.token, env.apiKey, map[])
    ensures c.sent.Some? ==> c.outcome == HandleResponse(net(c.sent.value), PostsFailed)
  {
    match EncodeName(name)
    case None => Call(None, Throw(Error(MissingName)))
    case Some(safeName) =>
      Send(ProfilePath(safeName, "posts", PostsQuery(limit, page)), "GET", map[], NoBody,
           PostsFailed, env, net)
  }

  /** `getMyProfile()` with `getUser()`'s result as `user`. */
  function GetMyProfile(user: Value, env: Env, net: Request -> Response): (c: Call)
    ensures !Truthy(user) ==> c == Call(None, Throw(Error(NotLoggedIn)))
    ensures Truthy(user) ==> c == GetProfileByName(OptGet(user, "name"), env, net)
  {
    if !Truthy(user) then Call(None, Throw(Error(NotLoggedIn)))
    else GetProfileByName(OptGet(user, "name"), env, net)
  }

  function FollowProfile(name: Value, env: Env, net: Request -> Response): (c: Call)
    ensures c.sent.None? <==> !Truthy(name)
    ensures c.sent.None? ==> c.outcome == Throw(Error(MissingName))
    ensures c.sent.Some? ==> (c.sent.value.httpMethod == "PUT" &&
      c.sent.value.url == env.baseUrl + ProfilePath(EncodeName(name).value, "follow", ""))
    ensures c.sent.Some? ==>
      c.sent.value.body == NoBody && c.sent.value.headers == AuthHeaders(env.token, env.apiKey, map[])
    ensures c.sent.Some? ==> c.outcome == HandleResponse(net(c.sent.value), FollowFailed)
  {
    match EncodeName(name)
    case None => Call(None, Throw(Error(MissingName)))
    case Some(safeName) =>
      Send(ProfilePath(safeName, "follow", ""), "PUT", map[], NoBody, FollowFailed, env, net)
  }

  function UnfollowProfile(name: Value, env: Env, net: Request -> Response): (c: Call)
    ensures c.sent.None? <==> !Truthy(name)
    ensures c.sent.None? ==> c.outcome == Throw(Error(MissingName))
    ensures c.sent.Some? ==> (c.sent.value.httpMethod == "PUT" &&
      c.sent.value.url == env.baseUrl + ProfilePath(EncodeName(name).value, "unfollow", ""))
    ensures c.sent.Some? ==>
      c.sent.value.body == NoBody && c.sent.value.headers == AuthHeaders(env.token, env.apiKey, map[])
    ensures c.sent.Some? ==> c.outcome == HandleResponse(net(c.sent.value), UnfollowFailed)
  {
    match EncodeName(name)
    case None => Call(None, Throw(Error(MissingName)))
    case Some(safeName) =>
      Send(ProfilePath(safeName, "unfollow", ""), "PUT", map[], NoBody, UnfollowFailed, env, net)
  }

  /** `typeof payload === "object"` holds for null, arrays and objects; with
      null excluded by `!payload`, the payload must be an array or object. */
  function UpdateProfile(name: Value, payload: Value, env: Env, net: Request -> Response): (c: Call)
    ensures c.sent.None? <==> !Truthy(name) || !(payload.Arr? || payload.Obj?)
    ensures !Truthy(name) ==> c.outcome == Throw(Error(MissingName))
    ensures Truthy(name) && !(payload.Arr? || payload.Obj?) ==> c.outcome == Throw(Error(InvalidData))
    ensures c.sent.Some? ==> c.sent.value.httpMethod == "PUT" && c.sent.value.body == JsonBody(payload)
    ensures c.sent.Some? ==> c.sent.value.url == env.baseUrl + ProfilePath(EncodeName(name).value, "", "")
    ensures c.sent.Some? ==>
      c.sent.value.headers == AuthHeaders(env.token, env.apiKey, map["Content-Type" := Str("application/json")])
    ensures c.sent.Some? ==> c.outcome == HandleResponse(net(c.sent.value), UpdateFailed)
  {
    match EncodeName(name)
    case None => Call(None, Throw(Error(MissingName)))
    case Some(safeName) =>
      if !Truthy(payload) || !(payload.Arr? || payload.Obj?) then Call(None, Throw(Error(InvalidData)))
      else
        Send(ProfilePath(safeName, "", ""), "PUT", map["Content-Type" := Str("application/json")],
             JsonBody(payload), UpdateFailed, env, net)
  }

  // Properties of `request`

  /** `request` resolves to null exactly for a 204 response: a body whose
      `data` is null falls back, through `??`, to the (non-null) body. */
  lemma NullExactlyFor204(resp: Response, fallback: string)
    ensures HandleResponse(resp, fallback) == Return(Null) <==> resp.Resp? && resp.status == 204
  {
  }

  /** `request` never resolves to undefined. */
  lemma NeverUndefined(resp: Response, fallback: string)
    ensures HandleResponse(resp, fallback) != Return(Undefined)
  {
  }

  /** A transport failure rejects with the network message, whatever the fallback. */
  lemma NetworkFailureMessage(fallback: string)
    ensures HandleResponse(NetworkFailure, fallback) == Throw(Error(NetworkMessage))
  {
  }

  /** A body that does not parse makes any status but 204 reject with a
      SyntaxError: `response.json()` is not guarded. */
  lemma UnparsedBodyThrows(status: int, fallback: string)
    requires status != 204
    ensures HandleResponse(Resp(status, None), fallback) == Throw(SyntaxError)
  {
  }

  /** An error status rejects with the API's message, and with the fallback
      naming the status when the body carries none. */
  lemma ErrorStatusMessage(status: int, data: Value, fallback: string)
    requires status != 204 && !(200 <= status <= 299)
    ensures HandleResponse(Resp(status, Some(data)), fallback) ==
      ThrowError(ApiErrors.ApiErrorMessage(data, Str(StatusFallback(fallback, status))))
    ensures Nullish(ApiErrors.FirstMessage(OptGet(data, "errors"))) && Nullish(OptGet(data, "message")) ==>
      HandleResponse(Resp(status, Some(data)), fallback) == Throw(Error(StatusFallback(fallback, status)))
  {
  }

  /** A successful body is unwrapped from `data` when that is set, and
      returned whole otherwise; a null body is a TypeError. */
  lemma SuccessUnwrapsData(status: int, data: Value, fallback: string)
    requires 200 <= status <= 299 && status != 204
    ensures Nullish(data) ==> HandleResponse(Resp(status, Some(data)), fallback) == Throw(TypeError)
    ensures !Nullish(data) && !Nullish(OptGet(data, "data")) ==>
      HandleResponse(Resp(status, Some(data)), fallback) == Return(data.fields["data"])
    ensures !Nullish(data) && Nullish(OptGet(data, "data")) ==>
      HandleResponse(Resp(status, Some(data)), fallback) == Return(data)
  {
  }

  /** Caller headers override the two authentication headers of the same name. */
  lemma ExtraHeadersOverride(token: Value, apiKey: Value, v: Value)
    ensures AuthHeaders(token, apiKey, map["Authorization" := v])["Authorization"] == v
    ensures AuthHeaders(token, apiKey, map["X-Noroff-API-Key" := v])["X-Noroff-API-Key"] == v
    ensures AuthHeaders(token, apiKey, map[]) ==
      map["Authorization" := Str("Bearer " + ToJsString(token)), "X-Noroff-API-Key" := apiKey]
  {
    assert AuthHeaders(token, apiKey, map[]).Keys == {"Authorization", "X-Noroff-API-Key"};
  }

  // Properties of the paths

  lemma SplitThreeSegments(a: string, b: string, d: string, rest: string)
    requires '/' !in a && '/' !in b && '/' !in d
    ensures Strings.Split(a + ['/'] + (b + ['/'] + (d + ['/'] + rest)), '/') ==
      [a] + ([b] + ([d] + Strings.Split(rest, '/')))
  {
    Strings.SplitOfPrefix(a, '/', b + ['/'] + (d + ['/'] + rest));
    Strings.SplitOfPrefix(b, '/', d + ['/'] + rest);
    Strings.SplitOfPrefix(d, '/', rest);
  }

  lemma ProfilesSegments(r: seq<string>)
    ensures [[]] + (["social"] + (["profiles"] + r)) == ["", "social", "profiles"] + r
  {
  }

  lemma SplitProfilesPrefix(rest: string)
    ensures Strings.Split("/social/profiles/" + rest, '/') == ["", "social", "profiles"] + Strings.Split(rest, '/')
  {
    assert "/social/profiles/" + rest == [] + ['/'] + ("social" + ['/'] + ("profiles" + ['/'] + rest));
    SplitThreeSegments([], "social", "profiles", rest);
    ProfilesSegments(Strings.Split(rest, '/'));
  }

  /** The route of a profile path, split on '/': the encoded name is one
      whole segment, followed by the action when there is one. */
  lemma RouteSegments(safeName: string, action: string)
    requires '/' !in safeName && '/' !in action
    ensures Strings.Split(ProfileRoute(safeName, action), '/') ==
      ["", "social", "profiles", safeName] + (if action == "" then [] else [action])
  {
    if action == "" {
      PlainRouteSegments(safeName);
    } else {
      ActionRouteSegments(safeName, action);
    }
  }

  lemma PlainRouteSegments(safeName: string)
    requires '/' !in safeName
    ensures Strings.Split(ProfileRoute(safeName, ""), '/') == ["", "social", "profiles", safeName]
  {
    assert ProfileRoute(safeName, "") == "/social/profiles/" + safeName;
    SplitProfilesPrefix(safeName);
    assert Strings.IndexOf(safeName, '/') == -1;
  }

  lemma ActionRouteSegments(safeName: string, action: string)
    requires '/' !in safeName && '/' !in action && action != ""
    ensures Strings.Split(ProfileRoute(safeName, action), '/') == ["", "social", "profiles", safeName, action]
  {
    var rest := safeName + ['/'] + action;
    assert ProfileRoute(safeName, action) == "/social/profiles/" + rest;
    SplitProfilesPrefix(rest);
    Strings.SplitOfPrefix(safeName, '/', action);
    assert Strings.IndexOf(action, '/') == -1;
  }

  /** The route of a profile path is everything before its first '?', and
      the query everything after it. */
  lemma RouteBeforeQuery(safeName: string, action: string, query: string)
    requires '?' !in safeName && '?' !in action
    ensures Strings.Before(ProfilePath(safeName, action, query), '?') == ProfileRoute(safeName, action)
  {
    var route := ProfileRoute(safeName, action);
    assert '?' !in route by {
      var tail := if action == "" then "" else "/" + action;
      assert '?' !in tail;
      assert route == "/social/profiles/" + (safeName + tail);
      assert '?' !in "/social/profiles/";
    }
    if query == "" {
      assert ProfilePath(safeName, action, query) == route;
      assert Strings.IndexOf(route, '?') == -1;
    } else {
      assert ProfilePath(safeName, action, query) == route + ['?'] + query;
      Strings.BeforeOfPrefix(route, '?', query);
    }
  }

  /** Every profile endpoint puts the name, encoded, as the fourth segment
      of its path; that segment decodes back to `String(name)`. */
  lemma NameIsOneSegment(name: Value, action: string, query: string)
    requires Truthy(name)
    requires '/' !in action && '?' !in action
    ensures var safeName := EncodeName(name).value;
      var segments := Strings.Split(Strings.Before(ProfilePath(safeName, action, query), '?'), '/');
      && |segments| >= 4
      && segments[..3] == ["", "social", "profiles"]
      && Uri.DecodeComponent(segments[3]) == Some(ToJsString(name))
  {
    var safeName := EncodeName(name).value;
    NoDelimiters(safeName);
    PathSegments(safeName, action, query);
  }

  /** The path's fourth segment is the encoded name, for any name free of
      '/' and '?'. */
  lemma PathSegments(safeName: string, action: string, query: string)
    requires '/' !in safeName && '?' !in safeName
    requires '/' !in action && '?' !in action
    ensures var segments := Strings.Split(Strings.Before(ProfilePath(safeName, action, query), '?'), '/');
      |segments| >= 4 && segments[..3] == ["", "social", "profiles"] && segments[3] == safeName
  {
    RouteBeforeQuery(safeName, action, query);
    RouteSegments(safeName, action);
  }

  lemma NoDelimiters(safeName: string)
    requires forall i :: 0 <= i < |safeName| ==> Uri.Unreserved(safeName[i]) || safeName[i] == '%'
    ensures '/' !in safeName && '?' !in safeName
  {
    assert forall i :: 0 <= i < |safeName| ==> safeName[i] != '/' && safeName[i] != '?';
  }

  /** Without options, the posts of a profile are requested 20 at a time from page 1. */
  lemma PostsDefaults()
    ensures PostsQuery(Undefined, Undefined) == "_reactions=true&_comments=true&_limit=20&_page=1&_author=true"
  {
    DefaultText();
  }

  lemma DefaultText()
    ensures ToJsString(Num(20)) == "20" && ToJsString(Num(1)) == "1"
  {
    assert NatToString(2) == "2";
    assert NatToString(20) == NatToString(2) + [DigitChar(0)];
  }

  /** `updateProfile` checks the name before the payload. */
  lemma UpdateChecksNameFirst(name: Value, payload: Value, env: Env, net: Request -> Response)
    requires !Truthy(name)
    ensures UpdateProfile(name, payload, env, net) == Call(None, Throw(Error(MissingName)))
  {
  }
}
