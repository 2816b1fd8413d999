# Browser client core, modelled in Dafny

This project models the logic of a small social-network browser client
(Tunegj/JS2CourseAssignment) and proves properties of that logic. The client
is mostly DOM templating around `fetch`. Beneath that sit rules that can be
stated exactly, and these are what the model covers:

- the two hash routers: `src/router.js` and the older table in `src/main.js`;
- the query string of the location hash and its parameters;
- the API helpers and how they read responses: `getApiErrorMessage`, the
  shared `request` of the profile endpoints, `createApiKey`, `getAllPosts`
  and `registerUser`;
- the form validators;
- `saveSession` over the browser's key-value store;
- the profile page's view-model helpers and its follow button;
- the submit handler of the new-post form.

The JavaScript values these functions touch are `Js.Value`. It tells
`undefined` apart from `null`, booleans, numbers, strings, arrays and objects,
because the code mixes `??`, which falls through on null and undefined, with
`||`, which falls through on any falsy value. A response from `fetch` is
`Fetch.Response`:

- `NetworkFailure` when the promise rejects;
- otherwise `Resp(status, body)`, where `body` is `None` when
  `response.json()` cannot parse it.

How an API call ends is `Fetch.Outcome`: it returns a value, or throws an
`Error` with a message, a `TypeError` or a `SyntaxError`.

State changed in place is modelled as classes:

- `Browser.Location` holds the `hash` the browser reports;
- `Storage.SessionStore` holds the key-value store as a `map<string, string>`;
- `ProfileView.FollowButton` holds the button's label, `disabled` flag and
  `data-following` attribute, the handler's `followingState` and the
  displayed counts;
- `CreatePost.PostForm` holds the error line and the submit button.

`QueryParams.HashQueryParams` keeps the source's loop, proved against the
function `QueryParams.Collect`.

Supporting modules:

- `Js`: truthiness, `??`, `||`, `?.` and `String(v)`.
- `Strings`: `indexOf`, `split`, `trim`, `toLowerCase` and `.length`.
- `Uri`: `encodeURIComponent` and `decodeURIComponent`.
- `Regex`: the two validator patterns.
- `Json`: `JSON.stringify` of the flat object `saveSession` writes, and a
  reader for that text, used to state what the stored entry means.

Some behaviour of the code is easy to misread, and the model keeps it as
written:

- Each module words a transport failure its own way. `request` in
  `src/api/profiles.js` rejects with "Network error. Please check your
  connection and try again.", `createApiKey` with "Network error: Unable to
  connect to the server.", and `getAllPosts` and `registerUser` catch
  nothing.
- In `src/api/profiles.js`, `src/api/posts.js` and `src/api/auth.js`,
  `response.json()` is not guarded, so a body that does not parse rejects the
  call with a `SyntaxError`. Only `createApiKey` reads such a body as null.
- `saveSession` stores a missing token as the text "undefined" and leaves a
  missing name or email out of the JSON.
- `src/router.js` and `src/main.js` have three routes each and no route
  guards, and send every unknown path to the login route.

## Model

| member | source | states |
|---|---|---|
| Router.GetRoute | src/router.js:21-23 | never empty: the empty hash becomes "#/login", any other hash is the route itself |
| Router.Route | src/router.js:21-47 | a redirect always goes to "#/login" |
| Router.RouteCharacterised | src/router.js:21-47 | login is rendered exactly for "", "#/login" and "#/login?…"; register and feed exactly for their path alone or followed by "?…"; every other hash redirects, so each hash gets exactly one of the four actions |
| Router.EmptyHashRendersLogin | src/router.js:21-23 | an empty hash is dispatched as "#/login" |
| Router.QueryIgnored | src/router.js:32 | for a path without '?', appending "?" and any query does not change the action |
| Router.LoginTarget | src/router.js:44-46 | setting the hash to "#/login" reads back "#/login", which renders login |
| Router.RedirectLandsOnLogin | src/router.js:44-46 | the dispatch that follows a redirect renders login, so a redirect never redirects again |
| Router.NavigateThenDispatch | src/router.js:11-43 | navigating to "#/login", "#/register" or "#/feed" and dispatching on the hash the browser then reports renders that route's view |
| Router.Navigate | src/router.js:11-13 | the hash becomes what the hash setter makes of the argument, and `hashchange` fires exactly when the hash changed |
| Router.RenderRoute | src/router.js:29-48 | renders the view of the current hash and leaves the hash alone, or renders nothing and sets the hash to "#/login"; when that fires `hashchange`, the next dispatch renders login |
| LegacyRouter.GetRoute | src/main.js:16-18 | never empty: the empty hash becomes "/#login", any other hash is the route itself |
| LegacyRouter.Route | src/main.js:62-81 | a redirect always goes to "/#login" |
| LegacyRouter.RouteCharacterised | src/main.js:62-81 | the table of "/#login", "/#register" and "/#feed" matched on text: each path alone or followed by "?…" renders its view, "" renders login, anything else redirects |
| LegacyRouter.QueryIgnored | src/main.js:65 | the query after the first '?' plays no part in the match |
| LegacyRouter.ReportedHashesNeverMatch | src/main.js:67-79 | on every hash the browser can report, the table renders login only for the empty hash and redirects on all others |
| LegacyRouter.LinkStalls | src/main.js:29-31 | navigating to any path of the table leaves the hash "#" + path, which redirects |
| LegacyRouter.Navigate | src/main.js:7-9 | the hash becomes what the hash setter makes of the argument; `hashchange` fires exactly when it changed |
| LegacyRouter.RenderRoute | src/main.js:62-81 | renders the selected view and leaves the hash alone, or renders nothing and sets the hash to what "/#login" becomes |
| Browser.HashAfterSet | src/router.js:12 | the hash read back after an assignment is "" or "#" followed by a non-empty fragment |
| Browser.HashAfterSetKeepsHash | src/router.js:12 | a value that already starts with '#' and holds no tab or newline reads back unchanged |
| Browser.HashAfterSetPrefixes | src/main.js:8 | a value not starting with '#' reads back with a '#' put in front |
| Browser.Location.SetHash | src/router.js:12 | the new hash is the setter's result, and the returned flag says whether it changed |
| QueryParams.HashQueryString | src/utils/queryParams.js:6-13 | a missing hash counts as ""; without '?' the result is ""; otherwise it is the text right after the first '?', holds no '#', and ends at the next '#' or at the end of the hash |
| QueryParams.SearchParams | src/utils/queryParams.js:22 | an empty query, or one that is only "?", has no pairs |
| QueryParams.FirstValue | src/utils/queryParams.js:23 | None exactly when no pair has the key; otherwise the value of the first pair with that key |
| QueryParams.HashQueryParam | src/utils/queryParams.js:20-25 | null exactly when the key is absent or its first value is ""; otherwise that first value, trimmed |
| QueryParams.Collect | src/utils/queryParams.js:35-38 | assigning "__proto__" never creates an own key |
| QueryParams.CollectKeys | src/utils/queryParams.js:35-38 | the object's keys are exactly the pair names other than "__proto__" |
| QueryParams.CollectLastWins | src/utils/queryParams.js:35-38 | a key's value is the trimmed value of its last pair |
| QueryParams.HashQueryParams | src/utils/queryParams.js:31-41 | the loop builds exactly `Collect` of the parsed pairs of the hash's query |
| ApiErrors.ApiErrorMessage | src/utils/apiErrors.js:8-10 | the first structured error's message unless it is null or undefined; then the top-level message on the same terms; then the fallback, "An error occurred" by default; never nullish unless the fallback is null |
| ApiErrors.FirstErrorWins | src/utils/apiErrors.js:9 | a non-null `errors[0].message` is returned whatever else the body holds |
| ApiErrors.EmptyMessageKept | src/utils/apiErrors.js:9 | an empty message is returned as it is |
| ApiErrors.EmptyErrorsFallThrough | src/utils/apiErrors.js:9 | an empty `errors` list falls through to the top-level message, then the fallback |
| ApiErrors.NullishDataGivesFallback | src/utils/apiErrors.js:8-9 | a null or undefined body gives the fallback |
| Profiles.AuthHeaders | src/api/profiles.js:10-19 | the bearer token and the API key, with every caller header present and winning over those two |
| Profiles.ExtraHeadersOverride | src/api/profiles.js:14-18 | a caller's "Authorization" or "X-Noroff-API-Key" replaces the built one; with no caller headers there are exactly the two |
| Profiles.EncodeName | src/api/profiles.js:26-30 | fails exactly for a falsy name; the encoding holds only unreserved characters and '%', and decodes back to `String(name)` |
| Profiles.NameIsOneSegment | src/api/profiles.js:26-30 | in every endpoint path the encoded name is the whole fourth '/'-segment before the query, and it decodes to `String(name)` |
| Profiles.RouteBeforeQuery | src/api/profiles.js:79 | the path before its first '?' is the route, the query is what follows |
| Profiles.RouteSegments | src/api/profiles.js:121 | a profile route splits into "", "social", "profiles", the name, and the action when there is one |
| Profiles.Send | src/api/profiles.js:39-67 | the request goes to BASE_URL + path with the given method and body and the authentication headers over the caller's, and the call ends as `HandleResponse` of what `fetch` returns, with the given fallback |
| Profiles.HandleResponse | src/api/profiles.js:47-66 | a returned result comes from a 204 or a 2xx response |
| Profiles.NullExactlyFor204 | src/api/profiles.js:53 | `request` resolves to null exactly for status 204 |
| Profiles.NeverUndefined | src/api/profiles.js:53-66 | `request` never resolves to undefined |
| Profiles.NetworkFailureMessage | src/api/profiles.js:47-51 | a transport failure rejects with "Network error. Please check your connection and try again." |
| Profiles.UnparsedBodyThrows | src/api/profiles.js:55 | for any status but 204, a body that does not parse rejects with a SyntaxError |
| Profiles.ErrorStatusMessage | src/api/profiles.js:57-64 | an error status rejects with `getApiErrorMessage(data, fallback + " (Status: " + status + ")")`, which is exactly that fallback when the body has no message |
| Profiles.SuccessUnwrapsData | src/api/profiles.js:66 | success returns `data.data` when it is not null or undefined, else the whole body; a null body is a TypeError |
| Profiles.GetProfileByName | src/api/profiles.js:75-83 | no request for a falsy name, which fails with "Missing profile name."; otherwise a GET, with no body and only the authentication headers, of the profile path with the posts, followers and following expansions, ending as `request` does with the fallback "Failed to fetch profile" |
| Profiles.GetProfilePosts | src/api/profiles.js:91-99 | the same name check; otherwise a GET of "/posts" with the page query, no body and only the authentication headers, ending with the fallback "Failed to fetch profile posts" |
| Profiles.PostsDefaults | src/api/profiles.js:91-95 | without options the query asks for `_limit=20` and `_page=1` |
| Profiles.GetMyProfile | src/api/profiles.js:105-110 | without a user it fails with "User not logged in." and sends nothing; otherwise it is `getProfileByName(user.name)` |
| Profiles.FollowProfile | src/api/profiles.js:117-125 | the name check, then a PUT of "/follow" with no body and only the authentication headers, ending with the fallback "Failed to follow profile" |
| Profiles.UnfollowProfile | src/api/profiles.js:132-140 | the name check, then a PUT of "/unfollow" with no body and only the authentication headers, ending with the fallback "Failed to unfollow profile" |
| Profiles.UpdateProfile | src/api/profiles.js:148-163 | no request unless the name is truthy and the payload is an array or object; the name is checked first; otherwise a JSON PUT of the payload with "Content-Type" added to the headers, ending with the fallback "Failed to update profile" |
| Profiles.UpdateChecksNameFirst | src/api/profiles.js:149-152 | a falsy name fails with "Missing profile name." whatever the payload |
| ApiKey.CreateApiKey | src/api/apiKey.js:9-22 | no request exactly for a falsy token, which fails with "Please log in to create an API key."; otherwise the request is `KeyRequest` |
| ApiKey.RequestCarriesOnlyToken | src/api/apiKey.js:17-22 | a POST to "/auth/create-api-key" whose only header is "Authorization: Bearer " + token, with no body |
| ApiKey.HandleKeyResponse | src/api/apiKey.js:23-43 | a returned key comes from a 2xx response and is truthy |
| ApiKey.NetworkFailureMessage | src/api/apiKey.js:23-25 | a transport failure fails with "Network error: Unable to connect to the server." |
| ApiKey.UnparsedErrorGivesFallback | src/api/apiKey.js:27-38 | an error status with a body that does not parse fails with exactly "Failed to create API key (" + status + ")" |
| ApiKey.ErrorStatusMessage | src/api/apiKey.js:34-38 | an error status fails with `getApiErrorMessage` of the body and that fallback |
| ApiKey.SuccessYieldsKey | src/api/apiKey.js:40-43 | success returns `data.data.key` when truthy and otherwise fails with "API key not found in response.", also for a body that does not parse |
| Posts.GetAllPosts | src/api/posts.js:9-33 | the one request sent is `PostsRequest` of the stored token and API key |
| Posts.RequestShape | src/api/posts.js:16-24 | a GET of "/social/posts" with the author, reactions and comments expansions; exactly the headers "Authorization: Bearer " + token and "x-Noroff-Api-Key" |
| Posts.HandlePostsResponse | src/api/posts.js:26-32 | a returned value comes from a 2xx response and is not null |
| Posts.ErrorMessage | src/api/posts.js:28-30 | an error status fails with `errors[0].message`, or "Failed to fetch posts" when that is null or missing |
| Posts.TopLevelMessageIgnored | src/api/posts.js:29 | the body's top-level `message` never changes the outcome |
| Posts.SuccessUnwrapsData | src/api/posts.js:32 | success returns `data.data ?? data` |
| Posts.UnguardedFailures | src/api/posts.js:16-26 | a transport failure and a null body are TypeErrors, and a body that does not parse is a SyntaxError |
| Auth.RegisterUser | src/api/auth.js:9-25 | the one request sent is `RegisterRequest(userData)` |
| Auth.RequestShape | src/api/auth.js:10-16 | a POST to "/auth/register" with only a JSON content type, and the serialised user data as body |
| Auth.HandleRegisterResponse | src/api/auth.js:18-24 | a returned value comes from a 2xx response and is the parsed body itself |
| Auth.ErrorMessage | src/api/auth.js:20-22 | an error status fails with `errors[0].message` when truthy, else "Registration failed" |
| Auth.EmptyMessageReplaced | src/api/auth.js:21 | an empty message is replaced by "Registration failed", where `getApiErrorMessage` keeps it |
| Auth.TopLevelMessageIgnored | src/api/auth.js:21 | the body's top-level `message` never changes the outcome |
| Auth.SuccessReturnsBody | src/api/auth.js:24 | success returns the whole body, not unwrapped from `data` |
| Validators.IsValidName | src/utils/validators.js:6-8 | a name is valid exactly when it has 3 to 20 characters, each a letter, a digit or '_' |
| Validators.NamePatternMeaning | src/utils/validators.js:7 | the name pattern accepts exactly the texts of 3 to 20 letters, digits and '_' |
| Regex.SinglePiece | src/utils/validators.js:7 | a one-piece pattern accepts exactly the texts whose length is within its bounds and whose characters all match its class |
| Validators.AddressPatternMeaning | src/utils/validators.js:19 | the address pattern accepts exactly a non-empty local part without whitespace or '@', then exactly the domain |
| Regex.RunThenLiteral | src/utils/validators.js:19 | an unbounded piece followed by literal text accepts exactly the texts that end with that text, after a non-empty run of matching characters |
| Regex.LiteralMatches | src/utils/validators.js:19 | a pattern of literal characters accepts exactly that text |
| Validators.IsValidEmail | src/utils/validators.js:15-20 | an email is valid exactly when, trimmed and lower-cased, it is such a local part followed by "@stud.noroff.no" |
| Validators.CoerceMeaning | src/utils/validators.js:16 | `String(v \|\| "")` is the String form of a truthy value and "" for any other |
| Validators.EmailIgnoresPadding | src/utils/validators.js:16-18 | surrounding whitespace does not change the verdict |
| Validators.EmailIgnoresCase | src/utils/validators.js:16-18 | two spellings that differ only in ASCII letter case get the same verdict |
| Validators.NormalisedIgnoresPadding | src/utils/validators.js:16-18 | surrounding whitespace does not change the normalised value |
| Validators.NormalisedIgnoresCase | src/utils/validators.js:16-18 | spellings equal after lower-casing normalise alike |
| Validators.TrimOfLower | src/utils/validators.js:16-18 | trimming and lower-casing commute |
| Validators.IsValidPassword | src/utils/validators.js:27-29 | a missing or falsy password is never valid |
| Validators.PasswordMeaning | src/utils/validators.js:27-29 | valid exactly for a truthy value whose String form has at least 8 UTF-16 code units; a missing password is rejected |
| Validators.IsValidBio | src/utils/validators.js:36-38 | a missing or falsy bio is always valid |
| Validators.BioMeaning | src/utils/validators.js:36-38 | valid exactly for a falsy value or one of at most 160 code units; a missing bio is valid |
| Validators.UrlEmptyBranch | src/utils/validators.js:45-47 | the branch before `new URL` only ever accepts |
| Validators.BlankUrlAccepted | src/utils/validators.js:46-47 | empty and whitespace-only URLs are accepted |
| Validators.NonBlankUrlParsed | src/utils/validators.js:46-49 | a URL with a non-whitespace character goes on to the URL parser |
| Validators.ValidNameEncodesVerbatim | src/utils/validators.js:7 | a valid name is placed in a profile path unchanged by `encodeURIComponent` |
| Strings.IndexOf | src/utils/queryParams.js:8 | -1 exactly when the character is absent; otherwise the position of its first occurrence |
| Strings.Split | src/router.js:32 | at least one part, and no part holds the separator |
| Strings.JoinSplit | src/utils/queryParams.js:12 | joining the parts of `split` with the separator gives back the text |
| Strings.TrimIsInfix | src/utils/queryParams.js:24 | `trim` gives the infix between a whitespace-only prefix and suffix, and does not start or end with whitespace |
| Strings.TrimIgnoresPadding | src/handlers/createPostHandler.js:34-35 | whitespace around a text does not change its trimmed form |
| Strings.TrimIdempotent | src/handlers/createPostHandler.js:34-35 | trimming twice is trimming once |
| Strings.BeforeIs | src/router.js:32 | for a `c`-free `p`, `s.split(c)[0]` is `p` exactly when `s` is `p` or starts with `p` + `c` |
| Strings.ToLower | src/utils/validators.js:18 | `toLowerCase` keeps the length and lower-cases each ASCII letter |
| Strings.Utf16Length | src/utils/validators.js:28 | `.length` lies between the number of characters and twice that |
| Uri.EncodedIsSafe | src/api/profiles.js:29 | every character `encodeURIComponent` produces is unreserved or '%' |
| Uri.UnreservedUnchanged | src/api/profiles.js:29 | a text of unreserved characters is encoded as itself |
| Uri.DecodeEncode | src/api/profiles.js:29 | `decodeURIComponent(encodeURIComponent(s))` is `s` |
| Uri.EncodeInjective | src/api/profiles.js:29 | two names with the same encoding are the same name |
| Uri.Utf8RoundTrip | src/api/profiles.js:29 | UTF-8 decoding of a character's UTF-8 encoding gives back the character |
| Json.RoundTrip | src/utils/storage.js:10 | reading back `JSON.stringify` of a flat object literal gives its members that are not undefined |
| Json.ReadStringified | src/utils/storage.js:10 | every written flat value reads back as itself |
| Json.ReadEscapedChars | src/utils/storage.js:10 | a string written with JSON escapes reads back as that string |
| Storage.SessionStore.SaveSession | src/utils/storage.js:8-11 | the store becomes `Saved` of the old store: the token's String form under "accessToken", the user JSON under "user" |
| Storage.SavedToken | src/utils/storage.js:9 | the "accessToken" entry is the token for a string token, and "undefined" for a missing one |
| Storage.SavedUser | src/utils/storage.js:10 | the "user" entry parses as an object whose keys lie within {name, email}; each is present exactly when it was not undefined, and holds the given value |
| Storage.SavedUserStrings | src/utils/storage.js:10 | for string name and email the entry reads back as exactly `{name, email}` |
| Storage.OthersUnchanged | src/utils/storage.js:8-11 | no other key is added, removed or changed |
| Storage.LaterSaveWins | src/utils/storage.js:8-11 | a later save replaces both entries of an earlier one |
| Storage.SaveIdempotent | src/utils/storage.js:8-11 | saving the same session twice leaves the store as one save does |
| ProfileView.SafeText | src/handlers/profileHandler.js:19-22 | the fallback exactly for null, undefined and ""; otherwise the escaped String form |
| ProfileView.FalsyButShown | src/handlers/profileHandler.js:20-21 | 0, false and the empty array are shown as "0", "false" and "" rather than replaced |
| ProfileView.SafeImg | src/handlers/profileHandler.js:29-31 | the URL exactly when it is a non-empty string, else "" |
| ProfileView.GetCounts | src/handlers/profileHandler.js:38-52 | none of the three figures is null or undefined |
| ProfileView.CountOf | src/handlers/profileHandler.js:38-51 | never nullish; the `_count` figure when not null or undefined, else the list's length when it is an array, else 0 |
| ProfileView.ZeroCountKept | src/handlers/profileHandler.js:40 | a `_count` of 0 is kept |
| ProfileView.CountsFromLists | src/handlers/profileHandler.js:39-49 | with no `_count`, each figure is its list's length, or 0 |
| ProfileView.CountsOfMissingProfile | src/handlers/profileHandler.js:38-51 | a null or undefined profile counts 0 everywhere |
| ProfileView.AnyNamed | src/handlers/profileHandler.js:64 | `some` holds exactly when some follower's `name` is `===` the viewer's name |
| ProfileView.IsFollowing | src/handlers/profileHandler.js:60-65 | following only for a truthy viewer name and a non-empty `followers` array |
| ProfileView.IsFollowingMeaning | src/handlers/profileHandler.js:60-65 | following exactly when the viewer name is truthy, `followers` is an array, and some follower has that exact name |
| ProfileView.NamesCaseSensitive | src/handlers/profileHandler.js:64 | a follower whose name differs only in case does not count |
| ProfileView.LoadFor | src/handlers/profileHandler.js:124-126 | the profile is loaded by name exactly for a non-empty `name` parameter, and by that name; otherwise the viewer's own profile is loaded |
| ProfileView.IsMe | src/handlers/profileHandler.js:128 | one's own profile only when the profile's name is truthy and equal to the viewer's |
| ProfileView.ShowFollowButton | src/handlers/profileHandler.js:129 | a shown button means a `name` parameter was given and the profile was loaded by it |
| ProfileView.FollowButtonWhen | src/handlers/profileHandler.js:128-129 | no button on one's own profile or without a `name` parameter; a shown button means the profile was loaded by name |
| ProfileView.AnonymousViewerSeesButton | src/handlers/profileHandler.js:128-129 | a viewer without a name sees the button on every named profile |
| ProfileView.AlertText | src/handlers/profileHandler.js:254-257 | the alert is never empty: the error's message, else the fixed text |
| ProfileView.FollowButton.constructor | src/handlers/profileHandler.js:210-218 | the first `setBtn(isFollowing(profile, viewer?.name))`: enabled, idle label, `data-following` of that state |
| ProfileView.FollowButton.SetBtn | src/handlers/profileHandler.js:212-216 | the label is the given one or the idle label of the state; `disabled` and `data-following` as given |
| ProfileView.FollowButton.Press | src/handlers/profileHandler.js:221-226 | the state is read from `data-following`, which is kept, while the button is disabled with "Unfollowing..." or "Following..." |
| ProfileView.FollowButton.Settle | src/handlers/profileHandler.js:228-258 | the button ends enabled; `followingState`, `data-following`, the figures and the alert are `StateAfter`, `ShownAfter`, the refreshed counts and `AlertText` |
| ProfileView.Click | src/handlers/profileHandler.js:220-259 | a whole click ends enabled, with `followingState`, `data-following`, the figures and the alert that `Settle` gives for the state read from `data-following` before the click; a failed toggle leaves every field as it was |
| ProfileView.FailureRestores | src/handlers/profileHandler.js:252-253 | any failure shows the pre-click state again |
| ProfileView.FollowSticks | src/handlers/profileHandler.js:233-250 | after a successful follow the button shows "Unfollow" whatever the reloaded profile lists |
| ProfileView.UnfollowFollowsServer | src/handlers/profileHandler.js:229-251 | after a successful unfollow the reloaded follower list alone decides the state |
| ProfileView.StateAndButton | src/handlers/profileHandler.js:237-253 | on success the state and the button agree; when only the reload fails they disagree |
| CreatePost.CheckFields | src/handlers/createPostHandler.js:34-46 | rejected exactly when the trimmed title or body is empty, with the title's message first; otherwise the trimmed draft |
| CreatePost.PostForm.constructor | src/handlers/createPostHandler.js:30-59 | the form before any submit: no error text and an enabled "Publish" button |
| CreatePost.PostForm.Submit | src/handlers/createPostHandler.js:32-48 | the error line is cleared; an invalid form gets its message, sends nothing and keeps the button; a valid one sends the trimmed draft with the button disabled and reading "Publishing..." |
| CreatePost.PostForm.Finish | src/handlers/createPostHandler.js:50-58 | success navigates to "#/feed" and keeps the error line; failure shows the message and stays; either way the button is enabled and reads "Publish" |
| CreatePost.SubmitForm | src/handlers/createPostHandler.js:30-59 | an invalid form shows its message, sends nothing and keeps the hash and the button; a valid one sends the trimmed draft, the button ends enabled, a success lands on a hash that renders the feed, and a failure shows its message and keeps the hash |
| CreatePost.TitleCheckedFirst | src/handlers/createPostHandler.js:37-46 | with both fields empty only the title message is shown |
| CreatePost.PaddingIgnored | src/handlers/createPostHandler.js:34-35 | whitespace around either field changes neither the verdict nor the draft |
| CreatePost.BlankTitleRejected | src/handlers/createPostHandler.js:37-40 | a whitespace-only title is rejected with "Title cannot be empty." |
| CreatePost.AcceptedIsTrimmed | src/handlers/createPostHandler.js:34-35 | an accepted draft has non-empty fields that are already trimmed |

## Left out

- DOM rendering and event wiring: the HTML templates, `querySelector`, `addEventListener`, `alert`, and the page title. The handler files that are only this are not part of this model.
- The network: `fetch` is a function parameter from request to response, and `response.json()` is the response's optional body.
- `BASE_URL` of `./config` and `getToken`, `getApiKey` and `getUser` are not part of this model; they are inputs (`Profiles.Env`, parameters).
- `escapeHtml` is not part of this model: `ProfileView.SafeText` returns the text it would be applied to.
- `createPost` is imported by the new-post form but is not defined in `src/api/posts.js`; its outcome is a parameter of `CreatePost.PostForm.Finish`.
- The percent-decoding and UTF-8 decoding of `URLSearchParams` is a function parameter of `QueryParams.SearchParams`.
- `isValidUrl` after its empty-input branch: the `new URL` parser is not modelled.
- `isValidName` is modelled for string arguments only; `RegExp.test` of a non-string stringifies it first.
- `Strings.ToLower`: lower-cases ASCII letters only, not the full Unicode case mapping of `toLowerCase`.
- `Js.Value` numbers are integers. Fractions, exponents, NaN and the exponent form of very large numbers are not modelled, and neither are the numbers that `String(n)` writes in those forms.
- `Json`: only the flat values `saveSession` can write (undefined, null, booleans, integers, strings) are stringified. The reader is the part of `JSON.parse` needed to state the round trip: it has no whitespace handling, refuses fractions, exponents and nested values, and refuses a `\u` escape of a surrogate.
- `Storage.SessionStore.SaveSession`: requires a flat `name` and `email`. Nested values and `toJSON` methods are not modelled.
- `Browser.Location.SetHash`: models the hash setter's removal of one leading '#' and of tab and newline characters. It does not model the percent-encoding of characters outside the fragment set.
- Async interleaving: each follow-button click and each form submit is one atomic step. Overlapping clicks and responses that arrive after navigating away are not modelled.
- The page-level load error of the profile page is DOM text (`safeText` of the message) and is not modelled beyond `ProfileView.SafeText`.

## Findings

| source | as written | input that shows it | evidently intended | confidence | as-written member | corrected member |
|---|---|---|---|---|---|---|
| src/main.js:67-79 | the route table is written "/#login", "/#register", "/#feed", but `location.hash` always reads "" or "#…", so no table entry can match a hash the browser reports; the view's own link `navigate("/#register")` leaves the hash "#/#register", which redirects to "#/#login", which redirects again with no `hashchange`, so nothing is rendered | the hash "#/#register" | paths written "#/login", "#/register", "#/feed", as `src/router.js` has them; navigating to a route and dispatching on the resulting hash renders that route | high (not executed) | LegacyRouter.ReportedHashesNeverMatch | Router.NavigateThenDispatch |
