// The hash router of src/router.js: `getRoute`, the `renderRoute` switch and
// `navigate`. Dispatch is a pure decision on the hash; the effects of the
// decision (rendering a view, or navigating) are performed by RenderRoute.

module Router {
  import opened Js
  import Strings
  import Browser

  const LoginHash := "#/login"
  const RegisterHash := "#/register"
  const FeedHash := "#/feed"

  /** What one dispatch does: run one of the three handlers, or navigate away. */
  datatype Action = RenderLogin | RenderRegister | RenderFeed | Redirect(target: string)

  datatype View = LoginView | RegisterView | FeedView

  /** `getRoute`: the hash, or "#/login" when it is empty. */
  function GetRoute(hash: string): (r: string)
    ensures r != ""
    ensures hash != "" ==> r == hash
  {
    if hash == "" then LoginHash else hash
  }

  /** The `renderRoute` switch on the route with its query part cut off. */
  function Route(hash: string): (a: Action)
    ensures a.Redirect? ==> a.target == LoginHash
  {
    var path := Strings.Before(GetRoute(hash), '?');
    if path == LoginHash then RenderLogin
    else if path == RegisterHash then RenderRegister
    else if path == FeedHash then RenderFeed
    else Redirect(LoginHash)
  }

  /** Which hashes reach which handler, stated on the hash itself: a route
      matches when the hash is the route or the route followed by a query. */
  lemma RouteCharacterised(hash: string)
    ensures Route(hash) == RenderLogin <==>
      hash == "" || hash == LoginHash || LoginHash + "?" <= hash
    ensures Route(hash) == RenderRegister <==>
      hash == RegisterHash || RegisterHash + "?" <= hash
    ensures Route(hash) == RenderFeed <==>
      hash == FeedHash || FeedHash + "?" <= hash
    ensures Route(hash) == Redirect(LoginHash) <==>
      !(hash == "" || hash == LoginHash || LoginHash + "?" <= hash) &&
      !(hash == RegisterHash || RegisterHash + "?" <= hash) &&
      !(hash == FeedHash || FeedHash + "?" <= hash)
  {
    if hash != "" {
      Strings.BeforeIs(hash, '?', LoginHash);
      Strings.BeforeIs(hash, '?', RegisterHash);
      Strings.BeforeIs(hash, '?', FeedHash);
    } else {
      assert Strings.Before(LoginHash, '?') == LoginHash;
    }
  }

  /** An empty hash is dispatched as "#/login". */
  lemma EmptyHashRendersLogin()
    ensures Route("") == RenderLogin
  {
    RouteCharacterised("");
  }

  /** Whatever follows the first '?' plays no part in dispatch. */
  lemma QueryIgnored(path: string, query: string)
    requires path != "" && '?' !in path
    ensures Route(path + "?" + query) == Route(path)
  {
    Strings.BeforeOfPrefix(path, '?', query);
    assert Strings.IndexOf(path, '?') == -1;
  }

  /** Setting the hash to "#/login" reads back "#/login", which renders the login view. */
  lemma LoginTarget()
    ensures Browser.HashAfterSet(LoginHash) == LoginHash
    ensures Route(LoginHash) == RenderLogin
  {
    PlainTarget(LoginHash);
  }

  /** After a redirect, the page re-dispatches on the hash the redirect set,
      and that renders the login view: a redirect never redirects again. */
  lemma RedirectLandsOnLogin(hash: string)
    requires Route(hash).Redirect?
    ensures Route(Browser.HashAfterSet(Route(hash).target)) == RenderLogin
  {
    LoginTarget();
  }

  /** Navigating to any of the three routes and dispatching on the hash the
      browser then reports renders that route's view. */
  lemma NavigateThenDispatch(target: string)
    requires target == LoginHash || target == RegisterHash || target == FeedHash
    ensures Route(Browser.HashAfterSet(target)) ==
      if target == LoginHash then RenderLogin
      else if target == RegisterHash then RenderRegister
      else RenderFeed
  {
    PlainTarget(target);
  }

  /** A reported hash without '?' is its own path. */
  lemma PlainTarget(target: string)
    requires |target| >= 2 && target[0] == '#' && '?' !in target
    requires forall i :: 0 <= i < |target| ==> !Browser.IsTabOrNewline(target[i])
    ensures Browser.HashAfterSet(target) == target
    ensures Strings.Before(GetRoute(target), '?') == target
  {
    Browser.HashAfterSetKeepsHash(target);
  }

  function ViewOf(a: Action): Option<View> {
    match a
    case RenderLogin => Some(LoginView)
    case RenderRegister => Some(RegisterView)
    case RenderFeed => Some(FeedView)
    case Redirect(_) => None
  }

  /** `navigate(hash)`: assigns the location's hash. */
  method Navigate(loc: Browser.Location, hash: string) returns (hashChange: bool)
    modifies loc
    ensures loc.Valid()
    ensures loc.hash == Browser.HashAfterSet(hash)
    ensures hashChange == (loc.hash != old(loc.hash))
  {
    hashChange := loc.SetHash(hash);
  }

  /** `renderRoute()`: renders the view the current hash selects, or
      navigates to "#/login" and renders nothing. When that navigation fires
      `hashchange`, the next dispatch renders the login view. */
  method RenderRoute(loc: Browser.Location) returns (view: Option<View>, hashChange: bool)
    modifies loc
    ensures view == ViewOf(Route(old(loc.hash)))
    ensures view.Some? ==> loc.hash == old(loc.hash) && !hashChange
    ensures view.None? ==> loc.hash == LoginHash && hashChange == (old(loc.hash) != LoginHash)
    ensures hashChange ==> Route(loc.hash) == RenderLogin
  {
    var action := Route(loc.hash);
    view := ViewOf(action);
    hashChange := false;
    if action.Redirect? {
      hashChange := Navigate(loc, action.target);
      LoginTarget();
    }
  }
}
