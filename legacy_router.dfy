// The earlier router of src/main.js, kept apart from Router: the same
// `getRoute`/`renderRoute`/`navigate` shape over a route table written with
// "/#login"-style paths.

module LegacyRouter {
  import opened Js
  import Strings
  import Browser

  const LoginPath := "/#login"
  const RegisterPath := "/#register"
  const FeedPath := "/#feed"

  datatype Action = RenderLogin | RenderRegister | RenderFeed | Redirect(target: string)

  datatype View = LoginView | RegisterView | FeedView

  /** `getRoute`: the hash, or "/#login" when it is empty. */
  function GetRoute(hash: string): (r: string)
    ensures r != ""
    ensures hash != "" ==> r == hash
  {
    if hash == "" then LoginPath else hash
  }

  /** The `renderRoute` switch on the route with its query part cut off. */
  function Route(hash: string): (a: Action)
    ensures a.Redirect? ==> a.target == LoginPath
  {
    var path := Strings.Before(GetRoute(hash), '?');
    if path == LoginPath then RenderLogin
    else if path == RegisterPath then RenderRegister
    else if path == FeedPath then RenderFeed
    else Redirect(LoginPath)
  }

  /** The route table on arbitrary text: a path matches when the text is the
      path or the path followed by a query; anything else redirects. */
  lemma RouteCharacterised(hash: string)
    ensures Route(hash) == RenderLogin <==>
      hash == "" || hash == LoginPath || LoginPath + "?" <= hash
    ensures Route(hash) == RenderRegister <==>
      hash == RegisterPath || RegisterPath + "?" <= hash
    ensures Route(hash) == RenderFeed <==>
      hash == FeedPath || FeedPath + "?" <= hash
    ensures Route(hash) == Redirect(LoginPath) <==>
      !(hash == "" || hash == LoginPath || LoginPath + "?" <= hash) &&
      !(hash == RegisterPath || RegisterPath + "?" <= hash) &&
      !(hash == FeedPath || FeedPath + "?" <= hash)
  {
    if hash != "" {
      Strings.BeforeIs(hash, '?', LoginPath);
      Strings.BeforeIs(hash, '?', RegisterPath);
      Strings.BeforeIs(hash, '?', FeedPath);
    } else {
      assert Strings.Before(LoginPath, '?') == LoginPath;
    }
  }

  /** Whatever follows the first '?' plays no part in dispatch. */
  lemma QueryIgnored(path: string, query: string)
    requires path != "" && '?' !in path
    ensures Route(path + "?" + query) == Route(path)
  {
    Strings.BeforeOfPrefix(path, '?', query);
    assert Strings.IndexOf(path, '?') == -1;
  }

  /** On any hash the browser can report, this table matches nothing but the
      empty hash: a non-empty reported hash starts with '#', every path of
      the table with '/'. So the register and feed views are never rendered. */
  lemma ReportedHashesNeverMatch(hash: string)
    requires Browser.IsReportedHash(hash)
    ensures Route(hash) == if hash == "" then RenderLogin else Redirect(LoginPath)
  {
    RouteCharacterised(hash);
    if hash != "" {
      assert hash[0] == '#';
      assert !(LoginPath + "?" <= hash) by { assert (LoginPath + "?")[0] == '/'; }
      assert !(RegisterPath + "?" <= hash) by { assert (RegisterPath + "?")[0] == '/'; }
      assert !(FeedPath + "?" <= hash) by { assert (FeedPath + "?")[0] == '/'; }
    }
  }

  /** Following the table's own links: navigating to any path of the table
      leaves the hash "#" + path, which redirects to "/#login". For "/#login"
      itself that redirect sets the very hash already there, so it fires no
      `hashchange` and nothing is rendered: "/#register" ends, through
      "#/#register" and "#/#login", on no view at all. */
  lemma LinkStalls(path: string)
    requires path == LoginPath || path == RegisterPath || path == FeedPath
    ensures Browser.HashAfterSet(path) == "#" + path
    ensures Route("#" + path) == Redirect(LoginPath)
  {
    Browser.HashAfterSetPrefixes(path);
    ReportedHashesNeverMatch("#" + path);
  }

  function ViewOf(a: Action): Option<View> {
    match a
    case RenderLogin => Some(LoginView)
    case RenderRegister => Some(RegisterView)
    case RenderFeed => Some(FeedView)
    case Redirect(_) => None
  }

  /** `navigate(hash)`: assigns the location's hash. */
  method Navigate(loc: Browser.Location, hash: string) returns (hashChange: bool)
    modifies loc
    ensures loc.Valid()
    ensures loc.hash == Browser.HashAfterSet(hash)
    ensures hashChange == (loc.hash != old(loc.hash))
  {
    hashChange := loc.SetHash(hash);
  }

  /** `renderRoute()`: renders the view the current hash selects, or
      navigates to "/#login" and renders nothing. */
  method RenderRoute(loc: Browser.Location) returns (view: Option<View>, hashChange: bool)
    modifies loc
    ensures view == ViewOf(Route(old(loc.hash)))
    ensures view.Some? ==> loc.hash == old(loc.hash) && !hashChange
    ensures view.None? ==> loc.hash == Browser.HashAfterSet(LoginPath)
    ensures hashChange == (view.None? && loc.hash != old(loc.hash))
  {
    var action := Route(loc.hash);
    view := ViewOf(action);
    hashChange := false;
    if action.Redirect? {
      hashChange := Navigate(loc, action.target);
    }
  }
}
