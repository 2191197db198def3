/** The route guard of middleware.ts: one decision from the `token` cookie and
    the request path. */
module RouteGuard {
  import opened Wrappers
  import opened Text

  /** Paths that need a signed-in user (middleware.ts:9). */
  const ProtectedRoutes: seq<string> := ["/dashboard"]
  /** Paths only meant for signed-out users (middleware.ts:12). */
  const AuthRoutes: seq<string> := ["/login", "/signup", "/verify-otp", "/forget-password"]

  /** What the guard answers. `RedirectToLogin` carries the value of the
      `redirect` query parameter of the `/login` URL it sends the user to. */
  datatype Decision = RedirectToLogin(redirect: string) | RedirectToDashboard | PassThrough

  /** `routes.some((route) => pathname.startsWith(route))`: raw string
      prefixes, not path segments. */
  function MatchesAny(routes: seq<string>, pathname: string): (b: bool)
    ensures b <==> exists i :: 0 <= i < |routes| && StartsWith(pathname, routes[i])
  {
    if routes == [] then false
    else StartsWith(pathname, routes[0]) || MatchesAny(routes[1..], pathname)
  }

  /** JavaScript truthiness of `req.cookies.get("token")?.value`: a missing
      cookie and an empty value both count as no token. */
  predicate HasToken(cookie: Option<string>) {
    cookie.Some? && cookie.value != ""
  }

  predicate IsProtected(pathname: string) { MatchesAny(ProtectedRoutes, pathname) }
  predicate IsAuthRoute(pathname: string) { MatchesAny(AuthRoutes, pathname) }

  /** `middleware` (middleware.ts:4-29). */
  function Middleware(cookie: Option<string>, pathname: string): (d: Decision)
    ensures d.RedirectToLogin? <==> !HasToken(cookie) && StartsWith(pathname, "/dashboard")
    ensures d.RedirectToLogin? ==> d.redirect == pathname
    ensures d.RedirectToDashboard? <==> HasToken(cookie) && IsAuthRoute(pathname)
  {
    if IsProtected(pathname) && !HasToken(cookie) then RedirectToLogin(pathname)
    else if HasToken(cookie) && IsAuthRoute(pathname) then RedirectToDashboard
    else PassThrough
  }

  /** The auth pages are exactly these four prefixes. */
  lemma AuthRouteList(pathname: string)
    ensures IsAuthRoute(pathname) <==>
      (|| StartsWith(pathname, "/login") || StartsWith(pathname, "/signup")
       || StartsWith(pathname, "/verify-otp") || StartsWith(pathname, "/forget-password"))
  {
    assert AuthRoutes[0] == "/login" && AuthRoutes[1] == "/signup";
    assert AuthRoutes[2] == "/verify-otp" && AuthRoutes[3] == "/forget-password";
  }

  /** Everything the two redirects do not claim passes through: a signed-out
      request for an auth page, a signed-in request for the dashboard, and any
      other path. */
  lemma PassThroughCases(cookie: Option<string>, pathname: string)
    ensures Middleware(cookie, pathname) == PassThrough <==>
      if HasToken(cookie) then !IsAuthRoute(pathname) else !IsProtected(pathname)
  {
  }

  /** No dashboard path starts like an auth page, so a signed-in user is
      never redirected away from the dashboard. */
  lemma SignedInDashboardPasses(cookie: Option<string>, pathname: string)
    requires HasToken(cookie) && StartsWith(pathname, "/dashboard")
    ensures Middleware(cookie, pathname) == PassThrough
  {
    assert pathname[1] == 'd' by { assert pathname[..10] == "/dashboard"; }
    forall i | 0 <= i < |AuthRoutes| ensures !StartsWith(pathname, AuthRoutes[i]) {
      assert |AuthRoutes[i]| >= 2 && AuthRoutes[i][1] != 'd';
      if |AuthRoutes[i]| <= |pathname| {
        assert pathname[..|AuthRoutes[i]|][1] == pathname[1];
      }
    }
  }

  /** An empty cookie value is treated exactly like a missing cookie. */
  lemma EmptyCookieIsNoToken(pathname: string)
    ensures Middleware(Some(""), pathname) == Middleware(None, pathname)
  {
  }

  /** The function matches by raw prefix: given a path that merely begins
      with the letters of "/dashboard" or "/login" it redirects as for those
      routes. The matcher of middleware.ts:33-36 keeps both paths below from
      ever reaching it. */
  lemma PrefixNotSegment()
    ensures Middleware(None, "/dashboardX") == RedirectToLogin("/dashboardX")
    ensures Middleware(Some("t"), "/login-help") == RedirectToDashboard
  {
    assert StartsWith("/dashboardX", "/dashboard");
    assert StartsWith("/login-help", "/login");
  }
}
