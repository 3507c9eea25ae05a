/** The edge middleware's routing decision. It lets API calls, static
    assets, the login and registration pages and the home page through;
    every other page needs a non-empty session cookie. The cookie is only
    checked for presence: its value is not validated and the user's role
    is never consulted. */
module Middleware {
  import opened Text

  datatype Decision = Next | RedirectToLogin

  const SessionCookie: string := "better-auth.session_token"

  /** The paths the middleware lets through before looking at cookies. */
  predicate Public(pathname: string)
  {
    || StartsWith(pathname, "/api/")
    || StartsWith(pathname, "/_next/")
    || StartsWith(pathname, "/favicon.ico")
    || pathname == "/login"
    || pathname == "/register"
    || pathname == "/"
  }

  /** `request.cookies.get('better-auth.session_token')?.value` is truthy. */
  predicate HasSessionToken(cookies: map<string, string>)
  {
    SessionCookie in cookies && cookies[SessionCookie] != ""
  }

  /** `middleware(request)`. */
  function Route(pathname: string, cookies: map<string, string>): (d: Decision)
    ensures Public(pathname) ==> d == Next
    ensures HasSessionToken(cookies) ==> d == Next
    ensures d == RedirectToLogin <==> !Public(pathname) && !HasSessionToken(cookies)
  {
    if StartsWith(pathname, "/api/") || StartsWith(pathname, "/_next/") || StartsWith(pathname, "/favicon.ico")
       || pathname == "/login" || pathname == "/register" then
      Next
    else if pathname == "/" then
      Next
    else
      if SessionCookie !in cookies || cookies[SessionCookie] == "" then RedirectToLogin
      else Next
  }

  /** The decision depends on the cookies only through the session token:
      other cookies, and the token's value beyond being non-empty, make no
      difference. */
  lemma OnlyTokenPresenceMatters(pathname: string, c1: map<string, string>, c2: map<string, string>)
    requires HasSessionToken(c1) <==> HasSessionToken(c2)
    ensures Route(pathname, c1) == Route(pathname, c2)
  {
  }

  /** The login and registration exemptions are exact matches: a page below
      them still needs the cookie. */
  lemma LoginSubpathNeedsToken(cookies: map<string, string>)
    requires !HasSessionToken(cookies)
    ensures Route("/login/x", cookies) == RedirectToLogin
    ensures Route("/register/", cookies) == RedirectToLogin
  {
    assert "/login/x"[1] == 'l' && "/register/"[1] == 'r';
    assert "/api/"[1] == 'a' && "/_next/"[1] == '_' && "/favicon.ico"[1] == 'f';
    assert !StartsWith("/login/x", "/api/") && !StartsWith("/login/x", "/_next/");
    assert !StartsWith("/login/x", "/favicon.ico");
    assert !StartsWith("/register/", "/api/") && !StartsWith("/register/", "/_next/");
    assert !StartsWith("/register/", "/favicon.ico");
  }

  /** The API prefix needs its trailing slash, while the favicon prefix
      has none, so `/api` is guarded and `/favicon.icon` is not. */
  lemma PrefixEdges(cookies: map<string, string>)
    requires !HasSessionToken(cookies)
    ensures Route("/api", cookies) == RedirectToLogin
    ensures Route("/favicon.icon", cookies) == Next
  {
    assert !StartsWith("/api", "/api/") && !StartsWith("/api", "/_next/");
    assert !StartsWith("/api", "/favicon.ico");
    assert StartsWith("/favicon.icon", "/favicon.ico");
  }
}
