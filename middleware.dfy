/** The edge guard of the protected pages (middleware.ts): a page under one of the
    protected prefixes needs a session cookie, and a request without one is sent
    to the login page with the page it asked for. */
module Middleware {
  import opened Text
  import opened Types

  const ProtectedPrefixes: seq<string> := ["/dashboard", "/users", "/logs", "/runbook"]

  /** `pathname === prefix || pathname.startsWith(prefix + "/")`. */
  predicate UnderPrefix(pathname: string, prefix: string) {
    pathname == prefix || StartsWith(pathname, prefix + "/")
  }

  /** `protectedPrefixes.some(...)`. */
  function AnyUnder(pathname: string, prefixes: seq<string>): (b: bool)
    ensures b <==> exists k :: 0 <= k < |prefixes| && UnderPrefix(pathname, prefixes[k])
  {
    if prefixes == [] then false
    else UnderPrefix(pathname, prefixes[0]) || AnyUnder(pathname, prefixes[1..])
  }

  predicate RequiresSession(pathname: string) {
    AnyUnder(pathname, ProtectedPrefixes)
  }

  /** What the middleware answers: `NextResponse.next()`, or a redirect to `target`
      with the query parameter `redirect` set to the page asked for. */
  datatype Verdict = Pass | Redirect(target: string, redirect: string)

  /** `middleware`: only the presence of a non-empty cookie is checked. */
  function Guard(pathname: string, cookie: Option<string>): (v: Verdict)
  {
    if !RequiresSession(pathname) then Pass
    else if cookie.Some? && cookie.value != "" then Pass
    else Redirect("/", pathname)
  }

  /** A page needs a session exactly when it is a protected prefix or lies below one;
      a sibling that merely starts with the same letters does not. */
  lemma RequiresSessionExactly(pathname: string)
    ensures RequiresSession(pathname) <==>
      exists k :: 0 <= k < |ProtectedPrefixes| &&
        (pathname == ProtectedPrefixes[k] || StartsWith(pathname, ProtectedPrefixes[k] + "/"))
    ensures RequiresSession("/dashboard") && RequiresSession("/users/u_admin_001")
    ensures !RequiresSession("/dashboardx") && !RequiresSession("/") && !RequiresSession("/login")
  {
    assert UnderPrefix("/dashboard", ProtectedPrefixes[0]);
    assert UnderPrefix("/users/u_admin_001", ProtectedPrefixes[1]);
    forall k | 0 <= k < |ProtectedPrefixes|
      ensures !UnderPrefix("/dashboardx", ProtectedPrefixes[k])
      ensures !UnderPrefix("/", ProtectedPrefixes[k]) && !UnderPrefix("/login", ProtectedPrefixes[k])
    {
      var p := ProtectedPrefixes[k];
      assert "/dashboardx"[1] != (p + "/")[1] || "/dashboardx"[10] != (p + "/")[10];
      assert "/login"[4] != p[4];
    }
  }

  /** Unprotected pages always pass; protected pages pass exactly with a non-empty
      cookie, whatever it holds; otherwise the redirect carries the original path. */
  lemma GuardDecides(pathname: string, cookie: Option<string>)
    ensures !RequiresSession(pathname) ==> Guard(pathname, cookie) == Pass
    ensures RequiresSession(pathname) ==>
      (Guard(pathname, cookie) == Pass <==> cookie.Some? && |cookie.value| > 0)
    ensures Guard(pathname, cookie).Redirect? ==>
      Guard(pathname, cookie) == Redirect("/", pathname) && RequiresSession(pathname)
  {
  }
}
