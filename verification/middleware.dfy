/**
  The Next.js middleware that guards the dashboard. Next.js runs it only on
  paths its matcher `/dashboard/:path*` accepts: `/dashboard` itself and every
  path below `/dashboard/`. Inside, a path starting with `/dashboard` without a
  session cookie is redirected to the sign-in page with the requested path as
  `callbackUrl`; everything else passes through.
 */
module Middleware {

  const ProtectedPrefix := "/dashboard"
  const SignInPath := "/auth/signin"
  const SessionCookie := "next-auth.session-token"
  const SecureSessionCookie := "__Secure-next-auth.session-token"

  /** The parts of a request the middleware reads. A cookie counts as present
      whatever its value, since the cookie object is truthy. */
  datatype Request = Request(origin: string, pathname: string, cookies: map<string, string>)

  datatype Decision =
    | Next
    | Redirect(origin: string, path: string, callbackUrl: string)

  predicate HasSessionCookie(request: Request) {
    SessionCookie in request.cookies || SecureSessionCookie in request.cookies
  }

  function Guard(request: Request): (r: Decision)
    ensures !(ProtectedPrefix <= request.pathname) ==> r == Next
    ensures ProtectedPrefix <= request.pathname && HasSessionCookie(request) ==> r == Next
    ensures ProtectedPrefix <= request.pathname && !HasSessionCookie(request) ==>
      r == Redirect(request.origin, SignInPath, request.pathname)
  {
    if ProtectedPrefix <= request.pathname && !HasSessionCookie(request) then
      Redirect(request.origin, SignInPath, request.pathname)
    else Next
  }

  /** The test inside the function body is a plain prefix test: any path
      handed to it that starts with `/dashboard` is guarded. */
  lemma EveryDashboardPrefixGuarded(origin: string, suffix: string, cookies: map<string, string>)
    requires SessionCookie !in cookies && SecureSessionCookie !in cookies
    ensures Guard(Request(origin, ProtectedPrefix + suffix, cookies)) ==
      Redirect(origin, SignInPath, ProtectedPrefix + suffix)
  {
    assert (ProtectedPrefix + suffix)[..|ProtectedPrefix|] == ProtectedPrefix;
  }

  /** The matcher `/dashboard/:path*`: `/dashboard` and every path below
      `/dashboard/`. */
  predicate Matched(pathname: string) {
    pathname == ProtectedPrefix || ProtectedPrefix + "/" <= pathname
  }

  /** What a request meets: the function body on matched paths, and on any
      other path no middleware at all. */
  function Handle(request: Request): (r: Decision)
    ensures !Matched(request.pathname) ==> r == Next
    ensures Matched(request.pathname) ==>
      (r == Next <==> HasSessionCookie(request))
    ensures r.Redirect? ==>
      r == Redirect(request.origin, SignInPath, request.pathname) && !HasSessionCookie(request)
  {
    if Matched(request.pathname) then
      assert ProtectedPrefix <= request.pathname;
      Guard(request)
    else Next
  }

  /** Every path the matcher accepts starts with `/dashboard`, so on them the
      body's own prefix test always holds. */
  lemma MatchedIsGuarded(pathname: string)
    requires Matched(pathname)
    ensures ProtectedPrefix <= pathname
  {
    if pathname != ProtectedPrefix {
      assert pathname[..|ProtectedPrefix|] == (ProtectedPrefix + "/")[..|ProtectedPrefix|];
    }
  }

  /** Paths that merely start with the same letters, such as `/dashboards` or
      `/dashboard-old`, are not matched and pass without a session cookie. */
  lemma SiblingPathsUnguarded(origin: string, suffix: string, cookies: map<string, string>)
    requires |suffix| > 0 && suffix[0] != '/'
    ensures Handle(Request(origin, ProtectedPrefix + suffix, cookies)) == Next
  {
    var p := ProtectedPrefix + suffix;
    assert p[|ProtectedPrefix|] == suffix[0];
    assert p != ProtectedPrefix;
    assert (ProtectedPrefix + "/")[|ProtectedPrefix|] == '/';
  }

  /** The redirect only ever sends the user to sign in, which is itself
      unguarded; its callback is the very path that was refused, and the same
      request passes once a session cookie is added, whatever its value. */
  lemma RedirectRoundTrip(request: Request, value: string)
    requires Handle(request).Redirect?
    ensures Handle(request).path == SignInPath
    ensures Handle(request).callbackUrl == request.pathname
    ensures Matched(request.pathname)
    ensures Handle(request.(cookies := request.cookies[SessionCookie := value])) == Next
    ensures Handle(Request(request.origin, SignInPath, request.cookies)) == Next
  {
    assert SignInPath[1] != ProtectedPrefix[1];
    assert !(ProtectedPrefix + "/" <= SignInPath);
  }
}
