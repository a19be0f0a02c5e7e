/** The admin-area middleware (src/middleware.ts), run for paths matching `/admin/:path*`. */
module Middleware {
  import opened Common

  const AdminPrefix := "/admin"
  const LoginPage := "/admin/login"
  const RobotsTag := "noindex, nofollow"

  /** `NextResponse.next()` (with an optional `X-Robots-Tag` header) or a redirect. */
  datatype Action = Next(robotsTag: Option<string>) | Redirect(location: string)

  /** The matcher `/admin/:path*`: `/admin` itself and everything below it. */
  predicate Matched(path: string)
  {
    path == AdminPrefix || StartsWith(path, AdminPrefix + "/")
  }

  function Handle(path: string, loggedIn: bool): (a: Action)
    // the login page is always reachable and carries no header
    ensures path == LoginPage ==> a == Next(None)
    // every other admin path needs a session; the only redirect goes to the login page
    ensures a.Redirect? <==> (StartsWith(path, AdminPrefix) && !loggedIn && path != LoginPage)
    ensures a.Redirect? ==> a.location == LoginPage
    // admin pages that are served are marked not to be indexed
    ensures a.Next? ==> (a.robotsTag.Some? <==> StartsWith(path, AdminPrefix) && path != LoginPage)
    ensures a.Next? && a.robotsTag.Some? ==> a.robotsTag.value == RobotsTag
  {
    var isAdminRoute := StartsWith(path, AdminPrefix);
    var isLoginPage := path == LoginPage;
    if isLoginPage then Next(None)
    else if isAdminRoute && !loggedIn then Redirect(LoginPage)
    else if isLoginPage && loggedIn then Redirect(AdminPrefix)
    else Next(if isAdminRoute && !isLoginPage then Some(RobotsTag) else None)
  }

  /** Every path the matcher selects is an admin route. */
  lemma {:induction false} MatchedIsAdminRoute(path: string)
    requires Matched(path)
    ensures StartsWith(path, AdminPrefix)
  {
    if path != AdminPrefix {
      assert path[..|AdminPrefix|] == (AdminPrefix + "/")[..|AdminPrefix|];
    }
  }

  /** Following the redirect never redirects again. */
  lemma NoRedirectLoop(path: string, loggedIn: bool)
    requires Handle(path, loggedIn).Redirect?
    ensures Handle(Handle(path, loggedIn).location, loggedIn) == Next(None)
  {
  }

  /**
   * A signed-in user on a matched page other than the login page is served with the header,
   * and an anonymous one is sent to the login page.
   */
  lemma {:induction false} MatchedPagesAreGuarded(path: string, loggedIn: bool)
    requires Matched(path) && path != LoginPage
    ensures loggedIn ==> Handle(path, loggedIn) == Next(Some(RobotsTag))
    ensures !loggedIn ==> Handle(path, loggedIn) == Redirect(LoginPage)
  {
    MatchedIsAdminRoute(path);
  }
}
