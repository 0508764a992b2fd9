/**
  The route guard (middleware.ts). It runs on every request path and looks only at whether
  the `admin-session` and `user-session` cookies are present, never at their contents.
 */
module Middleware {
  import opened Text
  import opened Sessions

  datatype Decision = Next | Redirect(target: string)

  const AdminLoginPage: string := "/admin/login"
  const AdminDashboardPage: string := "/admin/dashboard"
  const UserLoginPage: string := "/auth/login"
  const UserRegisterPage: string := "/auth/register"
  const UserDashboardPage: string := "/dashboard"

  /** The twelve pages anyone may open. */
  const PublicPages: set<string> := {
    "/", "/auth/login", "/auth/register", "/auth/verify-email", "/admin/login", "/about",
    "/faq", "/contact", "/privacy", "/how-it-works", "/report", "/check-status"
  }

  /** A public path: one of the listed pages or anything under `/api/`. */
  predicate IsPublicPath(path: string) {
    path in PublicPages || StartsWith(path, "/api/")
  }

  /**
    The guard, with `admin` and `user` telling whether each session cookie is present.
    Rules are tried in order: admin area without an admin cookie, user dashboard without a
    user cookie, user login/registration with a user cookie, admin login with an admin cookie.
   */
  function Route(path: string, admin: bool, user: bool): (d: Decision)
    ensures d == Redirect(AdminLoginPage) <==> StartsWith(path, "/admin") && !IsPublicPath(path) && !admin
    ensures d == Redirect(UserLoginPage) <==> StartsWith(path, "/dashboard") && !user
    ensures d == Redirect(UserDashboardPage) <==> (path == UserLoginPage || path == UserRegisterPage) && user
    ensures d == Redirect(AdminDashboardPage) <==> path == AdminLoginPage && admin
    ensures d.Redirect? ==> d.target in {AdminLoginPage, UserLoginPage, UserDashboardPage, AdminDashboardPage}
  {
    RulesDisjoint(path);
    if StartsWith(path, "/admin") && !IsPublicPath(path) && !admin then Redirect(AdminLoginPage)
    else if StartsWith(path, "/dashboard") && !user then Redirect(UserLoginPage)
    else if (path == UserLoginPage || path == UserRegisterPage) && user then Redirect(UserDashboardPage)
    else if path == AdminLoginPage && admin then Redirect(AdminDashboardPage)
    else Next
  }

  /** `middleware(request)`: the guard applied to the request's cookie jar. */
  function Middleware(path: string, jar: Jar): Decision {
    Route(path, CookiePresent(jar, AdminSessionCookie), CookiePresent(jar, UserSessionCookie))
  }

  /** Cookie contents never matter: jars agreeing on which session cookies are present route alike. */
  lemma OnlyPresenceMatters(path: string, j1: Jar, j2: Jar)
    requires CookiePresent(j1, AdminSessionCookie) == CookiePresent(j2, AdminSessionCookie)
    requires CookiePresent(j1, UserSessionCookie) == CookiePresent(j2, UserSessionCookie)
    ensures Middleware(path, j1) == Middleware(path, j2)
  {
  }

  /** A string starting with `p` agrees with `p` at every position of `p`. */
  lemma PrefixAt(s: string, p: string, i: nat)
    requires StartsWith(s, p) && i < |p|
    ensures s[i] == p[i]
  {
    assert s[..|p|][i] == s[i];
  }

  /** The paths the four rules look at never overlap across the `/admin`, `/dashboard` and `/auth` prefixes. */
  lemma RulesDisjoint(path: string)
    ensures StartsWith(path, "/dashboard") ==>
              && !StartsWith(path, "/admin")
              && path != AdminLoginPage && path != UserLoginPage && path != UserRegisterPage
    ensures StartsWith(path, "/admin") ==> path != UserLoginPage && path != UserRegisterPage
  {
    if StartsWith(path, "/dashboard") {
      PrefixAt(path, "/dashboard", 1);
    }
    if StartsWith(path, "/admin") {
      PrefixAt(path, "/admin", 2);
    }
  }

  /** A forged, unparsable admin cookie still opens the admin area. */
  lemma GarbageAdminCookiePasses(path: string)
    requires StartsWith(path, "/admin/") && path != AdminLoginPage
    ensures Middleware(path, map[AdminSessionCookie := Unparsable]) == Next
  {
    PrefixAt(path, "/admin/", 1);
    PrefixAt(path, "/admin/", 2);
    assert !StartsWith(path, "/dashboard") by {
      if StartsWith(path, "/dashboard") {
        PrefixAt(path, "/dashboard", 1);
      }
    }
    assert path != UserLoginPage && path != UserRegisterPage by {
      assert UserLoginPage[2] == 'u' && UserRegisterPage[2] == 'u';
    }
  }

  /** Public pages never redirect to a login page. */
  lemma PublicPathsNeedNoSession(path: string, admin: bool, user: bool)
    requires IsPublicPath(path)
    ensures Route(path, admin, user) != Redirect(AdminLoginPage)
    ensures Route(path, admin, user) != Redirect(UserLoginPage)
  {
    if StartsWith(path, "/dashboard") {
      PrefixAt(path, "/dashboard", 1);
      PrefixAt(path, "/dashboard", 2);
      if StartsWith(path, "/api/") {
        PrefixAt(path, "/api/", 1);
      }
    }
  }

  /** No redirect loop: under the same cookies, every redirect target is let through. */
  lemma RedirectTargetsPass(path: string, admin: bool, user: bool)
    requires Route(path, admin, user).Redirect?
    ensures Route(Route(path, admin, user).target, admin, user) == Next
  {
    forall t | t in {AdminLoginPage, UserLoginPage, UserDashboardPage, AdminDashboardPage}
      ensures !StartsWith(t, "/dashboard") || t == UserDashboardPage
      ensures !StartsWith(t, "/admin") || t == AdminLoginPage || t == AdminDashboardPage
    {
      if StartsWith(t, "/dashboard") {
        PrefixAt(t, "/dashboard", 1);
        PrefixAt(t, "/dashboard", 2);
      }
      if StartsWith(t, "/admin") {
        PrefixAt(t, "/admin", 1);
        PrefixAt(t, "/admin", 2);
      }
    }
  }
}
