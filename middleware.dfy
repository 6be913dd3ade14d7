/**
 * The request middleware: public paths pass; any other path needs an `auth_token` cookie
 * that verifies, and is otherwise redirected to the login page.
 *
 * The decision is a function of the path, the cookie's value (if any) and the verdict of
 * `verifyAuthToken`, which is passed in: true when it returns a payload, false for `null`.
 */
module Middleware {
  import opened Wrappers
  import opened Strings
  import Auth

  const PublicPaths: seq<string> := [
    "/",
    "/auth/login",
    "/auth/register",
    "/auth/forgot-password",
    "/auth/reset-password",
    "/api/auth/login",
    "/api/auth/register",
    "/api/auth/oauth/google",
    "/api/auth/oauth/callback"
  ]

  const LoginPage := "/auth/login"

  predicate IsPublic(path: string)
  {
    path in PublicPaths || StartsWith(path, "/_next/") || StartsWith(path, "/api/auth/")
  }

  datatype Cookie = Cookie(name: string, value: string, maxAge: int, path: string)

  /** The cookie set on a rejected token: empty, expiring at once, for the whole site. */
  const ClearedCookie := Cookie(Auth.TokenName, "", 0, "/")

  /** `NextResponse.next()`, or a redirect to a page with query parameters and maybe a cookie. */
  datatype Decision = Continue | Redirect(pathname: string, query: map<string, string>, setCookie: Option<Cookie>)

  type Verdict = string -> bool

  /**
   * The middleware's answer. Every redirect comes from a protected path and goes to the login
   * page, and it clears the cookie exactly when one was sent.
   */
  function Decide(path: string, token: Option<string>, verifies: Verdict): (d: Decision)
    ensures d.Redirect? ==> !IsPublic(path) && d.pathname == LoginPage
    ensures d.Redirect? ==> (d.setCookie.Some? <==> Present(token))
  {
    if IsPublic(path) then Continue
    else if token.None? || token.value == "" then Redirect(LoginPage, map["redirect" := path], None)
    else if !verifies(token.value) then Redirect(LoginPage, map[], Some(ClearedCookie))
    else Continue
  }

  /** A cookie that the handler reads as present: set and not empty. */
  predicate Present(token: Option<string>)
  {
    token.Some? && token.value != ""
  }

  /** A path passes whatever the cookie and the verifier say exactly when it is public. */
  lemma PassesUncheckedIffPublic(path: string)
    ensures (forall token, verifies :: Decide(path, token, verifies) == Continue) <==> IsPublic(path)
  {
    if !IsPublic(path) {
      var accept: Verdict := s => true;
      assert Decide(path, None, accept) != Continue;
    }
  }

  /**
   * On a protected path: no cookie redirects to the login page with `redirect=<path>`; a cookie
   * that fails verification redirects without it and clears the cookie; a verifying cookie
   * proceeds.
   */
  lemma ProtectedPathDecision(path: string, token: Option<string>, verifies: Verdict)
    requires !IsPublic(path)
    ensures !Present(token) ==> Decide(path, token, verifies) == Redirect(LoginPage, map["redirect" := path], None)
    ensures Present(token) && !verifies(token.value) ==>
      Decide(path, token, verifies) == Redirect(LoginPage, map[], Some(Cookie("auth_token", "", 0, "/")))
    ensures Decide(path, token, verifies) == Continue <==> Present(token) && verifies(token.value)
  {
  }

  /** The decision depends on the cookie only through its presence and its verdict. */
  lemma DecisionDependsOnlyOnVerdict(path: string, t1: Option<string>, v1: Verdict, t2: Option<string>, v2: Verdict)
    requires Present(t1) == Present(t2)
    requires Present(t1) ==> v1(t1.value) == v2(t2.value)
    ensures Decide(path, t1, v1) == Decide(path, t2, v2)
  {
  }

  /** Every redirect goes to a page the middleware lets through, so redirects never loop. */
  lemma RedirectTargetPasses(path: string, token: Option<string>, verifies: Verdict, again: Option<string>, v: Verdict)
    requires Decide(path, token, verifies).Redirect?
    ensures Decide(Decide(path, token, verifies).pathname, again, v) == Continue
  {
    assert PublicPaths[1] == LoginPage;
  }

  /** Every `/api/auth/` route is public, including ones missing from the list, such as logout. */
  lemma AuthApiAlwaysPublic(suffix: string)
    ensures IsPublic("/api/auth/" + suffix)
  {
    var p := "/api/auth/" + suffix;
    assert p[..|"/api/auth/"|] == "/api/auth/";
  }

  /** An unauthenticated visit to the dashboard is sent to log in and brought back after. */
  lemma DashboardNeedsLogin(verifies: Verdict)
    ensures Decide("/dashboard", None, verifies) == Redirect("/auth/login", map["redirect" := "/dashboard"], None)
  {
    assert "/dashboard"[1] != "/_next/"[1] && "/dashboard"[1] != "/api/auth/"[1];
    assert !StartsWith("/dashboard", "/_next/") && !StartsWith("/dashboard", "/api/auth/");
  }
}
