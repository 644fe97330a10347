/** The root layout: which routes render without the navbar and the footer.
    A route hides both when it is one of the exception routes, compared as
    whole strings, or a single problem page `/problems/<id>`. */
module RootLayout {
  import opened Strings

  /** `exceptionRoutes`. */
  const ExceptionRoutes: seq<string> := [
    "/",
    "/signin",
    "/signup",
    "/oauth/callback",
    "/forgot-password",
    "/reset-password",
    "/verify-email",
    "/verify-otp"
  ]

  const ProblemsPrefix := "/problems/"

  /** What `/^\/problems\/[^/]+$/` accepts, stated directly: the prefix
      `/problems/`, then at least one character, none of them `/`. */
  predicate IsProblemPage(path: string) {
    && StartsWith(path, ProblemsPrefix)
    && |path| > |ProblemsPrefix|
    && forall i :: |ProblemsPrefix| <= i < |path| ==> path[i] != '/'
  }

  /** `[^/]+$` from position `i` on: the rest is non-empty and slash-free. */
  function MatchTail(path: string, i: nat, seen: bool): (r: bool)
    requires i <= |path|
    ensures r <==> (seen || i < |path|) && forall j :: i <= j < |path| ==> path[j] != '/'
    decreases |path| - i
  {
    if i == |path| then seen
    else if path[i] == '/' then false
    else MatchTail(path, i + 1, true)
  }

  /** The regular expression run as an automaton: the literal prefix
      character by character, then the tail. */
  function MatchProblemRoute(path: string, i: nat): (r: bool)
    requires i <= |ProblemsPrefix| && i <= |path|
    requires path[..i] == ProblemsPrefix[..i]
    ensures r <==> IsProblemPage(path)
    decreases |ProblemsPrefix| - i
  {
    if i == |ProblemsPrefix| then
      MatchTail(path, i, false)
    else if i == |path| then
      false
    else if path[i] != ProblemsPrefix[i] then
      assert !StartsWith(path, ProblemsPrefix) by {
        if |ProblemsPrefix| <= |path| {
          assert path[..|ProblemsPrefix|][i] == path[i];
        }
      }
      false
    else
      assert path[..i + 1] == ProblemsPrefix[..i + 1] by {
        assert path[..i + 1] == path[..i] + [path[i]];
        assert ProblemsPrefix[..i + 1] == ProblemsPrefix[..i] + [ProblemsPrefix[i]];
      }
      MatchProblemRoute(path, i + 1)
  }

  /** `/^\/problems\/[^/]+$/.test(path)`. */
  function TestProblemRoute(path: string): (r: bool)
    ensures r <==> IsProblemPage(path)
  {
    MatchProblemRoute(path, 0)
  }

  /** `hideNavFooter`. */
  function HideNavFooter(pathname: string): (r: bool)
    ensures r <==> pathname in ExceptionRoutes || IsProblemPage(pathname)
  {
    pathname in ExceptionRoutes || TestProblemRoute(pathname)
  }

  /** What the layout renders around the app, top to bottom. */
  datatype Part = Navbar | App | Footer

  /** The layout: the navbar and the footer are rendered together or not at
      all, the app always, and both are left out exactly on hidden routes. */
  function Layout(pathname: string): (parts: seq<Part>)
    ensures App in parts
    ensures Navbar in parts <==> Footer in parts
    ensures Navbar in parts <==> !HideNavFooter(pathname)
  {
    if HideNavFooter(pathname) then [App] else [Navbar, App, Footer]
  }

  /** Every exception route hides the navbar and the footer. */
  lemma ExceptionRoutesHide(i: nat)
    requires i < |ExceptionRoutes|
    ensures Layout(ExceptionRoutes[i]) == [App]
  {
  }

  /** A single problem page hides them: `/problems/two-sum`. */
  lemma ProblemPageHides()
    ensures HideNavFooter("/problems/two-sum")
  {
    var p := "/problems/two-sum";
    assert StartsWith(p, ProblemsPrefix);
    assert forall i :: |ProblemsPrefix| <= i < |p| ==> p[i] != '/';
  }

  /** No route that starts with `/problems/x/` is a problem page: a nested
      path shows the navbar. */
  lemma NestedProblemPathShows(id: string, rest: string)
    requires id != ""
    ensures !IsProblemPage(ProblemsPrefix + id + "/" + rest)
  {
    var p := ProblemsPrefix + id + "/" + rest;
    assert p[|ProblemsPrefix| + |id|] == '/';
  }

  /** The route list is compared by equality: a trailing slash, the list
      page, the bare prefix and a nested problem path all show the navbar
      and footer. */
  lemma NearMissesShow()
    ensures !HideNavFooter("/signin/")
    ensures !HideNavFooter("/problems")
    ensures !HideNavFooter("/problems/")
    ensures !HideNavFooter("/problems/a/b")
  {
    assert !StartsWith("/signin/", ProblemsPrefix) by {
      assert "/signin/"[1] != ProblemsPrefix[1];
    }
    assert "/problems/a/b" == ProblemsPrefix + "a" + "/" + "b";
    NestedProblemPathShows("a", "b");
  }
}
