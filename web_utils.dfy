/** web/src/lib/utils.ts: the page size and the login redirect target. */
module WebUtils {
  import opened Wrappers

  /** `ARTICLES_PER_PAGE`. */
  const ArticlesPerPage: nat := 30

  /** The parts of a `URL` the app reads; only `pathname` and `search`
      matter here. */
  datatype Url = Url(origin: string, pathname: string, search: string, hash: string)

  const LoginPrefix: string := "/login?redirectTo="

  /** `handleLoginRedirect(event)`: the login page with the current path
      and query appended verbatim, without percent-encoding. */
  function HandleLoginRedirect(url: Url): (r: string)
    ensures |r| == 18 + |url.pathname| + |url.search|
    ensures r[..18] == LoginPrefix
    ensures r[18..] == url.pathname + url.search
  {
    LoginPrefix + url.pathname + url.search
  }

  /** What the login page reads back as `redirectTo`: everything after the
      prefix, exactly as it was written. */
  function RedirectTarget(location: string): (r: Option<string>)
    ensures r.Some? <==> |location| >= |LoginPrefix| && location[..|LoginPrefix|] == LoginPrefix
    ensures r.Some? ==> LoginPrefix + r.value == location
  {
    if |location| >= |LoginPrefix| && location[..|LoginPrefix|] == LoginPrefix then
      Some(location[|LoginPrefix|..])
    else None
  }

  /** The redirect target is recovered intact, special characters
      included. */
  lemma RedirectRoundTrip(url: Url)
    ensures RedirectTarget(HandleLoginRedirect(url)) == Some(url.pathname + url.search)
  {
  }

  /** Only the path and the query matter: origin and fragment are dropped. */
  lemma OnlyPathAndSearch(u1: Url, u2: Url)
    ensures HandleLoginRedirect(u1) == HandleLoginRedirect(u2) <==> u1.pathname + u1.search == u2.pathname + u2.search
  {
    if HandleLoginRedirect(u1) == HandleLoginRedirect(u2) {
      assert HandleLoginRedirect(u1)[18..] == HandleLoginRedirect(u2)[18..];
    }
  }
}
