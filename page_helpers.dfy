/**
 * The deep link to the current page (`src/utils/pageHelpers.ts`), sent in
 * the mention mail: the web's absolute URL, or the window's origin, followed
 * by the page's server-relative path, or the window's path and query.
 */
module PageHelpers {
  import opened Wrappers
  import opened Text

  /** Line 4. */
  function DeepLinkBase(absoluteUrl: Option<string>, origin: string): string {
    OrElse(absoluteUrl, StripTrailingSlash(origin))
  }

  /** Line 5. */
  function DeepLinkPath(serverRequestPath: Option<string>, pathname: string, search: string): string {
    OrElse(serverRequestPath, pathname + search)
  }

  /**
   * `getPageDeepLink(context)` (lines 3-7), with `pageContext.web.absoluteUrl`
   * and `pageContext.site.serverRequestPath` (absent when the context lacks
   * them) and the window's `location.origin`, `pathname` and `search`.
   */
  function GetPageDeepLink(absoluteUrl: Option<string>, origin: string,
                           serverRequestPath: Option<string>, pathname: string, search: string): (r: string)
    ensures |DeepLinkBase(absoluteUrl, origin)| <= |r|
    ensures r[..|DeepLinkBase(absoluteUrl, origin)|] == DeepLinkBase(absoluteUrl, origin)
    ensures r[|DeepLinkBase(absoluteUrl, origin)|..] == DeepLinkPath(serverRequestPath, pathname, search)
  {
    var base := DeepLinkBase(absoluteUrl, origin);
    var path := DeepLinkPath(serverRequestPath, pathname, search);
    assert (base + path)[..|base|] == base && (base + path)[|base|..] == path;
    base + path
  }

  /**
   * The link keeps the web's URL as it is, with no slash removed or added,
   * when the context has one; otherwise it starts with the origin minus at
   * most one trailing slash. It ends with the server path when there is one,
   * else with the window's path and query.
   */
  lemma DeepLinkParts(absoluteUrl: Option<string>, origin: string,
                      serverRequestPath: Option<string>, pathname: string, search: string)
    ensures var r := GetPageDeepLink(absoluteUrl, origin, serverRequestPath, pathname, search);
      var path := if Truthy(serverRequestPath) then serverRequestPath.value else pathname + search;
      (Truthy(absoluteUrl) ==> r == absoluteUrl.value + path)
      && (!Truthy(absoluteUrl) ==>
            (r == origin + path && (origin == [] || origin[|origin| - 1] != '/'))
            || (r == origin[..|origin| - 1] + path && origin != [] && origin[|origin| - 1] == '/'))
  {
    var r := GetPageDeepLink(absoluteUrl, origin, serverRequestPath, pathname, search);
    var base := DeepLinkBase(absoluteUrl, origin);
    var path := DeepLinkPath(serverRequestPath, pathname, search);
    assert r == base + path;
  }
}
