/**
 * Client-side routing (`initializeRoutes` and `handleRoute`): a nav-link click or a
 * back/forward step cleans the path, optionally pushes a history entry and asks the content
 * loader to load it. Calls into the browser history and into the loader are recorded in order.
 */
module RouteHandler {
  import opened Text
  import opened ContentLoader

  /** The cleanup at the top of `handleRoute`: boundary slashes go, and nothing left means `/`. */
  function CleanPath(path: string): (r: string)
    ensures r == "/" || (r != "" && SlashFree(r))
    ensures r == "/" <==> TrimSlashes(path) == ""
    ensures r != "/" ==> Contains(path, r)
  {
    var t := TrimSlashes(path);
    if t == "" then "/" else t
  }

  /** Cleaning an already cleaned path returns it unchanged. */
  lemma CleanPathIdempotent(path: string)
    ensures CleanPath(CleanPath(path)) == CleanPath(path)
  {
    var r := CleanPath(path);
    if r == "/" {
      assert TrimLeadingSlashes("/") == "";
      assert TrimSlashes("/") == "";
    } else {
      TrimSlashesOfSlashFree(r);
    }
  }

  /**
   * The loader normalises the cleaned path again; for an href without fragment this gives back
   * the href with its boundary slashes removed, so `/` reaches the loader as the empty path.
   */
  lemma LoaderSeesTrimmedPath(href: string)
    requires '#' !in href
    ensures NormalizePath(CleanPath(href)) == TrimSlashes(href)
  {
    var r := CleanPath(href);
    assert IndexOf(r, '#') == |r|;
    assert BeforeHash(r) == r;
    if r == "/" {
      assert TrimLeadingSlashes("/") == "";
    } else {
      TrimSlashesOfSlashFree(r);
    }
  }

  /** The browser side of routing: the history stack and the loader requests made so far. */
  class Router {
    /** URLs passed to `window.history.pushState`, oldest first. */
    var history: seq<string>
    /** Arguments of every `contentLoader.loadContent` call, oldest first. */
    var loadRequests: seq<string>
    /** Nav-link clicks whose default navigation was prevented. */
    var preventedClicks: nat

    constructor()
      ensures history == [] && loadRequests == [] && preventedClicks == 0
    {
      history, loadRequests, preventedClicks := [], [], 0;
    }

    /** `handleRoute(path, addToHistory = true)`. */
    method HandleRoute(path: string, addToHistory: bool := true)
      modifies this
      ensures history == if addToHistory then old(history) + [CleanPath(path)] else old(history)
      ensures loadRequests == old(loadRequests) + [CleanPath(path)]
      ensures preventedClicks == old(preventedClicks)
    {
      var p := CleanPath(path);
      if addToHistory {
        history := history + [p];
      }
      loadRequests := loadRequests + [p];
    }

    /** The `click` handler on `.nav-link[href]`: prevents default navigation, routes the href. */
    method OnNavClick(href: string)
      modifies this
      ensures preventedClicks == old(preventedClicks) + 1
      ensures history == old(history) + [CleanPath(href)]
      ensures loadRequests == old(loadRequests) + [CleanPath(href)]
    {
      preventedClicks := preventedClicks + 1;
      HandleRoute(href);
    }

    /** `window.onpopstate`: routes the current pathname without pushing a history entry. */
    method OnPopState(pathname: string)
      modifies this
      ensures history == old(history)
      ensures loadRequests == old(loadRequests) + [CleanPath(pathname)]
      ensures preventedClicks == old(preventedClicks)
    {
      HandleRoute(pathname, false);
    }
  }
}
