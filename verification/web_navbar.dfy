/**
 * The public site's navigation bar: which menu key is highlighted for the
 * current pathname, and where a click on a key goes.
 */
module WebNavbar {
  import opened Wrappers

  const GithubUrl: string := "https://github.com/daodaoq"

  /** A character the regular expression class `[a-zA-Z0-9_]` accepts. */
  predicate IsWordChar(c: char)
  {
    'a' <= c <= 'z' || 'A' <= c <= 'Z' || '0' <= c <= '9' || c == '_'
  }

  /**
   * `/^\/article\/[a-zA-Z0-9_]+/.test(p)`: the pattern is not anchored at the
   * end, so one word character after the prefix is enough.
   */
  predicate IsArticleDetail(p: string)
  {
    |p| > 9 && p[..9] == "/article/" && IsWordChar(p[9])
  }

  /** The key the bar highlights after moving to `pathname`; unknown paths keep the current key. */
  function KeyForPath(pathname: string, current: string): (key: string)
    ensures pathname == "/" ==> key == "index"
    ensures pathname == "/feedback" ==> key == "message"
    ensures pathname == "/article" || IsArticleDetail(pathname) ==> key == "article"
    ensures pathname == "/friend-link" ==> key == "friend_link"
    ensures pathname !in {"/", "/feedback", "/article", "/friend-link"} && !IsArticleDetail(pathname) ==>
      key == current
  {
    assert !IsArticleDetail("/friend-link") by { assert "/friend-link"[..9][1] != "/article/"[1]; }
    if pathname == "/" then "index"
    else if pathname == "/feedback" then "message"
    else if IsArticleDetail(pathname) || pathname == "/article" then "article"
    else if pathname == "/friend-link" then "friend_link"
    else current
  }

  /** The route a key navigates to, if any. */
  function RouteForKey(key: string): (r: Option<string>)
    ensures key in {"index", "message", "article", "friend_link"} <==> r.Some?
  {
    if key == "message" then Some("/feedback")
    else if key == "index" then Some("/")
    else if key == "article" then Some("/article")
    else if key == "friend_link" then Some("/friend-link")
    else None
  }

  /** Navigating to a key's route highlights that same key again, whatever was highlighted before. */
  lemma {:induction false} KeyRouteRoundTrip(key: string, current: string)
    requires RouteForKey(key).Some?
    ensures KeyForPath(RouteForKey(key).value, current) == key
  {
  }

  /** What a click does outside the bar. */
  datatype ClickEffect = OpenTab(url: string) | NavigateTo(path: string) | NoEffect

  class Navbar {
    var current: string

    constructor ()
      ensures current == "index"
    {
      current := "index";
    }

    /** The effect that runs when the pathname changes. */
    method OnPathChange(pathname: string)
      modifies this
      ensures current == KeyForPath(pathname, old(current))
    {
      current := KeyForPath(pathname, current);
    }

    /** `onClick`: github opens a tab and keeps the highlight; any other key is highlighted and routed. */
    method OnClick(key: string) returns (effect: ClickEffect)
      modifies this
      ensures key == "github" ==> effect == OpenTab(GithubUrl) && current == old(current)
      ensures key != "github" ==> current == key
      ensures key != "github" && RouteForKey(key).Some? ==> effect == NavigateTo(RouteForKey(key).value)
      ensures key != "github" && RouteForKey(key).None? ==> effect == NoEffect
    {
      if key == "github" {
        return OpenTab(GithubUrl);
      }
      current := key;
      match RouteForKey(key)
      case Some(path) => effect := NavigateTo(path);
      case None => effect := NoEffect;
    }
  }
}
