/**
 * The client's route table and its two guards. React Router matches a
 * pathname against each route's pattern ignoring ASCII case and allowing
 * trailing slashes, but an empty piece between two slashes matches nothing
 * but the catch-all. The dashboard is wrapped in `PrivateRoute`, and its
 * management pages are further wrapped in `AdminRoute`. What the guards show,
 * and the dialogs and navigation they trigger, are functions of the route and
 * the logged-in user.
 */
module Router {
  import opened Wrappers
  import opened ClientTypes
  import opened Paths

  datatype Page =
    | IndexPage | SearchPage | FeedbackPage | FriendLinkPage | ArticlePage(id: string)
    | DashboardHome | UserInfoPage | UserStarPage | UserCommentPage | UserFeedbackPage
    | UserListPage | ArticlePublishPage | ArticleListPage | ImageListPage
    | FeedbackListPage | FriendLinkListPage | LoginLogsPage | NotFoundPage

  /** The guards around a route: none, `PrivateRoute`, or `AdminRoute` inside `PrivateRoute`. */
  datatype Access = Public | Private | PrivateAdmin

  datatype RouteMatch = Matched(page: Page, access: Access) | RedirectTo404

  /** First segments that some route starts with. */
  const KnownFirstSegments: set<string> := {"index", "article", "feedback", "friend-link", "dashboard", "404"}

  /**
   * The case folding of a regular expression with the `i` flag, against
   * patterns made of lower-case ASCII letters, digits and `-`: only the ASCII
   * capitals fold, since no other character folds onto an ASCII one.
   */
  function LowerAscii(c: char): (l: char)
    ensures 'A' <= c <= 'Z' ==> 'a' <= l <= 'z' && l as int == c as int + 32
    ensures !('A' <= c <= 'Z') ==> l == c
  {
    if 'A' <= c <= 'Z' then (c as int + 32) as char else c
  }

  /** A piece with its ASCII capitals folded. */
  function Lower(s: string): (r: string)
    ensures |r| == |s|
    ensures forall i :: 0 <= i < |s| ==> r[i] == LowerAscii(s[i])
  {
    seq(|s|, i requires 0 <= i < |s| => LowerAscii(s[i]))
  }

  /** A string without ASCII capitals. */
  predicate NoUpper(s: string)
  {
    forall i :: 0 <= i < |s| ==> !('A' <= s[i] <= 'Z')
  }

  /** Folding leaves a string without capitals as it is. */
  lemma LowerFixes(s: string)
    requires NoUpper(s)
    ensures Lower(s) == s
  {
  }

  /** The personal pages under `/dashboard/user-center/`. */
  function UserCenterPage(leaf: string): Option<Page>
  {
    if leaf == "user-info" then Some(UserInfoPage)
    else if leaf == "user-star" then Some(UserStarPage)
    else if leaf == "user-comment" then Some(UserCommentPage)
    else if leaf == "user-feedback" then Some(UserFeedbackPage)
    else None
  }

  /** The management pages under `/dashboard/<area>/<leaf>`. */
  function AdminPage(area: string, leaf: string): Option<Page>
  {
    if area == "users" && leaf == "user-list" then Some(UserListPage)
    else if area == "articles" && leaf == "article-publish" then Some(ArticlePublishPage)
    else if area == "articles" && leaf == "article-list" then Some(ArticleListPage)
    else if area == "images" && leaf == "image-list" then Some(ImageListPage)
    else if area == "system" && leaf == "feedback-list" then Some(FeedbackListPage)
    else if area == "system" && leaf == "friend-link-list" then Some(FriendLinkListPage)
    else if area == "system" && leaf == "login-logs" then Some(LoginLogsPage)
    else None
  }

  /**
   * The route the pieces of a pathname select, each literal compared with the
   * piece folded; the `:id` parameter keeps the piece as written. Anything
   * unlisted hits the catch-all.
   */
  function MatchRoute(segs: seq<string>): (r: RouteMatch)
    ensures segs != [] && Lower(segs[0]) !in KnownFirstSegments ==> r == RedirectTo404
    ensures r.Matched? && r.access != Public <==> segs != [] && Lower(segs[0]) == "dashboard" && r.Matched?
    ensures r.Matched? && r.access == PrivateAdmin ==>
      |segs| == 3 && Lower(segs[1]) in {"users", "articles", "images", "system"}
    ensures |segs| > 3 ==> r == RedirectTo404
    ensures "" in segs ==> r == RedirectTo404
  {
    if segs == [] then Matched(IndexPage, Public)
    else if |segs| == 1 then
      var s := Lower(segs[0]);
      if s == "index" then Matched(IndexPage, Public)
      else if s == "article" then Matched(SearchPage, Public)
      else if s == "feedback" then Matched(FeedbackPage, Public)
      else if s == "friend-link" then Matched(FriendLinkPage, Public)
      else if s == "dashboard" then Matched(DashboardHome, Private)
      else if s == "404" then Matched(NotFoundPage, Public)
      else RedirectTo404
    else if |segs| == 2 then
      if Lower(segs[0]) == "article" && segs[1] != "" then Matched(ArticlePage(segs[1]), Public) else RedirectTo404
    else if |segs| == 3 && Lower(segs[0]) == "dashboard" then
      if Lower(segs[1]) == "user-center" then
        match UserCenterPage(Lower(segs[2]))
        case Some(p) => Matched(p, Private)
        case None => RedirectTo404
      else
        match AdminPage(Lower(segs[1]), Lower(segs[2]))
        case Some(p) => Matched(p, PrivateAdmin)
        case None => RedirectTo404
    else RedirectTo404
  }

  /**
   * Pieces that fold alike select the same route under the same guards, and
   * the very same route except where the article id keeps its spelling.
   */
  lemma MatchIgnoresCase(segs: seq<string>, other: seq<string>)
    requires |segs| == |other|
    requires forall i :: 0 <= i < |segs| ==> Lower(segs[i]) == Lower(other[i])
    ensures MatchRoute(segs).RedirectTo404? == MatchRoute(other).RedirectTo404?
    ensures MatchRoute(segs).Matched? ==> MatchRoute(other).access == MatchRoute(segs).access
    ensures |segs| != 2 ==> MatchRoute(segs) == MatchRoute(other)
  {
    if |segs| == 2 {
      assert segs[1] == "" <==> Lower(segs[1]) == "";
      assert other[1] == "" <==> Lower(other[1]) == "";
    }
  }

  /** Drops the empty pieces that trailing slashes leave at the end. */
  function DropTrailingEmpty(ps: seq<string>): (r: seq<string>)
    ensures r <= ps
    ensures forall i :: |r| <= i < |ps| ==> ps[i] == ""
    ensures r == [] || r[|r| - 1] != ""
  {
    if ps == [] then []
    else if ps[|ps| - 1] == "" then DropTrailingEmpty(ps[..|ps| - 1])
    else ps
  }

  /**
   * The pieces a pathname is matched on: those after its leading slash, less
   * the empty ones trailing slashes leave; an empty pathname reads as `/`, and
   * one without a leading slash matches no pattern.
   */
  function RoutePieces(pathname: string): Option<seq<string>>
  {
    if pathname == "" then Some([])
    else if pathname[0] != '/' then None
    else Some(DropTrailingEmpty(Split(pathname[1..])))
  }

  /** The route a pathname selects. */
  function Route(pathname: string): RouteMatch
  {
    match RoutePieces(pathname)
    case None => RedirectTo404
    case Some(segs) => MatchRoute(segs)
  }

  /** The absolute path made of some segments is matched on exactly those segments. */
  lemma PiecesOfPath(segs: seq<string>)
    requires forall i :: 0 <= i < |segs| ==> IsSegment(segs[i])
    ensures RoutePieces("/" + Join(segs)) == Some(segs)
  {
    assert ("/" + Join(segs))[1..] == Join(segs);
    if segs == [] {
      SplitSingle("");
    } else {
      SplitJoin(segs);
    }
  }

  /** A trailing slash leaves the pieces, and so the route, as they were. */
  lemma TrailingSlashIgnored(p: string)
    requires p == "" || p[0] == '/'
    ensures RoutePieces(p + "/") == RoutePieces(p)
    ensures Route(p + "/") == Route(p)
  {
    if p == "" {
      assert ("" + "/")[1..] == "";
      SplitSingle("");
    } else {
      var rest := p[1..];
      assert (p + "/")[1..] == rest + "/" + "";
      SplitAround(rest, "");
      SplitSingle("");
      var ps := Split(rest);
      assert (ps + [""])[..|ps|] == ps;
    }
  }

  /** An empty piece before a segment, as in `//dashboard` or `/article//x`, hits the catch-all. */
  lemma DoubledSlashNotFound(p: string, b: string)
    requires p == "" || p[0] == '/'
    requires IsSegment(b)
    ensures Route(p + "//" + b) == RedirectTo404
  {
    var path := p + "//" + b;
    SplitSingle(b);
    if p == "" {
      assert path[1..] == "" + "/" + b;
      SplitAround("", b);
      SplitSingle("");
      assert Split(path[1..]) == ["", b];
      assert DropTrailingEmpty(["", b]) == ["", b];
    } else {
      var rest := p[1..];
      assert path[1..] == rest + "/" + ("" + "/" + b);
      SplitAround(rest, "" + "/" + b);
      SplitAround("", b);
      SplitSingle("");
      var ps := Split(rest) + ([""] + [b]);
      assert ps[|ps| - 1] == b;
      assert ps[|ps| - 2] == "";
      assert RoutePieces(path) == Some(ps);
    }
  }

  /** Side effects of a render: the guards' dialog and toast, and navigation. */
  datatype Effect =
    | LoginExpiredWarning // its OK navigates to LoginPath
    | PermissionDenied    // the error toast of AdminRoute
    | Navigate(nav: Nav)

  /** Where the warning of `PrivateRoute` sends the user. */
  const LoginPath: string := "/login"

  datatype Outcome = Outcome(shown: Option<Page>, effects: seq<Effect>)

  /** What the router shows for a pathname and the user in the store. */
  function Render(pathname: string, u: User): (r: Outcome)
    ensures var m := Route(pathname);
      && (m.RedirectTo404? ==> r == Outcome(None, [Navigate(Go("/404"))]))
      && (m.Matched? && m.access == Public ==> r == Outcome(Some(m.page), []))
      && (m.Matched? && m.access == Private ==> (r.shown.Some? <==> IsLoggedIn(u)))
      && (m.Matched? && m.access == PrivateAdmin ==> (r.shown.Some? <==> IsAdmin(u)))
      && (r.shown.Some? ==> r.shown == Some(m.page) && r.effects == [])
      && (m.Matched? && m.access != Public && !IsLoggedIn(u) ==> r.effects == [LoginExpiredWarning])
      && (m.Matched? && m.access == PrivateAdmin && IsLoggedIn(u) && !IsAdmin(u) ==>
            r.effects == [PermissionDenied, Navigate(Back)])
  {
    match Route(pathname)
    case RedirectTo404 => Outcome(None, [Navigate(Go("/404"))])
    case Matched(p, Public) => Outcome(Some(p), [])
    case Matched(p, Private) =>
      if IsLoggedIn(u) then Outcome(Some(p), []) else Outcome(None, [LoginExpiredWarning])
    case Matched(p, PrivateAdmin) =>
      // a null PrivateRoute never mounts the AdminRoute inside it
      if !IsLoggedIn(u) then Outcome(None, [LoginExpiredWarning])
      else if IsAdmin(u) then Outcome(Some(p), [])
      else Outcome(None, [PermissionDenied, Navigate(Back)])
  }

  /** The login path the warning leads to is not a route, so it ends on the not-found page. */
  lemma LoginPathIsUnrouted(u: User)
    ensures Render(LoginPath, u) == Outcome(None, [Navigate(Go("/404"))])
  {
    LoginNotFound();
  }

  lemma LoginNotFound()
    ensures Route(LoginPath) == RedirectTo404
  {
    LoginPieces();
    LoginUnknown();
  }

  lemma LoginUnknown()
    ensures MatchRoute(["login"]) == RedirectTo404
  {
    LowerFixes("login");
    assert Lower(["login"][0]) !in KnownFirstSegments;
  }

  lemma LoginPieces()
    ensures RoutePieces(LoginPath) == Some(["login"])
  {
    assert LoginPath == "/" + Join(["login"]);
    PiecesOfPath(["login"]);
  }
}
