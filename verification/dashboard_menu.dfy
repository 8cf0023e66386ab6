/**
 * The dashboard's side menu: a fixed list of entries, groups of management
 * pages hidden from non-administrators, the paths each entry leads to, the
 * groups opened at start, and what a click does.
 */
module DashboardMenu {
  import opened Wrappers
  import opened ClientTypes
  import opened Paths
  import opened LocalStorage
  import Tags = TagStore
  import Router

  /** A menu entry with a page of its own. */
  datatype Entry = Entry(title: string, name: string)

  /** A top-level item: a page of its own when `subItems` is absent, else a group. */
  datatype MenuItem = MenuItem(title: string, name: string, subItems: Option<seq<Entry>>, adminRole: bool)

  const HomeItem: MenuItem := MenuItem("主页", "", None, false)
  const UserCenterItem: MenuItem := MenuItem("个人中心", "user-center", Some([
    Entry("我的信息", "user-info"), Entry("我的收藏", "user-star"),
    Entry("我的评论", "user-comment"), Entry("我的留言", "user-feedback")]), false)
  const UsersItem: MenuItem := MenuItem("用户管理", "users", Some([Entry("用户列表", "user-list")]), true)
  const ArticlesItem: MenuItem :=
    MenuItem("文章管理", "articles", Some([Entry("发布文章", "article-publish"), Entry("文章列表", "article-list")]), true)
  const ImagesItem: MenuItem := MenuItem("图片管理", "images", Some([Entry("图片列表", "image-list")]), true)
  const SystemItem: MenuItem := MenuItem("系统管理", "system", Some([
    Entry("留言列表", "feedback-list"), Entry("友链列表", "friend-link-list"), Entry("登录日志", "login-logs")]), true)

  const MenuList: seq<MenuItem> := [HomeItem, UserCenterItem, UsersItem, ArticlesItem, ImagesItem, SystemItem]

  /** The path of an item without sub-items. */
  function SinglePath(item: MenuItem): string
  {
    "/dashboard/" + item.name
  }

  /** The path of a sub-item. */
  function SubPath(parent: MenuItem, sub: Entry): string
  {
    "/dashboard/" + parent.name + "/" + sub.name
  }

  /** A rendered menu node: a clickable leaf keyed by its path, or a group keyed by its name. */
  datatype Node =
    | Leaf(key: string, title: string, entry: Entry)
    | Group(key: string, title: string, children: seq<Node>)

  /** Whether an item survives the menu filter. */
  predicate Shown(item: MenuItem, isAdmin: bool)
  {
    item.subItems.None? || !item.adminRole || isAdmin
  }

  function SubNodes(parent: MenuItem, subs: seq<Entry>): (r: seq<Node>)
    ensures |r| == |subs|
    ensures forall i :: 0 <= i < |r| ==> r[i] == Leaf(SubPath(parent, subs[i]), subs[i].title, subs[i])
  {
    seq(|subs|, i requires 0 <= i < |subs| => Leaf(SubPath(parent, subs[i]), subs[i].title, subs[i]))
  }

  /** The node an item renders as. */
  function NodeOf(item: MenuItem): Node
  {
    match item.subItems
    case None => Leaf(SinglePath(item), item.title, Entry(item.title, item.name))
    case Some(subs) => Group(item.name, item.title, SubNodes(item, subs))
  }

  /** `menuList.map(...).filter(Boolean)`: the shown items' nodes, in order, hidden ones dropped. */
  function MenuNodes(items: seq<MenuItem>, isAdmin: bool): (r: seq<Node>)
    ensures |r| <= |items|
    ensures forall n :: n in r ==> exists it :: it in items && Shown(it, isAdmin) && n == NodeOf(it)
    ensures forall it :: it in items && Shown(it, isAdmin) ==> NodeOf(it) in r
  {
    if items == [] then []
    else
      var rest := MenuNodes(items[1..], isAdmin);
      assert forall it :: it in items[1..] ==> it in items;
      if Shown(items[0], isAdmin) then [NodeOf(items[0])] + rest else rest
  }

  /** An administrator sees every item's node, in the order of the list. */
  lemma {:induction false} AdminSeesAll(items: seq<MenuItem>)
    ensures MenuNodes(items, true) == seq(|items|, i requires 0 <= i < |items| => NodeOf(items[i]))
  {
    if items != [] {
      AdminSeesAll(items[1..]);
    }
  }

  /** The filter keeps the order of the list, part by part. */
  lemma {:induction false} MenuNodesAppend(a: seq<MenuItem>, b: seq<MenuItem>, isAdmin: bool)
    ensures MenuNodes(a + b, isAdmin) == MenuNodes(a, isAdmin) + MenuNodes(b, isAdmin)
  {
    if a == [] {
      assert a + b == b;
    } else {
      assert (a + b)[0] == a[0];
      assert (a + b)[1..] == a[1..] + b;
      MenuNodesAppend(a[1..], b, isAdmin);
    }
  }

  /** Two shown items followed by hidden ones render as the two items' nodes. */
  lemma {:induction false} TwoShownThenHidden(a: MenuItem, b: MenuItem, hidden: seq<MenuItem>, isAdmin: bool)
    requires Shown(a, isAdmin) && Shown(b, isAdmin)
    requires forall it :: it in hidden ==> !Shown(it, isAdmin)
    ensures MenuNodes([a, b] + hidden, isAdmin) == [NodeOf(a), NodeOf(b)]
  {
    assert ([a, b] + hidden)[1..] == [b] + hidden;
    assert ([b] + hidden)[1..] == hidden;
    AllHidden(hidden, isAdmin);
  }

  lemma {:induction false} AllHidden(hidden: seq<MenuItem>, isAdmin: bool)
    requires forall it :: it in hidden ==> !Shown(it, isAdmin)
    ensures MenuNodes(hidden, isAdmin) == []
  {
    if hidden != [] {
      assert hidden[0] in hidden;
      AllHidden(hidden[1..], isAdmin);
    }
  }

  /** A non-administrator sees the home entry and the personal centre only. */
  lemma NonAdminMenu()
    ensures MenuNodes(MenuList, false) == [NodeOf(HomeItem), NodeOf(UserCenterItem)]
  {
    var hidden := [UsersItem, ArticlesItem, ImagesItem, SystemItem];
    assert MenuList == [HomeItem, UserCenterItem] + hidden;
    TwoShownThenHidden(HomeItem, UserCenterItem, hidden, false);
  }

  /** An administrator sees all six items, in the order of the list. */
  lemma AdminMenu()
    ensures MenuNodes(MenuList, true) == [NodeOf(HomeItem), NodeOf(UserCenterItem), NodeOf(UsersItem),
      NodeOf(ArticlesItem), NodeOf(ImagesItem), NodeOf(SystemItem)]
  {
    SixNodes(MenuList);
    assert MenuList[0] == HomeItem && MenuList[1] == UserCenterItem && MenuList[2] == UsersItem;
    assert MenuList[3] == ArticlesItem && MenuList[4] == ImagesItem && MenuList[5] == SystemItem;
  }

  lemma SixNodes(items: seq<MenuItem>)
    requires |items| == 6
    ensures MenuNodes(items, true) == [NodeOf(items[0]), NodeOf(items[1]), NodeOf(items[2]),
      NodeOf(items[3]), NodeOf(items[4]), NodeOf(items[5])]
  {
    var r := MenuNodes(items, true);
    AdminSeesAll(items);
    SixElements(r);
    assert r[0] == NodeOf(items[0]) && r[1] == NodeOf(items[1]) && r[2] == NodeOf(items[2]);
    assert r[3] == NodeOf(items[3]) && r[4] == NodeOf(items[4]) && r[5] == NodeOf(items[5]);
  }

  lemma SixElements<T>(s: seq<T>)
    requires |s| == 6
    ensures s == [s[0], s[1], s[2], s[3], s[4], s[5]]
  {
  }

  /** `s.includes(sub)`. */
  predicate Includes(s: string, sub: string)
  {
    sub <= s || (s != [] && Includes(s[1..], sub))
  }

  /** The groups opened when the menu mounts: those whose name occurs anywhere in the pathname. */
  function DefaultOpenKeys(items: seq<MenuItem>, pathname: string): (r: seq<string>)
    ensures forall k :: k in r <==> exists it :: it in items && it.subItems.Some? && Includes(pathname, it.name) && it.name == k
    ensures |r| <= |items|
  {
    if items == [] then []
    else
      var rest := DefaultOpenKeys(items[1..], pathname);
      assert forall it :: it in items[1..] ==> it in items;
      assert forall it :: it in items ==> it == items[0] || it in items[1..];
      if items[0].subItems.Some? && Includes(pathname, items[0].name) then [items[0].name] + rest else rest
  }

  /** `handleClick(path, subItem)`: always appends a tab, even a duplicate, then navigates. */
  method HandleClick(store: Tags.Store, path: string, entry: Entry) returns (nav: Nav)
    modifies store, store.storage
    ensures store.tags == old(store.tags) + [Tag(entry.title, entry.name)]
    ensures |store.tags| == |old(store.tags)| + 1
    ensures store.storage.items == old(store.storage.items)[Tags.StorageName := TagsBlob(store.tags)]
    ensures nav == Go(path)
  {
    store.AddTag(Tag(entry.title, entry.name));
    nav := Go(path);
  }

  /** A dashboard path of three segments is matched on those segments. */
  lemma DashboardPieces(a: string, b: string)
    requires IsSegment(a) && IsSegment(b)
    ensures Router.RoutePieces("/dashboard/" + a + "/" + b) == Some(["dashboard", a, b])
  {
    var segs := ["dashboard", a, b];
    assert IsSegment("dashboard");
    assert Join(segs) == "dashboard" + "/" + Join([a, b]);
    assert Join([a, b]) == a + "/" + b;
    assert "/" + Join(segs) == "/dashboard/" + a + "/" + b;
    Router.PiecesOfPath(segs);
  }

  /** The names in one group are path segments naming a route of the right kind. */
  predicate GroupRouted(item: MenuItem, j: nat)
    requires item.subItems.Some? && j < |item.subItems.value|
  {
    var b := item.subItems.value[j].name;
    && IsSegment(item.name) && IsSegment(b)
    && (item.adminRole <==> item.name != "user-center")
    && (item.adminRole ==> Router.AdminPage(item.name, b).Some?)
    && (!item.adminRole ==> Router.UserCenterPage(b).Some?)
  }

  lemma UserCenterRouted(j: nat)
    requires j < 4
    ensures GroupRouted(UserCenterItem, j)
  {
  }

  lemma UsersRouted(j: nat)
    requires j < 1
    ensures GroupRouted(UsersItem, j)
  {
  }

  lemma ArticlesRouted(j: nat)
    requires j < 2
    ensures GroupRouted(ArticlesItem, j)
  {
  }

  lemma ImagesRouted(j: nat)
    requires j < 1
    ensures GroupRouted(ImagesItem, j)
  {
  }

  lemma SystemRouted(j: nat)
    requires j < 3
    ensures GroupRouted(SystemItem, j)
  {
  }

  /** The names in one group have no capitals, so case folding leaves them as they are. */
  predicate GroupLower(item: MenuItem, j: nat)
    requires item.subItems.Some? && j < |item.subItems.value|
  {
    Router.NoUpper(item.name) && Router.NoUpper(item.subItems.value[j].name)
  }

  lemma UserCenterLower(j: nat)
    requires j < 4
    ensures GroupLower(UserCenterItem, j)
  {
  }

  lemma UsersLower(j: nat)
    requires j < 1
    ensures GroupLower(UsersItem, j)
  {
  }

  lemma ArticlesLower(j: nat)
    requires j < 2
    ensures GroupLower(ArticlesItem, j)
  {
  }

  lemma ImagesLower(j: nat)
    requires j < 1
    ensures GroupLower(ImagesItem, j)
  {
  }

  lemma SystemLower(j: nat)
    requires j < 3
    ensures GroupLower(SystemItem, j)
  {
  }

  lemma MenuNames(i: nat, j: nat)
    requires i < |MenuList| && MenuList[i].subItems.Some? && j < |MenuList[i].subItems.value|
    ensures GroupRouted(MenuList[i], j)
    ensures GroupLower(MenuList[i], j)
  {
    if i == 1 {
      assert MenuList[i] == UserCenterItem;
      UserCenterRouted(j);
      UserCenterLower(j);
    } else if i == 2 {
      assert MenuList[i] == UsersItem;
      UsersRouted(j);
      UsersLower(j);
    } else if i == 3 {
      assert MenuList[i] == ArticlesItem;
      ArticlesRouted(j);
      ArticlesLower(j);
    } else if i == 4 {
      assert MenuList[i] == ImagesItem;
      ImagesRouted(j);
      ImagesLower(j);
    } else {
      assert MenuList[i] == SystemItem;
      SystemRouted(j);
      SystemLower(j);
    }
  }

  /**
   * Every page of the menu is a route, and a group's pages sit behind
   * `AdminRoute` exactly when the group is marked for administrators: the
   * menu hides a group from a non-administrator exactly when the router
   * would refuse its pages.
   */
  lemma MenuPagesAreRouted(i: nat, j: nat)
    requires i < |MenuList| && MenuList[i].subItems.Some? && j < |MenuList[i].subItems.value|
    ensures var m := Router.Route(SubPath(MenuList[i], MenuList[i].subItems.value[j]));
      m.Matched? && (m.access == Router.PrivateAdmin <==> MenuList[i].adminRole) && m.access != Router.Public
  {
    var a, b := MenuList[i].name, MenuList[i].subItems.value[j].name;
    MenuNames(i, j);
    DashboardPieces(a, b);
    assert SubPath(MenuList[i], MenuList[i].subItems.value[j]) == "/dashboard/" + a + "/" + b;
    Router.LowerFixes(a);
    Router.LowerFixes(b);
    Router.LowerFixes("dashboard");
  }

  /** The home entry leads to the dashboard's index page. */
  lemma HomeEntryIsRouted()
    ensures Router.Route(SinglePath(MenuList[0])) == Router.Matched(Router.DashboardHome, Router.Private)
  {
    HomePieces();
    Router.LowerFixes("dashboard");
  }

  lemma HomePieces()
    ensures Router.RoutePieces(SinglePath(MenuList[0])) == Some(["dashboard"])
  {
    assert MenuList[0].name == "";
    DashboardRootPieces();
  }

  /** `/dashboard/` is matched on the single piece `dashboard`. */
  lemma DashboardRootPieces()
    ensures Router.RoutePieces("/dashboard/" + "") == Some(["dashboard"])
  {
    var p := "/dashboard/" + "";
    assert p[1..] == "dashboard" + "/" + "";
    SplitAround("dashboard", "");
    DashboardSingle();
    SplitSingle("");
    assert Router.DropTrailingEmpty(["dashboard", ""]) == Router.DropTrailingEmpty(["dashboard"]);
  }

  lemma DashboardSingle()
    ensures Split("dashboard") == ["dashboard"]
  {
    assert '/' !in "dashboard";
    SplitSingle("dashboard");
  }
}
