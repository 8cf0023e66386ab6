/**
 * The dashboard's tag bar: closing a tab, closing all tabs, and which tabs
 * are closable or highlighted. Closing the tab of the current page moves to
 * the tab before it.
 */
module DashboardTag {
  import opened Wrappers
  import opened ClientTypes
  import opened Paths
  import opened LocalStorage
  import Tags = TagStore

  /** `tags.findIndex(tag => tag.name === name)`: the first tab of that name, or -1. */
  function FindIndex(tags: seq<Tag>, name: string): (k: int)
    ensures -1 <= k < |tags|
    ensures k == -1 <==> forall t :: t in tags ==> t.name != name
    ensures k >= 0 ==> tags[k].name == name && forall j :: 0 <= j < k ==> tags[j].name != name
  {
    if tags == [] then -1
    else if tags[0].name == name then 0
    else
      var k := FindIndex(tags[1..], name);
      if k == -1 then -1 else k + 1
  }

  /**
   * Where closing the current page's tab at index `k` goes: `/` and the
   * name of the tab before it, or `/dashboard` when there is none or its
   * name is empty.
   */
  function FallbackRoute(tags: seq<Tag>, k: nat): (path: string)
    requires k < |tags|
    ensures k > 0 && tags[k - 1].name != "" ==> path == "/" + tags[k - 1].name
    ensures !(k > 0 && tags[k - 1].name != "") ==> path == "/dashboard"
  {
    var previous := if k > 0 then Some(tags[k - 1].name) else None;
    if previous.Some? && previous.value != "" then "/" + previous.value else "/dashboard"
  }

  /** `handleClose(tagName)` while the router is at `pathname`. */
  method HandleClose(store: Tags.Store, pathname: string, tagName: string) returns (nav: Option<Nav>)
    modifies store, store.storage
    ensures tagName != LastPiece(pathname) ==>
      && store.tags == Tags.WithoutName(old(store.tags), tagName)
      && store.storage.items == old(store.storage.items)[Tags.StorageName := TagsBlob(store.tags)]
      && nav == None
    ensures tagName == LastPiece(pathname) && FindIndex(old(store.tags), tagName) == -1 ==>
      store.tags == old(store.tags) && store.storage.items == old(store.storage.items) && nav == None
    ensures tagName == LastPiece(pathname) && FindIndex(old(store.tags), tagName) >= 0 ==>
      && store.tags == Tags.WithoutName(old(store.tags), tagName)
      && store.storage.items == old(store.storage.items)[Tags.StorageName := TagsBlob(store.tags)]
      && nav == Some(Go(FallbackRoute(old(store.tags), FindIndex(old(store.tags), tagName))))
  {
    var current := store.tags;
    if tagName != LastPiece(pathname) {
      store.RemoveTag(tagName);
      return None;
    }
    var k := FindIndex(current, tagName);
    nav := None;
    if k != -1 {
      store.RemoveTag(tagName);
      nav := Some(Go(FallbackRoute(current, k)));
    }
  }

  /** `handleTag(tagName)`: clicking a tab goes to `/` and its name. */
  function TagRoute(tagName: string): (path: string)
    ensures |path| == |tagName| + 1 && path[0] == '/' && path[1..] == tagName
  {
    "/" + tagName
  }

  /** The list `closeAllTags` leaves. */
  const DashboardTags: seq<Tag> := [Tag("主页", "dashboard")]

  /** `closeAllTags`: one dashboard tab, not written to localStorage, and back to `/dashboard`. */
  method CloseAllTags(store: Tags.Store) returns (nav: Nav)
    modifies store
    ensures store.tags == DashboardTags
    ensures nav == Go("/dashboard")
  {
    store.SetTags(DashboardTags);
    nav := Go("/dashboard");
  }

  /** How one tab is drawn. */
  datatype TabView = TabView(title: string, name: string, closable: bool, highlighted: bool)

  /**
   * The rendered bar: one view per tab, in order. Every tab but the home tab
   * has a close button, and a tab is highlighted when its name is the last
   * piece of the pathname.
   */
  function Render(tags: seq<Tag>, pathname: string): (r: seq<TabView>)
    ensures |r| == |tags|
    ensures forall i :: 0 <= i < |r| ==> r[i].title == tags[i].title && r[i].name == tags[i].name
    ensures forall i :: 0 <= i < |r| ==> (r[i].closable <==> tags[i].name != "home")
    ensures forall i :: 0 <= i < |r| ==> (r[i].highlighted <==> tags[i].name == LastPiece(pathname))
  {
    seq(|tags|, i requires 0 <= i < |tags| =>
      TabView(tags[i].title, tags[i].name, tags[i].name != "home", LastPiece(pathname) == tags[i].name))
  }

  /** The "close all" button shows whenever there is a tab. */
  function ShowsCloseAll(tags: seq<Tag>): (b: bool)
    ensures b <==> tags != []
  {
    |tags| > 0
  }
}
