/**
 * The client's request pipeline: the axios request interceptor that attaches
 * headers, the response interceptor that rotates the access token and forces
 * a new login when the server asks for it, and the error interceptor that
 * opens a dialog for some HTTP statuses. The interceptors act on the user
 * store, the layout store and the localStorage the two stores share.
 * Navigation is returned as a list of events.
 */
module Request {
  import opened Wrappers
  import opened ClientTypes
  import opened LocalStorage
  import User = UserStore
  import Layout = LayoutStore

  const ContentTypeHeader: string := "Content-Type"
  const TokenHeader: string := "x-access-token"
  const JsonType: string := "application/json"

  /**
   * The headers of an outgoing request: JSON content type and the current
   * token, with every header the caller set taking precedence.
   */
  function OutgoingHeaders(caller: map<string, string>, token: string): (h: map<string, string>)
    ensures h.Keys == caller.Keys + {ContentTypeHeader, TokenHeader}
    ensures forall k :: k in caller ==> h[k] == caller[k]
    ensures ContentTypeHeader !in caller ==> h[ContentTypeHeader] == JsonType
    ensures TokenHeader !in caller ==> h[TokenHeader] == token
  {
    map[ContentTypeHeader := JsonType, TokenHeader := token] + caller
  }

  /** The request interceptor: the token is the one in the store when the request is sent. */
  method AttachHeaders(user: User.Store, caller: map<string, string>) returns (h: map<string, string>)
    ensures h == OutgoingHeaders(caller, user.accessToken)
  {
    h := OutgoingHeaders(caller, user.accessToken);
  }

  /**
   * A response as the interceptor sees it: the `new-access-token` header
   * (empty when absent), the body, and whether `body.data?.reload` is truthy.
   */
  datatype HttpResponse<T> = HttpResponse(newAccessToken: string, body: Envelope<T>, reload: bool)

  /** Whether a response makes the interceptor force a new login. */
  predicate ForcesRelogin<T>(resp: HttpResponse<T>)
  {
    resp.body.code != 0 && resp.reload
  }

  /** The flags that open the login pop-up. */
  function LoginPopup(): map<Layout.Flag, bool>
  {
    map[Layout.PopoverVisible := true, Layout.LoginVisible := true]
  }

  /**
   * The sequence shared by a reload response and the OK button of the error
   * dialog: reset the user store, clear localStorage, go to `/index`, open
   * the login pop-up. The layout store's own write comes after the clear, so
   * only its entry is left in localStorage.
   */
  method ForceRelogin(user: User.Store, layout: Layout.Store) returns (navs: seq<Nav>)
    requires user.storage == layout.storage && layout.Valid()
    modifies user, layout, user.storage
    ensures layout.Valid()
    ensures user.State() == User.Defaults()
    ensures layout.flags == Layout.Merge(old(layout.flags), LoginPopup())
    ensures user.storage.items == map[Layout.StorageName := LayoutBlob(old(layout.flags[Layout.IsCollapse]))]
    ensures navs == [Go("/index")]
  {
    user.Reset();
    user.storage.Clear();
    navs := [Go("/index")];
    layout.SetState(LoginPopup());
  }

  /**
   * The response interceptor. The body is always handed on, whatever its
   * code. A `new-access-token` header replaces the stored token first; a
   * non-zero code with `reload` then resets the session, so the rotated
   * token is lost.
   */
  method OnResponse<T>(user: User.Store, layout: Layout.Store, resp: HttpResponse<T>)
    returns (env: Envelope<T>, navs: seq<Nav>)
    requires user.storage == layout.storage && layout.Valid()
    modifies user, layout, user.storage
    ensures layout.Valid()
    ensures env == resp.body
    ensures ForcesRelogin(resp) ==>
      && user.State() == User.Defaults()
      && layout.flags == Layout.Merge(old(layout.flags), LoginPopup())
      && user.storage.items == map[Layout.StorageName := LayoutBlob(old(layout.flags[Layout.IsCollapse]))]
      && navs == [Go("/index")]
    ensures !ForcesRelogin(resp) && resp.newAccessToken != "" ==>
      && user.State() == old(user.State()).(accessToken := resp.newAccessToken)
      && user.storage.items == old(user.storage.items)[User.StorageName := UserBlob(User.Partialize(user.State()))]
      && layout.flags == old(layout.flags) && navs == []
    ensures !ForcesRelogin(resp) && resp.newAccessToken == "" ==>
      && user.State() == old(user.State()) && user.storage.items == old(user.storage.items)
      && layout.flags == old(layout.flags) && navs == []
  {
    navs := [];
    if resp.newAccessToken != "" {
      user.SetAccessToken(resp.newAccessToken);
    }
    if resp.body.code != 0 {
      if resp.reload {
        navs := ForceRelogin(user, layout);
      }
    }
    env := resp.body;
  }

  /** Why a request failed: no response at all, or an HTTP error status. */
  datatype HttpError = NoResponse | WithStatus(status: int)

  /** The dialogs of the error interceptor. */
  datatype Dialog =
    | RetryDialog                   // "try again later" / cancel, with no action attached
    | ClearCacheDialog(status: int) // "clear cache" runs the forced re-login

  /** The statuses that get the clear-cache dialog. */
  const DialogStatuses: set<int> := {500, 404, 403}

  /** Which dialog an error opens, if any. */
  function DialogFor(e: HttpError): (d: Option<Dialog>)
    ensures e.NoResponse? <==> d == Some(RetryDialog)
    ensures d.Some? && d.value.ClearCacheDialog? <==> e.WithStatus? && e.status in DialogStatuses
    ensures d.Some? && d.value.ClearCacheDialog? ==> d.value.status == e.status
  {
    match e
    case NoResponse => Some(RetryDialog)
    case WithStatus(s) => if s in DialogStatuses then Some(ClearCacheDialog(s)) else None
  }

  /** The button the user presses in a dialog. */
  datatype Choice = Confirm | Cancel

  /** `handleSpecificError`: the dialog's OK runs the forced re-login; cancel does nothing. */
  method HandleSpecificError(user: User.Store, layout: Layout.Store, choice: Choice) returns (navs: seq<Nav>)
    requires user.storage == layout.storage && layout.Valid()
    modifies user, layout, user.storage
    ensures layout.Valid()
    ensures choice == Confirm ==>
      && user.State() == User.Defaults()
      && layout.flags == Layout.Merge(old(layout.flags), LoginPopup())
      && user.storage.items == map[Layout.StorageName := LayoutBlob(old(layout.flags[Layout.IsCollapse]))]
      && navs == [Go("/index")]
    ensures choice == Cancel ==>
      && user.State() == old(user.State()) && user.storage.items == old(user.storage.items)
      && layout.flags == old(layout.flags) && navs == []
  {
    navs := [];
    if choice == Confirm {
      navs := ForceRelogin(user, layout);
    }
  }

  /**
   * The error interceptor: every error rejects. Only the clear-cache dialog
   * with OK pressed changes any state; `choice` is the button pressed in
   * whichever dialog opened and is ignored when none did.
   */
  method OnError(user: User.Store, layout: Layout.Store, e: HttpError, choice: Choice)
    returns (r: Settled<()>, navs: seq<Nav>)
    requires user.storage == layout.storage && layout.Valid()
    modifies user, layout, user.storage
    ensures layout.Valid()
    ensures r.Rejected?
    ensures e.WithStatus? && e.status in DialogStatuses && choice == Confirm ==>
      && user.State() == User.Defaults()
      && layout.flags == Layout.Merge(old(layout.flags), LoginPopup())
      && user.storage.items == map[Layout.StorageName := LayoutBlob(old(layout.flags[Layout.IsCollapse]))]
      && navs == [Go("/index")]
    ensures !(e.WithStatus? && e.status in DialogStatuses && choice == Confirm) ==>
      && user.State() == old(user.State()) && user.storage.items == old(user.storage.items)
      && layout.flags == old(layout.flags) && navs == []
  {
    navs := [];
    var dialog := DialogFor(e);
    if dialog.Some? && dialog.value.ClearCacheDialog? {
      navs := HandleSpecificError(user, layout, choice);
    }
    r := Rejected;
  }
}
