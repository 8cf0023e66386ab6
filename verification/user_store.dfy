/**
 * The client's user store: who is logged in, the access token, and two flags.
 * Every `set` of the store is followed by the persist middleware writing the
 * persisted part of the new state under "user-storage" in localStorage.
 * Replies of the login, register, logout and user-info requests are
 * parameters, as they arrive after the response interceptor has run.
 */
module UserStore {
  import opened ClientTypes
  import opened LocalStorage

  const StorageName: string := "user-storage"

  /** The user record of a visitor nobody has logged in as. */
  function DefaultUser(): (u: User)
    ensures !IsLoggedIn(u) && !IsAdmin(u)
  {
    User(0, "", "", "", "", "", "", "", 0, "", false)
  }

  /** The four data fields of the store, as one value. */
  datatype Session = Session(
    userInfo: User,
    accessToken: string,
    isUserLoggedInBefore: bool,
    userInfoInitialized: bool)

  /** The state the store starts in and that `reset` restores. */
  function Defaults(): (s: Session)
    ensures !IsLoggedIn(s.userInfo) && s.accessToken == ""
    ensures !s.isUserLoggedInBefore && !s.userInfoInitialized
  {
    Session(DefaultUser(), "", false, false)
  }

  /** The persisted subset: everything except `userInfoInitialized`. */
  function Partialize(s: Session): SavedUser
  {
    SavedUser(s.isUserLoggedInBefore, s.accessToken, s.userInfo)
  }

  /** Two states that differ only in `userInfoInitialized` are saved alike. */
  lemma PartializeIgnoresInitFlag(s: Session, b: bool)
    ensures Partialize(s.(userInfoInitialized := b)) == Partialize(s)
  {
  }

  /** The state rebuilt at start-up: the saved fields, when a saved copy exists, over the defaults. */
  function Hydrate(items: map<string, Blob>): (s: Session)
    ensures !s.userInfoInitialized
    ensures StorageName !in items ==> s == Defaults()
  {
    if StorageName in items && items[StorageName].UserBlob? then
      var saved := items[StorageName].user;
      Session(saved.userInfo, saved.accessToken, saved.isUserLoggedInBefore, false)
    else
      Defaults()
  }

  /** Saving a state and starting again from the saved copy gives the state back, except the never-saved flag. */
  lemma HydrateAfterSave(items: map<string, Blob>, s: Session)
    ensures Hydrate(items[StorageName := UserBlob(Partialize(s))]) == s.(userInfoInitialized := false)
  {
  }

  /** The body of a successful login or register reply. */
  datatype AuthData = AuthData(user: User, accessToken: string)

  class Store {
    var userInfo: User
    var accessToken: string
    var isUserLoggedInBefore: bool
    var userInfoInitialized: bool
    const storage: Storage

    function State(): Session
      reads this
    {
      Session(userInfo, accessToken, isUserLoggedInBefore, userInfoInitialized)
    }

    constructor (storage: Storage)
      ensures this.storage == storage
      ensures State() == Hydrate(storage.items)
    {
      this.storage := storage;
      var s := Hydrate(storage.items);
      userInfo := s.userInfo;
      accessToken := s.accessToken;
      isUserLoggedInBefore := s.isUserLoggedInBefore;
      userInfoInitialized := s.userInfoInitialized;
    }

    /** The persist middleware's write after every `set`. */
    method Persist()
      modifies storage
      ensures storage.items == old(storage.items)[StorageName := UserBlob(Partialize(State()))]
    {
      storage.SetItem(StorageName, UserBlob(Partialize(State())));
    }

    /** `useUserStore.setState({accessToken})`, as the response interceptor uses it. */
    method SetAccessToken(token: string)
      modifies this, storage
      ensures State() == old(State()).(accessToken := token)
      ensures storage.items == old(storage.items)[StorageName := UserBlob(Partialize(State()))]
    {
      accessToken := token;
      Persist();
    }

    /** The shared body of `loginIn` and `registerIn`. */
    method Authenticate(reply: Settled<Envelope<AuthData>>) returns (r: Settled<bool>)
      modifies this, storage
      ensures reply.Rejected? ==> r.Rejected?
      ensures reply.Fulfilled? ==> r == Fulfilled(reply.value.code == 0)
      ensures reply.Fulfilled? && reply.value.code == 0 ==>
        && State() == old(State()).(userInfo := reply.value.data.user,
                                    accessToken := reply.value.data.accessToken,
                                    isUserLoggedInBefore := true)
        && storage.items == old(storage.items)[StorageName := UserBlob(Partialize(State()))]
      ensures !(reply.Fulfilled? && reply.value.code == 0) ==>
        State() == old(State()) && storage.items == old(storage.items)
    {
      if reply.Rejected? {
        return Rejected;
      }
      var res := reply.value;
      if res.code == 0 {
        userInfo, accessToken, isUserLoggedInBefore := res.data.user, res.data.accessToken, true;
        Persist();
        return Fulfilled(true);
      }
      return Fulfilled(false);
    }

    method LoginIn(reply: Settled<Envelope<AuthData>>) returns (r: Settled<bool>)
      modifies this, storage
      ensures reply.Rejected? ==> r.Rejected?
      ensures reply.Fulfilled? ==> r == Fulfilled(reply.value.code == 0)
      ensures reply.Fulfilled? && reply.value.code == 0 ==>
        && State() == old(State()).(userInfo := reply.value.data.user,
                                    accessToken := reply.value.data.accessToken,
                                    isUserLoggedInBefore := true)
        && storage.items == old(storage.items)[StorageName := UserBlob(Partialize(State()))]
      ensures !(reply.Fulfilled? && reply.value.code == 0) ==>
        State() == old(State()) && storage.items == old(storage.items)
    {
      r := Authenticate(reply);
    }

    method RegisterIn(reply: Settled<Envelope<AuthData>>) returns (r: Settled<bool>)
      modifies this, storage
      ensures reply.Rejected? ==> r.Rejected?
      ensures reply.Fulfilled? ==> r == Fulfilled(reply.value.code == 0)
      ensures reply.Fulfilled? && reply.value.code == 0 ==>
        && State() == old(State()).(userInfo := reply.value.data.user,
                                    accessToken := reply.value.data.accessToken,
                                    isUserLoggedInBefore := true)
        && storage.items == old(storage.items)[StorageName := UserBlob(Partialize(State()))]
      ensures !(reply.Fulfilled? && reply.value.code == 0) ==>
        State() == old(State()) && storage.items == old(storage.items)
    {
      r := Authenticate(reply);
    }

    /** `reset`: back to the defaults, which are then saved. */
    method Reset()
      modifies this, storage
      ensures State() == Defaults()
      ensures storage.items == old(storage.items)[StorageName := UserBlob(Partialize(Defaults()))]
    {
      var d := Defaults();
      userInfo, accessToken, isUserLoggedInBefore, userInfoInitialized :=
        d.userInfo, d.accessToken, d.isUserLoggedInBefore, d.userInfoInitialized;
      Persist();
    }

    /**
     * `loginOut`: once the logout request settles (whatever its code), the
     * store is reset, all of localStorage is cleared and the router is sent to
     * `/index`. A rejected logout request stops the sequence before any of it.
     */
    method LoginOut(reply: Settled<Envelope<()>>) returns (r: Settled<()>, navs: seq<Nav>)
      modifies this, storage
      ensures reply.Rejected? ==>
        r.Rejected? && navs == [] && State() == old(State()) && storage.items == old(storage.items)
      ensures reply.Fulfilled? ==>
        r == Fulfilled(()) && navs == [Go("/index")] && State() == Defaults() && storage.items == map[]
    {
      if reply.Rejected? {
        return Rejected, [];
      }
      Reset();
      storage.Clear();
      return Fulfilled(()), [Go("/index")];
    }

    /**
     * `initializeUserInfo`: fetches the user only when someone logged in
     * before and the record has not been fetched yet; `fetched` says whether
     * the request was sent.
     */
    method InitializeUserInfo(reply: Settled<Envelope<User>>) returns (fetched: bool, r: Settled<()>)
      modifies this, storage
      ensures fetched == (old(isUserLoggedInBefore) && !old(userInfoInitialized))
      ensures r.Rejected? <==> fetched && reply.Rejected?
      ensures fetched && reply.Fulfilled? && reply.value.code == 0 ==>
        && State() == old(State()).(userInfo := reply.value.data, userInfoInitialized := true)
        && storage.items == old(storage.items)[StorageName := UserBlob(Partialize(State()))]
      ensures !(fetched && reply.Fulfilled? && reply.value.code == 0) ==>
        State() == old(State()) && storage.items == old(storage.items)
    {
      fetched := isUserLoggedInBefore && !userInfoInitialized;
      if !fetched {
        return fetched, Fulfilled(());
      }
      if reply.Rejected? {
        return fetched, Rejected;
      }
      if reply.value.code == 0 {
        userInfo, userInfoInitialized := reply.value.data, true;
        Persist();
      }
      r := Fulfilled(());
    }
  }
}
