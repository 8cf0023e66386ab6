/**
 * The browser's localStorage as seen by the client stores: one map from key to
 * saved value, shared by the user, layout and tag stores. Only the three
 * shapes the stores write are modelled; JSON encoding is not.
 */
module LocalStorage {
  import opened ClientTypes

  /** The persisted part of the user store (its `partialize` result). */
  datatype SavedUser = SavedUser(isUserLoggedInBefore: bool, accessToken: string, userInfo: User)

  datatype Blob =
    | UserBlob(user: SavedUser)
    | LayoutBlob(isCollapse: bool)
    | TagsBlob(tags: seq<Tag>)

  class Storage {
    var items: map<string, Blob>

    constructor (initial: map<string, Blob>)
      ensures items == initial
    {
      items := initial;
    }

    method SetItem(key: string, value: Blob)
      modifies this
      ensures items == old(items)[key := value]
    {
      items := items[key := value];
    }

    method RemoveItem(key: string)
      modifies this
      ensures items == old(items) - {key}
    {
      items := items - {key};
    }

    /** `localStorage.clear()`: every key of every store is gone. */
    method Clear()
      modifies this
      ensures items == map[]
    {
      items := map[];
    }
  }
}
