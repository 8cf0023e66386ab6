/**
 * The client's layout store: 21 boolean flags for the sidebar, the pop-ups and
 * the "refresh this table" signals. `setState` merges a partial record into
 * the flags; the persist middleware saves only `isCollapse`, under
 * "layout-storage".
 */
module LayoutStore {
  import opened LocalStorage

  const StorageName: string := "layout-storage"

  datatype Flag =
    | IsCollapse
    | PopoverVisible
    | LoginVisible
    | RegisterVisible
    | ForgotPasswordVisible
    | PasswordResetVisible
    | ShouldRefreshUserTable
    | ShouldRefreshImageTable
    | ArticleCreateVisible
    | ArticleUpdateVisible
    | ShouldRefreshArticleTable
    | FriendLinkCreateVisible
    | FriendLinkUpdateVisible
    | ShouldRefreshFriendLinkTable
    | AdvertisementCreateVisible
    | AdvertisementUpdateVisible
    | ShouldRefreshAdvertisementTable
    | FeedbackReplyVisible
    | ShouldRefreshFeedbackTable
    | ShouldRefreshCommentTable
    | ShouldRefreshCommentList

  const AllFlags: set<Flag> := {
    IsCollapse, PopoverVisible, LoginVisible, RegisterVisible, ForgotPasswordVisible,
    PasswordResetVisible, ShouldRefreshUserTable, ShouldRefreshImageTable, ArticleCreateVisible,
    ArticleUpdateVisible, ShouldRefreshArticleTable, FriendLinkCreateVisible, FriendLinkUpdateVisible,
    ShouldRefreshFriendLinkTable, AdvertisementCreateVisible, AdvertisementUpdateVisible,
    ShouldRefreshAdvertisementTable, FeedbackReplyVisible, ShouldRefreshFeedbackTable,
    ShouldRefreshCommentTable, ShouldRefreshCommentList }

  lemma EveryFlagListed(f: Flag)
    ensures f in AllFlags
  {
    match f
    case _ =>
  }

  /** A complete record assigns every flag. */
  predicate Complete(flags: map<Flag, bool>)
  {
    forall f: Flag :: f in flags
  }

  /** The flags the store is created with, before the saved `isCollapse` is read back. */
  function InitialFlags(): (flags: map<Flag, bool>)
    ensures Complete(flags)
    ensures forall f :: flags[f] == false
  {
    forall f: Flag ensures f in AllFlags { EveryFlagListed(f); }
    map f | f in AllFlags :: false
  }

  /** `set(partial)`: the named flags take the given values and all other flags keep theirs. */
  function Merge(flags: map<Flag, bool>, partial: map<Flag, bool>): (r: map<Flag, bool>)
    ensures r.Keys == flags.Keys + partial.Keys
    ensures forall f :: f in partial ==> r[f] == partial[f]
    ensures forall f :: f in flags && f !in partial ==> r[f] == flags[f]
  {
    flags + partial
  }

  /** Applying the same partial update twice is the same as applying it once. */
  lemma MergeIdempotent(flags: map<Flag, bool>, partial: map<Flag, bool>)
    ensures Merge(Merge(flags, partial), partial) == Merge(flags, partial)
  {
  }

  class Store {
    var flags: map<Flag, bool>
    const storage: Storage

    predicate Valid()
      reads this
    {
      Complete(flags)
    }

    /** Start-up: every flag false, except `isCollapse` when a saved copy holds one. */
    constructor (storage: Storage)
      ensures Valid() && this.storage == storage
      ensures forall f :: f != IsCollapse ==> !flags[f]
      ensures flags[IsCollapse] <==>
        StorageName in storage.items && storage.items[StorageName].LayoutBlob? && storage.items[StorageName].isCollapse
    {
      this.storage := storage;
      var saved := StorageName in storage.items && storage.items[StorageName].LayoutBlob?
        && storage.items[StorageName].isCollapse;
      flags := InitialFlags()[IsCollapse := saved];
    }

    /** `setState(partial)`, followed by the persist middleware's write of `isCollapse`. */
    method SetState(partial: map<Flag, bool>)
      requires Valid()
      modifies this, storage
      ensures Valid()
      ensures flags == Merge(old(flags), partial)
      ensures storage.items == old(storage.items)[StorageName := LayoutBlob(flags[IsCollapse])]
    {
      flags := Merge(flags, partial);
      storage.SetItem(StorageName, LayoutBlob(flags[IsCollapse]));
    }

    /** `setIsCollapse(b)`: only `isCollapse` changes. */
    method SetIsCollapse(b: bool)
      requires Valid()
      modifies this, storage
      ensures Valid()
      ensures flags[IsCollapse] == b
      ensures forall f :: f != IsCollapse ==> flags[f] == old(flags[f])
      ensures storage.items == old(storage.items)[StorageName := LayoutBlob(b)]
    {
      SetState(map[IsCollapse := b]);
    }
  }
}
