/**
 * The dashboard's tag store: the list of open tabs, mirrored by hand into
 * localStorage under "tags" by `addTag` and `removeTag`.
 */
module TagStore {
  import opened ClientTypes
  import opened LocalStorage

  const StorageName: string := "tags"

  /** The tab shown when nothing was saved. */
  const HomeTag: Tag := Tag("主页", "home")

  /** The start-up list: the saved list when there is one, else the home tab alone. */
  function InitialTags(items: map<string, Blob>): (tags: seq<Tag>)
    ensures StorageName !in items ==> tags == [HomeTag]
    ensures StorageName in items && items[StorageName].TagsBlob? ==> tags == items[StorageName].tags
  {
    if StorageName in items && items[StorageName].TagsBlob? then items[StorageName].tags else [HomeTag]
  }

  /** `tags.filter(tag => tag.name !== name)`. */
  function WithoutName(tags: seq<Tag>, name: string): (r: seq<Tag>)
    ensures forall t :: t in r <==> t in tags && t.name != name
    ensures |r| <= |tags|
  {
    if tags == [] then []
    else if tags[0].name != name then [tags[0]] + WithoutName(tags[1..], name)
    else WithoutName(tags[1..], name)
  }

  /** Removal keeps the relative order: removing from a concatenation removes from each part. */
  lemma {:induction false} WithoutNameAppend(a: seq<Tag>, b: seq<Tag>, name: string)
    ensures WithoutName(a + b, name) == WithoutName(a, name) + WithoutName(b, name)
  {
    if a != [] {
      assert (a + b)[0] == a[0] && (a + b)[1..] == a[1..] + b;
      WithoutNameAppend(a[1..], b, name);
      var ra, rb := WithoutName(a[1..], name), WithoutName(b, name);
      assert [a[0]] + (ra + rb) == ([a[0]] + ra) + rb;
    } else {
      assert a + b == b;
    }
  }

  /** Removing a name twice removes nothing more. */
  lemma {:induction false} WithoutNameIdempotent(tags: seq<Tag>, name: string)
    ensures WithoutName(WithoutName(tags, name), name) == WithoutName(tags, name)
  {
    if tags != [] {
      WithoutNameIdempotent(tags[1..], name);
    }
  }

  /** A list with no tab of that name is left as it is. */
  lemma {:induction false} WithoutAbsentName(tags: seq<Tag>, name: string)
    requires forall t :: t in tags ==> t.name != name
    ensures WithoutName(tags, name) == tags
  {
    if tags != [] {
      WithoutAbsentName(tags[1..], name);
    }
  }

  class Store {
    var tags: seq<Tag>
    const storage: Storage

    constructor (storage: Storage)
      ensures this.storage == storage && tags == InitialTags(storage.items)
    {
      this.storage := storage;
      tags := InitialTags(storage.items);
    }

    /** `addTag`: appended at the end even when a tab of that name is open; the saved copy follows. */
    method AddTag(t: Tag)
      modifies this, storage
      ensures tags == old(tags) + [t]
      ensures storage.items == old(storage.items)[StorageName := TagsBlob(tags)]
    {
      tags := tags + [t];
      storage.SetItem(StorageName, TagsBlob(tags));
    }

    /** `removeTag`: every tab of that name goes; the saved copy follows. */
    method RemoveTag(name: string)
      modifies this, storage
      ensures tags == WithoutName(old(tags), name)
      ensures storage.items == old(storage.items)[StorageName := TagsBlob(tags)]
    {
      tags := WithoutName(tags, name);
      storage.SetItem(StorageName, TagsBlob(tags));
    }

    /** `resetTags`: no tabs and no saved copy. */
    method ResetTags()
      modifies this, storage
      ensures tags == []
      ensures storage.items == old(storage.items) - {StorageName}
    {
      tags := [];
      storage.RemoveItem(StorageName);
    }

    /** `useTagStore.setState({tags})`: the list is replaced and localStorage is not written. */
    method SetTags(ts: seq<Tag>)
      modifies this
      ensures tags == ts
    {
      tags := ts;
    }
  }
}
