/**
 * The dashboard's "create article" form: the text fields, a duplicate-free
 * list of tags edited through a small input box, the cover upload, and the
 * submit step that refuses incomplete forms.
 */
module ArticleCreateForm {
  import opened Wrappers
  import opened ClientTypes
  import LocalStorage
  import Layout = LayoutStore

  datatype ArticleForm = ArticleForm(
    title: string, category: string, summary: string, content: string, cover: string, tags: seq<string>)

  /** The fields `handleInputChange` may set, by the input's `name`. */
  datatype TextField = Title | Category | Summary | Content

  /** An entry of the upload widget's file list. */
  datatype FileInfo = FileInfo(uid: string, url: string, name: string, status: string)

  /** The body of a successful upload reply. */
  datatype UploadData = UploadData(url: string)

  predicate NoDuplicates(s: seq<string>)
  {
    forall i, j :: 0 <= i < j < |s| ==> s[i] != s[j]
  }

  /** The tail of a duplicate-free list is duplicate-free and misses the head. */
  lemma NoDuplicatesTail(s: seq<string>)
    requires s != []
    ensures NoDuplicates(s) ==> NoDuplicates(s[1..]) && s[0] !in s[1..]
  {
    if NoDuplicates(s) {
      forall k | 0 <= k < |s[1..]| ensures s[1..][k] != s[0] {
        assert s[1..][k] == s[k + 1];
      }
    }
  }

  /** `tags.filter(t => t !== tag)`. */
  function Without(tags: seq<string>, tag: string): (r: seq<string>)
    ensures forall t :: t in r <==> t in tags && t != tag
    ensures NoDuplicates(tags) ==> NoDuplicates(r)
  {
    if tags == [] then []
    else
      var rest := Without(tags[1..], tag);
      assert forall t :: t in rest ==> t in tags[1..];
      NoDuplicatesTail(tags);
      if tags[0] != tag then [tags[0]] + rest else rest
  }

  /** The form as it first renders: title and content from the props, everything else empty. */
  function InitialForm(title: string, content: string): ArticleForm
  {
    ArticleForm(title, "", "", content, "", [])
  }

  function EmptyForm(): ArticleForm
  {
    ArticleForm("", "", "", "", "", [])
  }

  /** The submit guard: title, category, summary (`abstract`) and content must be non-empty; cover and tags may be empty. */
  predicate Complete(f: ArticleForm)
  {
    f.title != "" && f.category != "" && f.summary != "" && f.content != ""
  }

  /** `{...prev, [name]: value}`: only the named field changes. */
  function SetField(f: ArticleForm, field: TextField, value: string): (g: ArticleForm)
    ensures g.cover == f.cover && g.tags == f.tags
    ensures g.title == (if field == Title then value else f.title)
    ensures g.category == (if field == Category then value else f.category)
    ensures g.summary == (if field == Summary then value else f.summary)
    ensures g.content == (if field == Content then value else f.content)
  {
    match field
    case Title => f.(title := value)
    case Category => f.(category := value)
    case Summary => f.(summary := value)
    case Content => f.(content := value)
  }

  class Form {
    var formData: ArticleForm
    var fileList: seq<FileInfo>
    var inputVisible: bool
    var inputValue: string
    const layout: Layout.Store

    /** The tag list never holds the same tag twice. */
    predicate Valid()
      reads this
    {
      NoDuplicates(formData.tags)
    }

    /** `title` and `content` are the props, with an absent prop given as "". */
    constructor (title: string, content: string, layout: Layout.Store)
      ensures Valid() && this.layout == layout
      ensures formData == InitialForm(title, content) && fileList == [] && !inputVisible && inputValue == ""
    {
      formData := InitialForm(title, content);
      fileList := [];
      inputVisible := false;
      inputValue := "";
      this.layout := layout;
    }

    /** `handleClose(tag)`: that tag goes, the others stay in order. */
    method HandleClose(tag: string)
      requires Valid()
      modifies this
      ensures Valid()
      ensures formData == old(formData).(tags := Without(old(formData.tags), tag))
      ensures fileList == old(fileList) && inputVisible == old(inputVisible) && inputValue == old(inputValue)
    {
      formData := formData.(tags := Without(formData.tags, tag));
    }

    method ShowInput()
      modifies this
      ensures inputVisible && formData == old(formData) && inputValue == old(inputValue) && fileList == old(fileList)
    {
      inputVisible := true;
    }

    /** Typing in the tag box. */
    method SetInputValue(v: string)
      modifies this
      ensures inputValue == v && formData == old(formData) && inputVisible == old(inputVisible) && fileList == old(fileList)
    {
      inputValue := v;
    }

    /** `handleInputConfirm`: a non-empty new tag is appended; the box always closes and empties. */
    method HandleInputConfirm()
      requires Valid()
      modifies this
      ensures Valid()
      ensures old(inputValue) != "" && old(inputValue) !in old(formData.tags) ==>
        formData == old(formData).(tags := old(formData.tags) + [old(inputValue)])
      ensures !(old(inputValue) != "" && old(inputValue) !in old(formData.tags)) ==> formData == old(formData)
      ensures !inputVisible && inputValue == "" && fileList == old(fileList)
    {
      if inputValue != "" && inputValue !in formData.tags {
        formData := formData.(tags := formData.tags + [inputValue]);
      }
      inputVisible := false;
      inputValue := "";
    }

    /** `handleInputChange`: only the named text field changes. */
    method HandleInputChange(field: TextField, value: string)
      requires Valid()
      modifies this
      ensures Valid()
      ensures formData == SetField(old(formData), field, value)
      ensures fileList == old(fileList) && inputVisible == old(inputVisible) && inputValue == old(inputValue)
    {
      formData := SetField(formData, field, value);
    }

    /**
     * `handleUpload`: with a chosen file, a code-0 reply sets the cover and a
     * one-entry file list; failures and rejections are only logged.
     */
    method HandleUpload(file: Option<string>, reply: Settled<Envelope<UploadData>>)
      requires Valid()
      modifies this
      ensures Valid()
      ensures file.Some? && reply.Fulfilled? && reply.value.code == 0 ==>
        && formData == old(formData).(cover := reply.value.data.url)
        && fileList == [FileInfo("-1", reply.value.data.url, file.value, "done")]
      ensures !(file.Some? && reply.Fulfilled? && reply.value.code == 0) ==>
        formData == old(formData) && fileList == old(fileList)
      ensures inputVisible == old(inputVisible) && inputValue == old(inputValue)
    {
      if file.None? || reply.Rejected? {
        return;
      }
      if reply.value.code == 0 {
        var url := reply.value.data.url;
        formData := formData.(cover := url);
        fileList := [FileInfo("-1", url, file.value, "done")];
      }
    }

    /**
     * `submitForm`: an incomplete form sends nothing. Otherwise the form is
     * sent as it is; a code-0 reply closes the dialog and empties the form
     * and the file list, and any other outcome keeps them.
     */
    method SubmitForm(reply: Settled<Envelope<()>>) returns (sent: Option<ArticleForm>)
      requires Valid() && layout.Valid()
      modifies this, layout, layout.storage
      ensures Valid() && layout.Valid()
      ensures sent.Some? <==> Complete(old(formData))
      ensures sent.Some? ==> sent.value == old(formData)
      ensures sent.Some? && reply.Fulfilled? && reply.value.code == 0 ==>
        && formData == EmptyForm() && fileList == []
        && layout.flags == Layout.Merge(old(layout.flags), map[Layout.ArticleCreateVisible := false])
        && layout.storage.items == old(layout.storage.items)[Layout.StorageName := LocalStorage.LayoutBlob(layout.flags[Layout.IsCollapse])]
      ensures !(sent.Some? && reply.Fulfilled? && reply.value.code == 0) ==>
        && formData == old(formData) && fileList == old(fileList)
        && layout.flags == old(layout.flags) && layout.storage.items == old(layout.storage.items)
      ensures inputVisible == old(inputVisible) && inputValue == old(inputValue)
    {
      if !Complete(formData) {
        return None;
      }
      sent := Some(formData);
      if reply.Fulfilled? && reply.value.code == 0 {
        layout.SetState(map[Layout.ArticleCreateVisible := false]);
        formData := EmptyForm();
        fileList := [];
      }
    }

    /** The cancel button closes the dialog and keeps the form. */
    method Cancel()
      requires layout.Valid()
      modifies layout, layout.storage
      ensures layout.Valid()
      ensures layout.flags == Layout.Merge(old(layout.flags), map[Layout.ArticleCreateVisible := false])
      ensures layout.storage.items == old(layout.storage.items)[Layout.StorageName := LocalStorage.LayoutBlob(layout.flags[Layout.IsCollapse])]
    {
      layout.SetState(map[Layout.ArticleCreateVisible := false]);
    }
  }
}
