/**
 * One rendered list of comments. Each list keeps its own `replyFlag` (the
 * id of the comment being replied to, 0 for none) and the reply text; the
 * children of a comment are rendered by a nested list with its own state.
 */
module CommentItem {
  import opened Wrappers
  import opened ClientTypes
  import LocalStorage
  import Layout = LayoutStore

  /** The fields of a comment this component reads. Database ids are positive. */
  datatype Comment = Comment(id: nat, articleId: string, userUuid: string, content: string, children: seq<Comment>)

  datatype CreateRequest = CreateRequest(articleId: string, pId: nat, content: string)

  datatype DeleteRequest = DeleteRequest(ids: seq<nat>)

  predicate DistinctIds(comments: seq<Comment>)
  {
    forall i, j :: 0 <= i < j < |comments| ==> comments[i].id != comments[j].id
  }

  function DigitChar(d: nat): (c: char)
    requires d < 10
    ensures '0' <= c <= '9'
  {
    '0' + (d as char)
  }

  /** `n.toString().padStart(2, '0')` for `n` below 100. */
  function Pad2(n: nat): (s: string)
    requires n < 100
    ensures |s| == 2 && '0' <= s[0] <= '9' && '0' <= s[1] <= '9'
  {
    [DigitChar(n / 10), DigitChar(n % 10)]
  }

  lemma Pad2Injective(a: nat, b: nat)
    requires a < 100 && b < 100 && a != b
    ensures Pad2(a) != Pad2(b)
  {
  }

  /** The emoji numbers "01" to "50" offered in the reply box. */
  const EmojiCount: nat := 50

  function EmojiIds(): (ids: seq<string>)
    ensures |ids| == EmojiCount
  {
    seq(EmojiCount, i requires 0 <= i < EmojiCount => Pad2(i + 1))
  }

  /** The fifty emoji numbers are two characters each and all different. */
  lemma EmojiIdsDistinct(i: nat, j: nat)
    requires i < j < EmojiCount
    ensures |EmojiIds()[i]| == 2 && EmojiIds()[i] != EmojiIds()[j]
  {
    Pad2Injective(i + 1, j + 1);
  }

  lemma EmojiIdsEnds()
    ensures EmojiIds()[0] == "01" && EmojiIds()[EmojiCount - 1] == "50"
  {
  }

  /** The markdown image an emoji click appends to the reply. */
  function EmojiMarkdown(number: string): string
  {
    "![](/emoji/xiaochun_emoji_" + number + ".png)"
  }

  class CommentList {
    const comments: seq<Comment>
    var replyFlag: nat
    var content: string
    const viewer: User
    const layout: Layout.Store

    /** The reply editor and its confirm and cancel buttons show for this item. */
    predicate Replying(item: Comment)
      reads this
    {
      replyFlag == item.id
    }

    /** The delete button: not while replying, and only for the author or an admin. */
    predicate ShowsDelete(item: Comment)
      reads this
    {
      !Replying(item) && (item.userUuid == viewer.uuid || IsAdmin(viewer))
    }

    constructor (comments: seq<Comment>, viewer: User, layout: Layout.Store)
      ensures this.comments == comments && this.viewer == viewer && this.layout == layout
      ensures replyFlag == 0 && content == ""
    {
      this.comments := comments;
      this.viewer := viewer;
      this.layout := layout;
      replyFlag := 0;
      content := "";
    }

    /** Within one list of distinct ids, at most one item is being replied to. */
    lemma AtMostOneReplying(i: nat, j: nat)
      requires DistinctIds(comments) && i < |comments| && j < |comments|
      requires Replying(comments[i]) && Replying(comments[j])
      ensures i == j
    {
    }

    /** The "reply" button. The reply text is kept. */
    method StartReply(item: Comment)
      modifies this
      ensures Replying(item) && content == old(content)
      ensures forall c: Comment :: Replying(c) <==> c.id == item.id
    {
      replyFlag := item.id;
    }

    /** The "cancel" button: no request, no item in reply mode, empty text. */
    method CancelReply()
      modifies this
      ensures replyFlag == 0 && content == ""
      ensures forall c: Comment :: c.id > 0 ==> !Replying(c)
    {
      replyFlag := 0;
      content := "";
    }

    method SetContent(v: string)
      modifies this
      ensures content == v && replyFlag == old(replyFlag)
    {
      content := v;
    }

    /** Clicking emoji number `i + 1` appends its markdown image to the text. */
    method AddEmoji(i: nat)
      requires i < EmojiCount
      modifies this
      ensures content == old(content) + EmojiMarkdown(EmojiIds()[i]) && replyFlag == old(replyFlag)
    {
      content := content + EmojiMarkdown(EmojiIds()[i]);
    }

    /**
     * `submitReply(item)`: the request answers `item` in its article with the
     * current text; a code-0 reply asks the list to refresh and leaves reply mode.
     */
    method SubmitReply(item: Comment, reply: Settled<Envelope<()>>) returns (request: CreateRequest)
      requires layout.Valid()
      modifies this, layout, layout.storage
      ensures layout.Valid()
      ensures request == CreateRequest(item.articleId, item.id, old(content))
      ensures reply.Fulfilled? && reply.value.code == 0 ==>
        && replyFlag == 0 && content == ""
        && layout.flags == Layout.Merge(old(layout.flags), map[Layout.ShouldRefreshCommentList := true])
        && layout.storage.items == old(layout.storage.items)[Layout.StorageName := LocalStorage.LayoutBlob(layout.flags[Layout.IsCollapse])]
      ensures !(reply.Fulfilled? && reply.value.code == 0) ==>
        && replyFlag == old(replyFlag) && content == old(content)
        && layout.flags == old(layout.flags) && layout.storage.items == old(layout.storage.items)
    {
      request := CreateRequest(item.articleId, item.id, content);
      if reply.Fulfilled? && reply.value.code == 0 {
        layout.SetState(map[Layout.ShouldRefreshCommentList := true]);
        replyFlag := 0;
        content := "";
      }
    }

    /** `handleDelete(id)`: a one-id delete request; a code-0 reply asks the list to refresh. */
    method HandleDelete(id: nat, reply: Settled<Envelope<()>>) returns (request: DeleteRequest)
      requires layout.Valid()
      modifies layout, layout.storage
      ensures layout.Valid()
      ensures request == DeleteRequest([id])
      ensures reply.Fulfilled? && reply.value.code == 0 ==>
        && layout.flags == Layout.Merge(old(layout.flags), map[Layout.ShouldRefreshCommentList := true])
        && layout.storage.items == old(layout.storage.items)[Layout.StorageName := LocalStorage.LayoutBlob(layout.flags[Layout.IsCollapse])]
      ensures !(reply.Fulfilled? && reply.value.code == 0) ==>
        layout.flags == old(layout.flags) && layout.storage.items == old(layout.storage.items)
    {
      request := DeleteRequest([id]);
      if reply.Fulfilled? && reply.value.code == 0 {
        layout.SetState(map[Layout.ShouldRefreshCommentList := true]);
      }
    }
  }
}
