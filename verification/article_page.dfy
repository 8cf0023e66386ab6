/**
 * The public article page: loading the article, its like status and its
 * comments, the like toggle, and posting a top-level comment.
 */
module ArticlePage {
  import opened Wrappers
  import opened ClientTypes
  import CommentItem

  datatype ArticleInfo = ArticleInfo(
    cover: string, title: string, keyword: string, category: string, tags: seq<string>,
    summary: string, content: string, views: int, comments: int, likes: int)

  function EmptyArticle(): ArticleInfo
  {
    ArticleInfo("", "", "", "", [], "", "", 0, 0, 0)
  }

  /** The characters `String.prototype.trim` removes: white space and line terminators. */
  predicate IsJsSpace(c: char)
  {
    || c == '\t' || c == '\n' || c == '\U{000B}' || c == '\U{000C}' || c == '\r' || c == ' '
    || c == '\U{00A0}' || c == '\U{1680}' || ('\U{2000}' <= c <= '\U{200A}')
    || c == '\U{2028}' || c == '\U{2029}' || c == '\U{202F}' || c == '\U{205F}'
    || c == '\U{3000}' || c == '\U{FEFF}'
  }

  predicate Blank(s: string)
  {
    forall i :: 0 <= i < |s| ==> IsJsSpace(s[i])
  }

  /** `trimStart`: the longest suffix not starting with white space, all of the part removed being white space. */
  function TrimStart(s: string): (r: string)
    ensures |r| <= |s| && r == s[|s| - |r|..]
    ensures Blank(s[..|s| - |r|])
    ensures r == [] || !IsJsSpace(r[0])
  {
    if s != [] && IsJsSpace(s[0]) then TrimStart(s[1..]) else s
  }

  /** `trimEnd`: the longest prefix not ending in white space, all of the part removed being white space. */
  function TrimEnd(s: string): (r: string)
    ensures |r| <= |s| && r == s[..|r|]
    ensures Blank(s[|r|..])
    ensures r == [] || !IsJsSpace(r[|r| - 1])
  {
    if s != [] && IsJsSpace(s[|s| - 1]) then TrimEnd(s[..|s| - 1]) else s
  }

  /** `s.trim()`. */
  function Trim(s: string): string
  {
    TrimEnd(TrimStart(s))
  }

  lemma BlankFront(s: string)
    requires s != []
    ensures Blank(s) <==> IsJsSpace(s[0]) && Blank(s[1..])
  {
    if IsJsSpace(s[0]) && Blank(s[1..]) {
      forall i | 0 <= i < |s| ensures IsJsSpace(s[i]) {
        if i > 0 { assert s[i] == s[1..][i - 1]; }
      }
    }
  }

  lemma BlankBack(s: string)
    requires s != []
    ensures Blank(s) <==> IsJsSpace(s[|s| - 1]) && Blank(s[..|s| - 1])
  {
    var p := s[..|s| - 1];
    if IsJsSpace(s[|s| - 1]) && Blank(p) {
      forall i | 0 <= i < |s| ensures IsJsSpace(s[i]) {
        if i < |s| - 1 { assert s[i] == p[i]; }
      }
    }
  }

  lemma {:induction false} TrimStartEmpty(s: string)
    ensures TrimStart(s) == [] <==> Blank(s)
  {
    if s != [] {
      BlankFront(s);
      if IsJsSpace(s[0]) {
        TrimStartEmpty(s[1..]);
      }
    }
  }

  lemma {:induction false} TrimEndEmpty(s: string)
    ensures TrimEnd(s) == [] <==> Blank(s)
  {
    if s != [] {
      BlankBack(s);
      if IsJsSpace(s[|s| - 1]) {
        TrimEndEmpty(s[..|s| - 1]);
      }
    }
  }

  /** The comment guard: `!content.trim()` holds exactly when every character is white space. */
  lemma TrimEmptyIffBlank(s: string)
    ensures Trim(s) == "" <==> Blank(s)
  {
    TrimStartEmpty(s);
    TrimEndEmpty(TrimStart(s));
  }

  /** One successful like click: the count moves by one and the flag flips. */
  function LikeStep(likes: int, isLike: bool): (r: (int, bool))
    ensures r.1 == !isLike
    ensures r.0 == if isLike then likes - 1 else likes + 1
  {
    (likes + (if isLike then -1 else 1), !isLike)
  }

  /** Two successful clicks give back the count and the flag. */
  lemma LikeTwiceRestores(likes: int, isLike: bool)
    ensures var r := LikeStep(likes, isLike); LikeStep(r.0, r.1) == (likes, isLike)
  {
  }

  class Page {
    const id: string
    var articleInfo: ArticleInfo
    var isLike: bool
    var content: string
    var comments: seq<CommentItem.Comment>

    constructor (id: string)
      ensures this.id == id && articleInfo == EmptyArticle() && !isLike && content == "" && comments == []
    {
      this.id := id;
      articleInfo := EmptyArticle();
      isLike := false;
      content := "";
      comments := [];
    }

    /** `fetchArticleInfo`: a code-0 reply is shown; any other code leads to the not-found page. */
    method FetchArticleInfo(reply: Envelope<ArticleInfo>) returns (navs: seq<Nav>)
      modifies this
      ensures reply.code == 0 ==> articleInfo == reply.data && navs == []
      ensures reply.code != 0 ==> articleInfo == old(articleInfo) && navs == [Go("/404")]
      ensures isLike == old(isLike) && content == old(content) && comments == old(comments)
    {
      if reply.code == 0 {
        articleInfo := reply.data;
        navs := [];
      } else {
        navs := [Go("/404")];
      }
    }

    /** `fetchIsLikeInfo`: asked only for a logged-in viewer; a code-0 answer sets the flag. */
    method FetchIsLikeInfo(viewer: User, reply: Envelope<bool>) returns (requested: bool)
      modifies this
      ensures requested <==> IsLoggedIn(viewer)
      ensures isLike == if requested && reply.code == 0 then reply.data else old(isLike)
      ensures articleInfo == old(articleInfo) && content == old(content) && comments == old(comments)
    {
      requested := IsLoggedIn(viewer);
      if requested && reply.code == 0 {
        isLike := reply.data;
      }
    }

    method GetArticleComments(reply: Envelope<seq<CommentItem.Comment>>)
      modifies this
      ensures comments == if reply.code == 0 then reply.data else old(comments)
      ensures articleInfo == old(articleInfo) && isLike == old(isLike) && content == old(content)
    {
      if reply.code == 0 {
        comments := reply.data;
      }
    }

    /** `handleLike`: a code-0 reply applies one like step; any other reply changes nothing. */
    method HandleLike(reply: Envelope<()>)
      modifies this
      ensures reply.code == 0 ==>
        (articleInfo.likes, isLike) == LikeStep(old(articleInfo.likes), old(isLike))
        && articleInfo == old(articleInfo).(likes := articleInfo.likes)
      ensures reply.code != 0 ==> articleInfo == old(articleInfo) && isLike == old(isLike)
      ensures content == old(content) && comments == old(comments)
    {
      if reply.code == 0 {
        articleInfo := articleInfo.(likes := articleInfo.likes + (if isLike then -1 else 1));
        isLike := !isLike;
      }
    }

    /**
     * `handleCommentSubmit`: blank text sends nothing. Otherwise a top-level
     * comment (`p_id` 0) is sent; a code-0 reply clears the box and reloads
     * the comments, taking the reloaded list when its code is 0.
     */
    method HandleCommentSubmit(reply: Envelope<()>, reloaded: Envelope<seq<CommentItem.Comment>>)
      returns (request: Option<CommentItem.CreateRequest>)
      modifies this
      ensures request.None? <==> Trim(old(content)) == ""
      ensures request.Some? ==> request.value == CommentItem.CreateRequest(id, 0, old(content))
      ensures request.Some? && reply.code == 0 ==>
        content == "" && comments == if reloaded.code == 0 then reloaded.data else old(comments)
      ensures !(request.Some? && reply.code == 0) ==> content == old(content) && comments == old(comments)
      ensures articleInfo == old(articleInfo) && isLike == old(isLike)
    {
      if Trim(content) == "" {
        return None;
      }
      request := Some(CommentItem.CreateRequest(id, 0, content));
      if reply.code == 0 {
        content := "";
        if reloaded.code == 0 {
          comments := reloaded.data;
        }
      }
    }
  }
}
