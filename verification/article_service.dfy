/**
 * The server's article service: the search and list requests built for the
 * search index, the like toggle, the duplicate-title check on create and the
 * delete of a batch of ids. The index and the like table are held as fields;
 * the search call itself is external and enters as a function of the request.
 */
module ArticleService {
  import opened Wrappers
  import Pagination

  /** One leaf query: a full-text `match` or an exact `term`. */
  datatype Clause = Match(field: string, text: string) | Term(field: string, value: string)

  /** A bool query; `None` is a clause list that was never assigned (a nil slice). */
  datatype BoolQuery = BoolQuery(should: Option<seq<Clause>>, must: Option<seq<Clause>>, filter: Option<seq<Clause>>)

  datatype Query = Bool(b: BoolQuery) | MatchAll

  datatype SortOrder = Asc | Desc

  datatype Sort = Sort(field: string, order: SortOrder)

  datatype SearchRequest = SearchRequest(query: Query, sort: Option<Sort>)

  /** The parameters of the public search: empty strings mean "not given". */
  datatype SearchInfo = SearchInfo(query: string, category: string, tag: string, sort: string, order: string, page: Pagination.EsOption)

  /** The parameters of the dashboard list: `None` means "not given". */
  datatype ListInfo = ListInfo(title: Option<string>, summary: Option<string>, category: Option<string>, page: Pagination.EsOption)

  /** The four document fields a free-text query is matched against. */
  function TextMatches(q: string): (cs: seq<Clause>)
    ensures |cs| == 4
    ensures forall i :: 0 <= i < 4 ==> cs[i].Match? && cs[i].text == q
  {
    [Match("title", q), Match("keyword", q), Match("abstract", q), Match("content", q)]
  }

  /** The index field a sort key names; an unknown key sorts by creation time. */
  function SortField(key: string): (f: string)
    ensures f in {"created_at", "views", "comments", "likes"}
    ensures key !in {"time", "view", "comment", "like"} ==> f == "created_at"
  {
    match key
    case "time" => "created_at"
    case "view" => "views"
    case "comment" => "comments"
    case "like" => "likes"
    case _ => "created_at"
  }

  /** The sort key the client sends for each sortable field. */
  function SortKey(field: string): (key: string)
    ensures key in {"time", "view", "comment", "like"}
  {
    match field
    case "views" => "view"
    case "comments" => "comment"
    case "likes" => "like"
    case _ => "time"
  }

  /** The four recognised keys and the four fields correspond one to one. */
  lemma SortKeyRoundTrip(key: string, field: string)
    ensures key in {"time", "view", "comment", "like"} ==> SortKey(SortField(key)) == key
    ensures field in {"created_at", "views", "comments", "likes"} ==> SortField(SortKey(field)) == field
  {
  }

  /** Only the exact word "asc" sorts ascending. */
  function OrderOf(order: string): (o: SortOrder)
    ensures o == Asc <==> order == "asc"
  {
    if order != "asc" then Desc else Asc
  }

  /**
   * `ArticleSearch`: the free-text query goes to Should, the tag to Must and
   * the category to Filter; with none of them the query matches everything.
   * A sort is set only when a sort key is given. The request is then paged.
   */
  method ArticleSearch<H>(info: SearchInfo, search: (SearchRequest, Pagination.EsRequest) -> Result<(seq<H>, int), string>)
    returns (req: SearchRequest, r: Pagination.Paged<H>, page: Pagination.EsRequest)
    ensures req.query.MatchAll? <==> info.query == "" && info.tag == "" && info.category == ""
    ensures req.query.Bool? ==>
      && req.query.b.should == (if info.query == "" then None else Some(TextMatches(info.query)))
      && req.query.b.must == (if info.tag == "" then None else Some([Match("tags", info.tag)]))
      && req.query.b.filter == (if info.category == "" then None else Some([Term("category", info.category)]))
    ensures req.sort.Some? <==> info.sort != ""
    ensures req.sort.Some? ==> req.sort.value == Sort(SortField(info.sort), OrderOf(info.order))
    ensures page.size == Pagination.DefaultedSize(info.page.pageSize)
    ensures page.from == Pagination.Offset(Pagination.DefaultedPage(info.page.page), Pagination.DefaultedSize(info.page.pageSize))
    ensures r == (if search(req, page).Err? then Pagination.Paged(None, 0, Some(search(req, page).error))
                  else Pagination.Paged(Some(search(req, page).value.0), search(req, page).value.1, None))
  {
    var boolQuery := BoolQuery(None, None, None);
    if info.query != "" {
      boolQuery := boolQuery.(should := Some(TextMatches(info.query)));
    }
    if info.tag != "" {
      boolQuery := boolQuery.(must := Some([Match("tags", info.tag)]));
    }
    if info.category != "" {
      boolQuery := boolQuery.(filter := Some([Term("category", info.category)]));
    }
    var query: Query;
    if boolQuery.should.Some? || boolQuery.must.Some? || boolQuery.filter.Some? {
      query := Bool(boolQuery);
    } else {
      query := MatchAll;
    }
    var sort: Option<Sort> := None;
    if info.sort != "" {
      var order := if info.order != "asc" then Desc else Asc;
      sort := Some(Sort(SortField(info.sort), order));
    }
    req := SearchRequest(query, sort);
    var request := req;
    r, page := Pagination.EsPagination(info.page, (e: Pagination.EsRequest) => search(request, e));
  }

  /** A one-clause list for a given value, nothing for a missing one. */
  function MatchIfGiven(field: string, v: Option<string>): (cs: seq<Clause>)
    ensures |cs| <= 1
    ensures cs != [] <==> v.Some?
  {
    if v.Some? then [Match(field, v.value)] else []
  }

  /** `append` onto a clause list that may still be nil. */
  function AppendClause(cs: Option<seq<Clause>>, c: Clause): (r: Option<seq<Clause>>)
    ensures r == Some((if cs.Some? then cs.value else []) + [c])
  {
    if cs.Some? then Some(cs.value + [c]) else assert [] + [c] == [c]; Some([c])
  }

  /**
   * `ArticleList`: title and summary are Must matches, in that order, and the
   * category a Filter term. Without any of them the query matches everything,
   * newest first; with any of them no sort is set.
   */
  method ArticleList<H>(info: ListInfo, search: (SearchRequest, Pagination.EsRequest) -> Result<(seq<H>, int), string>)
    returns (req: SearchRequest, r: Pagination.Paged<H>, page: Pagination.EsRequest)
    ensures req.query.MatchAll? <==> info.title.None? && info.summary.None? && info.category.None?
    ensures req.query.MatchAll? ==> req.sort == Some(Sort("created_at", Desc))
    ensures req.query.Bool? ==>
      && req.sort == None
      && req.query.b.should == None
      && req.query.b.must == (if info.title.None? && info.summary.None? then None
                              else Some(MatchIfGiven("title", info.title) + MatchIfGiven("abstract", info.summary)))
      && req.query.b.filter == (if info.category.None? then None else Some([Term("category", info.category.value)]))
    ensures page.size == Pagination.DefaultedSize(info.page.pageSize)
    ensures page.from == Pagination.Offset(Pagination.DefaultedPage(info.page.page), Pagination.DefaultedSize(info.page.pageSize))
    ensures r == (if search(req, page).Err? then Pagination.Paged(None, 0, Some(search(req, page).error))
                  else Pagination.Paged(Some(search(req, page).value.0), search(req, page).value.1, None))
  {
    var boolQuery := BoolQuery(None, None, None);
    if info.title.Some? {
      boolQuery := boolQuery.(must := AppendClause(boolQuery.must, Match("title", info.title.value)));
    }
    if info.summary.Some? {
      boolQuery := boolQuery.(must := AppendClause(boolQuery.must, Match("abstract", info.summary.value)));
    }
    if info.category.Some? {
      boolQuery := boolQuery.(filter := Some([Term("category", info.category.value)]));
    }
    assert MatchIfGiven("title", info.title) + [] == MatchIfGiven("title", info.title);
    if boolQuery.must.Some? || boolQuery.filter.Some? {
      req := SearchRequest(Bool(boolQuery), None);
    } else {
      req := SearchRequest(MatchAll, Some(Sort("created_at", Desc)));
    }
    var request := req;
    r, page := Pagination.EsPagination(info.page, (e: Pagination.EsRequest) => search(request, e));
  }

  /** An article document of the index. */
  datatype Article = Article(
    createdAt: string,
    updatedAt: string,
    cover: string,
    title: string,
    keyword: string,
    category: string,
    tags: seq<string>,
    summary: string,
    content: string,
    views: int,
    comments: int,
    likes: int)

  /** A row of the like table: one user has liked one article. */
  datatype LikeKey = LikeKey(userId: nat, articleId: string)

  datatype ArticleError = AlreadyExists | NotFound(id: string) | DocumentMissing(id: string)

  /** The like table and the index, as one value. */
  datatype LikeState = LikeState(records: set<LikeKey>, articles: map<string, Article>)

  /**
   * One like click: no row means a new row and one more like, a row means the
   * row goes and one like less. When the article's document is missing the
   * counter update fails and the transaction undoes the row change.
   */
  function Toggle(s: LikeState, k: LikeKey): (t: LikeState)
    ensures k.articleId !in s.articles ==> t == s
    ensures k.articleId in s.articles ==>
      && (k in t.records <==> k !in s.records)
      && t.records - {k} == s.records - {k}
      && t.articles.Keys == s.articles.Keys
      && t.articles[k.articleId] == s.articles[k.articleId].(likes := s.articles[k.articleId].likes + (if k in s.records then -1 else 1))
      && forall id :: id in s.articles && id != k.articleId ==> t.articles[id] == s.articles[id]
  {
    if k.articleId !in s.articles then s
    else
      var a := s.articles[k.articleId];
      if k !in s.records then
        LikeState(s.records + {k}, s.articles[k.articleId := a.(likes := a.likes + 1)])
      else
        LikeState(s.records - {k}, s.articles[k.articleId := a.(likes := a.likes - 1)])
  }

  /** Two clicks by the same user on the same article restore the row and the count. */
  lemma ToggleTwice(s: LikeState, k: LikeKey)
    ensures Toggle(Toggle(s, k), k) == s
  {
    if k.articleId in s.articles {
      var a := s.articles[k.articleId];
      var t := Toggle(s, k);
      var u := Toggle(t, k);
      assert u.articles[k.articleId] == a;
      assert u.articles == s.articles;
      if k in s.records {
        assert u.records == s.records;
      } else {
        assert u.records == s.records;
      }
    }
  }

  /** Every title appears on at most one article. */
  predicate UniqueTitles(articles: map<string, Article>)
  {
    forall i, j :: i in articles && j in articles && articles[i].title == articles[j].title ==> i == j
  }

  /** `Exits(title)`: some article already has this title. */
  predicate TitleTaken(articles: map<string, Article>, title: string)
  {
    exists id :: id in articles && articles[id].title == title
  }

  datatype CreateRequest = CreateRequest(cover: string, title: string, category: string, tags: seq<string>, summary: string, content: string)

  /** The document `ArticleCreate` writes: its keyword is its title and it is created and updated at the same moment. */
  function NewArticle(req: CreateRequest, now: string): (a: Article)
    ensures a.title == req.title && a.keyword == req.title
    ensures a.createdAt == now && a.updatedAt == now
    ensures a.views == 0 && a.comments == 0 && a.likes == 0
    ensures a.cover == req.cover && a.category == req.category && a.tags == req.tags
    ensures a.summary == req.summary && a.content == req.content
  {
    Article(now, now, req.cover, req.title, req.title, req.category, req.tags, req.summary, req.content, 0, 0, 0)
  }

  /** `ArticleCreate` on the index: a taken title is refused, otherwise the new document is added. */
  function Create(articles: map<string, Article>, req: CreateRequest, now: string, newId: string): (r: Result<map<string, Article>, ArticleError>)
    requires newId !in articles
    ensures r.Err? <==> TitleTaken(articles, req.title)
    ensures r.Err? ==> r.error == AlreadyExists
    ensures r.Ok? ==> r.value.Keys == articles.Keys + {newId} && TitleTaken(r.value, req.title)
  {
    if TitleTaken(articles, req.title) then Err(AlreadyExists)
    else
      var after := articles[newId := NewArticle(req, now)];
      assert after[newId].title == req.title;
      Ok(after)
  }

  /** A create that succeeds keeps every title unique. */
  lemma CreateKeepsTitlesUnique(articles: map<string, Article>, req: CreateRequest, now: string, newId: string)
    requires newId !in articles && UniqueTitles(articles)
    requires Create(articles, req, now, newId).Ok?
    ensures UniqueTitles(Create(articles, req, now, newId).value)
  {
    assert forall id :: id in articles ==> articles[id].title != req.title;
  }

  /** Creating the same title again, whatever the new id, is refused. */
  lemma CreateTwiceRefused(articles: map<string, Article>, req: CreateRequest, now: string, id1: string, now2: string, id2: string)
    requires id1 !in articles && Create(articles, req, now, id1).Ok?
    requires id2 !in Create(articles, req, now, id1).value
    ensures Create(Create(articles, req, now, id1).value, req, now2, id2) == Err(AlreadyExists)
  {
  }

  /** The first id of the batch that has no document, if any: the one whose `Get` fails first. */
  function FirstMissing(articles: map<string, Article>, ids: seq<string>): (m: Option<string>)
    ensures m.None? <==> forall i :: 0 <= i < |ids| ==> ids[i] in articles
    ensures m.Some? ==> m.value in ids && m.value !in articles
    ensures m.Some? ==> exists i :: 0 <= i < |ids| && ids[i] == m.value && forall j :: 0 <= j < i ==> ids[j] in articles
  {
    if ids == [] then None
    else if ids[0] !in articles then Some(ids[0])
    else
      var rest := FirstMissing(articles, ids[1..]);
      assert forall i :: 1 <= i < |ids| ==> ids[i] == ids[1..][i - 1];
      rest
  }

  /** `ArticleDelete` on the index: an empty batch does nothing; a missing id aborts; otherwise every listed id goes. */
  function Delete(articles: map<string, Article>, ids: seq<string>): (r: Result<map<string, Article>, ArticleError>)
    ensures ids == [] ==> r == Ok(articles)
    ensures r.Err? <==> FirstMissing(articles, ids).Some?
    ensures r.Err? ==> r.error == NotFound(FirstMissing(articles, ids).value)
    ensures r.Ok? ==> r.value.Keys == articles.Keys - set i | i in ids
    ensures r.Ok? ==> forall id :: id in r.value ==> r.value[id] == articles[id]
  {
    if ids == [] then Ok(articles)
    else if FirstMissing(articles, ids).Some? then Err(NotFound(FirstMissing(articles, ids).value))
    else Ok(map id | id in articles && id !in ids :: articles[id])
  }

  /** Removing documents never makes two titles collide. */
  lemma DeleteKeepsTitlesUnique(articles: map<string, Article>, ids: seq<string>)
    requires UniqueTitles(articles) && Delete(articles, ids).Ok?
    ensures UniqueTitles(Delete(articles, ids).value)
  {
    var after := Delete(articles, ids).value;
    forall i, j | i in after && j in after && after[i].title == after[j].title
      ensures i == j
    {
      assert articles[i].title == articles[j].title;
    }
  }

  class Service {
    /** The like table. */
    var likeRecords: set<LikeKey>
    /** The article index, by document id. */
    var articles: map<string, Article>

    predicate Valid()
      reads this
    {
      UniqueTitles(articles)
    }

    function State(): LikeState
      reads this
    {
      LikeState(likeRecords, articles)
    }

    constructor (likeRecords: set<LikeKey>, articles: map<string, Article>)
      requires UniqueTitles(articles)
      ensures Valid() && this.likeRecords == likeRecords && this.articles == articles
    {
      this.likeRecords := likeRecords;
      this.articles := articles;
    }

    /** `ArticleLike`: the toggle; the error case is a missing document. */
    method ArticleLike(k: LikeKey) returns (err: Option<ArticleError>)
      requires Valid()
      modifies this
      ensures Valid()
      ensures State() == Toggle(old(State()), k)
      ensures err == (if k.articleId in old(articles) then None else Some(DocumentMissing(k.articleId)))
    {
      if k !in likeRecords {
        likeRecords := likeRecords + {k};
        if k.articleId !in articles {
          likeRecords := likeRecords - {k};
          return Some(DocumentMissing(k.articleId));
        }
        var a := articles[k.articleId];
        articles := articles[k.articleId := a.(likes := a.likes + 1)];
      } else {
        likeRecords := likeRecords - {k};
        if k.articleId !in articles {
          likeRecords := likeRecords + {k};
          return Some(DocumentMissing(k.articleId));
        }
        var a := articles[k.articleId];
        articles := articles[k.articleId := a.(likes := a.likes - 1)];
      }
      err := None;
      forall i, j | i in articles && j in articles && articles[i].title == articles[j].title
        ensures i == j
      {
        assert old(articles)[i].title == old(articles)[j].title;
      }
    }

    /** `ArticleIsLike`: whether the like row exists. */
    method ArticleIsLike(k: LikeKey) returns (liked: bool)
      ensures liked <==> k in likeRecords
    {
      liked := k in likeRecords;
    }

    /** `ArticleCreate`: `now` is the formatted clock and `newId` the id the index hands out. */
    method ArticleCreate(req: CreateRequest, now: string, newId: string) returns (err: Option<ArticleError>)
      requires Valid() && newId !in articles
      modifies this
      ensures Valid() && likeRecords == old(likeRecords)
      ensures var r := Create(old(articles), req, now, newId);
        if r.Ok? then err == None && articles == r.value else err == Some(r.error) && articles == old(articles)
    {
      if exists id :: id in articles && articles[id].title == req.title {
        return Some(AlreadyExists);
      }
      CreateKeepsTitlesUnique(articles, req, now, newId);
      articles := articles[newId := NewArticle(req, now)];
      err := None;
    }

    /** `ArticleDelete`: every id is looked up in order before anything is removed. */
    method ArticleDelete(ids: seq<string>) returns (err: Option<ArticleError>)
      requires Valid()
      modifies this
      ensures Valid() && likeRecords == old(likeRecords)
      ensures var r := Delete(old(articles), ids);
        if r.Ok? then err == None && articles == r.value else err == Some(r.error) && articles == old(articles)
    {
      if |ids| == 0 {
        return None;
      }
      for k := 0 to |ids|
        invariant FirstMissing(articles, ids) == FirstMissing(articles, ids[k..])
      {
        assert ids[k..][1..] == ids[k + 1..];
        if ids[k] !in articles {
          return Some(NotFound(ids[k]));
        }
      }
      DeleteKeepsTitlesUnique(articles, ids);
      articles := map id | id in articles && id !in ids :: articles[id];
      err := None;
    }
  }
}
