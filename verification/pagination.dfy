/**
 * The server's paging helpers for the relational store and for the search
 * index: defaults for missing page parameters, and the offset arithmetic.
 * The queries themselves are external and enter as functions of the query
 * they are given.
 */
module Pagination {
  import opened Wrappers

  datatype MySQLOption = MySQLOption(page: int, pageSize: int, order: string)

  datatype EsOption = EsOption(page: int, pageSize: int)

  const DefaultPageSize: int := 10
  const DefaultOrder: string := "id desc"

  /** The page number after defaulting. */
  function DefaultedPage(page: int): (p: int)
    ensures p >= 1
    ensures page >= 1 ==> p == page
  {
    if page < 1 then 1 else page
  }

  /** The page size after defaulting. */
  function DefaultedSize(pageSize: int): (s: int)
    ensures s >= 1
    ensures pageSize >= 1 ==> s == pageSize
    ensures pageSize < 1 ==> s == DefaultPageSize
  {
    if pageSize < 1 then DefaultPageSize else pageSize
  }

  /** The first record of a page. */
  function Offset(page: int, pageSize: int): int
  {
    (page - 1) * pageSize
  }

  /** On defaulted values the offset is never negative, and each page starts one page size after the last. */
  lemma OffsetProperties(page: int, pageSize: int)
    ensures Offset(DefaultedPage(page), DefaultedSize(pageSize)) >= 0
    ensures Offset(DefaultedPage(page) + 1, DefaultedSize(pageSize))
         == Offset(DefaultedPage(page), DefaultedSize(pageSize)) + DefaultedSize(pageSize)
  {
    var p, s := DefaultedPage(page), DefaultedSize(pageSize);
    assert (p - 1) * s >= 0;
    assert p * s == (p - 1) * s + s;
  }

  /** The order, limit and offset the data query is built with. */
  datatype DataQuery = DataQuery(order: string, limit: int, offset: int)

  /** What the search request is given: `Size` and `From`. */
  datatype EsRequest = EsRequest(size: int, from: int)

  /** `(list, total, err)`; a failed call returns a nil list. */
  datatype Paged<T> = Paged(list: Option<seq<T>>, total: int, err: Option<string>)

  /**
   * `MySQLPagination`: the defaults are applied to the option, the count
   * runs, then the data query with limit = page size and offset = (page - 1)
   * times page size. Either error gives a nil list, total 0 and the error.
   */
  method MySQLPagination<T>(option: MySQLOption, count: Result<int, string>, find: DataQuery -> Result<seq<T>, string>)
    returns (r: Paged<T>, issued: Option<DataQuery>)
    ensures count.Err? ==> r == Paged(None, 0, Some(count.error)) && issued == None
    ensures count.Ok? ==> issued.Some?
    ensures issued.Some? ==>
      var q := issued.value;
      && q.order == (if option.order == "" then DefaultOrder else option.order)
      && q.limit == DefaultedSize(option.pageSize)
      && q.offset == Offset(DefaultedPage(option.page), DefaultedSize(option.pageSize))
      && r == (if find(q).Err? then Paged(None, 0, Some(find(q).error)) else Paged(Some(find(q).value), count.value, None))
  {
    var o := option;
    if o.page < 1 {
      o := o.(page := 1);
    }
    if o.pageSize < 1 {
      o := o.(pageSize := DefaultPageSize);
    }
    if o.order == "" {
      o := o.(order := DefaultOrder);
    }
    if count.Err? {
      return Paged(None, 0, Some(count.error)), None;
    }
    var q := DataQuery(o.order, o.pageSize, (o.page - 1) * o.pageSize);
    issued := Some(q);
    var rows := find(q);
    if rows.Err? {
      return Paged(None, 0, Some(rows.error)), issued;
    }
    r := Paged(Some(rows.value), count.value, None);
  }

  /**
   * `EsPagination`: the same page defaults (the search path has no order),
   * then Size = page size and From = (page - 1) times page size.
   */
  method EsPagination<H>(option: EsOption, search: EsRequest -> Result<(seq<H>, int), string>)
    returns (r: Paged<H>, request: EsRequest)
    ensures request.size == DefaultedSize(option.pageSize)
    ensures request.from == Offset(DefaultedPage(option.page), DefaultedSize(option.pageSize))
    ensures request.size >= 1 && request.from >= 0
    ensures r == (if search(request).Err? then Paged(None, 0, Some(search(request).error))
                  else Paged(Some(search(request).value.0), search(request).value.1, None))
  {
    var o := option;
    if o.page < 1 {
      o := o.(page := 1);
    }
    if o.pageSize < 1 {
      o := o.(pageSize := DefaultPageSize);
    }
    var from := (o.page - 1) * o.pageSize;
    request := EsRequest(o.pageSize, from);
    OffsetProperties(option.page, option.pageSize);
    var res := search(request);
    if res.Err? {
      return Paged(None, 0, Some(res.error)), request;
    }
    r := Paged(Some(res.value.0), res.value.1, None);
  }

  /** The records a store holding `rows` in query order returns for a limit and an offset. */
  function PageOf<T>(rows: seq<T>, limit: nat, offset: nat): (p: seq<T>)
    ensures |p| <= limit
  {
    var lo := if offset <= |rows| then offset else |rows|;
    var hi := if offset + limit <= |rows| then offset + limit else |rows|;
    rows[lo..hi]
  }

  /** Pages 1 to k, read one after another. */
  function FirstPages<T>(rows: seq<T>, size: nat, k: nat): seq<T>
  {
    if k == 0 then [] else FirstPages(rows, size, k - 1) + PageOf(rows, size, (k - 1) * size)
  }

  /** The first `n` records, or all of them when there are fewer. */
  function Upto<T>(rows: seq<T>, n: nat): (r: seq<T>)
    ensures |r| == if n <= |rows| then n else |rows|
    ensures r <= rows
  {
    rows[..if n <= |rows| then n else |rows|]
  }

  /** Reading pages 1 to k in turn gives the first k times size records, none missed or repeated. */
  lemma {:induction false} PagesTile<T>(rows: seq<T>, size: nat, k: nat)
    ensures FirstPages(rows, size, k) == Upto(rows, k * size)
  {
    if k > 0 {
      PagesTile(rows, size, k - 1);
      NextPageStart(k, size);
      PageAfter(rows, size, (k - 1) * size);
    }
  }

  lemma NextPageStart(k: nat, size: nat)
    requires k > 0
    ensures k * size == (k - 1) * size + size
  {
  }

  /** The records up to an offset, then the page there, are the records up to the page's end. */
  lemma PageAfter<T>(rows: seq<T>, size: nat, a: nat)
    ensures Upto(rows, a) + PageOf(rows, size, a) == Upto(rows, a + size)
  {
    var lo := if a <= |rows| then a else |rows|;
    var hi := if a + size <= |rows| then a + size else |rows|;
    assert rows[..lo] + rows[lo..hi] == rows[..hi];
  }
}
