/**
 * The pagination query objects: `BasePaginationDto` (page and limit) and
 * `SortablePaginationDto` (adds the sort order). The query string has
 * already been converted to numbers; absent fields take their defaults,
 * and a value outside its bounds makes the request a BadRequest.
 */
module QueryDto {
  import opened Common
  import CommentService
  import ArticleService

  datatype PaginationQuery = PaginationQuery(page: Option<int>, limit: Option<int>)

  datatype SortableQuery = SortableQuery(page: Option<int>, limit: Option<int>, sort: Option<string>)

  datatype Pagination = Pagination(page: int, limit: int)

  const DefaultPage: int := 1
  const DefaultLimit: int := 10
  const MaxLimit: int := 100

  /** `page`: an integer of at least 1, 1 when absent. */
  predicate PageOk(page: Option<int>) {
    page.None? || page.value >= 1
  }

  /** `limit`: an integer from 1 to 100, 10 when absent. */
  predicate LimitOk(limit: Option<int>) {
    limit.None? || 1 <= limit.value <= MaxLimit
  }

  function ValidatePagination(q: PaginationQuery): (r: Result<Pagination, HttpError>)
    ensures r.Ok? <==> PageOk(q.page) && LimitOk(q.limit)
    ensures r.Err? ==> r.error == BadRequest
    ensures r.Ok? ==> r.value.page == (if q.page.Some? then q.page.value else DefaultPage)
    ensures r.Ok? ==> r.value.limit == (if q.limit.Some? then q.limit.value else DefaultLimit)
  {
    if !PageOk(q.page) || !LimitOk(q.limit) then Err(BadRequest)
    else Ok(Pagination(if q.page.Some? then q.page.value else DefaultPage,
                       if q.limit.Some? then q.limit.value else DefaultLimit))
  }

  /** Whatever passes validation is a page of at least 1 and a limit from 1 to 100. */
  lemma ValidatedPaginationInRange(q: PaginationQuery)
    requires ValidatePagination(q).Ok?
    ensures var p := ValidatePagination(q).value;
      p.page >= 1 && 1 <= p.limit <= MaxLimit
  {
  }

  /** A validated query is always a page `getDrafts` can serve: at most `limit` drafts, at most 100. */
  lemma ValidatedQueryServesDrafts(q: PaginationQuery, rows: seq<(ArticleService.ArticleId, ArticleService.Article)>,
                                   authorId: ArticleService.UserId)
    requires ValidatePagination(q).Ok?
    ensures var p := ValidatePagination(q).value;
      p.page >= 1 && p.limit >= 1 &&
      |ArticleService.GetDrafts(rows, authorId, p.page, p.limit).data| <= MaxLimit
  {
  }

  /** An empty query is the first page of ten. */
  lemma EmptyQueryDefaults()
    ensures ValidatePagination(PaginationQuery(None, None)) == Ok(Pagination(1, 10))
  {
  }

  /** `sort`: one of the two enumeration values, 'latest' when absent. */
  function ParseSort(sort: Option<string>): (r: Option<CommentService.SortType>)
    ensures r == Some(CommentService.Latest) <==> sort.None? || sort.value == "latest"
    ensures r == Some(CommentService.Popular) <==> sort.Some? && sort.value == "popular"
    ensures r.None? <==> sort.Some? && sort.value != "latest" && sort.value != "popular"
  {
    if sort.None? || sort.value == "latest" then Some(CommentService.Latest)
    else if sort.value == "popular" then Some(CommentService.Popular)
    else None
  }

  /** `SortablePaginationDto` inherits the page and limit rules and adds the sort order. */
  function ValidateSortable(q: SortableQuery): (r: Result<(Pagination, CommentService.SortType), HttpError>)
    ensures r.Ok? <==> ValidatePagination(PaginationQuery(q.page, q.limit)).Ok? && ParseSort(q.sort).Some?
    ensures r.Err? ==> r.error == BadRequest
    ensures r.Ok? ==> r.value.0 == ValidatePagination(PaginationQuery(q.page, q.limit)).value
    ensures r.Ok? ==> r.value.1 == ParseSort(q.sort).value
  {
    match ValidatePagination(PaginationQuery(q.page, q.limit))
    case Err(e) => Err(e)
    case Ok(p) =>
      match ParseSort(q.sort)
      case None => Err(BadRequest)
      case Some(s) => Ok((p, s))
  }
}
