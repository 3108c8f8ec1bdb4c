/**
 * The article service's draft and publication lifecycle:
 * `createOrUpdateDraft`, `publishArticle`, `getDrafts`, `deleteDraft`,
 * `editOwnArticle`, `deleteOwnArticle` and the category and tag checks.
 *
 * The article table and the ids present in the category and tag tables are
 * fields of `ArticleStore`. Each call is one step on them, specified by a
 * pure function of the old table so that sequences of calls can be reasoned
 * about. A foreign key the database cannot connect (a missing category or
 * tag) makes the write raise; the service does not catch it, so it surfaces
 * as InternalServerError.
 */
module ArticleService {
  import opened Common
  import opened Text
  import Paging

  type ArticleId = string
  type UserId = string
  type CategoryId = int
  type TagId = int

  /** An article row with its category link and its tag links (in creation order). */
  datatype Article = Article(
    authorId: UserId,
    title: string,
    content: string,
    summary: string,
    coverImage: string,
    category: Option<CategoryId>,
    tags: seq<TagId>,
    isPublic: bool,
    isDraft: bool,
    isDeleted: bool,
    auditStatus: int,
    activeStatus: bool,
    updatedAt: int,
    publishedAt: Option<int>)

  type Articles = map<ArticleId, Article>

  /** Length of the numeric ids nanoid draws for new drafts. */
  const IdLength: nat := 16

  /**
   * What every service step keeps true of every row: a draft is private
   * and unpublished, and a row is a draft exactly until it has been published.
   */
  ghost predicate Consistent(articles: Articles) {
    forall id :: id in articles ==>
      (articles[id].isDraft ==> !articles[id].isPublic) &&
      (articles[id].isDraft <==> articles[id].publishedAt.None?)
  }

  /** JavaScript truthiness of an optional number: present and not 0. */
  predicate Given(n: Option<int>) {
    n.Some? && n.value != 0
  }

  /** `if (id)`: present and not the empty string. */
  predicate IdGiven(id: Option<string>) {
    id.Some? && id.value != ""
  }

  predicate AllTagsExist(ids: seq<TagId>, tags: set<TagId>) {
    forall i :: 0 <= i < |ids| ==> ids[i] in tags
  }

  // ---------------------------------------------------------------------
  // createOrUpdateDraft

  /** The draft fields left after `id`, `category_id` and `tag_ids` are taken out, defaults applied. */
  datatype DraftFields = DraftFields(
    title: string, content: string, coverImage: string, summary: string,
    activeStatus: bool, auditStatus: int)

  datatype DraftRequest = DraftRequest(
    id: Option<ArticleId>, categoryId: Option<CategoryId>, tagIds: Option<seq<TagId>>, fields: DraftFields)

  /** Every category and tag the write would connect exists; otherwise the database raises. */
  predicate DraftLinksExist(req: DraftRequest, categories: set<CategoryId>, tags: set<TagId>) {
    && (Given(req.categoryId) ==> req.categoryId.value in categories)
    && (req.tagIds.Some? ==> AllTagsExist(req.tagIds.value, tags))
  }

  /** The category a draft write leaves: the given one, or none at all. */
  function DraftCategory(req: DraftRequest): (c: Option<CategoryId>)
    ensures c.Some? <==> Given(req.categoryId)
    ensures c.Some? ==> c == req.categoryId
  {
    if Given(req.categoryId) then req.categoryId else None
  }

  /** The row `prisma.article.create` stores for a new draft. */
  function NewDraft(req: DraftRequest, authorId: UserId, now: int): (a: Article)
    ensures a.isDraft && !a.isPublic && !a.isDeleted && a.publishedAt.None?
    ensures a.auditStatus == 0 && !a.activeStatus && a.authorId == authorId
    ensures a.category == DraftCategory(req)
    ensures a.tags == if req.tagIds.Some? then req.tagIds.value else []
    ensures a.title == req.fields.title && a.content == req.fields.content
  {
    var f := req.fields;
    Article(authorId, f.title, f.content, f.summary, f.coverImage,
            DraftCategory(req), if req.tagIds.Some? then req.tagIds.value else [],
            false, true, false, 0, false, now, None)
  }

  /** The existing draft after the update path's final write. */
  function UpdatedDraft(a: Article, req: DraftRequest, now: int): (b: Article)
    ensures b.authorId == a.authorId && b.isDraft == a.isDraft && b.isPublic == a.isPublic
    ensures b.isDeleted == a.isDeleted && b.publishedAt == a.publishedAt
    ensures b.category == DraftCategory(req)
    ensures b.tags == if req.tagIds.Some? then req.tagIds.value else a.tags
    ensures b.auditStatus == req.fields.auditStatus && b.activeStatus == req.fields.activeStatus
  {
    var f := req.fields;
    a.(title := f.title, content := f.content, coverImage := f.coverImage, summary := f.summary,
       activeStatus := f.activeStatus, auditStatus := f.auditStatus, updatedAt := now,
       category := DraftCategory(req),
       tags := if req.tagIds.Some? then req.tagIds.value else a.tags)
  }

  /**
   * `createOrUpdateDraft`. With an id: the row must exist and be a draft;
   * the tag links are cleared by a first write when `tag_ids` is given, and
   * a second write stores the fields, the category (or none) and the tags.
   * Neither the author nor the deletion flag is consulted. Without an id a
   * new draft is created under `newId`.
   */
  function DraftNext(articles: Articles, categories: set<CategoryId>, tags: set<TagId>,
                     req: DraftRequest, authorId: UserId, newId: ArticleId, now: int)
    : (out: (Result<(), HttpError>, Articles))
    ensures IdGiven(req.id) && req.id.value !in articles ==> out == (Err(NotFound), articles)
    ensures IdGiven(req.id) && req.id.value in articles && !articles[req.id.value].isDraft ==>
      out == (Err(BadRequest), articles)
    ensures out.0.Ok? <==>
      DraftLinksExist(req, categories, tags) &&
      if IdGiven(req.id) then req.id.value in articles && articles[req.id.value].isDraft
      else newId !in articles
    ensures out.0.Ok? && IdGiven(req.id) ==>
      out.1 == articles[req.id.value := UpdatedDraft(articles[req.id.value], req, now)]
    ensures out.0.Ok? && !IdGiven(req.id) ==> out.1 == articles[newId := NewDraft(req, authorId, now)]
    ensures out.0.Err? ==> out.0.error in {NotFound, BadRequest, InternalServerError}
    ensures out.0.Err? ==>
      || out.1 == articles
      || (IdGiven(req.id) && req.tagIds.Some? && req.id.value in articles &&
          out.1 == articles[req.id.value := articles[req.id.value].(tags := [])])
  {
    if IdGiven(req.id) then
      var id := req.id.value;
      if id !in articles then (Err(NotFound), articles)
      else if !articles[id].isDraft then (Err(BadRequest), articles)
      else
        var cleared := if req.tagIds.Some? then articles[id := articles[id].(tags := [])] else articles;
        if !DraftLinksExist(req, categories, tags) then (Err(InternalServerError), cleared)
        else (Ok(()), articles[id := UpdatedDraft(articles[id], req, now)])
    else if newId in articles || !DraftLinksExist(req, categories, tags) then (Err(InternalServerError), articles)
    else (Ok(()), articles[newId := NewDraft(req, authorId, now)])
  }

  // ---------------------------------------------------------------------
  // publishArticle

  datatype PublishRequest = PublishRequest(
    id: ArticleId, title: string, content: string, categoryId: CategoryId, tagIds: seq<TagId>,
    coverImage: Option<string>, summary: Option<string>, isPublic: Option<bool>)

  /** The checks before validation: present, not deleted, the caller's, private, a draft. */
  predicate Publishable(a: Article, authorId: UserId) {
    !a.isDeleted && a.authorId == authorId && !a.isPublic && a.isDraft
  }

  /** The row after a successful publish. */
  function Published(a: Article, req: PublishRequest, now: int): (b: Article)
    ensures !b.isDraft && b.auditStatus == 1 && b.publishedAt == Some(now)
    ensures b.isPublic == (req.isPublic.None? || req.isPublic.value)
    ensures b.tags == req.tagIds && b.category == Some(req.categoryId)
    ensures b.title == req.title && b.content == req.content
    ensures b.authorId == a.authorId && b.isDeleted == a.isDeleted
    ensures b.summary == (if req.summary.Some? then req.summary.value else a.summary)
    ensures b.coverImage == (if req.coverImage.Some? then req.coverImage.value else a.coverImage)
  {
    a.(title := req.title, content := req.content, category := Some(req.categoryId), tags := req.tagIds,
       coverImage := if req.coverImage.Some? then req.coverImage.value else a.coverImage,
       summary := if req.summary.Some? then req.summary.value else a.summary,
       isPublic := if req.isPublic.Some? then req.isPublic.value else true,
       isDraft := false, auditStatus := 1, publishedAt := Some(now))
  }

  /** `publishArticle`: checks in source order, then one write. */
  function PublishNext(articles: Articles, categories: set<CategoryId>, tags: set<TagId>,
                       req: PublishRequest, authorId: UserId, now: int)
    : (out: (Result<(), HttpError>, Articles))
    ensures req.id !in articles || articles[req.id].isDeleted ==> out.0 == Err(NotFound)
    ensures req.id in articles && !articles[req.id].isDeleted && articles[req.id].authorId != authorId ==>
      out.0 == Err(Forbidden)
    ensures (req.id in articles && !articles[req.id].isDeleted && articles[req.id].authorId == authorId &&
             (articles[req.id].isPublic || !articles[req.id].isDraft)) ==> out.0 == Err(BadRequest)
    ensures (req.id in articles && Publishable(articles[req.id], authorId) &&
             (req.categoryId !in categories || !AllTagsExist(req.tagIds, tags))) ==> out.0 == Err(NotFound)
    ensures out.0.Ok? <==>
      req.id in articles && Publishable(articles[req.id], authorId) &&
      req.categoryId in categories && AllTagsExist(req.tagIds, tags)
    ensures out.0.Ok? ==> out.1 == articles[req.id := Published(articles[req.id], req, now)]
    ensures out.0.Err? ==> out.1 == articles
  {
    if req.id !in articles || articles[req.id].isDeleted then (Err(NotFound), articles)
    else if articles[req.id].authorId != authorId then (Err(Forbidden), articles)
    else if articles[req.id].isPublic then (Err(BadRequest), articles)
    else if !articles[req.id].isDraft then (Err(BadRequest), articles)
    else if req.categoryId !in categories then (Err(NotFound), articles)
    else if !AllTagsExist(req.tagIds, tags) then (Err(NotFound), articles)
    else (Ok(()), articles[req.id := Published(articles[req.id], req, now)])
  }

  // ---------------------------------------------------------------------
  // deleteDraft, editOwnArticle, deleteOwnArticle

  function SoftDeleted(a: Article, now: int): (b: Article)
    ensures b.isDeleted && b.updatedAt == now
    ensures b.(isDeleted := a.isDeleted, updatedAt := a.updatedAt) == a
  {
    a.(isDeleted := true, updatedAt := now)
  }

  /** `deleteDraft`: not found, already deleted, not a draft, not the author — in that order. */
  function DeleteDraftNext(articles: Articles, id: ArticleId, authorId: UserId, now: int)
    : (out: (Result<(), HttpError>, Articles))
    ensures id !in articles || articles[id].isDeleted ==> out.0 == Err(NotFound)
    ensures id in articles && !articles[id].isDeleted && !articles[id].isDraft ==> out.0 == Err(BadRequest)
    ensures id in articles && !articles[id].isDeleted && articles[id].isDraft && articles[id].authorId != authorId ==>
      out.0 == Err(Forbidden)
    ensures out.0.Ok? <==> id in articles && !articles[id].isDeleted && articles[id].isDraft && articles[id].authorId == authorId
    ensures out.0.Ok? ==> out.1 == articles[id := SoftDeleted(articles[id], now)]
    ensures out.0.Err? ==> out.1 == articles
  {
    if id !in articles then (Err(NotFound), articles)
    else if articles[id].isDeleted then (Err(NotFound), articles)
    else if !articles[id].isDraft then (Err(BadRequest), articles)
    else if articles[id].authorId != authorId then (Err(Forbidden), articles)
    else (Ok(()), articles[id := SoftDeleted(articles[id], now)])
  }

  /** The fields of `UpdateArticleDto`; an absent one leaves the column as it is. */
  datatype EditRequest = EditRequest(
    title: Option<string>, content: Option<string>, coverImage: Option<string>,
    categoryId: Option<CategoryId>, tagIds: Option<seq<TagId>>)

  /** `tag_ids && tag_ids.length > 0`. */
  predicate TagsReplaced(req: EditRequest) {
    req.tagIds.Some? && |req.tagIds.value| > 0
  }

  function Edited(a: Article, req: EditRequest, now: int): (b: Article)
    ensures b.category == (if Given(req.categoryId) then req.categoryId else a.category)
    ensures b.tags == (if TagsReplaced(req) then req.tagIds.value else a.tags)
    ensures b.title == (if req.title.Some? then req.title.value else a.title)
    ensures b.content == (if req.content.Some? then req.content.value else a.content)
    ensures b.coverImage == (if req.coverImage.Some? then req.coverImage.value else a.coverImage)
    ensures b.updatedAt == now
    ensures b.(title := a.title, content := a.content, coverImage := a.coverImage, category := a.category,
               tags := a.tags, updatedAt := a.updatedAt) == a
  {
    var title := if req.title.Some? then req.title.value else a.title;
    var content := if req.content.Some? then req.content.value else a.content;
    var cover := if req.coverImage.Some? then req.coverImage.value else a.coverImage;
    var category := if Given(req.categoryId) then req.categoryId else a.category;
    var tags := if TagsReplaced(req) then req.tagIds.value else a.tags;
    var b := a.(title := title, content := content, coverImage := cover, category := category, tags := tags, updatedAt := now);
    assert b.(title := a.title, content := a.content, coverImage := a.coverImage, category := a.category,
              tags := a.tags, updatedAt := a.updatedAt) == a;
    b
  }

  /** `editOwnArticle`: drafts and published articles alike, by their author only. */
  function EditNext(articles: Articles, categories: set<CategoryId>, tags: set<TagId>,
                    id: ArticleId, req: EditRequest, authorId: UserId, now: int)
    : (out: (Result<(), HttpError>, Articles))
    ensures id !in articles || articles[id].isDeleted ==> out.0 == Err(NotFound)
    ensures id in articles && !articles[id].isDeleted && articles[id].authorId != authorId ==> out.0 == Err(Forbidden)
    ensures out.0.Ok? <==>
      && id in articles && !articles[id].isDeleted && articles[id].authorId == authorId
      && (Given(req.categoryId) ==> req.categoryId.value in categories)
      && (TagsReplaced(req) ==> AllTagsExist(req.tagIds.value, tags))
    ensures out.0.Err? ==> out.0.error in {NotFound, Forbidden}
    ensures out.0.Ok? ==> out.1 == articles[id := Edited(articles[id], req, now)]
    ensures out.0.Err? ==> out.1 == articles
  {
    if id !in articles || articles[id].isDeleted then (Err(NotFound), articles)
    else if articles[id].authorId != authorId then (Err(Forbidden), articles)
    else if Given(req.categoryId) && req.categoryId.value !in categories then (Err(NotFound), articles)
    else if TagsReplaced(req) && !AllTagsExist(req.tagIds.value, tags) then (Err(NotFound), articles)
    else (Ok(()), articles[id := Edited(articles[id], req, now)])
  }

  /** `deleteOwnArticle`: a soft delete by the author of a live article, draft or not. */
  function DeleteOwnNext(articles: Articles, id: ArticleId, authorId: UserId, now: int)
    : (out: (Result<(), HttpError>, Articles))
    ensures id !in articles || articles[id].isDeleted ==> out.0 == Err(NotFound)
    ensures id in articles && !articles[id].isDeleted && articles[id].authorId != authorId ==> out.0 == Err(Forbidden)
    ensures out.0.Ok? <==> id in articles && !articles[id].isDeleted && articles[id].authorId == authorId
    ensures out.0.Ok? ==> out.1 == articles[id := SoftDeleted(articles[id], now)]
    ensures out.0.Err? ==> out.1 == articles
  {
    if id !in articles || articles[id].isDeleted then (Err(NotFound), articles)
    else if articles[id].authorId != authorId then (Err(Forbidden), articles)
    else (Ok(()), articles[id := SoftDeleted(articles[id], now)])
  }

  // ---------------------------------------------------------------------
  // Lifecycle properties.

  /** Every step keeps the table consistent. */
  lemma StepsKeepConsistent(articles: Articles, categories: set<CategoryId>, tags: set<TagId>,
                            dreq: DraftRequest, preq: PublishRequest, ereq: EditRequest,
                            id: ArticleId, authorId: UserId, newId: ArticleId, now: int)
    requires Consistent(articles)
    ensures Consistent(DraftNext(articles, categories, tags, dreq, authorId, newId, now).1)
    ensures Consistent(PublishNext(articles, categories, tags, preq, authorId, now).1)
    ensures Consistent(DeleteDraftNext(articles, id, authorId, now).1)
    ensures Consistent(EditNext(articles, categories, tags, id, ereq, authorId, now).1)
    ensures Consistent(DeleteOwnNext(articles, id, authorId, now).1)
  {
    DraftKeepsConsistent(articles, categories, tags, dreq, authorId, newId, now);
    PublishKeepsConsistent(articles, categories, tags, preq, authorId, now);
    EditKeepsConsistent(articles, categories, tags, id, ereq, authorId, now);
  }

  lemma DraftKeepsConsistent(articles: Articles, categories: set<CategoryId>, tags: set<TagId>,
                             dreq: DraftRequest, authorId: UserId, newId: ArticleId, now: int)
    requires Consistent(articles)
    ensures Consistent(DraftNext(articles, categories, tags, dreq, authorId, newId, now).1)
  {
  }

  lemma PublishKeepsConsistent(articles: Articles, categories: set<CategoryId>, tags: set<TagId>,
                               preq: PublishRequest, authorId: UserId, now: int)
    requires Consistent(articles)
    ensures Consistent(PublishNext(articles, categories, tags, preq, authorId, now).1)
  {
  }

  lemma EditKeepsConsistent(articles: Articles, categories: set<CategoryId>, tags: set<TagId>,
                            id: ArticleId, ereq: EditRequest, authorId: UserId, now: int)
    requires Consistent(articles)
    ensures Consistent(EditNext(articles, categories, tags, id, ereq, authorId, now).1)
  {
  }

  /**
   * Publishing is final: afterwards the article is no draft any more, so
   * updating it as a draft, publishing it again and deleting it as a draft
   * are all refused with BadRequest.
   */
  lemma PublishIsFinal(articles: Articles, categories: set<CategoryId>, tags: set<TagId>,
                       req: PublishRequest, authorId: UserId, now: int,
                       dreq: DraftRequest, preq: PublishRequest, newId: ArticleId, later: int)
    requires PublishNext(articles, categories, tags, req, authorId, now).0.Ok?
    requires dreq.id == Some(req.id) && req.id != "" && preq.id == req.id
    ensures var after := PublishNext(articles, categories, tags, req, authorId, now).1;
      && DraftNext(after, categories, tags, dreq, authorId, newId, later).0 == Err(BadRequest)
      && PublishNext(after, categories, tags, preq, authorId, later).0 == Err(BadRequest)
      && DeleteDraftNext(after, req.id, authorId, later).0 == Err(BadRequest)
  {
  }

  /**
   * A soft-deleted article is gone for publishing, editing and both
   * deletions: each answers NotFound.
   */
  lemma DeletedIsGone(articles: Articles, categories: set<CategoryId>, tags: set<TagId>,
                      id: ArticleId, authorId: UserId, now: int,
                      preq: PublishRequest, ereq: EditRequest, caller: UserId, later: int)
    requires preq.id == id
    requires DeleteDraftNext(articles, id, authorId, now).0.Ok? || DeleteOwnNext(articles, id, authorId, now).0.Ok?
    ensures var after := if DeleteDraftNext(articles, id, authorId, now).0.Ok?
                         then DeleteDraftNext(articles, id, authorId, now).1
                         else DeleteOwnNext(articles, id, authorId, now).1;
      && PublishNext(after, categories, tags, preq, caller, later).0 == Err(NotFound)
      && EditNext(after, categories, tags, id, ereq, caller, later).0 == Err(NotFound)
      && DeleteDraftNext(after, id, caller, later).0 == Err(NotFound)
      && DeleteOwnNext(after, id, caller, later).0 == Err(NotFound)
  {
  }

  /**
   * The update path of `createOrUpdateDraft` consults neither the author
   * nor the deletion flag: any caller can overwrite any draft, including a
   * soft-deleted one, which stays deleted and keeps its author.
   */
  lemma DraftUpdateIgnoresOwnerAndDeletion(articles: Articles, categories: set<CategoryId>, tags: set<TagId>,
                                           req: DraftRequest, caller: UserId, newId: ArticleId, now: int)
    requires IdGiven(req.id) && req.id.value in articles && articles[req.id.value].isDraft
    requires DraftLinksExist(req, categories, tags)
    ensures var out := DraftNext(articles, categories, tags, req, caller, newId, now);
      && out.0.Ok?
      && out.1[req.id.value].authorId == articles[req.id.value].authorId
      && out.1[req.id.value].isDeleted == articles[req.id.value].isDeleted
  {
  }

  /**
   * The tag links are cleared by a write of their own before the final
   * write, so a final write that fails on a missing category or tag still
   * leaves the draft without tags.
   */
  lemma DraftUpdateClearsTagsOnFailure(articles: Articles, categories: set<CategoryId>, tags: set<TagId>,
                                       req: DraftRequest, caller: UserId, newId: ArticleId, now: int)
    requires IdGiven(req.id) && req.id.value in articles && articles[req.id.value].isDraft
    requires req.tagIds.Some? && !DraftLinksExist(req, categories, tags)
    ensures var out := DraftNext(articles, categories, tags, req, caller, newId, now);
      out.0 == Err(InternalServerError) && out.1[req.id.value].tags == [] &&
      out.1[req.id.value].title == articles[req.id.value].title
  {
  }

  // ---------------------------------------------------------------------
  // getDrafts

  /** The `where` of `getDrafts`. */
  predicate IsDraftOf(a: Article, authorId: UserId) {
    a.authorId == authorId && a.isDraft && !a.isDeleted
  }

  /** The ids `getDrafts` can list for an author. */
  function DraftIds(articles: Articles, authorId: UserId): (ids: set<ArticleId>)
    ensures forall id :: id in ids <==> id in articles && IsDraftOf(articles[id], authorId)
  {
    set id | id in articles && IsDraftOf(articles[id], authorId)
  }

  /** The rows matching the `where`, in the order the query lists them. */
  function DraftsOf(rows: seq<(ArticleId, Article)>, authorId: UserId): seq<(ArticleId, Article)> {
    if rows == [] then []
    else if IsDraftOf(rows[0].1, authorId) then [rows[0]] + DraftsOf(rows[1..], authorId)
    else DraftsOf(rows[1..], authorId)
  }

  /** The query keeps exactly the rows matching its `where`, and no others. */
  lemma {:induction false} DraftsOfMembers(rows: seq<(ArticleId, Article)>, authorId: UserId)
    ensures var drafts := DraftsOf(rows, authorId);
      && |drafts| <= |rows|
      && (forall i :: 0 <= i < |drafts| ==> drafts[i] in rows && IsDraftOf(drafts[i].1, authorId))
      && (forall r :: r in rows && IsDraftOf(r.1, authorId) ==> r in drafts)
  {
    if rows != [] {
      DraftsOfMembers(rows[1..], authorId);
      assert forall r :: r in rows <==> r == rows[0] || r in rows[1..];
    }
  }

  /** `rows` lists the article table: each row is a stored article, and every stored article is listed. */
  ghost predicate ListsTable(rows: seq<(ArticleId, Article)>, articles: Articles) {
    && (forall i :: 0 <= i < |rows| ==> rows[i].0 in articles && articles[rows[i].0] == rows[i].1)
    && (forall id :: id in articles ==> exists i :: 0 <= i < |rows| && rows[i].0 == id)
  }

  /**
   * Over a listing of the table, the query's rows are exactly the author's
   * drafts in the table, so the lifecycle steps (`DraftListing`) decide what
   * `getDrafts` shows.
   */
  lemma DraftRowsAreDraftIds(rows: seq<(ArticleId, Article)>, articles: Articles, authorId: UserId)
    requires ListsTable(rows, articles)
    ensures var drafts := DraftsOf(rows, authorId);
      && (set i | 0 <= i < |drafts| :: drafts[i].0) == DraftIds(articles, authorId)
      && forall i :: 0 <= i < |drafts| ==> articles[drafts[i].0] == drafts[i].1
  {
    DraftsOfMembers(rows, authorId);
    var drafts := DraftsOf(rows, authorId);
    forall i | 0 <= i < |drafts|
      ensures drafts[i].0 in articles && articles[drafts[i].0] == drafts[i].1
    {
      var k :| 0 <= k < |rows| && rows[k] == drafts[i];
    }
    forall id | id in DraftIds(articles, authorId)
      ensures id in set i | 0 <= i < |drafts| :: drafts[i].0
    {
      var k :| 0 <= k < |rows| && rows[k].0 == id;
      assert rows[k] in rows && IsDraftOf(rows[k].1, authorId);
      var j :| 0 <= j < |drafts| && drafts[j] == rows[k];
    }
  }

  predicate NewestFirst(rows: seq<(ArticleId, Article)>) {
    forall i, j :: 0 <= i < j < |rows| ==> rows[i].1.updatedAt >= rows[j].1.updatedAt
  }

  datatype DraftPage = DraftPage(data: seq<(ArticleId, Article)>, total: nat, page: int, pageSize: int, totalPages: nat)

  /**
   * `getDrafts` over the article rows as the query lists them
   * (`orderBy: updated_at desc`); `page` and `pageSize` have passed the
   * pagination DTO's bounds.
   */
  function GetDrafts(rows: seq<(ArticleId, Article)>, authorId: UserId, page: int, pageSize: int): (p: DraftPage)
    requires page >= 1 && pageSize >= 1
    ensures p.total == |DraftsOf(rows, authorId)|
    ensures p.data == Paging.Window(DraftsOf(rows, authorId), Paging.Skip(page, pageSize), pageSize)
    ensures |p.data| <= pageSize
    ensures forall i :: 0 <= i < |p.data| ==> IsDraftOf(p.data[i].1, authorId)
    ensures p.totalPages * pageSize >= p.total && (p.totalPages > 0 ==> (p.totalPages - 1) * pageSize < p.total)
    ensures p.page == page && p.pageSize == pageSize
  {
    var drafts := DraftsOf(rows, authorId);
    DraftsOfMembers(rows, authorId);
    var skip := Paging.Skip(page, pageSize);
    DraftPage(Paging.Window(drafts, skip, pageSize), |drafts|, page, pageSize, Paging.TotalPages(|drafts|, pageSize))
  }

  /** Filtering keeps the query's newest-first order. */
  lemma {:induction false} DraftsKeepOrder(rows: seq<(ArticleId, Article)>, authorId: UserId)
    requires NewestFirst(rows)
    ensures NewestFirst(DraftsOf(rows, authorId))
  {
    if rows != [] {
      DraftsKeepOrder(rows[1..], authorId);
      if IsDraftOf(rows[0].1, authorId) {
        DraftsNoNewer(rows, authorId);
        ConsNewestFirst(rows[0], DraftsOf(rows[1..], authorId));
      }
    }
  }

  /** No draft after the first row is newer than it. */
  lemma DraftsNoNewer(rows: seq<(ArticleId, Article)>, authorId: UserId)
    requires NewestFirst(rows) && rows != []
    ensures forall i :: 0 <= i < |DraftsOf(rows[1..], authorId)| ==>
      DraftsOf(rows[1..], authorId)[i].1.updatedAt <= rows[0].1.updatedAt
  {
    DraftsOfMembers(rows[1..], authorId);
    var rest := DraftsOf(rows[1..], authorId);
    forall i | 0 <= i < |rest|
      ensures rest[i].1.updatedAt <= rows[0].1.updatedAt
    {
      var k :| 0 <= k < |rows[1..]| && rows[1..][k] == rest[i];
      assert rows[k + 1] == rest[i];
    }
  }

  lemma ConsNewestFirst(x: (ArticleId, Article), rest: seq<(ArticleId, Article)>)
    requires NewestFirst(rest)
    requires forall i :: 0 <= i < |rest| ==> rest[i].1.updatedAt <= x.1.updatedAt
    ensures NewestFirst([x] + rest)
  {
    var d := [x] + rest;
    forall i, j | 0 <= i < j < |d|
      ensures d[i].1.updatedAt >= d[j].1.updatedAt
    {
      if i > 0 {
        assert d[i] == rest[i - 1] && d[j] == rest[j - 1];
      }
    }
  }

  /** A window of a newest-first listing is newest first. */
  lemma WindowNewestFirst(rows: seq<(ArticleId, Article)>, skip: int, take: int)
    requires skip >= 0 && take >= 0 && NewestFirst(rows)
    ensures NewestFirst(Paging.Window(rows, skip, take))
  {
    var w := Paging.Window(rows, skip, take);
    forall i, j | 0 <= i < j < |w|
      ensures w[i].1.updatedAt >= w[j].1.updatedAt
    {
      assert w[i] == rows[skip + i] && w[j] == rows[skip + j];
    }
  }

  /** Each page of drafts is newest first, as the listing is. */
  lemma DraftPageNewestFirst(rows: seq<(ArticleId, Article)>, authorId: UserId, page: int, pageSize: int)
    requires page >= 1 && pageSize >= 1 && NewestFirst(rows)
    ensures NewestFirst(GetDrafts(rows, authorId, page, pageSize).data)
  {
    DraftsKeepOrder(rows, authorId);
    WindowNewestFirst(DraftsOf(rows, authorId), Paging.Skip(page, pageSize), pageSize);
  }

  /** Every one of the author's drafts is on exactly the page its position gives, and that page exists. */
  lemma EveryDraftOnAPage(rows: seq<(ArticleId, Article)>, authorId: UserId, pageSize: int, i: nat)
    requires pageSize >= 1 && i < |DraftsOf(rows, authorId)|
    ensures var page := i / pageSize + 1;
      var p := GetDrafts(rows, authorId, page, pageSize);
      && page <= p.totalPages
      && 0 <= i - Paging.Skip(page, pageSize) < |p.data|
      && p.data[i - Paging.Skip(page, pageSize)] == DraftsOf(rows, authorId)[i]
  {
    var drafts := DraftsOf(rows, authorId);
    var page := i / pageSize + 1;
    Paging.RowOnItsPage(drafts, pageSize, i);
    var p := GetDrafts(rows, authorId, page, pageSize);
    assert p.data == Paging.Window(drafts, Paging.Skip(page, pageSize), pageSize);
    assert p.totalPages == Paging.TotalPages(|drafts|, pageSize);
  }

  /** Creating a draft lists it for its author; publishing or deleting a draft unlists it. */
  lemma DraftListing(articles: Articles, categories: set<CategoryId>, tags: set<TagId>,
                     dreq: DraftRequest, preq: PublishRequest, id: ArticleId,
                     authorId: UserId, newId: ArticleId, now: int)
    ensures !IdGiven(dreq.id) && DraftNext(articles, categories, tags, dreq, authorId, newId, now).0.Ok? ==>
      DraftIds(DraftNext(articles, categories, tags, dreq, authorId, newId, now).1, authorId) ==
      DraftIds(articles, authorId) + {newId}
    ensures PublishNext(articles, categories, tags, preq, authorId, now).0.Ok? ==>
      DraftIds(PublishNext(articles, categories, tags, preq, authorId, now).1, authorId) ==
      DraftIds(articles, authorId) - {preq.id}
    ensures DeleteDraftNext(articles, id, authorId, now).0.Ok? ==>
      DraftIds(DeleteDraftNext(articles, id, authorId, now).1, authorId) == DraftIds(articles, authorId) - {id}
  {
    if !IdGiven(dreq.id) && DraftNext(articles, categories, tags, dreq, authorId, newId, now).0.Ok? {
      var after := DraftNext(articles, categories, tags, dreq, authorId, newId, now).1;
      assert after == articles[newId := NewDraft(dreq, authorId, now)];
      assert DraftIds(after, authorId) == DraftIds(articles, authorId) + {newId};
    }
    if PublishNext(articles, categories, tags, preq, authorId, now).0.Ok? {
      var after := PublishNext(articles, categories, tags, preq, authorId, now).1;
      assert DraftIds(after, authorId) == DraftIds(articles, authorId) - {preq.id};
    }
    if DeleteDraftNext(articles, id, authorId, now).0.Ok? {
      var after := DeleteDraftNext(articles, id, authorId, now).1;
      assert DraftIds(after, authorId) == DraftIds(articles, authorId) - {id};
    }
  }

  // ---------------------------------------------------------------------
  // The tables and the service calls that change them.

  class ArticleStore {
    var articles: Articles
    var categories: set<CategoryId>
    var tags: set<TagId>

    constructor(articles0: Articles, categories0: set<CategoryId>, tags0: set<TagId>)
      ensures articles == articles0 && categories == categories0 && tags == tags0
    {
      articles, categories, tags := articles0, categories0, tags0;
    }

    /** `validateCategory`. */
    method ValidateCategory(categoryId: CategoryId) returns (r: Result<(), HttpError>)
      ensures r.Ok? <==> categoryId in categories
      ensures r.Err? ==> r.error == NotFound
    {
      if categoryId !in categories {
        return Err(NotFound);
      }
      return Ok(());
    }

    /** `validateTags`: the first tag id missing from the tag table raises NotFound. */
    method ValidateTags(tagIds: seq<TagId>) returns (r: Result<(), HttpError>)
      ensures r.Ok? <==> AllTagsExist(tagIds, tags)
      ensures r.Err? ==> r.error == NotFound
    {
      var i := 0;
      while i < |tagIds|
        invariant 0 <= i <= |tagIds|
        invariant forall k :: 0 <= k < i ==> tagIds[k] in tags
      {
        if tagIds[i] !in tags {
          return Err(NotFound);
        }
        i := i + 1;
      }
      return Ok(());
    }

    /** `createOrUpdateDraft`; a new draft's id is drawn from `draws`. */
    method CreateOrUpdateDraft(req: DraftRequest, authorId: UserId, draws: seq<nat>, now: int)
      returns (r: Result<(), HttpError>)
      modifies this
      ensures (r, articles) == DraftNext(old(articles), categories, tags, req, authorId, NumericId(draws), now)
      ensures categories == old(categories) && tags == old(tags)
    {
      if IdGiven(req.id) {
        var id := req.id.value;
        if id !in articles {
          return Err(NotFound);
        }
        if !articles[id].isDraft {
          return Err(BadRequest);
        }
        var existing := articles[id];
        if req.tagIds.Some? {
          articles := articles[id := existing.(tags := [])];
        }
        if !DraftLinksExist(req, categories, tags) {
          return Err(InternalServerError);
        }
        articles := articles[id := UpdatedDraft(existing, req, now)];
        assert articles == old(articles)[id := UpdatedDraft(existing, req, now)];
        return Ok(());
      }
      var newId := NumericId(draws);
      if newId in articles || !DraftLinksExist(req, categories, tags) {
        return Err(InternalServerError);
      }
      articles := articles[newId := NewDraft(req, authorId, now)];
      return Ok(());
    }

    method PublishArticle(req: PublishRequest, authorId: UserId, now: int) returns (r: Result<(), HttpError>)
      modifies this
      ensures (r, articles) == PublishNext(old(articles), categories, tags, req, authorId, now)
      ensures categories == old(categories) && tags == old(tags)
    {
      if req.id !in articles || articles[req.id].isDeleted {
        return Err(NotFound);
      }
      var article := articles[req.id];
      if article.authorId != authorId {
        return Err(Forbidden);
      }
      if article.isPublic {
        return Err(BadRequest);
      }
      if !article.isDraft {
        return Err(BadRequest);
      }
      r := ValidateCategory(req.categoryId);
      if r.Err? {
        return;
      }
      r := ValidateTags(req.tagIds);
      if r.Err? {
        return;
      }
      articles := articles[req.id := Published(article, req, now)];
      return Ok(());
    }

    method DeleteDraft(id: ArticleId, authorId: UserId, now: int) returns (r: Result<(), HttpError>)
      modifies this
      ensures (r, articles) == DeleteDraftNext(old(articles), id, authorId, now)
      ensures categories == old(categories) && tags == old(tags)
    {
      if id !in articles {
        return Err(NotFound);
      }
      var draft := articles[id];
      if draft.isDeleted {
        return Err(NotFound);
      }
      if !draft.isDraft {
        return Err(BadRequest);
      }
      if draft.authorId != authorId {
        return Err(Forbidden);
      }
      articles := articles[id := SoftDeleted(draft, now)];
      return Ok(());
    }

    method EditOwnArticle(id: ArticleId, req: EditRequest, authorId: UserId, now: int) returns (r: Result<(), HttpError>)
      modifies this
      ensures (r, articles) == EditNext(old(articles), categories, tags, id, req, authorId, now)
      ensures categories == old(categories) && tags == old(tags)
    {
      if id !in articles || articles[id].isDeleted {
        return Err(NotFound);
      }
      var article := articles[id];
      if article.authorId != authorId {
        return Err(Forbidden);
      }
      if Given(req.categoryId) && req.categoryId.value !in categories {
        return Err(NotFound);
      }
      if TagsReplaced(req) {
        r := ValidateTags(req.tagIds.value);
        if r.Err? {
          return;
        }
      }
      articles := articles[id := Edited(article, req, now)];
      return Ok(());
    }

    method DeleteOwnArticle(id: ArticleId, authorId: UserId, now: int) returns (r: Result<(), HttpError>)
      modifies this
      ensures (r, articles) == DeleteOwnNext(old(articles), id, authorId, now)
      ensures categories == old(categories) && tags == old(tags)
    {
      if id !in articles || articles[id].isDeleted {
        return Err(NotFound);
      }
      if articles[id].authorId != authorId {
        return Err(Forbidden);
      }
      articles := articles[id := SoftDeleted(articles[id], now)];
      return Ok(());
    }
  }
}
