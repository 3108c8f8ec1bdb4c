/**
 * The validation rules of the article request bodies: `CreateDraftDto`,
 * `PublishArticleDto` and `UpdateArticleDto`. The body arrives already
 * typed; a field the client left out is None. The validation pipe first
 * builds the DTO object, so a field with an initialiser takes its default,
 * and then checks every rule: any violation is a BadRequest. A field marked
 * optional is checked only when it is present or defaulted.
 *
 * The URL syntax check is the predicate `isUrl`; the model relies only on
 * its rejecting the empty string. Lengths are counted in characters.
 */
module ArticleDto {
  import opened Common
  import opened Text
  import ArticleService

  /** The default title of a draft ("untitled draft"). */
  const DefaultTitle: string := "\U{672A}\U{547D}\U{540D}\U{8349}\U{7A3F}"

  const MaxTitle: nat := 255
  const MaxSummary: nat := 100
  const MaxCoverImage: nat := 255
  const MaxPublishId: nat := 16
  const MaxCategoryId: int := 8
  const MaxDraftTagId: int := 28

  /** `@ArrayUnique`. */
  predicate Unique(xs: seq<int>) {
    forall i, j :: 0 <= i < j < |xs| ==> xs[i] != xs[j]
  }

  /** `@Length(16, 16)` and `@Matches(/^\d{16}$/)`. */
  predicate ValidDraftId(id: string) {
    |id| == ArticleService.IdLength && forall i :: 0 <= i < |id| ==> IsDigit(id[i])
  }

  /** The ids the service generates for new drafts pass the id rule, so a new draft can be updated by its id. */
  lemma GeneratedIdsAreValid(draws: seq<nat>)
    requires |draws| == ArticleService.IdLength
    ensures ValidDraftId(NumericId(draws))
  {
  }

  /** A draft's tag list: non-empty, no repeats, every id from 1 to 28. */
  predicate DraftTagsOk(tags: seq<int>) {
    |tags| > 0 && Unique(tags) && forall i :: 0 <= i < |tags| ==> 1 <= tags[i] <= MaxDraftTagId
  }

  /** A cover image URL that is checked: URL syntax and at most 255 characters. */
  predicate CoverOk(cover: string, isUrl: string -> bool) {
    isUrl(cover) && |cover| <= MaxCoverImage
  }

  // ---------------------------------------------------------------------
  // CreateDraftDto

  datatype DraftBody = DraftBody(
    id: Option<string>, title: Option<string>, content: Option<string>, categoryId: Option<int>,
    tagIds: Option<seq<int>>, coverImage: Option<string>, summary: Option<string>,
    activeStatus: Option<bool>, auditStatus: Option<int>)

  function OrElse<T>(o: Option<T>, default: T): T {
    if o.Some? then o.value else default
  }

  /** The rules on every field except the cover image. */
  predicate DraftRulesOk(b: DraftBody) {
    && (b.id.Some? ==> ValidDraftId(b.id.value))
    && |OrElse(b.title, DefaultTitle)| <= MaxTitle
    && (b.categoryId.Some? ==> 1 <= b.categoryId.value <= MaxCategoryId)
    && (b.tagIds.Some? ==> DraftTagsOk(b.tagIds.value))
    && |OrElse(b.summary, "")| <= MaxSummary
  }

  /** The request the service receives: the body's values, defaults for the missing ones. */
  function DraftOf(b: DraftBody): (req: ArticleService.DraftRequest)
    ensures req.id == b.id && req.categoryId == b.categoryId && req.tagIds == b.tagIds
    ensures req.fields.title == (if b.title.Some? then b.title.value else DefaultTitle)
    ensures req.fields.content == (if b.content.Some? then b.content.value else "")
    ensures req.fields.coverImage == (if b.coverImage.Some? then b.coverImage.value else "")
    ensures req.fields.summary == (if b.summary.Some? then b.summary.value else "")
    ensures req.fields.activeStatus == (b.activeStatus == Some(true))
    ensures req.fields.auditStatus == (if b.auditStatus.Some? then b.auditStatus.value else 0)
  {
    ArticleService.DraftRequest(b.id, b.categoryId, b.tagIds,
      ArticleService.DraftFields(OrElse(b.title, DefaultTitle), OrElse(b.content, ""), OrElse(b.coverImage, ""),
                                 OrElse(b.summary, ""), OrElse(b.activeStatus, false), OrElse(b.auditStatus, 0)))
  }

  /**
   * As written: the cover image defaults to the empty string, and that
   * default is then checked as a URL like a supplied value.
   */
  function ValidateDraftAsWritten(b: DraftBody, isUrl: string -> bool): (r: Result<ArticleService.DraftRequest, HttpError>)
    ensures r.Ok? <==> DraftRulesOk(b) && CoverOk(OrElse(b.coverImage, ""), isUrl)
    ensures r.Err? ==> r.error == BadRequest
    ensures r.Ok? ==> r.value == DraftOf(b)
  {
    if DraftRulesOk(b) && CoverOk(OrElse(b.coverImage, ""), isUrl) then Ok(DraftOf(b)) else Err(BadRequest)
  }

  /** The body with every field left out. */
  const BareDraft: DraftBody := DraftBody(None, None, None, None, None, None, None, None, None)

  /** As written, a draft body without a cover image is always refused. */
  lemma AsWrittenRefusesDraftWithoutCover(b: DraftBody, isUrl: string -> bool)
    requires !isUrl("") && b.coverImage.None?
    ensures ValidateDraftAsWritten(b, isUrl) == Err(BadRequest)
    ensures ValidateDraftAsWritten(BareDraft, isUrl) == Err(BadRequest)
  {
  }

  /** Corrected: the URL rule applies to a cover image the client supplied. */
  function ValidateDraft(b: DraftBody, isUrl: string -> bool): (r: Result<ArticleService.DraftRequest, HttpError>)
    ensures r.Ok? <==> DraftRulesOk(b) && (b.coverImage.Some? ==> CoverOk(b.coverImage.value, isUrl))
    ensures r.Err? ==> r.error == BadRequest
    ensures r.Ok? ==> r.value == DraftOf(b)
  {
    if DraftRulesOk(b) && (b.coverImage.Some? ==> CoverOk(b.coverImage.value, isUrl)) then Ok(DraftOf(b))
    else Err(BadRequest)
  }

  /** The bare body is accepted and yields the documented defaults. */
  lemma BareDraftTakesDefaults(isUrl: string -> bool)
    ensures ValidateDraft(BareDraft, isUrl) ==
      Ok(ArticleService.DraftRequest(None, None, None, ArticleService.DraftFields(DefaultTitle, "", "", "", false, 0)))
  {
    assert |DefaultTitle| == 5;
  }

  /** The two validations agree whenever the client supplies a cover image. */
  lemma CorrectionOnlyAffectsMissingCover(b: DraftBody, isUrl: string -> bool)
    requires b.coverImage.Some?
    ensures ValidateDraft(b, isUrl) == ValidateDraftAsWritten(b, isUrl)
  {
  }

  /**
   * What validation guarantees the service: a given id is never the empty
   * string (so the update path runs exactly when an id is sent), a given
   * category is never 0 (so it is connected exactly when sent), and given
   * tags are distinct.
   */
  lemma ValidatedDraftMeetsService(b: DraftBody, isUrl: string -> bool)
    requires ValidateDraft(b, isUrl).Ok?
    ensures var req := ValidateDraft(b, isUrl).value;
      && (ArticleService.IdGiven(req.id) <==> b.id.Some?)
      && (ArticleService.Given(req.categoryId) <==> b.categoryId.Some?)
      && (req.tagIds.Some? ==> |req.tagIds.value| > 0 && Unique(req.tagIds.value))
  {
  }

  // ---------------------------------------------------------------------
  // PublishArticleDto

  datatype PublishBody = PublishBody(
    id: Option<string>, title: Option<string>, content: Option<string>, categoryId: Option<int>,
    tagIds: Option<seq<int>>, coverImage: Option<string>, summary: Option<string>, isPublic: Option<bool>)

  predicate PublishRulesOk(b: PublishBody, isUrl: string -> bool) {
    && b.id.Some? && b.id.value != "" && |b.id.value| <= MaxPublishId
    && b.title.Some? && b.title.value != "" && |b.title.value| <= MaxTitle
    && b.content.Some? && b.content.value != ""
    && b.categoryId.Some?
    && b.tagIds.Some? && |b.tagIds.value| > 0 && Unique(b.tagIds.value)
    && (b.coverImage.Some? ==> CoverOk(b.coverImage.value, isUrl))
    && (b.summary.Some? ==> |b.summary.value| <= MaxSummary)
  }

  function ValidatePublish(b: PublishBody, isUrl: string -> bool): (r: Result<ArticleService.PublishRequest, HttpError>)
    ensures r.Ok? <==> PublishRulesOk(b, isUrl)
    ensures r.Err? ==> r.error == BadRequest
    ensures r.Ok? ==> r.value == ArticleService.PublishRequest(
      b.id.value, b.title.value, b.content.value, b.categoryId.value, b.tagIds.value,
      b.coverImage, b.summary, Some(if b.isPublic.Some? then b.isPublic.value else true))
  {
    if PublishRulesOk(b, isUrl) then
      Ok(ArticleService.PublishRequest(b.id.value, b.title.value, b.content.value, b.categoryId.value,
                                       b.tagIds.value, b.coverImage, b.summary, Some(OrElse(b.isPublic, true))))
    else Err(BadRequest)
  }

  /** A publication is public unless the client says otherwise; every required field must be sent. */
  lemma PublishDefaultsToPublic(b: PublishBody, isUrl: string -> bool)
    ensures ValidatePublish(b, isUrl).Ok? && b.isPublic.None? ==> ValidatePublish(b, isUrl).value.isPublic == Some(true)
    ensures b.id.None? || b.title.None? || b.content.None? || b.categoryId.None? || b.tagIds.None? ==>
      ValidatePublish(b, isUrl) == Err(BadRequest)
  {
  }

  // ---------------------------------------------------------------------
  // UpdateArticleDto

  datatype UpdateBody = UpdateBody(
    title: Option<string>, content: Option<string>, categoryId: Option<int>,
    tagIds: Option<seq<int>>, coverImage: Option<string>)

  predicate UpdateRulesOk(b: UpdateBody, isUrl: string -> bool) {
    && (b.title.Some? ==> |b.title.value| <= MaxTitle)
    && (b.tagIds.Some? ==> |b.tagIds.value| > 0 && Unique(b.tagIds.value))
    && (b.coverImage.Some? ==> CoverOk(b.coverImage.value, isUrl))
  }

  function ValidateUpdate(b: UpdateBody, isUrl: string -> bool): (r: Result<ArticleService.EditRequest, HttpError>)
    ensures r.Ok? <==> UpdateRulesOk(b, isUrl)
    ensures r.Err? ==> r.error == BadRequest
    ensures r.Ok? ==> r.value == ArticleService.EditRequest(b.title, b.content, b.coverImage, b.categoryId, b.tagIds)
  {
    if UpdateRulesOk(b, isUrl) then Ok(ArticleService.EditRequest(b.title, b.content, b.coverImage, b.categoryId, b.tagIds))
    else Err(BadRequest)
  }

  /** After validation, an edit replaces the tags exactly when the client sent a tag list. */
  lemma ValidatedEditReplacesSentTags(b: UpdateBody, isUrl: string -> bool)
    requires ValidateUpdate(b, isUrl).Ok?
    ensures ArticleService.TagsReplaced(ValidateUpdate(b, isUrl).value) <==> b.tagIds.Some?
  {
  }
}
