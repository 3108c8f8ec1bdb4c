/**
 * The like service: liking and unliking articles and comments. Article
 * likes and comment likes live in two tables of the same shape, keyed by
 * (user, target); a like is never removed, only switched between active
 * and inactive, so one pair has at most one row.
 */
module LikeService {
  import opened Common
  import opened Events

  type UserId = string
  type TargetId = string

  datatype LikeRow = LikeRow(isActive: bool, updatedAt: int)

  /** Like rows keyed by (user_id, article_id) or (user_id, comment_id). */
  type Likes = map<(UserId, TargetId), LikeRow>

  /** An active like row exists for the pair. */
  predicate IsLiked(likes: Likes, u: UserId, t: TargetId) {
    (u, t) in likes && likes[(u, t)].isActive
  }

  /** The users whose like on `t` is active. */
  function Likers(likes: Likes, t: TargetId): (users: set<UserId>)
    ensures forall u :: u in users <==> IsLiked(likes, u, t)
  {
    set k | k in likes && k.1 == t && likes[k].isActive :: k.0
  }

  /**
   * `likeArticle` / `likeComment` on the like table, given each target's
   * author id. The upsert leaves the pair's row active, whether it creates
   * it or reactivates it; the event goes out only for a non-empty author id.
   */
  function LikeNext(likes: Likes, authors: map<TargetId, UserId>, u: UserId, t: TargetId,
                    kind: NotificationType, now: int)
    : (out: (Result<(), HttpError>, Likes, Option<LikeEvent>))
    ensures t !in authors ==> out.0 == Err(NotFound)
    ensures t in authors && IsLiked(likes, u, t) ==> out.0 == Err(BadRequest)
    ensures out.0.Ok? <==> t in authors && !IsLiked(likes, u, t)
    ensures out.0.Ok? ==> out.1 == likes[(u, t) := LikeRow(true, now)]
    ensures out.0.Err? ==> out.1 == likes
    ensures out.2.Some? <==> out.0.Ok? && authors[t] != ""
    ensures out.2.Some? ==> out.2.value == LikeEvent(u, t, kind, authors[t])
  {
    if t !in authors then (Err(NotFound), likes, None)
    else if IsLiked(likes, u, t) then (Err(BadRequest), likes, None)
    else
      var event := if authors[t] != "" then Some(LikeEvent(u, t, kind, authors[t])) else None;
      (Ok(()), likes[(u, t) := LikeRow(true, now)], event)
  }

  /** `unlikeArticle` / `unlikeComment`: the pair's active row becomes inactive. */
  function UnlikeNext(likes: Likes, targets: set<TargetId>, u: UserId, t: TargetId, now: int)
    : (out: (Result<(), HttpError>, Likes))
    ensures t !in targets ==> out.0 == Err(NotFound)
    ensures out.0.Ok? <==> t in targets && IsLiked(likes, u, t)
    ensures out.0.Err? ==> out == (Err(NotFound), likes)
    ensures out.0.Ok? ==> out.1 == likes[(u, t) := LikeRow(false, now)]
  {
    if t !in targets then (Err(NotFound), likes)
    else if !IsLiked(likes, u, t) then (Err(NotFound), likes)
    else (Ok(()), likes[(u, t) := LikeRow(false, now)])
  }

  /**
   * Like then unlike: the unlike succeeds and leaves the pair inactive, and
   * a second like straight after the first is refused.
   */
  lemma LikeThenUnlike(likes: Likes, authors: map<TargetId, UserId>, u: UserId, t: TargetId,
                       kind: NotificationType, now: int, later: int)
    requires LikeNext(likes, authors, u, t, kind, now).0.Ok?
    ensures var liked := LikeNext(likes, authors, u, t, kind, now).1;
      && LikeNext(liked, authors, u, t, kind, later).0 == Err(BadRequest)
      && UnlikeNext(liked, authors.Keys, u, t, later).0.Ok?
      && !IsLiked(UnlikeNext(liked, authors.Keys, u, t, later).1, u, t)
  {
  }

  /** Unlike then like reactivates the same row: the pair is liked again. */
  lemma UnlikeThenLike(likes: Likes, authors: map<TargetId, UserId>, u: UserId, t: TargetId,
                       kind: NotificationType, now: int, later: int)
    requires UnlikeNext(likes, authors.Keys, u, t, now).0.Ok?
    ensures var unliked := UnlikeNext(likes, authors.Keys, u, t, now).1;
      && LikeNext(unliked, authors, u, t, kind, later).0.Ok?
      && IsLiked(LikeNext(unliked, authors, u, t, kind, later).1, u, t)
      && LikeNext(unliked, authors, u, t, kind, later).1.Keys == likes.Keys
  {
  }

  /**
   * Liking adds the user to the target's likers, so the like count grows by
   * one, and no other pair's state changes.
   */
  lemma LikeAddsLiker(likes: Likes, authors: map<TargetId, UserId>, u: UserId, t: TargetId,
                      kind: NotificationType, now: int)
    requires LikeNext(likes, authors, u, t, kind, now).0.Ok?
    ensures var after := LikeNext(likes, authors, u, t, kind, now).1;
      && Likers(after, t) == Likers(likes, t) + {u}
      && |Likers(after, t)| == |Likers(likes, t)| + 1
      && forall a, b :: (a, b) != (u, t) ==> IsLiked(after, a, b) == IsLiked(likes, a, b)
  {
    var after := likes[(u, t) := LikeRow(true, now)];
    assert Likers(after, t) == Likers(likes, t) + {u} by {
      forall v ensures v in Likers(after, t) <==> v in Likers(likes, t) + {u} {
        assert IsLiked(after, v, t) <==> (v == u || IsLiked(likes, v, t));
      }
    }
    assert u !in Likers(likes, t);
  }

  /**
   * Unliking removes the user from the target's likers, so the like count
   * drops by one, and no other pair's state changes.
   */
  lemma UnlikeRemovesLiker(likes: Likes, targets: set<TargetId>, u: UserId, t: TargetId, now: int)
    requires UnlikeNext(likes, targets, u, t, now).0.Ok?
    ensures var after := UnlikeNext(likes, targets, u, t, now).1;
      && Likers(after, t) == Likers(likes, t) - {u}
      && |Likers(after, t)| == |Likers(likes, t)| - 1
      && forall a, b :: (a, b) != (u, t) ==> IsLiked(after, a, b) == IsLiked(likes, a, b)
  {
    var after := likes[(u, t) := LikeRow(false, now)];
    assert Likers(after, t) == Likers(likes, t) - {u} by {
      forall v ensures v in Likers(after, t) <==> v in Likers(likes, t) - {u} {
        assert IsLiked(after, v, t) <==> (v != u && IsLiked(likes, v, t));
      }
    }
    assert u in Likers(likes, t);
  }

  // ---------------------------------------------------------------------
  // The tables and the service calls that change them.

  class LikeStore {
    /** Article id to author id. */
    var articleAuthors: map<TargetId, UserId>
    /** Comment id to author id. */
    var commentAuthors: map<TargetId, UserId>
    var articleLikes: Likes
    var commentLikes: Likes

    constructor(articles0: map<TargetId, UserId>, comments0: map<TargetId, UserId>)
      ensures articleAuthors == articles0 && commentAuthors == comments0
      ensures articleLikes == map[] && commentLikes == map[]
    {
      articleAuthors, commentAuthors := articles0, comments0;
      articleLikes, commentLikes := map[], map[];
    }

    method LikeArticle(u: UserId, articleId: TargetId, now: int) returns (r: Result<(), HttpError>, event: Option<LikeEvent>)
      modifies this
      ensures (r, articleLikes, event) == LikeNext(old(articleLikes), articleAuthors, u, articleId, ArticleLike, now)
      ensures articleAuthors == old(articleAuthors) && commentAuthors == old(commentAuthors)
      ensures commentLikes == old(commentLikes)
    {
      r, event := Like(articleAuthors, articleLikes, u, articleId, ArticleLike, now);
      if r.Ok? {
        articleLikes := articleLikes[(u, articleId) := LikeRow(true, now)];
      }
    }

    method LikeComment(u: UserId, commentId: TargetId, now: int) returns (r: Result<(), HttpError>, event: Option<LikeEvent>)
      modifies this
      ensures (r, commentLikes, event) == LikeNext(old(commentLikes), commentAuthors, u, commentId, CommentLike, now)
      ensures articleAuthors == old(articleAuthors) && commentAuthors == old(commentAuthors)
      ensures articleLikes == old(articleLikes)
    {
      r, event := Like(commentAuthors, commentLikes, u, commentId, CommentLike, now);
      if r.Ok? {
        commentLikes := commentLikes[(u, commentId) := LikeRow(true, now)];
      }
    }

    /** The checks shared by both likes: target present, no active like; then the event to emit. */
    static method Like(authors: map<TargetId, UserId>, likes: Likes, u: UserId, t: TargetId,
                       kind: NotificationType, now: int)
      returns (r: Result<(), HttpError>, event: Option<LikeEvent>)
      ensures (r, event) == (LikeNext(likes, authors, u, t, kind, now).0, LikeNext(likes, authors, u, t, kind, now).2)
    {
      if t !in authors {
        return Err(NotFound), None;
      }
      var recipientId := authors[t];
      if (u, t) in likes && likes[(u, t)].isActive {
        return Err(BadRequest), None;
      }
      event := None;
      if recipientId != "" {
        event := Some(LikeEvent(u, t, kind, recipientId));
      }
      r := Ok(());
    }

    method UnlikeArticle(u: UserId, articleId: TargetId, now: int) returns (r: Result<(), HttpError>)
      modifies this
      ensures (r, articleLikes) == UnlikeNext(old(articleLikes), articleAuthors.Keys, u, articleId, now)
      ensures articleAuthors == old(articleAuthors) && commentAuthors == old(commentAuthors)
      ensures commentLikes == old(commentLikes)
    {
      if articleId !in articleAuthors {
        return Err(NotFound);
      }
      if !IsLiked(articleLikes, u, articleId) {
        return Err(NotFound);
      }
      articleLikes := articleLikes[(u, articleId) := LikeRow(false, now)];
      return Ok(());
    }

    method UnlikeComment(u: UserId, commentId: TargetId, now: int) returns (r: Result<(), HttpError>)
      modifies this
      ensures (r, commentLikes) == UnlikeNext(old(commentLikes), commentAuthors.Keys, u, commentId, now)
      ensures articleAuthors == old(articleAuthors) && commentAuthors == old(commentAuthors)
      ensures articleLikes == old(articleLikes)
    {
      if commentId !in commentAuthors {
        return Err(NotFound);
      }
      if !IsLiked(commentLikes, u, commentId) {
        return Err(NotFound);
      }
      commentLikes := commentLikes[(u, commentId) := LikeRow(false, now)];
      return Ok(());
    }
  }
}
