/**
 * The notification service: unread counts per bucket, marking notifications
 * read, creating a notification (no self-notification, no duplicates), and
 * assembling the page of like notifications.
 *
 * The notification table (in insertion order) and the ids of the user table
 * are fields of `NotificationStore`. The count of chats with unread
 * messages comes from the chat tables and is an input; server-sent-event
 * subscribers and their delivery are not modelled.
 */
module NotificationService {
  import opened Common
  import opened Events
  import Paging

  type UserId = string

  datatype Notification = Notification(
    recipientId: UserId,
    senderId: UserId,
    kind: NotificationType,
    contentId: string,
    title: Option<string>,
    isRead: bool,
    readAt: Option<int>,
    createdAt: int)

  // ---------------------------------------------------------------------
  // calculateUnreadCounts

  /** The four buckets the unread counts are reported in. */
  datatype Bucket = CommentBucket | LikeFavoriteBucket | FollowBucket | OfficialBucket

  /** The `switch` of the reduce: every notification type lands in exactly one bucket. */
  function BucketOf(t: NotificationType): Bucket {
    match t
    case ArticleComment | CommentComment => CommentBucket
    case ArticleLike | CommentLike | ArticleFavorite => LikeFavoriteBucket
    case Follow => FollowBucket
    case Official | System => OfficialBucket
  }

  /** The `where` of the unread query: the user's notifications not yet read. */
  function UnreadTypes(rows: seq<Notification>, userId: UserId): (types: seq<NotificationType>)
    ensures |types| <= |rows|
  {
    if rows == [] then []
    else
      var last := rows[|rows| - 1];
      UnreadTypes(rows[..|rows| - 1], userId) + (if last.recipientId == userId && !last.isRead then [last.kind] else [])
  }

  /** How many of `types` fall in bucket `b`. */
  function CountIn(types: seq<NotificationType>, b: Bucket): nat {
    if types == [] then 0
    else CountIn(types[..|types| - 1], b) + (if BucketOf(types[|types| - 1]) == b then 1 else 0)
  }

  /** The buckets partition the unread notifications: their counts add up to the whole. */
  lemma {:induction false} BucketsPartition(types: seq<NotificationType>)
    ensures CountIn(types, CommentBucket) + CountIn(types, LikeFavoriteBucket) +
            CountIn(types, FollowBucket) + CountIn(types, OfficialBucket) == |types|
  {
    if types != [] {
      BucketsPartition(types[..|types| - 1]);
    }
  }

  datatype UnreadCounts = UnreadCounts(comment: nat, likeFavorite: nat, follow: nat, official: nat)

  datatype UnreadSummary = UnreadSummary(counts: UnreadCounts, messageUnreadCount: nat, totalUnreadCount: nat)

  /** The reduce over the unread notifications' types. */
  method TallyBuckets(types: seq<NotificationType>) returns (c: UnreadCounts)
    ensures c.comment == CountIn(types, CommentBucket) && c.likeFavorite == CountIn(types, LikeFavoriteBucket)
    ensures c.follow == CountIn(types, FollowBucket) && c.official == CountIn(types, OfficialBucket)
  {
    c := UnreadCounts(0, 0, 0, 0);
    var i := 0;
    while i < |types|
      invariant 0 <= i <= |types|
      invariant c.comment == CountIn(types[..i], CommentBucket) && c.likeFavorite == CountIn(types[..i], LikeFavoriteBucket)
      invariant c.follow == CountIn(types[..i], FollowBucket) && c.official == CountIn(types[..i], OfficialBucket)
    {
      assert types[..i + 1][..i] == types[..i];
      match types[i] {
      case ArticleComment | CommentComment =>
        c := c.(comment := c.comment + 1);
      case ArticleLike | CommentLike | ArticleFavorite =>
        c := c.(likeFavorite := c.likeFavorite + 1);
      case Follow =>
        c := c.(follow := c.follow + 1);
      case Official | System =>
        c := c.(official := c.official + 1);
      }
      i := i + 1;
    }
    assert types[..i] == types;
  }

  // ---------------------------------------------------------------------
  // resetUnreadCount

  /** Matches the `where` of the mark-as-read update. */
  predicate MarkedBy(n: Notification, recipientId: UserId, types: seq<NotificationType>) {
    n.recipientId == recipientId && n.kind in types && !n.isRead
  }

  /** `resetUnreadCount`: the matching rows become read at `now`; every other row is untouched. */
  function MarkRead(rows: seq<Notification>, recipientId: UserId, types: seq<NotificationType>, now: int)
    : (after: seq<Notification>)
    ensures |after| == |rows|
    ensures forall i :: 0 <= i < |rows| ==>
      after[i] == if MarkedBy(rows[i], recipientId, types) then rows[i].(isRead := true, readAt := Some(now)) else rows[i]
  {
    seq(|rows|, i requires 0 <= i < |rows| =>
      if MarkedBy(rows[i], recipientId, types) then rows[i].(isRead := true, readAt := Some(now)) else rows[i])
  }

  /** The user's unread notifications of one type. */
  function UnreadOf(rows: seq<Notification>, userId: UserId, t: NotificationType): (ids: set<nat>)
    ensures forall i: nat :: i in ids <==> i < |rows| && rows[i].recipientId == userId && rows[i].kind == t && !rows[i].isRead
  {
    set i: nat | i < |rows| && rows[i].recipientId == userId && rows[i].kind == t && !rows[i].isRead
  }

  /**
   * After marking, none of the listed types is unread for the recipient;
   * unlisted types and other users keep exactly their unread notifications.
   */
  lemma MarkReadClears(rows: seq<Notification>, recipientId: UserId, types: seq<NotificationType>, now: int,
                       userId: UserId, t: NotificationType)
    ensures var after := MarkRead(rows, recipientId, types, now);
      && (userId == recipientId && t in types ==> UnreadOf(after, userId, t) == {})
      && (userId != recipientId || t !in types ==> UnreadOf(after, userId, t) == UnreadOf(rows, userId, t))
  {
  }

  /**
   * Viewing the like page marks only COMMENT_LIKE and ARTICLE_LIKE read, so
   * an unread ARTICLE_FAVORITE stays in the like/favourite bucket.
   */
  lemma FavoritesStayUnread(rows: seq<Notification>, userId: UserId, now: int, i: nat)
    requires i < |rows| && rows[i].recipientId == userId && rows[i].kind == ArticleFavorite && !rows[i].isRead
    ensures i in UnreadOf(MarkRead(rows, userId, LikePageMarks, now), userId, ArticleFavorite)
    ensures BucketOf(ArticleFavorite) == LikeFavoriteBucket
  {
  }

  // ---------------------------------------------------------------------
  // createNotification

  datatype Payload = Payload(recipientId: UserId, senderId: UserId, kind: NotificationType, contentId: string, title: Option<string>)

  /** The duplicate key: recipient, sender, type and content. */
  predicate SameKey(n: Notification, p: Payload) {
    n.recipientId == p.recipientId && n.senderId == p.senderId && n.kind == p.kind && n.contentId == p.contentId
  }

  predicate Exists(rows: seq<Notification>, p: Payload) {
    exists i :: 0 <= i < |rows| && SameKey(rows[i], p)
  }

  /** No two rows share a duplicate key. */
  predicate NoDuplicates(rows: seq<Notification>) {
    forall i, j :: 0 <= i < j < |rows| ==>
      !(rows[i].recipientId == rows[j].recipientId && rows[i].senderId == rows[j].senderId &&
        rows[i].kind == rows[j].kind && rows[i].contentId == rows[j].contentId)
  }

  function NewNotification(p: Payload, now: int): Notification {
    Notification(p.recipientId, p.senderId, p.kind, p.contentId, p.title, false, None, now)
  }

  /** `createNotification`: checks in source order, then exactly one row appended. */
  function CreateNext(rows: seq<Notification>, users: set<UserId>, p: Payload, now: int)
    : (out: (Result<(), HttpError>, seq<Notification>))
    ensures p.recipientId !in users ==> out.0 == Err(NotFound)
    ensures p.recipientId in users && p.senderId !in users ==> out.0 == Err(NotFound)
    ensures p.recipientId in users && p.senderId in users && p.recipientId == p.senderId ==> out.0 == Err(BadRequest)
    ensures p.recipientId in users && p.senderId in users && p.recipientId != p.senderId && Exists(rows, p) ==>
      out.0 == Err(Conflict)
    ensures out.0.Ok? <==> p.recipientId in users && p.senderId in users && p.recipientId != p.senderId && !Exists(rows, p)
    ensures out.0.Ok? ==> out.1 == rows + [NewNotification(p, now)]
    ensures out.0.Err? ==> out.1 == rows
  {
    if p.recipientId !in users then (Err(NotFound), rows)
    else if p.senderId !in users then (Err(NotFound), rows)
    else if p.recipientId == p.senderId then (Err(BadRequest), rows)
    else if Exists(rows, p) then (Err(Conflict), rows)
    else (Ok(()), rows + [NewNotification(p, now)])
  }

  /** Creation never introduces a duplicate, and repeating a creation is a Conflict. */
  lemma CreateKeepsNoDuplicates(rows: seq<Notification>, users: set<UserId>, p: Payload, now: int, later: int)
    requires NoDuplicates(rows)
    ensures NoDuplicates(CreateNext(rows, users, p, now).1)
    ensures CreateNext(rows, users, p, now).0.Ok? ==>
      CreateNext(CreateNext(rows, users, p, now).1, users, p, later).0 == Err(Conflict)
  {
    var out := CreateNext(rows, users, p, now);
    if out.0.Ok? {
      var after := out.1;
      assert SameKey(after[|rows|], p);
      forall i, j | 0 <= i < j < |after|
        ensures !(after[i].recipientId == after[j].recipientId && after[i].senderId == after[j].senderId &&
                  after[i].kind == after[j].kind && after[i].contentId == after[j].contentId)
      {
        if j == |rows| {
          assert !SameKey(rows[i], p);
        }
      }
    }
  }

  // ---------------------------------------------------------------------
  // getLikeNotifications

  /** The types the like page lists. */
  const LikePageTypes: seq<NotificationType> := [ArticleLike, CommentLike, ArticleFavorite]

  /** The types the like page marks read afterwards. */
  const LikePageMarks: seq<NotificationType> := [CommentLike, ArticleLike]

  /** The `where` of the page query. */
  predicate OnLikePage(n: Notification, userId: UserId) {
    n.recipientId == userId && n.kind in LikePageTypes
  }

  /** The rows of the page query's `where`, in the order it lists them (`createdAt desc`). */
  function LikeRows(listing: seq<Notification>, userId: UserId): (rows: seq<Notification>)
    ensures |rows| <= |listing|
    ensures forall i :: 0 <= i < |rows| ==> OnLikePage(rows[i], userId) && rows[i] in listing
  {
    if listing == [] then []
    else
      var last := listing[|listing| - 1];
      LikeRows(listing[..|listing| - 1], userId) + (if OnLikePage(last, userId) then [last] else [])
  }

  /** Each like row of the user occurs as often in the result as in the listing, and nothing else does. */
  lemma {:induction false} LikeRowsCounts(listing: seq<Notification>, userId: UserId, n: Notification)
    ensures multiset(LikeRows(listing, userId))[n] == if OnLikePage(n, userId) then multiset(listing)[n] else 0
  {
    if listing != [] {
      var init := listing[..|listing| - 1];
      LikeRowsCounts(init, userId, n);
      assert listing == init + [listing[|listing| - 1]];
    }
  }

  /**
   * The query's `orderBy` only reorders the table: any listing of the same
   * rows yields the same like rows, so the same total, whatever its order.
   */
  lemma LikeRowsOfTable(listing: seq<Notification>, table: seq<Notification>, userId: UserId)
    requires multiset(listing) == multiset(table)
    ensures multiset(LikeRows(listing, userId)) == multiset(LikeRows(table, userId))
    ensures |LikeRows(listing, userId)| == |LikeRows(table, userId)|
  {
    forall n
      ensures multiset(LikeRows(listing, userId))[n] == multiset(LikeRows(table, userId))[n]
    {
      LikeRowsCounts(listing, userId, n);
      LikeRowsCounts(table, userId, n);
    }
    assert multiset(LikeRows(listing, userId)) == multiset(LikeRows(table, userId));
    assert |multiset(LikeRows(listing, userId))| == |LikeRows(listing, userId)|;
    assert |multiset(LikeRows(table, userId))| == |LikeRows(table, userId)|;
  }

  /** The content a like points to: an article's title or a comment's text. */
  datatype Content = ArticleContent(title: string) | CommentContent(text: string)

  datatype Entry = Entry(n: Notification, senderName: string, content: Option<Content>)

  /** The article lookup for ARTICLE_LIKE and ARTICLE_FAVORITE, the comment lookup for COMMENT_LIKE. */
  function ContentOf(n: Notification, articles: map<string, string>, comments: map<string, string>): (c: Option<Content>)
    ensures c.Some? && c.value.ArticleContent? ==> n.kind in {ArticleLike, ArticleFavorite} && n.contentId in articles
    ensures c.Some? && c.value.CommentContent? ==> n.kind == CommentLike && n.contentId in comments
    ensures c.None? <==>
      (n.kind in {ArticleLike, ArticleFavorite} && n.contentId !in articles) ||
      (n.kind == CommentLike && n.contentId !in comments) ||
      n.kind !in {ArticleLike, ArticleFavorite, CommentLike}
  {
    if n.kind == ArticleLike || n.kind == ArticleFavorite then
      if n.contentId in articles then Some(ArticleContent(articles[n.contentId])) else None
    else if n.kind == CommentLike then
      if n.contentId in comments then Some(CommentContent(comments[n.contentId])) else None
    else None
  }

  /** The `map`/`filter` assembly: entries whose sender is unknown are dropped. */
  function Assemble(page: seq<Notification>, users: map<UserId, string>,
                    articles: map<string, string>, comments: map<string, string>): seq<Entry>
  {
    if page == [] then []
    else
      var rest := Assemble(page[1..], users, articles, comments);
      var n := page[0];
      if n.senderId in users then [Entry(n, users[n.senderId], ContentOf(n, articles, comments))] + rest else rest
  }

  /**
   * Every entry is a row of the page with a known sender, that sender's
   * name and the row's content, and every such row has an entry.
   */
  lemma {:induction false} AssembleKeepsKnownSenders(page: seq<Notification>, users: map<UserId, string>,
                                                     articles: map<string, string>, comments: map<string, string>)
    ensures var entries := Assemble(page, users, articles, comments);
      && |entries| <= |page|
      && (forall i :: 0 <= i < |entries| ==>
            entries[i].n in page && entries[i].n.senderId in users &&
            entries[i].senderName == users[entries[i].n.senderId] &&
            entries[i].content == ContentOf(entries[i].n, articles, comments))
      && (forall n :: n in page && n.senderId in users ==> exists i :: 0 <= i < |entries| && entries[i].n == n)
  {
    if page != [] {
      AssembleKeepsKnownSenders(page[1..], users, articles, comments);
      var rest := Assemble(page[1..], users, articles, comments);
      var entries := Assemble(page, users, articles, comments);
      var shift := if page[0].senderId in users then 1 else 0;
      assert entries == (if shift == 1 then [entries[0]] else []) + rest;
      forall i | 0 <= i < |entries|
        ensures entries[i].n in page && entries[i].n.senderId in users
        ensures entries[i].senderName == users[entries[i].n.senderId]
        ensures entries[i].content == ContentOf(entries[i].n, articles, comments)
      {
        if i >= shift {
          assert entries[i] == rest[i - shift];
          assert rest[i - shift].n in page[1..];
        }
      }
      forall n | n in page && n.senderId in users
        ensures exists i :: 0 <= i < |entries| && entries[i].n == n
      {
        if n == page[0] {
          assert entries[0].n == n;
        } else {
          assert n in page[1..];
          var k :| 0 <= k < |rest| && rest[k].n == n;
          assert entries[k + shift].n == n;
        }
      }
    }
  }

  /** The distinct senders of a page (`new Set(notifications.map(n => n.senderId))`). */
  function SendersOf(page: seq<Notification>): (s: set<UserId>)
    ensures forall u :: u in s <==> exists i :: 0 <= i < |page| && page[i].senderId == u
  {
    set i | 0 <= i < |page| :: page[i].senderId
  }

  /** `totalCount` as written: only rows whose sender appears on the current page. */
  function TotalCountAsWritten(listing: seq<Notification>, userId: UserId, page: seq<Notification>): nat {
    |set i | 0 <= i < |listing| && OnLikePage(listing[i], userId) && listing[i].senderId in SendersOf(page)|
  }

  /** The total the page count evidently needs: every row of the page query's `where`. */
  function TotalCount(listing: seq<Notification>, userId: UserId): (n: nat)
    ensures n == |LikeRows(listing, userId)|
  {
    |LikeRows(listing, userId)|
  }

  /** The rows the page query returns: the `where` rows, skipped and taken. */
  function LikeWindow(listing: seq<Notification>, userId: UserId, page: int, pageSize: int): (w: seq<Notification>)
    requires page >= 1 && pageSize >= 1
    ensures |w| <= pageSize
    ensures forall i :: 0 <= i < |w| ==>
      Paging.Skip(page, pageSize) + i < |LikeRows(listing, userId)| &&
      w[i] == LikeRows(listing, userId)[Paging.Skip(page, pageSize) + i]
  {
    Paging.Window(LikeRows(listing, userId), Paging.Skip(page, pageSize), pageSize)
  }

  datatype LikePage = LikePage(data: seq<Entry>, totalCount: nat, page: int, pageSize: int, totalPages: nat,
                               markRead: seq<NotificationType>)

  /**
   * `getLikeNotifications` over the notification rows as the query lists
   * them, with the user, article and comment lookups as maps. The mark-read
   * request it emits is part of the result.
   */
  function GetLikeNotifications(listing: seq<Notification>, userId: UserId, page: int, pageSize: int,
                                users: map<UserId, string>, articles: map<string, string>,
                                comments: map<string, string>): (p: LikePage)
    requires page >= 1 && pageSize >= 1
    ensures |p.data| <= pageSize
    ensures forall i :: 0 <= i < |p.data| ==> OnLikePage(p.data[i].n, userId) && p.data[i].n.senderId in users
    ensures forall i :: 0 <= i < |p.data| ==>
      p.data[i].n in LikeWindow(listing, userId, page, pageSize) &&
      p.data[i].senderName == users[p.data[i].n.senderId] &&
      p.data[i].content == ContentOf(p.data[i].n, articles, comments)
    ensures forall n :: n in LikeWindow(listing, userId, page, pageSize) && n.senderId in users ==>
      exists i :: 0 <= i < |p.data| && p.data[i].n == n
    ensures p.totalCount == |LikeRows(listing, userId)|
    ensures p.totalPages * pageSize >= p.totalCount
    ensures p.markRead == LikePageMarks
  {
    var rows := LikeWindow(listing, userId, page, pageSize);
    var entries := Assemble(rows, users, articles, comments);
    AssembleKeepsKnownSenders(rows, users, articles, comments);
    var total := TotalCount(listing, userId);
    LikePage(entries, total, page, pageSize, Paging.TotalPages(total, pageSize), LikePageMarks)
  }

  /** With the corrected total, every like notification lies on a page that exists. */
  lemma EveryLikeOnAPage(listing: seq<Notification>, userId: UserId, pageSize: int, k: nat,
                         users: map<UserId, string>, articles: map<string, string>, comments: map<string, string>)
    requires pageSize >= 1 && k < |LikeRows(listing, userId)|
    ensures var page := k / pageSize + 1;
      && page <= GetLikeNotifications(listing, userId, page, pageSize, users, articles, comments).totalPages
      && Paging.Skip(page, pageSize) <= k < Paging.Skip(page, pageSize) + pageSize
  {
    Paging.RowOnItsPage(LikeRows(listing, userId), pageSize, k);
  }

  /**
   * As written, two likes from two different users with one entry per
   * page report one page in total, so the second like is never reachable.
   */
  lemma AsWrittenHidesSecondPage()
    ensures var a := Notification("me", "s1", ArticleLike, "c1", None, false, None, 2);
      var b := Notification("me", "s2", ArticleLike, "c2", None, false, None, 1);
      && LikeRows([a, b], "me") == [a, b]
      && Paging.Window([a, b], Paging.Skip(1, 1), 1) == [a]
      && Paging.TotalPages(TotalCountAsWritten([a, b], "me", [a]), 1) == 1
      && Paging.TotalPages(TotalCount([a, b], "me"), 1) == 2
  {
    var a := Notification("me", "s1", ArticleLike, "c1", None, false, None, 2);
    var b := Notification("me", "s2", ArticleLike, "c2", None, false, None, 1);
    assert [a, b][..1] == [a];
    assert LikeRows([a], "me") == [a] by {
      assert [a][..0] == [];
    }
    assert LikeRows([a, b], "me") == [a, b];
    assert SendersOf([a]) == {"s1"};
    assert (set i | 0 <= i < |[a, b]| && OnLikePage([a, b][i], "me") && [a, b][i].senderId in SendersOf([a])) == {0};
  }

  // ---------------------------------------------------------------------
  // The notification table and the calls that change it.

  class NotificationStore {
    var rows: seq<Notification>
    var users: set<UserId>

    constructor(users0: set<UserId>)
      ensures rows == [] && users == users0
    {
      rows, users := [], users0;
    }

    /** `calculateUnreadCounts`; `messageUnreadCount` is the number of the user's chats with unread messages. */
    method CalculateUnreadCounts(userId: UserId, messageUnreadCount: nat) returns (s: UnreadSummary)
      ensures var types := UnreadTypes(rows, userId);
        && s.counts == UnreadCounts(CountIn(types, CommentBucket), CountIn(types, LikeFavoriteBucket),
                                    CountIn(types, FollowBucket), CountIn(types, OfficialBucket))
        && s.messageUnreadCount == messageUnreadCount
        && s.totalUnreadCount == |types| + messageUnreadCount
    {
      var types := UnreadTypes(rows, userId);
      var counts := TallyBuckets(types);
      BucketsPartition(types);
      s := UnreadSummary(counts, messageUnreadCount,
                         counts.comment + counts.likeFavorite + counts.follow + counts.official + messageUnreadCount);
    }

    method ResetUnreadCount(recipientId: UserId, types: seq<NotificationType>, now: int)
      modifies this
      ensures rows == MarkRead(old(rows), recipientId, types, now) && users == old(users)
    {
      rows := MarkRead(rows, recipientId, types, now);
    }

    method CreateNotification(p: Payload, now: int) returns (r: Result<(), HttpError>)
      modifies this
      ensures (r, rows) == CreateNext(old(rows), users, p, now) && users == old(users)
    {
      if p.recipientId !in users {
        return Err(NotFound);
      }
      if p.senderId !in users {
        return Err(NotFound);
      }
      if p.recipientId == p.senderId {
        return Err(BadRequest);
      }
      var i := 0;
      while i < |rows|
        invariant 0 <= i <= |rows|
        invariant forall k :: 0 <= k < i ==> !SameKey(rows[k], p)
      {
        if SameKey(rows[i], p) {
          return Err(Conflict);
        }
        i := i + 1;
      }
      rows := rows + [NewNotification(p, now)];
      return Ok(());
    }
  }
}
