/**
 * The comment service: creating root comments and replies, the error
 * mapping of `handleError`, and the pure parts of the two listings —
 * grouping at most two replies under each root, the counts and popularity
 * of a root, the order the listing is sorted into, and the page offsets.
 *
 * The comment table and the ids of the article table are fields of
 * `CommentStore`; each creation is one step on them, specified by a pure
 * function of the old table. Comment ids come from `generateShortId` and are
 * an input; the row's image list is not modelled.
 */
module CommentService {
  import opened Common
  import opened Text
  import Paging

  type CommentId = string
  type ArticleId = string
  type UserId = string

  /** An article_comment row. `kind` is the `type` column: 0 for a root, 1 for a reply. */
  datatype Comment = Comment(
    articleId: ArticleId,
    userId: UserId,
    content: string,
    parentId: Option<CommentId>,
    rootId: Option<CommentId>,
    kind: int,
    depth: nat,
    isDeleted: bool,
    isPinned: bool,
    createdAt: int)

  type Comments = map<CommentId, Comment>

  /**
   * What creation keeps true of the table: a comment without a parent is a
   * root (depth 0, type 0, no root id); a comment with a parent is a reply
   * (type 1) one level below a parent that exists.
   */
  ghost predicate WellFormed(comments: Comments) {
    forall id :: id in comments ==>
      var c := comments[id];
      && (c.parentId.None? ==> c.depth == 0 && c.kind == 0 && c.rootId.None?)
      && (c.parentId.Some? ==> c.parentId.value in comments && c.kind == 1 &&
                               c.depth == comments[c.parentId.value].depth + 1)
  }

  // ---------------------------------------------------------------------
  // createRootComment

  /** `!content || content.trim() === ''`. */
  predicate Blank(content: string) {
    Trim(content) == ""
  }

  /**
   * `createRootComment`. Its catch block turns every failure — a missing
   * article, blank content, or the insert raising — into InternalServerError.
   */
  function CreateRootNext(comments: Comments, articles: set<ArticleId>, content: string,
                          userId: UserId, articleId: ArticleId, newId: CommentId, now: int)
    : (out: (Result<(), HttpError>, Comments))
    ensures out.0.Ok? <==> articleId in articles && !Blank(content) && newId !in comments
    ensures out.0.Err? ==> out == (Err(InternalServerError), comments)
    ensures out.0.Ok? ==> out.1 == comments[newId := Comment(articleId, userId, content, None, None, 0, 0, false, false, now)]
  {
    if articleId !in articles || Blank(content) || newId in comments then (Err(InternalServerError), comments)
    else (Ok(()), comments[newId := Comment(articleId, userId, content, None, None, 0, 0, false, false, now)])
  }

  /** Whitespace-only content is refused whatever else holds. */
  lemma BlankContentRefused(comments: Comments, articles: set<ArticleId>, w: string,
                            userId: UserId, articleId: ArticleId, newId: CommentId, now: int)
    requires AllWhitespace(w)
    ensures CreateRootNext(comments, articles, w, userId, articleId, newId, now).0 == Err(InternalServerError)
  {
    TrimStartWhitespace(w);
  }

  /** Surrounding whitespace never decides whether a root comment is accepted. */
  lemma PaddingIrrelevant(comments: Comments, articles: set<ArticleId>, w1: string, s: string, w2: string,
                          userId: UserId, articleId: ArticleId, newId: CommentId, now: int)
    requires AllWhitespace(w1) && AllWhitespace(w2)
    ensures CreateRootNext(comments, articles, w1 + s + w2, userId, articleId, newId, now).0.Ok? ==
            CreateRootNext(comments, articles, s, userId, articleId, newId, now).0.Ok?
  {
    TrimPadded(w1, s, w2);
  }

  // ---------------------------------------------------------------------
  // createReplyComment

  /** `parentComment.root_id && parentComment.root_id !== root_id`. */
  predicate RootMismatch(parent: Comment, rootId: CommentId) {
    parent.rootId.Some? && parent.rootId.value != "" && parent.rootId.value != rootId
  }

  /** The reply row: one level below its parent, type 1, with the root id it was given. */
  function Reply(parent: Comment, parentId: CommentId, rootId: CommentId, content: string,
                 authorId: UserId, articleId: ArticleId, now: int): (c: Comment)
    ensures c.depth == parent.depth + 1 && c.kind == 1
    ensures c.parentId == Some(parentId) && c.rootId == Some(rootId)
  {
    Comment(articleId, authorId, content, Some(parentId), Some(rootId), 1, parent.depth + 1, false, false, now)
  }

  /**
   * `createReplyComment`: a missing parent is NotFound and a parent whose
   * own root id disagrees is BadRequest, both rethrown unchanged by
   * `handleError`; the insert raising becomes InternalServerError. Neither
   * the article nor the content is checked.
   */
  function CreateReplyNext(comments: Comments, content: string, parentId: CommentId, rootId: CommentId,
                           authorId: UserId, articleId: ArticleId, newId: CommentId, now: int)
    : (out: (Result<(), HttpError>, Comments))
    ensures parentId !in comments ==> out.0 == Err(NotFound)
    ensures parentId in comments && RootMismatch(comments[parentId], rootId) ==> out.0 == Err(BadRequest)
    ensures out.0.Ok? <==> parentId in comments && !RootMismatch(comments[parentId], rootId) && newId !in comments
    ensures out.0.Err? ==> out.1 == comments && out.0.error in {NotFound, BadRequest, InternalServerError}
    ensures out.0.Ok? ==>
      out.1 == comments[newId := Reply(comments[parentId], parentId, rootId, content, authorId, articleId, now)]
  {
    var raised: Option<Raised> :=
      if parentId !in comments then Some(Thrown(NotFound))
      else if RootMismatch(comments[parentId], rootId) then Some(Thrown(BadRequest))
      else if newId in comments then Some(Unexpected)
      else None;
    if raised.Some? then (Err(Rethrow(raised.value)), comments)
    else (Ok(()), comments[newId := Reply(comments[parentId], parentId, rootId, content, authorId, articleId, now)])
  }

  /** A parent without a root id (every root comment) accepts any root id at all. */
  lemma ReplyToRootAcceptsAnyRootId(comments: Comments, content: string, parentId: CommentId, rootId: CommentId,
                                    authorId: UserId, articleId: ArticleId, newId: CommentId, now: int)
    requires parentId in comments && comments[parentId].rootId.None? && newId !in comments
    ensures CreateReplyNext(comments, content, parentId, rootId, authorId, articleId, newId, now).0.Ok?
  {
  }

  /** A fresh row whose own parent link is valid keeps the table well formed. */
  lemma InsertKeepsWellFormed(comments: Comments, newId: CommentId, c: Comment)
    requires WellFormed(comments) && newId !in comments
    requires c.parentId.None? ==> c.depth == 0 && c.kind == 0 && c.rootId.None?
    requires c.parentId.Some? ==> c.parentId.value in comments && c.kind == 1 &&
                                  c.depth == comments[c.parentId.value].depth + 1
    ensures WellFormed(comments[newId := c])
  {
    var after := comments[newId := c];
    forall id | id in after
      ensures after[id].parentId.None? ==> after[id].depth == 0 && after[id].kind == 0 && after[id].rootId.None?
      ensures after[id].parentId.Some? ==>
        (after[id].parentId.value in after && after[id].kind == 1 &&
         after[id].depth == after[after[id].parentId.value].depth + 1)
    {
      if id != newId {
        assert after[id] == comments[id];
        if comments[id].parentId.Some? {
          var p := comments[id].parentId.value;
          assert p in comments;
          assert p != newId;
          assert after[p] == comments[p];
        }
      }
    }
  }

  /** Both creations keep the table well formed. */
  lemma CreationKeepsWellFormed(comments: Comments, articles: set<ArticleId>, content: string,
                                parentId: CommentId, rootId: CommentId, userId: UserId,
                                articleId: ArticleId, newId: CommentId, now: int)
    requires WellFormed(comments)
    ensures WellFormed(CreateRootNext(comments, articles, content, userId, articleId, newId, now).1)
    ensures WellFormed(CreateReplyNext(comments, content, parentId, rootId, userId, articleId, newId, now).1)
  {
    var root := CreateRootNext(comments, articles, content, userId, articleId, newId, now);
    if root.0.Ok? {
      InsertKeepsWellFormed(comments, newId, Comment(articleId, userId, content, None, None, 0, 0, false, false, now));
    }
    var reply := CreateReplyNext(comments, content, parentId, rootId, userId, articleId, newId, now);
    if reply.0.Ok? {
      InsertKeepsWellFormed(comments, newId, Reply(comments[parentId], parentId, rootId, content, userId, articleId, now));
    }
  }

  // ---------------------------------------------------------------------
  // Reply grouping in getRootCommentsWithReplies.

  /** A reply as the listing fetches it. */
  datatype ReplyRow = ReplyRow(id: CommentId, parentId: CommentId, createdAt: int)

  /** The replies under `p`, in fetched order. */
  function Children(replies: seq<ReplyRow>, p: CommentId): seq<ReplyRow> {
    if replies == [] then []
    else
      var last := replies[|replies| - 1];
      Children(replies[..|replies| - 1], p) + (if last.parentId == p then [last] else [])
  }

  /** Only replies of that parent, each one of the fetched rows; none when the parent has no fetched reply. */
  lemma {:induction false} ChildrenOfParent(replies: seq<ReplyRow>, p: CommentId)
    ensures var c := Children(replies, p);
      && |c| <= |replies|
      && (forall i :: 0 <= i < |c| ==> c[i].parentId == p && c[i] in replies)
      && ((forall k :: 0 <= k < |replies| ==> replies[k].parentId != p) ==> c == [])
  {
    if replies != [] {
      var init := replies[..|replies| - 1];
      ChildrenOfParent(init, p);
      assert forall r :: r in init ==> r in replies;
    }
  }

  /** The first two elements, or all of them when there are fewer. */
  function FirstTwo(s: seq<ReplyRow>): (r: seq<ReplyRow>)
    ensures |r| <= 2 && r <= s
    ensures |s| <= 2 ==> r == s
  {
    if |s| <= 2 then s else s[..2]
  }

  /** One more fetched reply extends its parent's children and no one else's. */
  lemma ChildrenStep(replies: seq<ReplyRow>, i: nat, p: CommentId)
    requires i < |replies|
    ensures Children(replies[..i + 1], p) ==
      Children(replies[..i], p) + (if replies[i].parentId == p then [replies[i]] else [])
  {
    assert replies[..i + 1][..i] == replies[..i];
  }

  /** Pushing onto a list while it holds fewer than two keeps its first two. */
  lemma FirstTwoStep(s: seq<ReplyRow>, r: ReplyRow)
    ensures FirstTwo(s + [r]) == if |FirstTwo(s)| < 2 then FirstTwo(s) + [r] else FirstTwo(s)
  {
    if |s| >= 2 {
      assert (s + [r])[..2] == s[..2];
    }
  }

  lemma KeysStep(replies: seq<ReplyRow>, i: nat)
    requires i < |replies|
    ensures (set k | 0 <= k < i + 1 :: replies[k].parentId) ==
      (set k | 0 <= k < i :: replies[k].parentId) + {replies[i].parentId}
  {
  }

  /** One step of the `groupedReplies` reduce: push `r` onto its parent's list while it holds fewer than two. */
  function Push(groups: map<CommentId, seq<ReplyRow>>, r: ReplyRow): map<CommentId, seq<ReplyRow>> {
    var cur := if r.parentId in groups then groups[r.parentId] else [];
    groups[r.parentId := if |cur| < 2 then cur + [r] else cur]
  }

  /** The whole reduce over the fetched replies. */
  function Grouped(replies: seq<ReplyRow>): map<CommentId, seq<ReplyRow>> {
    if replies == [] then map[]
    else Push(Grouped(replies[..|replies| - 1]), replies[|replies| - 1])
  }

  /** The invariant of the reduce survives one more reply. */
  lemma GroupedStep(replies: seq<ReplyRow>, i: nat, before: map<CommentId, seq<ReplyRow>>)
    requires i < |replies|
    requires before.Keys == set k | 0 <= k < i :: replies[k].parentId
    requires forall p :: p in before ==> before[p] == FirstTwo(Children(replies[..i], p))
    ensures Push(before, replies[i]).Keys == set k | 0 <= k < i + 1 :: replies[k].parentId
    ensures forall p :: p in Push(before, replies[i]) ==>
      Push(before, replies[i])[p] == FirstTwo(Children(replies[..i + 1], p))
  {
    var r := replies[i];
    var after := Push(before, r);
    KeysStep(replies, i);
    forall p | p in after
      ensures after[p] == FirstTwo(Children(replies[..i + 1], p))
    {
      ChildrenStep(replies, i, p);
      if p == r.parentId {
        FirstTwoStep(Children(replies[..i], p), r);
        if p !in before {
          ChildrenOfParent(replies[..i], p);
        }
      } else {
        assert after[p] == before[p];
      }
    }
  }

  /**
   * The reduce keys exactly the parents that have a fetched reply, and
   * gives each the first two of its replies in fetched order.
   */
  lemma {:induction false} GroupedFirstTwo(replies: seq<ReplyRow>, i: nat)
    requires i <= |replies|
    ensures Grouped(replies[..i]).Keys == set k | 0 <= k < i :: replies[k].parentId
    ensures forall p :: p in Grouped(replies[..i]) ==> Grouped(replies[..i])[p] == FirstTwo(Children(replies[..i], p))
  {
    if i > 0 {
      GroupedFirstTwo(replies, i - 1);
      assert replies[..i][..i - 1] == replies[..i - 1];
      GroupedStep(replies, i - 1, Grouped(replies[..i - 1]));
    }
  }

  /**
   * The `groupedReplies` reduce: each fetched reply is pushed onto its
   * parent's list while that list holds fewer than two.
   */
  method GroupReplies(replies: seq<ReplyRow>) returns (groups: map<CommentId, seq<ReplyRow>>)
    ensures groups == Grouped(replies)
    ensures forall p :: p in groups <==> exists k :: 0 <= k < |replies| && replies[k].parentId == p
    ensures forall p :: p in groups ==> groups[p] == FirstTwo(Children(replies, p))
  {
    groups := map[];
    var i := 0;
    while i < |replies|
      invariant 0 <= i <= |replies|
      invariant groups == Grouped(replies[..i])
    {
      var r := replies[i];
      assert replies[..i + 1][..i] == replies[..i];
      if r.parentId !in groups {
        groups := groups[r.parentId := []];
      }
      if |groups[r.parentId]| < 2 {
        groups := groups[r.parentId := groups[r.parentId] + [r]];
      }
      i := i + 1;
    }
    assert replies[..i] == replies;
    GroupedFirstTwo(replies, i);
  }

  /** `groupedReplies[comment.id] || []`. */
  function ShownReplies(groups: map<CommentId, seq<ReplyRow>>, root: CommentId): seq<ReplyRow> {
    if root in groups then groups[root] else []
  }

  /** Whatever the keys, each root shows the first two of its fetched replies. */
  lemma ShownAreFirstTwo(replies: seq<ReplyRow>, groups: map<CommentId, seq<ReplyRow>>, root: CommentId)
    requires forall p :: p in groups <==> exists k :: 0 <= k < |replies| && replies[k].parentId == p
    requires forall p :: p in groups ==> groups[p] == FirstTwo(Children(replies, p))
    ensures ShownReplies(groups, root) == FirstTwo(Children(replies, root))
    ensures |ShownReplies(groups, root)| <= 2
  {
    if root !in groups {
      ChildrenOfParent(replies, root);
    }
  }

  /** The rows with a parent among `rootIds` (the query's `parent_id: { in: rootCommentIds }`). */
  function UnderRoots(candidates: seq<ReplyRow>, rootIds: seq<CommentId>): (r: seq<ReplyRow>)
    ensures |r| <= |candidates|
  {
    if candidates == [] then []
    else
      var last := candidates[|candidates| - 1];
      UnderRoots(candidates[..|candidates| - 1], rootIds) + (if last.parentId in rootIds then [last] else [])
  }

  /** Keeping only replies under the page's roots does not change any of those roots' replies. */
  lemma {:induction false} UnderRootsKeepsChildren(candidates: seq<ReplyRow>, rootIds: seq<CommentId>, root: CommentId)
    requires root in rootIds
    ensures Children(UnderRoots(candidates, rootIds), root) == Children(candidates, root)
  {
    if candidates != [] {
      var init := candidates[..|candidates| - 1];
      var last := candidates[|candidates| - 1];
      UnderRootsKeepsChildren(init, rootIds, root);
      var u := UnderRoots(init, rootIds);
      if last.parentId in rootIds {
        assert UnderRoots(candidates, rootIds) == u + [last];
        assert (u + [last])[..|u + [last]| - 1] == u;
      } else {
        assert UnderRoots(candidates, rootIds) == u;
      }
    }
  }

  lemma {:induction false} UnderRootsAll(candidates: seq<ReplyRow>, rootIds: seq<CommentId>)
    requires forall k :: 0 <= k < |candidates| ==> candidates[k].parentId in rootIds
    ensures UnderRoots(candidates, rootIds) == candidates
  {
    if candidates != [] {
      var init := candidates[..|candidates| - 1];
      UnderRootsAll(init, rootIds);
      assert init + [candidates[|candidates| - 1]] == candidates;
    }
  }

  /**
   * The replies query as written: the replies under the page's roots in
   * ascending creation order, cut at `2 * rootCommentIds.length` in total.
   */
  function FetchRepliesAsWritten(candidates: seq<ReplyRow>, rootIds: seq<CommentId>): (r: seq<ReplyRow>)
    ensures |r| <= 2 * |rootIds|
  {
    var under := UnderRoots(candidates, rootIds);
    if |under| <= 2 * |rootIds| then under else under[..2 * |rootIds|]
  }

  /** The replies query without the global cut, as the per-root limit of two evidently intends. */
  function FetchReplies(candidates: seq<ReplyRow>, rootIds: seq<CommentId>): (r: seq<ReplyRow>)
    ensures forall root :: root in rootIds ==> Children(r, root) == Children(candidates, root)
  {
    forall root | root in rootIds
      ensures Children(UnderRoots(candidates, rootIds), root) == Children(candidates, root)
    {
      UnderRootsKeepsChildren(candidates, rootIds, root);
    }
    UnderRoots(candidates, rootIds)
  }

  /** With the corrected fetch every root on the page shows its own first two replies. */
  lemma EveryRootShowsItsFirstTwo(candidates: seq<ReplyRow>, rootIds: seq<CommentId>, root: CommentId)
    requires root in rootIds
    ensures FirstTwo(Children(FetchReplies(candidates, rootIds), root)) == FirstTwo(Children(candidates, root))
    ensures |Children(candidates, root)| > 0 ==> |FirstTwo(Children(FetchReplies(candidates, rootIds), root))| > 0
  {
  }

  /**
   * As written, one root with many early replies uses up the whole cut:
   * here r1's four replies fill `take: 4`, so r2 shows none although it has one.
   */
  lemma AsWrittenStarvesLaterRoot()
    ensures var candidates := [ReplyRow("a1", "r1", 1), ReplyRow("a2", "r1", 2), ReplyRow("a3", "r1", 3),
                               ReplyRow("a4", "r1", 4), ReplyRow("b1", "r2", 5)];
      && Children(FetchRepliesAsWritten(candidates, ["r1", "r2"]), "r2") == []
      && Children(candidates, "r2") == [ReplyRow("b1", "r2", 5)]
  {
    var candidates := [ReplyRow("a1", "r1", 1), ReplyRow("a2", "r1", 2), ReplyRow("a3", "r1", 3),
                       ReplyRow("a4", "r1", 4), ReplyRow("b1", "r2", 5)];
    var under := UnderRoots(candidates, ["r1", "r2"]);
    UnderRootsAll(candidates, ["r1", "r2"]);
    assert candidates[..4] == [ReplyRow("a1", "r1", 1), ReplyRow("a2", "r1", 2), ReplyRow("a3", "r1", 3),
                               ReplyRow("a4", "r1", 4)];
    assert under == candidates;
    var fetched := FetchRepliesAsWritten(candidates, ["r1", "r2"]);
    assert fetched == candidates[..4];
    assert Children(candidates, "r2") == Children(candidates[..4], "r2") + [ReplyRow("b1", "r2", 5)];
    ChildrenOfParent(candidates[..4], "r2");
  }

  // ---------------------------------------------------------------------
  // A root's counts and the listing's order.

  datatype RootRow = RootRow(id: CommentId, isPinned: bool, createdAt: int)

  datatype RootView = RootView(
    id: CommentId, isPinned: bool, createdAt: int, replies: seq<ReplyRow>,
    totalReplies: nat, remainingReplies: int, hasMoreReplies: bool, likeCount: nat, popularity: nat)

  /** `likeCountsMap[id] || 0`. */
  function LikeCountOf(likeCounts: map<CommentId, nat>, id: CommentId): nat {
    if id in likeCounts then likeCounts[id] else 0
  }

  /** One formatted root: its shown replies, the reply count and the like count. */
  function FormatRoot(root: RootRow, shown: seq<ReplyRow>, totalReplies: nat, likeCount: nat): (v: RootView)
    ensures v.id == root.id && v.isPinned == root.isPinned && v.createdAt == root.createdAt && v.replies == shown
    ensures v.remainingReplies + |v.replies| == v.totalReplies
    ensures v.hasMoreReplies <==> v.remainingReplies > 0
    ensures v.popularity - v.likeCount == v.totalReplies
  {
    RootView(root.id, root.isPinned, root.createdAt, shown, totalReplies, totalReplies - |shown|,
             totalReplies > |shown|, likeCount, likeCount + totalReplies)
  }

  datatype SortType = Latest | Popular

  /** The comparator handed to `formattedComments.sort` (negative: `a` first). */
  function Compare(sort: SortType, a: RootView, b: RootView): int {
    if a.isPinned != b.isPinned then (if a.isPinned then -1 else 1)
    else if sort == Popular && b.popularity != a.popularity then b.popularity - a.popularity
    else b.createdAt - a.createdAt
  }

  /** `a` may stand before `b`. */
  predicate Precedes(sort: SortType, a: RootView, b: RootView) {
    Compare(sort, a, b) <= 0
  }

  /** The comparator is consistent: swapping its arguments negates it. */
  lemma CompareAntisymmetric(sort: SortType, a: RootView, b: RootView)
    ensures Compare(sort, a, b) == -Compare(sort, b, a)
    ensures Precedes(sort, a, b) || Precedes(sort, b, a)
  {
  }

  /** ... and transitive, so it is a total preorder and a sorted order exists. */
  lemma PrecedesTransitive(sort: SortType, a: RootView, b: RootView, c: RootView)
    requires Precedes(sort, a, b) && Precedes(sort, b, c)
    ensures Precedes(sort, a, c)
  {
  }

  predicate SortedBy(sort: SortType, s: seq<RootView>) {
    forall i, j :: 0 <= i < j < |s| ==> Precedes(sort, s[i], s[j])
  }

  /** One step of insertion: `x` goes before the first element it may precede. */
  function Insert(sort: SortType, x: RootView, s: seq<RootView>): (r: seq<RootView>)
    ensures multiset(r) == multiset(s) + multiset{x}
  {
    if s == [] then [x]
    else if Precedes(sort, x, s[0]) then [x] + s
    else
      assert s == [s[0]] + s[1..];
      [s[0]] + Insert(sort, x, s[1..])
  }

  /** Whatever `s`'s head precedes, it precedes everything `x` is inserted among after it. */
  lemma HeadPrecedesInsert(sort: SortType, x: RootView, s: seq<RootView>, y: RootView)
    requires SortedBy(sort, s) && s != [] && Precedes(sort, s[0], x)
    requires y in Insert(sort, x, s[1..])
    ensures Precedes(sort, s[0], y)
  {
    assert y in multiset(Insert(sort, x, s[1..]));
    if y != x {
      assert y in multiset(s[1..]);
      var k :| 0 <= k < |s[1..]| && s[1..][k] == y;
      assert s[k + 1] == y;
    }
  }

  lemma {:induction false} InsertSorted(sort: SortType, x: RootView, s: seq<RootView>)
    requires SortedBy(sort, s)
    ensures SortedBy(sort, Insert(sort, x, s))
  {
    if s == [] {
    } else if Precedes(sort, x, s[0]) {
      var r := Insert(sort, x, s);
      assert r == [x] + s;
      forall i, j | 0 <= i < j < |r| ensures Precedes(sort, r[i], r[j]) {
        if i == 0 && j > 1 {
          PrecedesTransitive(sort, x, s[0], s[j - 1]);
        }
      }
    } else {
      CompareAntisymmetric(sort, x, s[0]);
      var rest := Insert(sort, x, s[1..]);
      InsertSorted(sort, x, s[1..]);
      var r := [s[0]] + rest;
      assert Insert(sort, x, s) == r;
      forall j | 1 <= j < |r| ensures Precedes(sort, r[0], r[j]) {
        HeadPrecedesInsert(sort, x, s, rest[j - 1]);
      }
    }
  }

  /** The order `formattedComments.sort` produces: a sorted permutation of the roots. */
  function SortRoots(sort: SortType, s: seq<RootView>): (r: seq<RootView>)
    ensures SortedBy(sort, r) && multiset(r) == multiset(s)
  {
    if s == [] then []
    else
      var rest := SortRoots(sort, s[1..]);
      assert s == [s[0]] + s[1..];
      InsertSorted(sort, s[0], rest);
      Insert(sort, s[0], rest)
  }

  /** The roots the comparator ranks equal to `c`, in listing order. */
  function TiedWith(sort: SortType, s: seq<RootView>, c: RootView): seq<RootView> {
    if s == [] then []
    else (if Compare(sort, s[0], c) == 0 then [s[0]] else []) + TiedWith(sort, s[1..], c)
  }

  /**
   * Inserting `x` moves it only past roots it strictly follows, none of
   * which ties with anything `x` ties with; so every tie class keeps its order.
   */
  lemma {:induction false} InsertKeepsTies(sort: SortType, x: RootView, s: seq<RootView>, c: RootView)
    ensures TiedWith(sort, Insert(sort, x, s), c) == TiedWith(sort, [x] + s, c)
  {
    if s == [] || Precedes(sort, x, s[0]) {
    } else {
      InsertKeepsTies(sort, x, s[1..], c);
      var rest := Insert(sort, x, s[1..]);
      assert Insert(sort, x, s) == [s[0]] + rest;
      assert ([s[0]] + rest)[1..] == rest;
      assert ([x] + s)[1..] == s;
      assert Compare(sort, x, c) == 0 ==> Compare(sort, s[0], c) != 0;
    }
  }

  /**
   * `Array.prototype.sort` is stable: roots the comparator ranks equal keep
   * the order in which they were fetched.
   */
  lemma {:induction false} SortRootsStable(sort: SortType, s: seq<RootView>, c: RootView)
    ensures TiedWith(sort, SortRoots(sort, s), c) == TiedWith(sort, s, c)
  {
    if s != [] {
      var rest := SortRoots(sort, s[1..]);
      SortRootsStable(sort, s[1..], c);
      InsertKeepsTies(sort, s[0], rest, c);
      assert ([s[0]] + rest)[1..] == rest;
    }
  }

  /** In any sorted listing, pinned roots come first. */
  lemma PinnedFirst(sort: SortType, s: seq<RootView>, i: nat, j: nat)
    requires SortedBy(sort, s) && i < j < |s| && s[j].isPinned
    ensures s[i].isPinned
  {
    assert Precedes(sort, s[i], s[j]);
  }

  /** Within the pinned or the unpinned part, POPULAR orders by popularity, then by age, newest first. */
  lemma PopularOrder(s: seq<RootView>, i: nat, j: nat)
    requires SortedBy(Popular, s) && i < j < |s| && s[i].isPinned == s[j].isPinned
    ensures s[i].popularity >= s[j].popularity
    ensures s[i].popularity == s[j].popularity ==> s[i].createdAt >= s[j].createdAt
  {
    assert Precedes(Popular, s[i], s[j]);
  }

  /** Within the pinned or the unpinned part, LATEST orders newest first. */
  lemma LatestOrder(s: seq<RootView>, i: nat, j: nat)
    requires SortedBy(Latest, s) && i < j < |s| && s[i].isPinned == s[j].isPinned
    ensures s[i].createdAt >= s[j].createdAt
  {
    assert Precedes(Latest, s[i], s[j]);
  }

  // ---------------------------------------------------------------------
  // Page offsets and what remains.

  datatype Remainder = Remainder(remaining: int, hasMore: bool)

  /** `total - (skip + returned)` and `total > skip + returned`. */
  function RemainderOf(total: nat, skip: int, returned: nat): (r: Remainder)
    ensures r.hasMore <==> r.remaining > 0
    ensures r.remaining + skip + returned == total
  {
    Remainder(total - (skip + returned), total > skip + returned)
  }

  /**
   * For root pages (`skip = (page - 1) * limit`): more roots remain exactly
   * when a later page has some; past the last root the remainder turns negative.
   */
  lemma RootPageRemainder<T>(rows: seq<T>, page: int, limit: int)
    requires page >= 1 && limit >= 1
    ensures var skip := Paging.Skip(page, limit);
      var r := RemainderOf(|rows|, skip, |Paging.Window(rows, skip, limit)|);
      && (r.hasMore <==> skip + limit < |rows|)
      && (skip <= |rows| ==> r.remaining >= 0)
      && (skip > |rows| ==> r.remaining < 0)
  {
    assert Paging.Skip(page, limit) >= 0 by {
      assert (page - 1) * limit >= 0;
    }
  }

  /**
   * `2 + (page - 1) * limit`: a reply page skips the first two rows that
   * carry the root's id, at any depth, before taking its own window.
   */
  function ReplySkip(page: int, limit: int): (skip: int)
    requires page >= 1 && limit >= 1
    ensures skip >= 2
  {
    assert (page - 1) * limit >= 0;
    2 + Paging.Skip(page, limit)
  }

  /** Every reply after the first two is on exactly the reply page its position gives. */
  lemma ReplyOnItsPage<T>(replies: seq<T>, limit: int, k: nat)
    requires limit >= 1 && 2 <= k < |replies|
    ensures var page := (k - 2) / limit + 1;
      var skip := ReplySkip(page, limit);
      && skip <= k < skip + limit
      && Paging.Window(replies, skip, limit)[k - skip] == replies[k]
  {
    Paging.RowOnItsPage(replies[2..], limit, k - 2);
  }

  // ---------------------------------------------------------------------
  // The comment table and the calls that change it.

  class CommentStore {
    var comments: Comments
    var articles: set<ArticleId>

    constructor(comments0: Comments, articles0: set<ArticleId>)
      ensures comments == comments0 && articles == articles0
    {
      comments, articles := comments0, articles0;
    }

    method CreateRootComment(content: string, userId: UserId, articleId: ArticleId, newId: CommentId, now: int)
      returns (r: Result<(), HttpError>)
      modifies this
      ensures (r, comments) == CreateRootNext(old(comments), articles, content, userId, articleId, newId, now)
      ensures articles == old(articles)
    {
      if articleId !in articles {
        return Err(InternalServerError);
      }
      if content == "" || Trim(content) == "" {
        return Err(InternalServerError);
      }
      if newId in comments {
        return Err(InternalServerError);
      }
      comments := comments[newId := Comment(articleId, userId, content, None, None, 0, 0, false, false, now)];
      return Ok(());
    }

    method CreateReplyComment(content: string, parentId: CommentId, rootId: CommentId, authorId: UserId,
                              articleId: ArticleId, newId: CommentId, now: int)
      returns (r: Result<(), HttpError>)
      modifies this
      ensures (r, comments) == CreateReplyNext(old(comments), content, parentId, rootId, authorId, articleId, newId, now)
      ensures articles == old(articles)
    {
      if parentId !in comments {
        return Err(Rethrow(Thrown(NotFound)));
      }
      var parent := comments[parentId];
      if RootMismatch(parent, rootId) {
        return Err(Rethrow(Thrown(BadRequest)));
      }
      if newId in comments {
        return Err(Rethrow(Unexpected));
      }
      comments := comments[newId := Reply(parent, parentId, rootId, content, authorId, articleId, now)];
      return Ok(());
    }
  }
}
