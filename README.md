# Blog server core: a verified model

This project models the core of a NestJS blog server in Dafny.

**Access control**
- The permission guard resolves a user's roles through the role hierarchy, checks the static pair MODERATOR/ADMIN and the dynamic pair USER/MEMBER, and requires every declared permission.
- The optional JWT guard lets requests without an `Authorization` header through.
- The user service's role-assignment check refuses a move between MODERATOR and ADMIN.

**Services**
- Following and unfollowing users, with soft-deleted follow rows.
- The article draft, publish and soft-delete lifecycle.
- Root comments and replies, the reply grouping, the ordering and the page offsets of the comment listings.
- Liking and unliking articles and comments.
- Unread notification counts, mark-as-read, duplicate-free notification creation and the like-notification page.
- The one-time email verification code and new-user defaults.
- The chat gateway's greeting rule, and message revocation while fewer than four whole minutes have passed.

**Validation**
- The comma-separated category list.
- The pagination query objects.
- The article request bodies.

**How the model is built**
- Each database table is a Dafny `map` or `seq` held in a field of a class (`ArticleStore`, `CommentStore`, `LikeStore`, `UserStore`, `NotificationStore`, `AuthStore`, `ChatStore`).
- Each service call is a method on that class. Its `ensures` ties the result and the new tables to a pure transition function of the old tables (`DraftNext`, `FollowNext`, `LoginNext`, …).
- Properties that span several calls are lemmas about those functions.
- Ids, codes and timestamps are inputs: nanoid draws, `generateShortId` and `new Date()`.
- So are the outcomes of foreign calls: mail delivery, JWT verification and the URL syntax check.
- Every failure the source raises is an `Err` value carrying the HTTP exception class.
- Where an exception escapes uncaught, so that the framework answers 500, the model uses InternalServerError. Examples are a foreign key the database cannot connect and an id collision.

## Model

| member | source | states |
|---|---|---|
| Common.Rethrow | src/api/comment/comment.service.ts:411-419 | NotFound and BadRequest are rethrown unchanged; every other failure becomes InternalServerError (the same mapping as `updateUserRole`'s catch block) |
| Common.RethrowIdempotent | src/api/user/user.service.ts:269-276 | applying the catch-block mapping to its own output changes nothing |
| Text.TrimStartShape | src/utils/category.ts:15 | the result is a suffix of the input, what was removed is all whitespace, and the result does not start with whitespace |
| Text.TrimEndShape | src/utils/category.ts:15 | the result is a prefix of the input, what was removed is all whitespace, and the result does not end with whitespace |
| Text.TrimPadded | src/api/comment/comment.service.ts:44 | whitespace around a string never changes what `trim` returns |
| Text.TrimUnpadded | src/utils/category.ts:15 | a string that neither starts nor ends with whitespace is its own trim |
| Text.Split | src/utils/category.ts:15 | `split(',')` yields at least one part and no part contains the separator |
| Text.JoinSplit | src/utils/category.ts:15 | joining the parts of a split with the separator gives back the original string |
| Text.SplitAround | src/utils/category.ts:15 | splitting `a + sep + b` gives the parts of `a` followed by the parts of `b` |
| Text.SplitNoSeparator | src/utils/category.ts:15 | a string without the separator splits into exactly itself |
| Text.BeforeFirst | src/api/auth/auth.service.ts:107 | `email.split('@')[0]` is the longest prefix without '@', followed in the input by '@' when shorter than it |
| Text.NumericId | src/api/auth/auth.service.ts:98 | `customAlphabet('1234567890', n)` yields exactly n characters, each a decimal digit |
| Paging.Window | src/api/article/article.service.ts:183-189 | the `skip`/`take` window holds the rows from `skip` on in order, at most `take` of them, none past the end |
| Paging.TotalPages | src/api/article/article.service.ts:203 | `Math.ceil(total / size)`: the pages hold every row and the last page is not empty |
| Paging.RowOnItsPage | src/api/comment/comment.service.ts:142 | with `skip = (page - 1) * size`, every row lies on exactly one page within the page count |
| OptionalJwt.CanActivate | src/core/guard/optional-jwt-auth.guard.ts:14-28 | an absent or empty header allows; otherwise the decision is exactly the base JWT guard's |
| OptionalJwt.HandleRequest | src/core/guard/optional-jwt-auth.guard.ts:37-46 | an error or a missing user yields no user (no exception); otherwise the verified user is returned unchanged |
| OptionalJwt.RequestUser | src/core/guard/optional-jwt-auth.guard.ts:19-46 | with no header there is never a request user; any user present was verified without error |
| OptionalJwt.AbsentHeaderIgnoresVerification | src/core/guard/optional-jwt-auth.guard.ts:22-24 | with no header, any two verification outcomes give the same result: allowed and no user |
| OptionalJwt.VerifiedUserKept | src/core/guard/optional-jwt-auth.guard.ts:45 | a header with a successfully verified user yields exactly that user |
| PermissionsGuard.HeldOfPairBound | src/core/guard/permissions.guard.ts:152-156 | the filter count of a pair is at most one exactly when the role set does not hold both names |
| PermissionsGuard.ValidateConstraints | src/core/guard/permissions.guard.ts:152-156 | true iff for every pair at most one of its names is held |
| PermissionsGuard.ConstraintsUnordered | src/core/guard/permissions.guard.ts:152-156 | reordering the pairs or swapping the names inside a pair never changes the verdict |
| PermissionsGuard.CheckSsd | src/core/guard/permissions.guard.ts:140-144 | true iff the roles do not include both MODERATOR and ADMIN |
| PermissionsGuard.CheckDsd | src/core/guard/permissions.guard.ts:146-150 | true iff the roles do not include both USER and MEMBER |
| PermissionsGuard.FetchUserRolesAndPermissions | src/core/guard/permissions.guard.ts:79-115 | fails exactly when the user row or its role cannot be loaded; otherwise returns the roles and permissions the traversal reaches over the loaded graph |
| PermissionsGuard.CanActivate | src/core/guard/permissions.guard.ts:35-77 | the step-by-step guard returns exactly the decision of the specification `Authorize` (JWT, declared permissions, user, resolution, SSD, DSD, every permission) |
| PermissionsGuard.JwtFirst | src/core/guard/permissions.guard.ts:36-40 | a rejected JWT step denies whatever the permissions and the database hold |
| PermissionsGuard.UndeclaredAllows | src/core/guard/permissions.guard.ts:42-49 | with no declared permissions the guard allows, even when the request carries no user |
| PermissionsGuard.DeclaredNeedsUser | src/core/guard/permissions.guard.ts:51-56 | with declared permissions and no header, the request is denied as unauthenticated |
| PermissionsGuard.ConflictsBeforePermissions | src/core/guard/permissions.guard.ts:60-66 | an SSD violation denies as a static conflict, and a DSD violation as a dynamic one, whatever permissions are held; SSD is checked first |
| PermissionsGuard.AllowIffAllHeld | src/core/guard/permissions.guard.ts:68-76 | past the conflict checks, the guard allows iff every required permission is resolved; an empty declared list allows |
| PermissionsGuard.DenialsNeedDeclaration | src/core/guard/permissions.guard.ts:42-49 | every refusal other than the JWT step's happens only when a permission list was declared |
| PermissionsGuard.ResolvedOneLink | src/core/guard/permissions.guard.ts:82-103 | a user whose role has a single loaded link resolves to that role and the parent, with exactly their grants |
| PermissionsGuard.AuthorizeResolved | src/core/guard/permissions.guard.ts:58-76 | for a verified user whose role loads, the decision is the one the resolved role and permission sets dictate |
| PermissionsGuard.DecideAfterConflicts | src/core/guard/permissions.guard.ts:68-76 | when both conflict checks pass, the resolved decision is allow iff every required permission is held |
| PermissionsGuard.AllowedExactly | src/core/guard/permissions.guard.ts:35-77 | for a conflict-free verified user, the whole guard allows iff every required permission is among the resolved ones |
| RoleGraph.ClosureIsLeast | src/core/guard/permissions.guard.ts:117-138 | the reachability closure is contained in every parent-closed set that holds the start role |
| RoleGraph.ClosureIsClosed | src/core/guard/permissions.guard.ts:117-138 | every loaded parent of a role in the closure is in the closure |
| RoleGraph.PushUnvisited | src/core/guard/permissions.guard.ts:132-136 | pushes, in order, exactly the parents that are loaded and not yet visited |
| RoleGraph.CollectRolesAndPermissions | src/core/guard/permissions.guard.ts:117-138 | terminates on every graph, cyclic or not; contains the start role; the roles are exactly the reachability closure and the permissions exactly their direct grants; each role is expanded once |
| RoleGraph.FrontierDone | src/core/guard/permissions.guard.ts:117-138 | once the stack is empty the visited roles are exactly the closure of the start role |
| RoleGraph.DirectParents | src/core/guard/permissions.guard.ts:90-97 | lists exactly the roles the assigned role's hierarchy rows lead to, under the chosen direction |
| RoleGraph.ParentsInMembers | src/core/guard/permissions.guard.ts:90-97 | a role id is listed iff some hierarchy row links the role to it and that role exists |
| RoleGraph.NamesOf | src/core/guard/permissions.guard.ts:124-130 | maps role ids to their names position by position |
| RoleGraph.LoadDepthOne | src/core/guard/permissions.guard.ts:82-103 | the graph the include loads holds the assigned role with its grants and its direct parents' names; parents carry no further links |
| RoleGraph.LoadFull | src/core/guard/permissions.guard.ts:82-103 | the whole hierarchy: one node per role, with its grants and all of its links |
| RoleGraph.DepthOneClosure | src/core/guard/permissions.guard.ts:90-97 | with the depth-one load the resolved roles are exactly the assigned role and its direct parents, and the permissions exactly their direct grants |
| RoleGraph.DepthOneClosedSet | src/core/guard/permissions.guard.ts:90-97 | the depth-one graph holds exactly the role and its direct parents, and no link leads out of that set |
| RoleGraph.DepthOneReachesParents | src/core/guard/permissions.guard.ts:90-97 | every direct parent is reached from the role in the depth-one graph |
| RoleGraph.OneLinkClosure | src/core/guard/permissions.guard.ts:90-97 | a role with a single link resolves to itself and that parent |
| RoleGraph.LoadFullEdge | src/core/guard/permissions.guard.ts:90-97 | every hierarchy link is an edge of the fully loaded graph |
| RoleGraph.DepthOneWithinFull | src/core/guard/permissions.guard.ts:90-97 | the depth-one load never resolves a role the full hierarchy would not |
| Seed.SeededUser | prisma/seed.ts:73-90 | a user holding any seeded role and a verified token passes every step before role resolution |
| Seed.MemberLinks | prisma/seed.ts:142-146 | MEMBER's single link leads to USER when the child inherits the parent, and to MODERATOR when the parent inherits the child |
| Seed.AdminLink | prisma/seed.ts:142-146 | ADMIN's single link leads to MODERATOR when the child inherits the parent |
| Seed.SuperAdminLink | prisma/seed.ts:142-146 | SUPER_ADMIN's single link leads to ADMIN when the child inherits the parent |
| Seed.NewUserRolesChildInheritsParent | src/api/auth/auth.service.ts:109 | a new user (role 2, MEMBER) resolves to {MEMBER, USER} when the child inherits the parent |
| Seed.NewUserRefusedChildInheritsParent | src/core/guard/permissions.guard.ts:64-66 | under that reading a new user is refused by the dynamic USER/MEMBER pair on every endpoint that declares permissions |
| Seed.NewUserRolesParentInheritsChild | prisma/seed.ts:117-146 | a new user resolves to {MEMBER, MODERATOR} and their grants when the parent inherits the child |
| Seed.MemberModeratorFacts | prisma/seed.ts:117-128 | {MEMBER, MODERATOR} violates neither pair, and their grants are the union of the two seeded grant lists |
| Seed.NewUserParentInheritsChild | src/core/guard/permissions.guard.ts:68-76 | under that reading a new user is allowed exactly the grants of MEMBER and MODERATOR |
| Seed.AdminRoles | prisma/seed.ts:142-146 | an ADMIN user resolves to {ADMIN, MODERATOR} when the child inherits the parent |
| Seed.AdminStaticConflict | src/core/guard/permissions.guard.ts:60-62 | such a user is refused as a static conflict whatever the endpoint declares |
| Seed.SuperAdminRoles | src/core/guard/permissions.guard.ts:90-97 | the depth-one load cuts SUPER_ADMIN's inheritance after ADMIN: roles {SUPER_ADMIN, ADMIN}, permissions {DELETE_COMMENT, ADMINISTER} |
| Seed.SuperAdminNoConflict | src/core/guard/permissions.guard.ts:60-66 | {SUPER_ADMIN, ADMIN} violates neither pair |
| Seed.SuperAdminDepthOne | src/core/guard/permissions.guard.ts:68-76 | a SUPER_ADMIN is allowed exactly DELETE_COMMENT and ADMINISTER, so USER's permissions are refused |
| UserService.PairsAllow | src/api/user/user.service.ts:297-302 | true iff no pair has the current role on one side and the new role on the other |
| UserService.CheckSsd | src/api/user/user.service.ts:279-303 | refuses exactly MODERATOR to ADMIN and ADMIN to MODERATOR; passes when the user or role cannot be loaded |
| UserService.CheckSsdSymmetric | src/api/user/user.service.ts:280 | swapping the current and the new role never changes the verdict |
| UserService.CheckSsdAgreesWithGuard | src/core/guard/permissions.guard.ts:140-144 | the assignment check agrees with the guard's static check on the pair of the two roles |
| UserService.UpdateRoleNext | src/api/user/user.service.ts:240-277 | missing user and missing role are NotFound, an SSD failure is BadRequest; succeeds iff all checks pass and the write does not fail, and only then sets the role; every failure is NotFound, BadRequest or InternalServerError and changes nothing |
| UserService.FollowingList | src/api/user/user.service.ts:305-346 | holds exactly the targets of the user's non-deleted follow rows |
| UserService.FollowerList | src/api/user/user.service.ts:348-389 | holds exactly the users whose non-deleted follow rows target the user |
| UserService.FollowNext | src/api/user/user.service.ts:156-198 | self-follow is BadRequest, a missing target NotFound, any existing row (even soft-deleted) BadRequest; otherwise exactly one active row is added |
| UserService.UnfollowNext | src/api/user/user.service.ts:200-238 | no row is NotFound, a deleted row BadRequest; otherwise the row is soft-deleted, keeping its creation time |
| UserService.FollowAddsToLists | src/api/user/user.service.ts:186-191 | a successful follow puts the pair in both lists and changes no other pair's follow state |
| UserService.UnfollowRemovesFromLists | src/api/user/user.service.ts:220-231 | a successful unfollow removes the pair from both lists and changes no other pair's follow state |
| UserService.NoRefollowAfterUnfollow | src/api/user/user.service.ts:172-183 | after an unfollow, following again and unfollowing again are both BadRequest |
| UserService.RowsPersist | src/api/user/user.service.ts:215-231 | follow rows are never removed by either call |
| UserService.FollowersCount | src/api/user/user.service.ts:62 | the follower count is the size of the follower list |
| UserService.FollowingCount | src/api/user/user.service.ts:63 | the corrected `following_count`: the size of the following list (`_count.follows` as written also counts soft-deleted rows; see Findings) |
| UserService.CountAsWrittenIncludesUnfollowed | src/api/user/user.service.ts:28-33 | as written, a user whose only follower unfollowed still shows one follower |
| UserService.FollowingAsWrittenIncludesUnfollowed | src/api/user/user.service.ts:31 | as written, a user who followed and then unfollowed their only followee still shows one followee |
| UserService.AsWrittenCountsDeletedRows | src/api/user/user.service.ts:28-33 | each as-written count is at least the corrected one, and exceeds it exactly when a row on that side is soft-deleted |
| UserService.CountTracksFollowing | src/api/user/user.service.ts:156-238 | the corrected follower count rises by one on a follow and falls by one on an unfollow |
| UserService.GetUserInfo | src/api/user/user.service.ts:18-66 | an empty or unknown id is NotFound; `is_following` holds iff a non-empty caller has a non-deleted row; the counts are the corrected ones, the sizes of the live follower and following lists, where `_count.followers` and `_count.follows` as written also count soft-deleted rows (see Findings) |
| UserService.UserStore.UpdateUserRole | src/api/user/user.service.ts:240-277 | the new user table and the result are those of `UpdateRoleNext`; roles and follows are unchanged |
| UserService.UserStore.FollowUser | src/api/user/user.service.ts:156-198 | the new follow table and the result are those of `FollowNext`; users and roles are unchanged |
| UserService.UserStore.UnFollowUser | src/api/user/user.service.ts:200-238 | the new follow table and the result are those of `UnfollowNext`; users and roles are unchanged |
| ArticleService.DraftCategory | src/api/article/article.service.ts:46-50 | a draft write connects the given category when it is truthy and disconnects it otherwise |
| ArticleService.NewDraft | src/api/article/article.service.ts:77-97 | a new draft is private, a draft, not deleted, unpublished, audit 0, inactive, owned by the caller, with the given category and tags |
| ArticleService.UpdatedDraft | src/api/article/article.service.ts:41-70 | an updated draft keeps author, draft, public, deleted and publication state; tags are replaced only when given |
| ArticleService.DraftNext | src/api/article/article.service.ts:22-105 | with an id: missing is NotFound and not a draft is BadRequest, with no change; success needs every given category and tag to exist and then stores the updated draft, or without an id a new draft under the fresh id; any other failure is InternalServerError and leaves the table unchanged or, when tags were sent, the draft with its tags already cleared |
| ArticleService.Published | src/api/article/article.service.ts:142-158 | a published row is no longer a draft, audit 1, public unless told otherwise, with exactly the given tags and category, same author |
| ArticleService.PublishNext | src/api/article/article.service.ts:110-166 | missing or deleted is NotFound, another author Forbidden, already public or not a draft BadRequest, a missing category or tag NotFound; only success changes the table |
| ArticleService.SoftDeleted | src/api/article/article.service.ts:235-241 | a soft delete sets only the deleted flag and the update time |
| ArticleService.DeleteDraftNext | src/api/article/article.service.ts:211-244 | not found, already deleted (NotFound), not a draft (BadRequest), not the author (Forbidden), in that order; success soft-deletes |
| ArticleService.Edited | src/api/article/article.service.ts:369-421 | an edit writes the given title, content and cover image, the category when truthy and the tags when a non-empty list is given, keeps every other field, and sets the update time |
| ArticleService.EditNext | src/api/article/article.service.ts:346-447 | deleted or missing is NotFound, another author Forbidden, a missing category or tag NotFound; only success changes the table |
| ArticleService.DeleteOwnNext | src/api/article/article.service.ts:452-484 | deleted or missing is NotFound, another author Forbidden; success soft-deletes, draft or not |
| ArticleService.StepsKeepConsistent | src/api/article/article.service.ts:77-158 | every step keeps drafts private and keeps "draft" equivalent to "never published" |
| ArticleService.DraftKeepsConsistent | src/api/article/article.service.ts:22-105 | creating or updating a draft keeps drafts private and unpublished |
| ArticleService.PublishKeepsConsistent | src/api/article/article.service.ts:110-166 | publishing keeps "draft" equivalent to "never published" |
| ArticleService.EditKeepsConsistent | src/api/article/article.service.ts:346-447 | editing a published article keeps the table consistent |
| ArticleService.PublishIsFinal | src/api/article/article.service.ts:36-38 | once published, draft update, a second publish and draft deletion are all BadRequest |
| ArticleService.DeletedIsGone | src/api/article/article.service.ts:119-121 | after either deletion, publish, edit and both deletions are NotFound for everyone |
| ArticleService.DraftUpdateIgnoresOwnerAndDeletion | src/api/article/article.service.ts:25-38 | any caller can overwrite any draft, even a soft-deleted one, which keeps its author and stays deleted |
| ArticleService.DraftUpdateClearsTagsOnFailure | src/api/article/article.service.ts:53-70 | when the final write fails, the draft has already lost its tags but keeps its other fields |
| ArticleService.DraftIds | src/api/article/article.service.ts:176-180 | the listable ids are exactly the author's non-deleted drafts |
| ArticleService.DraftsOfMembers | src/api/article/article.service.ts:184-189 | the query keeps exactly the rows matching the `where`, no others |
| ArticleService.GetDrafts | src/api/article/article.service.ts:171-206 | the page is the window at `(page-1)*pageSize` of the author's drafts, at most pageSize of them; total and `ceil(total/pageSize)` are exact |
| ArticleService.DraftRowsAreDraftIds | src/api/article/article.service.ts:184-189 | over a listing of the article table, the drafts query lists exactly the ids of the author's drafts in the table, each with its stored row |
| ArticleService.DraftsKeepOrder | src/api/article/article.service.ts:186 | filtering keeps the newest-first order |
| ArticleService.WindowNewestFirst | src/api/article/article.service.ts:186-188 | a window of a newest-first listing is newest first |
| ArticleService.DraftPageNewestFirst | src/api/article/article.service.ts:184-189 | every page of drafts is newest first |
| ArticleService.EveryDraftOnAPage | src/api/article/article.service.ts:173-203 | each draft is on the page its position gives, and that page is within `totalPages` |
| ArticleService.DraftListing | src/api/article/article.service.ts:22-244 | creating a draft adds it to the author's list; publishing or deleting a draft removes it |
| ArticleService.ArticleStore.ValidateCategory | src/api/article/article.service.ts:525-534 | succeeds iff the category exists, else NotFound |
| ArticleService.ArticleStore.ValidateTags | src/api/article/article.service.ts:536-544 | succeeds iff every tag exists, else NotFound |
| ArticleService.ArticleStore.CreateOrUpdateDraft | src/api/article/article.service.ts:22-105 | result and new table are those of `DraftNext`, the new id being the nanoid draw |
| ArticleService.ArticleStore.PublishArticle | src/api/article/article.service.ts:110-166 | result and new table are those of `PublishNext` |
| ArticleService.ArticleStore.DeleteDraft | src/api/article/article.service.ts:211-244 | result and new table are those of `DeleteDraftNext` |
| ArticleService.ArticleStore.EditOwnArticle | src/api/article/article.service.ts:346-447 | result and new table are those of `EditNext` |
| ArticleService.ArticleStore.DeleteOwnArticle | src/api/article/article.service.ts:452-484 | result and new table are those of `DeleteOwnNext` |
| CommentService.CreateRootNext | src/api/comment/comment.service.ts:27-76 | succeeds iff the article exists, the content is not blank and the new id is fresh; the new root has depth 0, type 0, no parent or root; every failure is InternalServerError with no change |
| CommentService.BlankContentRefused | src/api/comment/comment.service.ts:44-46 | whitespace-only content is always refused |
| CommentService.PaddingIrrelevant | src/api/comment/comment.service.ts:44 | surrounding whitespace never decides whether a root comment is accepted |
| CommentService.Reply | src/api/comment/comment.service.ts:101-115 | a reply is one level below its parent, type 1, with the given parent and root ids |
| CommentService.CreateReplyNext | src/api/comment/comment.service.ts:81-129 | missing parent is NotFound, a parent whose own root id disagrees BadRequest, other failures InternalServerError; success stores exactly the reply |
| CommentService.ReplyToRootAcceptsAnyRootId | src/api/comment/comment.service.ts:97 | a parent without a root id accepts any root id |
| CommentService.CreationKeepsWellFormed | src/api/comment/comment.service.ts:49-115 | both creations keep every root at depth 0 and every reply one below an existing parent |
| CommentService.InsertKeepsWellFormed | src/api/comment/comment.service.ts:49-115 | a fresh row whose own parent link is valid keeps the table well formed |
| CommentService.ChildrenOfParent | src/api/comment/comment.service.ts:223-241 | only replies of that parent, each one of the fetched rows; none when the parent has no fetched reply |
| CommentService.FirstTwo | src/api/comment/comment.service.ts:230 | at most two, a prefix, all of them when there are two or fewer |
| CommentService.GroupReplies | src/api/comment/comment.service.ts:223-241 | the loop computes the reduce `Grouped`; every fetched parent gets a group, which holds exactly the first two of its fetched replies |
| CommentService.GroupedFirstTwo | src/api/comment/comment.service.ts:223-241 | the reduce keys exactly the parents with a fetched reply and gives each the first two of its replies, in fetched order |
| CommentService.ShownAreFirstTwo | src/api/comment/comment.service.ts:246 | each root shows the first two of its fetched replies, or none |
| CommentService.UnderRootsKeepsChildren | src/api/comment/comment.service.ts:175-179 | restricting to the page's roots keeps every such root's replies |
| CommentService.FetchRepliesAsWritten | src/api/comment/comment.service.ts:175-189 | the replies query fetches at most `2 * roots` replies in all |
| CommentService.FetchReplies | src/api/comment/comment.service.ts:175-189 | the corrected fetch keeps every reply of every root on the page |
| CommentService.EveryRootShowsItsFirstTwo | src/api/comment/comment.service.ts:172-241 | with the corrected fetch every root shows its own first two replies, and at least one when it has any |
| CommentService.AsWrittenStarvesLaterRoot | src/api/comment/comment.service.ts:181 | as written, a root with many early replies uses up the whole cut and another root shows none |
| CommentService.FormatRoot | src/api/comment/comment.service.ts:257-273 | remaining = total - shown, more iff remaining > 0, popularity = likes + total replies |
| CommentService.CompareAntisymmetric | src/api/comment/comment.service.ts:278-304 | swapping the comparator's arguments negates it, so any two roots are ordered |
| CommentService.PrecedesTransitive | src/api/comment/comment.service.ts:278-304 | the comparator's order is transitive, so it is a total preorder |
| CommentService.Insert | src/api/comment/comment.service.ts:278-304 | inserting keeps every root and adds exactly one |
| CommentService.InsertSorted | src/api/comment/comment.service.ts:278-304 | inserting into a sorted listing keeps it sorted |
| CommentService.SortRoots | src/api/comment/comment.service.ts:278-304 | the result is sorted by the comparator and a permutation of the input |
| CommentService.InsertKeepsTies | src/api/comment/comment.service.ts:278-304 | inserting a root keeps the order of every class of roots the comparator ranks equal |
| CommentService.SortRootsStable | src/api/comment/comment.service.ts:278-304 | the sort is stable: roots the comparator ranks equal keep their fetched order |
| CommentService.PinnedFirst | src/api/comment/comment.service.ts:281-283 | in any sorted listing, pinned roots come before unpinned ones |
| CommentService.PopularOrder | src/api/comment/comment.service.ts:286-291 | under POPULAR, within equal pinning, popularity descends, then creation time descends |
| CommentService.LatestOrder | src/api/comment/comment.service.ts:295-303 | under LATEST, within equal pinning, creation time descends |
| CommentService.RemainderOf | src/api/comment/comment.service.ts:310-311 | remaining + skip + returned = total, and more iff remaining > 0 |
| CommentService.RootPageRemainder | src/api/comment/comment.service.ts:142-311 | more roots remain iff a later page has some; the remainder is negative only past the last root |
| CommentService.ReplySkip | src/api/comment/comment.service.ts:331-332 | a reply page skips the first two rows under the root, then `(page-1)*limit` more |
| CommentService.ReplyOnItsPage | src/api/comment/comment.service.ts:331-339 | every reply after the first two is on exactly the reply page its position gives |
| CommentService.CommentStore.CreateRootComment | src/api/comment/comment.service.ts:27-76 | result and new table are those of `CreateRootNext` |
| CommentService.CommentStore.CreateReplyComment | src/api/comment/comment.service.ts:81-129 | result and new table are those of `CreateReplyNext` |
| LikeService.Likers | src/api/like/like.service.ts:36-38 | exactly the users with an active like on the target |
| LikeService.LikeNext | src/api/like/like.service.ts:20-69 | a missing target is NotFound, an active like BadRequest; otherwise the pair's row is active; the event is emitted iff the author id is non-empty, with the liker as sender |
| LikeService.UnlikeNext | src/api/like/like.service.ts:137-162 | a missing target or no active like is NotFound; otherwise the pair's row becomes inactive |
| LikeService.LikeThenUnlike | src/api/like/like.service.ts:36-42 | after a like, a second like is BadRequest and an unlike succeeds, leaving the pair inactive |
| LikeService.UnlikeThenLike | src/api/like/like.service.ts:44-55 | after an unlike, liking again reactivates the same row and adds no row |
| LikeService.LikeAddsLiker | src/api/like/like.service.ts:44-55 | a like adds exactly the user to the likers, so the count grows by one; no other pair changes |
| LikeService.UnlikeRemovesLiker | src/api/like/like.service.ts:157-160 | an unlike removes exactly the user from the likers, so the count drops by one; no other pair changes |
| LikeService.LikeStore.LikeArticle | src/api/like/like.service.ts:20-69 | result, event and new article-like table are those of `LikeNext` with ARTICLE_LIKE; comment likes unchanged |
| LikeService.LikeStore.LikeComment | src/api/like/like.service.ts:76-130 | result, event and new comment-like table are those of `LikeNext` with COMMENT_LIKE; article likes unchanged |
| LikeService.LikeStore.Like | src/api/like/like.service.ts:27-66 | the shared checks and event of a like, as `LikeNext` gives them |
| LikeService.LikeStore.UnlikeArticle | src/api/like/like.service.ts:137-162 | result and new article-like table are those of `UnlikeNext` |
| LikeService.LikeStore.UnlikeComment | src/api/like/like.service.ts:169-194 | result and new comment-like table are those of `UnlikeNext` |
| NotificationService.BucketsPartition | src/api/notification/notification.service.ts:53-82 | every notification type lands in exactly one bucket, so the four counts add up to the unread total |
| NotificationService.TallyBuckets | src/api/notification/notification.service.ts:53-82 | the reduce's four counters are the numbers of unread types in each bucket |
| NotificationService.MarkRead | src/api/notification/notification.service.ts:105-117 | exactly the recipient's unread rows of the listed types become read at `now`; every other row is unchanged |
| NotificationService.UnreadOf | src/api/notification/notification.service.ts:48-51 | exactly the indices of the user's unread rows of one type |
| NotificationService.MarkReadClears | src/api/notification/notification.service.ts:107-115 | after marking, the listed types have no unread rows for the recipient and other types keep theirs |
| NotificationService.FavoritesStayUnread | src/api/notification/notification.service.ts:302-305 | opening the like page leaves unread favourites unread, although they are counted in the like bucket |
| NotificationService.CreateNext | src/api/notification/notification.service.ts:126-172 | missing recipient, missing sender (NotFound), self (BadRequest), duplicate key (Conflict), in that order; otherwise exactly one row appended |
| NotificationService.CreateKeepsNoDuplicates | src/api/notification/notification.service.ts:149-160 | creation never introduces a duplicate key, and repeating a creation is a Conflict |
| NotificationService.LikeRows | src/api/notification/notification.service.ts:199-214 | the rows of the page query's `where`, all from the listing |
| NotificationService.LikeRowsCounts | src/api/notification/notification.service.ts:199-214 | each of the user's like rows occurs as often as in the listing, and no other row occurs |
| NotificationService.LikeRowsOfTable | src/api/notification/notification.service.ts:199-214 | any listing of the same table rows yields the same like rows and the same total, whatever its order |
| NotificationService.ContentOf | src/api/notification/notification.service.ts:277-286 | articles for ARTICLE_LIKE and ARTICLE_FAVORITE, comments for COMMENT_LIKE, none when the lookup misses |
| NotificationService.AssembleKeepsKnownSenders | src/api/notification/notification.service.ts:272-300 | entries with an unknown sender are dropped and every other row is kept |
| NotificationService.SendersOf | src/api/notification/notification.service.ts:217 | exactly the senders appearing on the page |
| NotificationService.TotalCount | src/api/notification/notification.service.ts:308-314 | the corrected total is the number of rows the page query's `where` matches |
| NotificationService.LikeWindow | src/api/notification/notification.service.ts:199-214 | the page query's rows: the `where` rows from offset `(page-1)*pageSize`, at most pageSize of them |
| NotificationService.GetLikeNotifications | src/api/notification/notification.service.ts:186-326 | at most pageSize entries; each entry is a row of the page's window (`LikeWindow`) with a known sender, that sender's name and its content, and every window row with a known sender has an entry; total and `ceil(total/pageSize)` cover every row; marks COMMENT_LIKE and ARTICLE_LIKE read |
| NotificationService.EveryLikeOnAPage | src/api/notification/notification.service.ts:308-323 | with the corrected total, every like notification lies on a page within `totalPages` |
| NotificationService.AsWrittenHidesSecondPage | src/api/notification/notification.service.ts:308-314 | as written, two rows from different senders with page size 1 report one page, so the second row is unreachable |
| NotificationService.NotificationStore.CalculateUnreadCounts | src/api/notification/notification.service.ts:47-98 | the four counts are the bucket counts of the user's unread rows and the total adds the message count |
| NotificationService.NotificationStore.ResetUnreadCount | src/api/notification/notification.service.ts:105-117 | the new table is `MarkRead` of the old one |
| NotificationService.NotificationStore.CreateNotification | src/api/notification/notification.service.ts:126-172 | result and new table are those of `CreateNext` |
| AuthService.Lookup | src/common/redis/redis.service.ts:48-58 | a record is returned iff it is stored and not expired |
| AuthService.TtlReading | src/common/redis/redis.service.ts:187-188 | -2 for a missing key, -1 for a key without expiry, otherwise the remaining time rounded to the nearest second |
| AuthService.CacheSet | src/common/redis/redis.service.ts:24-42 | zero seconds stores without expiry, positive seconds expire then, a negative value is refused and swallowed |
| AuthService.SendNext | src/api/auth/auth.service.ts:33-62 | stores an unused six-digit code expiring after 300 s, touching no other email; mail failure is InternalServerError but the code stays |
| AuthService.NewUser | src/api/auth/auth.service.ts:104-110 | a new user gets role 2, status true and the text before '@' as username |
| AuthService.LoginNext | src/api/auth/auth.service.ts:68-153 | no live record, a wrong code (checked first) and a used code are Unauthorized with no change; otherwise the code is marked used keeping its TTL, an existing user is returned unchanged, a new one is created, and `expiresIn` is 604800; a new user whose generated id is taken is InternalServerError |
| AuthService.SendKeepsInvariant | src/api/auth/auth.service.ts:39-46 | sending keeps every unused code expiring |
| AuthService.LoginKeepsInvariant | src/api/auth/auth.service.ts:89-130 | login keeps every unused code expiring and the user table keyed by email |
| AuthService.MarkingLands | src/api/auth/auth.service.ts:89-95 | after a login past the code checks the record is marked used |
| AuthService.MarkedKeepsExpiry | src/api/auth/auth.service.ts:89-95 | the used code keeps its expiry to within 500 ms; with under half a second left the reading is 0 and the code is stored with no expiry; other keys are untouched |
| AuthService.CodeIsSingleUse | src/api/auth/auth.service.ts:85-87 | a code that passed once is refused as Unauthorized on a second login |
| AuthService.SentCodeLogsIn | src/api/auth/auth.service.ts:33-153 | a freshly sent code logs in within 300 s and yields the user for that email |
| AuthService.SentCodeExpires | src/api/auth/auth.service.ts:74-76 | after 300 s the sent code is refused as Unauthorized |
| AuthService.AuthStore.SendVerificationCode | src/api/auth/auth.service.ts:33-62 | result and new code store are those of `SendNext` |
| AuthService.AuthStore.EmailLogin | src/api/auth/auth.service.ts:68-153 | result, new code store and new user table are those of `LoginNext` |
| SocketGateway.Admit | src/api/socket/socket.gateway.ts:34-46 | a missing or empty user id is disconnected; otherwise the client joins `user_<id>` |
| SocketGateway.RoomsAreDistinct | src/api/socket/socket.gateway.ts:40 | two users share a room only if they are the same user |
| SocketGateway.FindChat | src/api/socket/socket.gateway.ts:60-67 | the first chat between the two users in either order, or none iff there is none |
| SocketGateway.FindChatSymmetric | src/api/socket/socket.gateway.ts:62-65 | the lookup does not depend on who sends |
| SocketGateway.MessagesOfMembers | src/api/socket/socket.gateway.ts:78-82 | exactly the messages of the chat |
| SocketGateway.ChatFor | src/api/socket/socket.gateway.ts:60-76 | the found chat, or a new chat appended with the sender as user1 |
| SocketGateway.FindChatAppended | src/api/socket/socket.gateway.ts:60-76 | a chat appended for a pair that had none is the one either user then finds |
| SocketGateway.SendNext | src/api/socket/socket.gateway.ts:54-133 | a second greeting before a valid reply is refused and stores nothing but the chat; otherwise one message is stored and the receiver's unread count rises by one where a row exists |
| SocketGateway.SendKeepsInvariants | src/api/socket/socket.gateway.ts:60-119 | sends keep every message linked to an existing chat and one chat per pair of users |
| SocketGateway.NewChatIsEmpty | src/api/socket/socket.gateway.ts:69-82 | a newly created chat has no messages |
| SocketGateway.FirstMessageAccepted | src/api/socket/socket.gateway.ts:84 | the first message between two users is always accepted |
| SocketGateway.AfterGreeting | src/api/socket/socket.gateway.ts:113-119 | after a first greeting the chat holds exactly that message from the sender |
| SocketGateway.GreetingBlocksSecond | src/api/socket/socket.gateway.ts:84-111 | a second message from the greeter before any reply is refused |
| SocketGateway.ReplyAccepted | src/api/socket/socket.gateway.ts:94 | the receiver's reply to a greeting is accepted and stored |
| SocketGateway.GreetingWaitsForReply | src/api/socket/socket.gateway.ts:84-119 | once the receiver replied, the greeter may send again |
| SocketGateway.MinutesBetween | src/api/socket/socket.gateway.ts:168 | whole minutes elapsed, truncated toward zero |
| SocketGateway.RevokeWindowExact | src/api/socket/socket.gateway.ts:170 | "more than 3 minutes" holds iff at least 240000 ms have passed |
| SocketGateway.RevokeNext | src/api/socket/socket.gateway.ts:137-192 | missing, already revoked, not the author, more than 3 minutes, in that order; otherwise only that message becomes revoked |
| SocketGateway.RevocationIsFinal | src/api/socket/socket.gateway.ts:153-157 | a revoked message stays revoked under every send and revocation and cannot be revoked again |
| SocketGateway.RevokeTwiceFails | src/api/socket/socket.gateway.ts:153-157 | revoking the same message twice fails the second time |
| SocketGateway.ChatStore.HandleSendMessage | src/api/socket/socket.gateway.ts:54-133 | result and new chats, messages and unread counts are those of `SendNext` |
| SocketGateway.ChatStore.HandleRevokeMessage | src/api/socket/socket.gateway.ts:137-192 | result and new messages are those of `RevokeNext`; chats and unread counts unchanged |
| Category.EveryCategory | src/utils/category.ts:18 | true iff every trimmed part is a `Category` value |
| Category.IsCategoryListValid | src/utils/category.ts:13-19 | true iff every comma-separated part, trimmed, is one of the eight values |
| Category.BlankListAccepted | src/utils/category.ts:9 | the empty or blank list is accepted, since '' is UNSPECIFIED |
| Category.PaddingIgnored | src/utils/category.ts:15 | whitespace around a single entry never changes the verdict |
| Category.ValidConcat | src/utils/category.ts:15-18 | `valid(a + "," + b) == valid(a) && valid(b)` |
| Category.CategoriesArePlain | src/utils/category.ts:1-10 | no value contains a comma or surrounding whitespace |
| Category.SingleCategoryValid | src/utils/category.ts:13-19 | a single category value contains no comma and is a valid list on its own |
| Category.JoinedCategoriesValid | src/utils/category.ts:13-19 | any non-empty list of values joined by commas is accepted |
| Category.LowerCaseAccepted | src/utils/category.ts:2 | "backend" is accepted |
| Category.CaseSensitive | src/utils/category.ts:18 | "Backend" is refused: matching is case-sensitive |
| QueryDto.ValidatePagination | src/common/dto/query.dto.ts:8-33 | accepts iff page >= 1 and 1 <= limit <= 100 when given; defaults 1 and 10; otherwise BadRequest |
| QueryDto.ValidatedPaginationInRange | src/common/dto/query.dto.ts:15-32 | whatever passes is a page >= 1 and a limit in 1..100 |
| QueryDto.ValidatedQueryServesDrafts | src/api/article/article.service.ts:171-173 | a validated query is a page `getDrafts` serves, with at most 100 drafts |
| QueryDto.EmptyQueryDefaults | src/common/dto/query.dto.ts:19-32 | an empty query is page 1 of 10 |
| QueryDto.ParseSort | src/common/dto/query.dto.ts:38-58 | 'latest' or absent is LATEST, 'popular' is POPULAR, anything else is refused |
| QueryDto.ValidateSortable | src/common/dto/query.dto.ts:46-58 | accepts iff the page and limit rules pass and the sort is valid; the values are those of both parts |
| ArticleDto.GeneratedIdsAreValid | src/api/article/dto/article.dto.ts:26-30 | the ids the service generates for drafts pass the 16-digit id rule |
| ArticleDto.DraftOf | src/api/article/dto/article.dto.ts:19-116 | missing fields take the defaults: untitled title, '' content, cover and summary, inactive, audit 0 |
| ArticleDto.ValidateDraftAsWritten | src/api/article/dto/article.dto.ts:82-86 | as written, the '' cover default is checked as a URL like a supplied value |
| ArticleDto.AsWrittenRefusesDraftWithoutCover | src/api/article/dto/article.dto.ts:86 | as written, every draft body without a cover image is refused |
| ArticleDto.ValidateDraft | src/api/article/dto/article.dto.ts:19-116 | accepts iff each given field meets its rule (16-digit id, title <= 255, category 1..8, tags non-empty, unique, 1..28, summary <= 100) and a given cover is a URL of <= 255 |
| ArticleDto.BareDraftTakesDefaults | src/api/article/dto/article.dto.ts:41-115 | the empty body is accepted and yields exactly the defaults |
| ArticleDto.CorrectionOnlyAffectsMissingCover | src/api/article/dto/article.dto.ts:82-86 | both validations agree whenever a cover image is sent |
| ArticleDto.ValidatedDraftMeetsService | src/api/article/article.service.ts:25-93 | after validation, the service's id and category branches follow presence exactly, and tags are distinct |
| ArticleDto.ValidatePublish | src/api/article/dto/article.dto.ts:118-193 | accepts iff id (<= 16), title (<= 255), content, category and non-empty unique tags are sent, and the optional fields meet their rules; `is_public` defaults to true |
| ArticleDto.PublishDefaultsToPublic | src/api/article/dto/article.dto.ts:190-192 | an accepted body without `is_public` publishes publicly; a body missing a required field is refused |
| ArticleDto.ValidateUpdate | src/api/article/dto/article.dto.ts:195-248 | accepts iff title <= 255, tags non-empty and unique, and cover a URL of <= 255, each when given |
| ArticleDto.ValidatedEditReplacesSentTags | src/api/article/article.service.ts:385 | after validation an edit replaces the tags exactly when a tag list was sent |

## Left out

- Transport: SSE subjects and the `clients` map, socket.io rooms and emits, and event-emitter dispatch. The like event and the mark-read request are returned as values.
- Concurrency and atomicity: `$transaction` and `Promise.all`. Each service call is one sequential step.
- Redis errors other than the refused negative expiry. Time between `get` and `getTTL` is not modelled: both read the same `now`.
- Mail delivery, JWT signing and verification, bcrypt hashing, nanoid randomness and `generateShortId`. These are inputs: a delivery flag, a verification outcome, and digit draws or ids.
- Token generation, and the password, avatar and profile defaults of a new user. None of them bears on the code store.
- The URL syntax rule (`IsUrl`) is a predicate parameter. The model relies only on its refusing the empty string.
- Type checks of the validation pipe (`IsString`, `IsNumber` on fractions, `IsInt`, the whitelist): bodies arrive already typed.
- Lengths are counted in characters, not UTF-16 code units.
- `auth.strategy.ts`, `getEditableUserProfile`, `updateUserProfile`, `getArticleWithUserInteraction`, `getAllCategories`, `getAllTags` and `accessMemberOnlyArea` are not part of this model. They are lookups or formatting without the rules modelled here.
- `handleLike`: the notification creation it performs is modelled as `CreateNext`. Delivery to the user is transport.
- Upload, controllers, modules and `main.ts` wiring. The one exception is the validation pipe's `transform: true`, which is why defaults apply before validation.
- Like counts, `is_liked` flags and image lists in the comment listings. These are lookups over the like table that the listings only display.
- The comment listing's `sort` reorders the array in place. `CommentService.SortRoots` returns the sorted sequence instead. It is proved sorted, a permutation of the input, and stable (`SortRootsStable`).
- The Prisma schema is not part of this model. So the direction of a hierarchy row is a parameter (`Direction`), and lemmas are given for both readings.
- The seed script's upsert loop. Only its constant role, grant and hierarchy lists are used.
- The notification page's own query object (page and pageSize, both at least 1) is not modelled. `GetLikeNotifications` requires what it guarantees.
- The greeting rule's `created_at` ordering: the first message is found by position in the message table, which is creation order.
- `SocketGateway.SendNext`: `updateMany` on a missing chat-user row changes nothing. So unread counts are kept only for existing (chat, user) keys, and the model does not create the chat's chat-user rows.

## Findings

| source | as written | input that shows it | evidently intended | confidence | as-written member | corrected member |
|---|---|---|---|---|---|---|
| src/api/comment/comment.service.ts:181 | replies are fetched with one `take: 2 * roots` across all roots on the page | roots r1 and r2; r1 has four earlier replies, r2 one; the cut of 4 is all r1's, so r2 shows none (`AsWrittenStarvesLaterRoot`) | each root shows its own first two replies | high, not executed | CommentService.FetchRepliesAsWritten | CommentService.FetchReplies |
| src/api/user/user.service.ts:28-33 | `_count.followers` counts every follow row targeting the user, soft-deleted ones too | "a" follows then unfollows "b": the count stays 1 while the follower list is empty (`CountAsWrittenIncludesUnfollowed`) | the count equals the size of the follower list | high, not executed | UserService.FollowersCountAsWritten | UserService.FollowersCount |
| src/api/user/user.service.ts:31 | `_count.follows`, reported as `following_count` at line 63, counts every follow row the user created, soft-deleted ones too | "a" follows then unfollows "b": "a" still shows one followee while its following list is empty (`FollowingAsWrittenIncludesUnfollowed`) | the count equals the size of the following list | high, not executed | UserService.FollowingCountAsWritten | UserService.FollowingCount |
| src/api/notification/notification.service.ts:308-314 | `totalCount` only counts rows whose sender appears on the current page | two like rows from senders s1 and s2, page size 1: page 1 reports one page, so the second row is never reachable (`AsWrittenHidesSecondPage`) | the total counts every row of the page query's `where` | high, not executed | NotificationService.TotalCountAsWritten | NotificationService.TotalCount |
| src/api/article/dto/article.dto.ts:86 | `cover_image` defaults to '' and the default is then checked by `IsUrl`, which refuses '' | any draft body without `cover_image`, such as the empty body (`AsWrittenRefusesDraftWithoutCover`) | the URL rule applies only to a cover the client sends | high, not executed | ArticleDto.ValidateDraftAsWritten | ArticleDto.ValidateDraft |
