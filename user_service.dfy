/**
 * The user service's role assignment and follow relation: `updateUserRole`
 * with its assignment-time separation-of-duty check, `followUser`,
 * `unFollowUser`, the follower and following lists, and the follow state
 * `getUserInfo` reports.
 *
 * The user, role and follow tables are fields of `UserStore`; each service
 * call is one step on them, specified by a pure function of the old tables
 * so that sequences of calls can be reasoned about.
 */
module UserService {
  import opened Common
  import Guard = PermissionsGuard

  type UserId = string
  type RoleId = int

  /** A user_follow row; rows are soft-deleted, never removed. */
  datatype FollowRow = FollowRow(isDeleted: bool, createdAt: int)

  /** Follow rows keyed by (user_id, target_user_id). */
  type Follows = map<(UserId, UserId), FollowRow>

  // ---------------------------------------------------------------------
  // Assignment-time separation of duty.

  const SsdPairs: seq<(string, string)> := [("MODERATOR", "ADMIN")]

  /** No pair has the current role on one side and the new role on the other. */
  function PairsAllow(pairs: seq<(string, string)>, current: string, next: string): (ok: bool)
    ensures ok <==> forall i :: 0 <= i < |pairs| ==>
      !((current == pairs[i].0 && next == pairs[i].1) || (current == pairs[i].1 && next == pairs[i].0))
  {
    if pairs == [] then true
    else
      var (a, b) := pairs[0];
      !((current == a && next == b) || (current == b && next == a)) && PairsAllow(pairs[1..], current, next)
  }

  /**
   * `checkSSD`: a user without a loadable role may take any role; otherwise
   * moving between MODERATOR and ADMIN, in either direction, is refused.
   */
  function CheckSsd(current: Option<string>, next: string): (ok: bool)
    ensures ok <==> !((current == Some("MODERATOR") && next == "ADMIN") || (current == Some("ADMIN") && next == "MODERATOR"))
  {
    current.None? || PairsAllow(SsdPairs, current.value, next)
  }

  lemma CheckSsdSymmetric(a: string, b: string)
    ensures CheckSsd(Some(a), b) == CheckSsd(Some(b), a)
  {
  }

  /**
   * The assignment-time check is the guard's static check applied to the
   * current and the new role names taken together.
   */
  lemma CheckSsdAgreesWithGuard(a: string, b: string)
    ensures CheckSsd(Some(a), b) == Guard.CheckSsd({a, b})
  {
  }

  /** The name of the user's current role, when the user and the role both load. */
  function CurrentRoleName(users: map<UserId, Option<RoleId>>, roles: map<RoleId, string>, userId: UserId): Option<string> {
    if userId in users && users[userId].Some? && users[userId].value in roles
    then Some(roles[users[userId].value])
    else None
  }

  /**
   * `updateUserRole` on the user table. `writeFails` stands for the
   * database raising an unexpected error on the final update.
   */
  function UpdateRoleNext(users: map<UserId, Option<RoleId>>, roles: map<RoleId, string>,
                          userId: UserId, newRoleId: RoleId, writeFails: bool)
    : (out: (Result<(), HttpError>, map<UserId, Option<RoleId>>))
    ensures userId !in users ==> out.0 == Err(NotFound)
    ensures userId in users && newRoleId !in roles ==> out.0 == Err(NotFound)
    ensures userId in users && newRoleId in roles && !CheckSsd(CurrentRoleName(users, roles, userId), roles[newRoleId])
      ==> out.0 == Err(BadRequest)
    ensures out.0.Ok? <==>
      userId in users && newRoleId in roles && CheckSsd(CurrentRoleName(users, roles, userId), roles[newRoleId]) && !writeFails
    ensures out.0.Ok? ==> out.1 == users[userId := Some(newRoleId)]
    ensures out.0.Err? ==> out.1 == users && out.0.error in {NotFound, BadRequest, InternalServerError}
  {
    var raised: Option<Raised> :=
      if userId !in users then Some(Thrown(NotFound))
      else if newRoleId !in roles then Some(Thrown(NotFound))
      else if !CheckSsd(CurrentRoleName(users, roles, userId), roles[newRoleId]) then Some(Thrown(BadRequest))
      else if writeFails then Some(Unexpected)
      else None;
    if raised.Some? then (Err(Rethrow(raised.value)), users) else (Ok(()), users[userId := Some(newRoleId)])
  }

  // ---------------------------------------------------------------------
  // The follow relation.

  /** `is_following`: a follow row exists and is not deleted. */
  predicate IsFollowing(follows: Follows, u: UserId, t: UserId) {
    (u, t) in follows && !follows[(u, t)].isDeleted
  }

  /** `get_following_list`: the targets of `u`'s non-deleted rows. */
  function FollowingList(follows: Follows, u: UserId): (targets: set<UserId>)
    ensures forall t :: t in targets <==> IsFollowing(follows, u, t)
  {
    set k | k in follows && k.0 == u && !follows[k].isDeleted :: k.1
  }

  /** `get_follower_list`: the users whose non-deleted rows target `t`. */
  function FollowerList(follows: Follows, t: UserId): (followers: set<UserId>)
    ensures forall u :: u in followers <==> IsFollowing(follows, u, t)
  {
    set k | k in follows && k.1 == t && !follows[k].isDeleted :: k.0
  }

  /** `followUser` on the follow table, given the ids in the user table. */
  function FollowNext(users: set<UserId>, follows: Follows, u: UserId, t: UserId, now: int)
    : (out: (Result<(), HttpError>, Follows))
    ensures u == t ==> out.0 == Err(BadRequest)
    ensures u != t && t !in users ==> out.0 == Err(NotFound)
    ensures u != t && t in users && (u, t) in follows ==> out.0 == Err(BadRequest)
    ensures out.0.Ok? <==> u != t && t in users && (u, t) !in follows
    ensures out.0.Ok? ==> out.1 == follows[(u, t) := FollowRow(false, now)]
    ensures out.0.Err? ==> out.1 == follows
  {
    if u == t then (Err(BadRequest), follows)
    else if t !in users then (Err(NotFound), follows)
    else if (u, t) in follows then (Err(BadRequest), follows)
    else (Ok(()), follows[(u, t) := FollowRow(false, now)])
  }

  /** `unFollowUser`: soft-deletes an active row, keeping its creation time. */
  function UnfollowNext(follows: Follows, u: UserId, t: UserId): (out: (Result<(), HttpError>, Follows))
    ensures (u, t) !in follows ==> out.0 == Err(NotFound)
    ensures (u, t) in follows && follows[(u, t)].isDeleted ==> out.0 == Err(BadRequest)
    ensures out.0.Ok? <==> IsFollowing(follows, u, t)
    ensures out.0.Ok? ==> out.1 == follows[(u, t) := FollowRow(true, follows[(u, t)].createdAt)]
    ensures out.0.Err? ==> out.1 == follows
  {
    if (u, t) !in follows then (Err(NotFound), follows)
    else if follows[(u, t)].isDeleted then (Err(BadRequest), follows)
    else (Ok(()), follows[(u, t) := follows[(u, t)].(isDeleted := true)])
  }

  /** A successful follow puts the pair in both lists and touches no other pair. */
  lemma FollowAddsToLists(users: set<UserId>, follows: Follows, u: UserId, t: UserId, now: int)
    requires FollowNext(users, follows, u, t, now).0.Ok?
    ensures var after := FollowNext(users, follows, u, t, now).1;
      && FollowingList(after, u) == FollowingList(follows, u) + {t}
      && FollowerList(after, t) == FollowerList(follows, t) + {u}
      && forall a, b :: (a, b) != (u, t) ==> IsFollowing(after, a, b) == IsFollowing(follows, a, b)
  {
  }

  /** A successful unfollow removes the pair from both lists and touches no other pair. */
  lemma UnfollowRemovesFromLists(follows: Follows, u: UserId, t: UserId)
    requires UnfollowNext(follows, u, t).0.Ok?
    ensures var after := UnfollowNext(follows, u, t).1;
      && FollowingList(after, u) == FollowingList(follows, u) - {t}
      && FollowerList(after, t) == FollowerList(follows, t) - {u}
      && forall a, b :: (a, b) != (u, t) ==> IsFollowing(after, a, b) == IsFollowing(follows, a, b)
  {
  }

  /**
   * Unfollowing leaves the soft-deleted row behind, so following the same
   * user again is refused as "already followed", and so is a second unfollow.
   */
  lemma NoRefollowAfterUnfollow(users: set<UserId>, follows: Follows, u: UserId, t: UserId, now: int)
    requires UnfollowNext(follows, u, t).0.Ok?
    ensures var after := UnfollowNext(follows, u, t).1;
      && FollowNext(users, after, u, t, now).0 == Err(if u == t then BadRequest else if t in users then BadRequest else NotFound)
      && UnfollowNext(after, u, t).0 == Err(BadRequest)
  {
  }

  /** Follow rows are never removed: every key survives every step. */
  lemma RowsPersist(users: set<UserId>, follows: Follows, u: UserId, t: UserId, now: int)
    ensures follows.Keys <= FollowNext(users, follows, u, t, now).1.Keys
    ensures follows.Keys == UnfollowNext(follows, u, t).1.Keys
  {
  }

  // ---------------------------------------------------------------------
  // getUserInfo's follow state and counts.

  /** `_count.followers` as the include computes it: every row targeting `t`, deleted ones too. */
  function FollowersCountAsWritten(follows: Follows, t: UserId): nat {
    |set k | k in follows && k.1 == t|
  }

  /** The follower count the profile evidently means: the size of the follower list. */
  function FollowersCount(follows: Follows, t: UserId): (n: nat)
    ensures n == |FollowerList(follows, t)|
  {
    |FollowerList(follows, t)|
  }

  /** `_count.follows` as the include computes it: every row `u` created, deleted ones too. */
  function FollowingCountAsWritten(follows: Follows, u: UserId): nat {
    |set k | k in follows && k.0 == u|
  }

  /** The following count the profile evidently means: the size of the following list. */
  function FollowingCount(follows: Follows, u: UserId): (n: nat)
    ensures n == |FollowingList(follows, u)|
  {
    |FollowingList(follows, u)|
  }

  /** Rows that all target `t` have as many followers as rows. */
  lemma {:induction false} FollowersOfRows(rows: set<(UserId, UserId)>, t: UserId)
    requires forall k :: k in rows ==> k.1 == t
    ensures |set k | k in rows :: k.0| == |rows|
    decreases |rows|
  {
    if rows != {} {
      var x :| x in rows;
      var rest := rows - {x};
      FollowersOfRows(rest, t);
      forall y | y in rest
        ensures y.0 != x.0
      {
        assert y != x && y.1 == x.1;
      }
      assert (set k | k in rows :: k.0) == (set k | k in rest :: k.0) + {x.0};
    }
  }

  /** Rows that all come from `u` have as many targets as rows. */
  lemma {:induction false} TargetsOfRows(rows: set<(UserId, UserId)>, u: UserId)
    requires forall k :: k in rows ==> k.0 == u
    ensures |set k | k in rows :: k.1| == |rows|
    decreases |rows|
  {
    if rows != {} {
      var x :| x in rows;
      var rest := rows - {x};
      TargetsOfRows(rest, u);
      forall y | y in rest
        ensures y.1 != x.1
      {
        assert y != x && y.0 == x.0;
      }
      assert (set k | k in rows :: k.1) == (set k | k in rest :: k.1) + {x.1};
    }
  }

  /**
   * Each as-written count is at least the corrected one, and exceeds it
   * exactly when one of the user's rows on that side is soft-deleted.
   */
  lemma AsWrittenCountsDeletedRows(follows: Follows, u: UserId)
    ensures FollowersCountAsWritten(follows, u) >= FollowersCount(follows, u)
    ensures FollowersCountAsWritten(follows, u) > FollowersCount(follows, u) <==>
      exists k :: k in follows && k.1 == u && follows[k].isDeleted
    ensures FollowingCountAsWritten(follows, u) >= FollowingCount(follows, u)
    ensures FollowingCountAsWritten(follows, u) > FollowingCount(follows, u) <==>
      exists k :: k in follows && k.0 == u && follows[k].isDeleted
  {
    FollowersAsWritten(follows, u);
    FollowingAsWritten(follows, u);
  }

  lemma FollowersAsWritten(follows: Follows, u: UserId)
    ensures FollowersCountAsWritten(follows, u) >= FollowersCount(follows, u)
    ensures FollowersCountAsWritten(follows, u) > FollowersCount(follows, u) <==>
      exists k :: k in follows && k.1 == u && follows[k].isDeleted
  {
    var all := set k | k in follows && k.1 == u;
    var live := set k | k in follows && k.1 == u && !follows[k].isDeleted;
    assert FollowerList(follows, u) == set k | k in live :: k.0;
    FollowersOfRows(live, u);
    SubsetCount(live, all);
    if exists k :: k in follows && k.1 == u && follows[k].isDeleted {
      var k :| k in follows && k.1 == u && follows[k].isDeleted;
      assert k in all && k !in live;
    }
    if exists x :: x in all && x !in live {
      var x :| x in all && x !in live;
      assert x in follows && x.1 == u && follows[x].isDeleted;
    }
  }

  lemma FollowingAsWritten(follows: Follows, u: UserId)
    ensures FollowingCountAsWritten(follows, u) >= FollowingCount(follows, u)
    ensures FollowingCountAsWritten(follows, u) > FollowingCount(follows, u) <==>
      exists k :: k in follows && k.0 == u && follows[k].isDeleted
  {
    var all := set k | k in follows && k.0 == u;
    var live := set k | k in follows && k.0 == u && !follows[k].isDeleted;
    assert FollowingList(follows, u) == set k | k in live :: k.1;
    TargetsOfRows(live, u);
    SubsetCount(live, all);
    if exists k :: k in follows && k.0 == u && follows[k].isDeleted {
      var k :| k in follows && k.0 == u && follows[k].isDeleted;
      assert k in all && k !in live;
    }
    if exists x :: x in all && x !in live {
      var x :| x in all && x !in live;
      assert x in follows && x.0 == u && follows[x].isDeleted;
    }
  }

  /** A subset is no larger, and strictly smaller exactly when something is missing. */
  lemma SubsetCount<T>(a: set<T>, b: set<T>)
    requires a <= b
    ensures |a| <= |b|
    ensures |a| < |b| <==> exists x :: x in b && x !in a
  {
    assert b == a + (b - a);
    if exists x :: x in b && x !in a {
      var x :| x in b && x !in a;
      assert x in b - a;
    } else {
      assert b - a == {};
    }
  }

  /** After "a" follows and unfollows "b", the as-written count still shows "a" following one user. */
  lemma FollowingAsWrittenIncludesUnfollowed()
    ensures var follows := map[("a", "b") := FollowRow(true, 0)];
      FollowingCountAsWritten(follows, "a") == 1 && FollowingList(follows, "a") == {}
  {
    var follows := map[("a", "b") := FollowRow(true, 0)];
    assert (set k | k in follows && k.0 == "a") == {("a", "b")};
    assert FollowingList(follows, "a") == {} by {
      assert !IsFollowing(follows, "a", "b");
    }
  }

  /** After "a" follows and unfollows "b", the as-written count still shows one follower. */
  lemma CountAsWrittenIncludesUnfollowed()
    ensures var follows := map[("a", "b") := FollowRow(true, 0)];
      FollowersCountAsWritten(follows, "b") == 1 && FollowerList(follows, "b") == {}
  {
    var follows := map[("a", "b") := FollowRow(true, 0)];
    assert (set k | k in follows && k.1 == "b") == {("a", "b")};
    assert FollowerList(follows, "b") == {} by {
      assert !IsFollowing(follows, "a", "b");
    }
  }

  /** The corrected count follows follows and unfollows one for one. */
  lemma CountTracksFollowing(users: set<UserId>, follows: Follows, u: UserId, t: UserId, now: int)
    ensures FollowNext(users, follows, u, t, now).0.Ok? ==>
      FollowersCount(FollowNext(users, follows, u, t, now).1, t) == FollowersCount(follows, t) + 1
    ensures UnfollowNext(follows, u, t).0.Ok? ==>
      FollowersCount(UnfollowNext(follows, u, t).1, t) == FollowersCount(follows, t) - 1
  {
    if FollowNext(users, follows, u, t, now).0.Ok? {
      FollowAddsToLists(users, follows, u, t, now);
      assert u !in FollowerList(follows, t);
    }
    if UnfollowNext(follows, u, t).0.Ok? {
      UnfollowRemovesFromLists(follows, u, t);
      assert u in FollowerList(follows, t);
    }
  }

  datatype UserInfo = UserInfo(isFollowing: bool, followersCount: nat, followingCount: nat)

  /**
   * The follow part of `getUserInfo`: an empty or unknown id is NotFound;
   * `is_following` is computed only for a non-empty caller id.
   */
  function GetUserInfo(users: set<UserId>, follows: Follows, userId: UserId, current: Option<UserId>)
    : (r: Result<UserInfo, HttpError>)
    ensures r.Err? <==> userId == "" || userId !in users
    ensures r.Err? ==> r.error == NotFound
    ensures r.Ok? ==> (r.value.isFollowing <==> current.Some? && current.value != "" && IsFollowing(follows, current.value, userId))
    ensures r.Ok? ==> r.value.followersCount == |FollowerList(follows, userId)| && r.value.followingCount == |FollowingList(follows, userId)|
  {
    if userId == "" || userId !in users then Err(NotFound)
    else
      var following := current.Some? && current.value != "" && IsFollowing(follows, current.value, userId);
      Ok(UserInfo(following, FollowersCount(follows, userId), FollowingCount(follows, userId)))
  }

  // ---------------------------------------------------------------------
  // The tables and the service calls that change them.

  class UserStore {
    var users: map<UserId, Option<RoleId>>
    var roles: map<RoleId, string>
    var follows: Follows

    constructor(users0: map<UserId, Option<RoleId>>, roles0: map<RoleId, string>, follows0: Follows)
      ensures users == users0 && roles == roles0 && follows == follows0
    {
      users, roles, follows := users0, roles0, follows0;
    }

    method UpdateUserRole(userId: UserId, newRoleId: RoleId, writeFails: bool) returns (r: Result<(), HttpError>)
      modifies this
      ensures (r, users) == UpdateRoleNext(old(users), old(roles), userId, newRoleId, writeFails)
      ensures roles == old(roles) && follows == old(follows)
    {
      if userId !in users {
        return Err(Rethrow(Thrown(NotFound)));
      }
      if newRoleId !in roles {
        return Err(Rethrow(Thrown(NotFound)));
      }
      if !CheckSsd(CurrentRoleName(users, roles, userId), roles[newRoleId]) {
        return Err(Rethrow(Thrown(BadRequest)));
      }
      if writeFails {
        return Err(Rethrow(Unexpected));
      }
      users := users[userId := Some(newRoleId)];
      return Ok(());
    }

    method FollowUser(u: UserId, t: UserId, now: int) returns (r: Result<(), HttpError>)
      modifies this
      ensures (r, follows) == FollowNext(old(users).Keys, old(follows), u, t, now)
      ensures users == old(users) && roles == old(roles)
    {
      if u == t {
        return Err(BadRequest);
      }
      if t !in users {
        return Err(NotFound);
      }
      if (u, t) in follows {
        return Err(BadRequest);
      }
      follows := follows[(u, t) := FollowRow(false, now)];
      return Ok(());
    }

    method UnFollowUser(u: UserId, t: UserId) returns (r: Result<(), HttpError>)
      modifies this
      ensures (r, follows) == UnfollowNext(old(follows), u, t)
      ensures users == old(users) && roles == old(roles)
    {
      if (u, t) !in follows {
        return Err(NotFound);
      }
      var row := follows[(u, t)];
      if row.isDeleted {
        return Err(BadRequest);
      }
      follows := follows[(u, t) := FollowRow(true, row.createdAt)];
      return Ok(());
    }
  }
}
