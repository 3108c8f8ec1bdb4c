/**
 * The permissions guard (`PermissionsGuard.canActivate`): the JWT front
 * door, the permissions the handler declares, the user's resolved roles and
 * permissions, the static and dynamic separation-of-duty pairs, and the
 * final "every required permission is held" test, in that order.
 */
module PermissionsGuard {
  import opened Common
  import opened RoleGraph
  import OptionalJwt

  /** A pair of role names that must not both be held. */
  datatype ConflictPair = ConflictPair(first: RoleName, second: RoleName)

  /** Two names conflict in `roles` when they differ and both are held. */
  predicate Violates(roles: set<RoleName>, c: ConflictPair) {
    c.first != c.second && c.first in roles && c.second in roles
  }

  /** `Array.from(roles).filter(r => pair.includes(r)).length`. */
  function HeldOfPair(roles: set<RoleName>, c: ConflictPair): nat {
    |roles * {c.first, c.second}|
  }

  lemma HeldOfPairBound(roles: set<RoleName>, c: ConflictPair)
    ensures HeldOfPair(roles, c) <= 1 <==> !Violates(roles, c)
  {
    var both := roles * {c.first, c.second};
    if Violates(roles, c) {
      assert both == {c.first, c.second};
      assert |{c.first, c.second}| == 2;
    } else if c.first in roles {
      assert both == {c.first};
    } else if c.second in roles {
      assert both == {c.second};
    } else {
      assert both == {};
    }
  }

  /**
   * `validateConstraints`: every pair has at most one of its names among
   * the roles.
   */
  function ValidateConstraints(roles: set<RoleName>, constraints: seq<ConflictPair>): (ok: bool)
    ensures ok <==> forall i :: 0 <= i < |constraints| ==> !Violates(roles, constraints[i])
  {
    if constraints == [] then true
    else
      HeldOfPairBound(roles, constraints[0]);
      HeldOfPair(roles, constraints[0]) <= 1 && ValidateConstraints(roles, constraints[1..])
  }

  function Swapped(c: ConflictPair): ConflictPair {
    ConflictPair(c.second, c.first)
  }

  /**
   * The pair list is a set of unordered pairs: listing the pairs in another
   * order, or either way round, never changes the verdict.
   */
  lemma ConstraintsUnordered(roles: set<RoleName>, cs1: seq<ConflictPair>, cs2: seq<ConflictPair>)
    requires forall c :: c in cs1 ==> c in cs2 || Swapped(c) in cs2
    requires forall c :: c in cs2 ==> c in cs1 || Swapped(c) in cs1
    ensures ValidateConstraints(roles, cs1) == ValidateConstraints(roles, cs2)
  {
    if !ValidateConstraints(roles, cs1) {
      var i :| 0 <= i < |cs1| && Violates(roles, cs1[i]);
      assert Violates(roles, Swapped(cs1[i]));
    }
    if !ValidateConstraints(roles, cs2) {
      var i :| 0 <= i < |cs2| && Violates(roles, cs2[i]);
      assert Violates(roles, Swapped(cs2[i]));
    }
  }

  const SsdConstraints: seq<ConflictPair> := [ConflictPair("MODERATOR", "ADMIN")]
  const DsdConstraints: seq<ConflictPair> := [ConflictPair("USER", "MEMBER")]

  /** Static separation of duty: never MODERATOR and ADMIN together. */
  function CheckSsd(roles: set<RoleName>): (ok: bool)
    ensures ok <==> !("MODERATOR" in roles && "ADMIN" in roles)
  {
    ValidateConstraints(roles, SsdConstraints)
  }

  /** Dynamic separation of duty: never USER and MEMBER together. */
  function CheckDsd(roles: set<RoleName>): (ok: bool)
    ensures ok <==> !("USER" in roles && "MEMBER" in roles)
  {
    ValidateConstraints(roles, DsdConstraints)
  }

  /**
   * The tables the guard reads: each user's `role_id` (null allowed) and the
   * role tables.
   */
  datatype GuardDb = GuardDb(users: map<string, Option<RoleId>>, roleStore: RoleStore)

  /** `!user || !user.role`: the user row or its role cannot be loaded. */
  predicate UserOrRoleMissing(db: GuardDb, userId: string) {
    userId !in db.users || db.users[userId].None? || db.users[userId].value !in db.roleStore.roles
  }

  function AssignedRole(db: GuardDb, userId: string): RoleId
    requires !UserOrRoleMissing(db, userId)
  {
    db.users[userId].value
  }

  /** What the guard resolves for a user: the roles and permissions its traversal reaches. */
  ghost function ResolvedRoles(db: GuardDb, dir: Direction, userId: string): set<RoleName>
    requires UniqueNames(db.roleStore) && !UserOrRoleMissing(db, userId)
  {
    var id := AssignedRole(db, userId);
    Closure(LoadDepthOne(db.roleStore, dir, id), db.roleStore.roles[id].name)
  }

  ghost function ResolvedPermissions(db: GuardDb, dir: Direction, userId: string): set<PermissionName>
    requires UniqueNames(db.roleStore) && !UserOrRoleMissing(db, userId)
  {
    GrantsOf(LoadDepthOne(db.roleStore, dir, AssignedRole(db, userId)), ResolvedRoles(db, dir, userId))
  }

  /** Why a request was refused; `JwtRejected` is the `return false` path, the rest are 403 exceptions. */
  datatype DenyReason =
    | JwtRejected
    | Unauthenticated
    | UserOrRoleNotFound
    | StaticConflict
    | DynamicConflict
    | InsufficientPermission

  datatype Decision = Allow | Deny(reason: DenyReason)

  /** The request as the guard sees it. */
  datatype Request = Request(header: Option<string>, verification: OptionalJwt.Verification)

  predicate HoldsAll(permissions: set<PermissionName>, required: seq<PermissionName>) {
    forall i :: 0 <= i < |required| ==> required[i] in permissions
  }

  /**
   * The decision `canActivate` reaches. `required` is the handler's declared
   * permission list, `None` when nothing is declared; a declared empty list
   * is still a declaration.
   */
  ghost function Authorize(req: Request, required: Option<seq<PermissionName>>, db: GuardDb, dir: Direction): Decision
    requires UniqueNames(db.roleStore)
  {
    if !OptionalJwt.CanActivate(req.header, req.verification) then Deny(JwtRejected)
    else if required.None? then Allow
    else
      var user := OptionalJwt.RequestUser(req.header, req.verification);
      if user.None? then Deny(Unauthenticated)
      else if UserOrRoleMissing(db, user.value.id) then Deny(UserOrRoleNotFound)
      else DecideResolved(ResolvedRoles(db, dir, user.value.id), ResolvedPermissions(db, dir, user.value.id), required.value)
  }

  /** The checks that follow a successful resolution, in their order. */
  function DecideResolved(roles: set<RoleName>, permissions: set<PermissionName>, required: seq<PermissionName>): Decision {
    if !CheckSsd(roles) then Deny(StaticConflict)
    else if !CheckDsd(roles) then Deny(DynamicConflict)
    else if HoldsAll(permissions, required) then Allow
    else Deny(InsufficientPermission)
  }

  /** `fetchUserRolesAndPermissions`: load the user's role graph and traverse it. */
  method FetchUserRolesAndPermissions(db: GuardDb, dir: Direction, userId: string)
    returns (r: Result<(set<RoleName>, set<PermissionName>), DenyReason>)
    requires UniqueNames(db.roleStore)
    ensures UserOrRoleMissing(db, userId) <==> r.Err?
    ensures r.Err? ==> r.error == UserOrRoleNotFound
    ensures r.Ok? ==> r.value.0 == ResolvedRoles(db, dir, userId) && r.value.1 == ResolvedPermissions(db, dir, userId)
  {
    if UserOrRoleMissing(db, userId) {
      return Err(UserOrRoleNotFound);
    }
    var id := AssignedRole(db, userId);
    var g := LoadDepthOne(db.roleStore, dir, id);
    var roles, permissions, _ := CollectRolesAndPermissions(g, db.roleStore.roles[id].name);
    return Ok((roles, permissions));
  }

  /** `canActivate`, step by step. */
  method CanActivate(req: Request, required: Option<seq<PermissionName>>, db: GuardDb, dir: Direction)
    returns (d: Decision)
    requires UniqueNames(db.roleStore)
    ensures d == Authorize(req, required, db, dir)
  {
    var isJwtValid := OptionalJwt.CanActivate(req.header, req.verification);
    if !isJwtValid {
      return Deny(JwtRejected);
    }
    if required.None? {
      return Allow;
    }
    var user := OptionalJwt.RequestUser(req.header, req.verification);
    if user.None? {
      return Deny(Unauthenticated);
    }
    var fetched := FetchUserRolesAndPermissions(db, dir, user.value.id);
    if fetched.Err? {
      return Deny(fetched.error);
    }
    d := DecideResolved(fetched.value.0, fetched.value.1, required.value);
  }

  // ---------------------------------------------------------------------
  // The decision order.

  /** A rejected JWT step denies whatever else holds. */
  lemma JwtFirst(req: Request, required: Option<seq<PermissionName>>, db: GuardDb, dir: Direction)
    requires UniqueNames(db.roleStore)
    requires !OptionalJwt.HeaderAbsent(req.header) && !req.verification.baseAllows
    ensures Authorize(req, required, db, dir) == Deny(JwtRejected)
  {
  }

  /** Nothing declared: allowed, even for a request that carries no user. */
  lemma UndeclaredAllows(req: Request, db: GuardDb, dir: Direction)
    requires UniqueNames(db.roleStore) && OptionalJwt.CanActivate(req.header, req.verification)
    ensures Authorize(req, None, db, dir) == Allow
  {
  }

  /**
   * A declared list, even an empty one, needs a user: a request without an
   * Authorization header passes the front door and is then refused.
   */
  lemma DeclaredNeedsUser(header: Option<string>, v: OptionalJwt.Verification, required: seq<PermissionName>, db: GuardDb, dir: Direction)
    requires UniqueNames(db.roleStore) && OptionalJwt.HeaderAbsent(header)
    ensures Authorize(Request(header, v), Some(required), db, dir) == Deny(Unauthenticated)
  {
  }

  /**
   * Once a user is resolved, a static conflict denies before a dynamic one,
   * and either denies whatever permissions are held or required.
   */
  lemma ConflictsBeforePermissions(req: Request, required: seq<PermissionName>, db: GuardDb, dir: Direction)
    requires UniqueNames(db.roleStore) && OptionalJwt.CanActivate(req.header, req.verification)
    requires var user := OptionalJwt.RequestUser(req.header, req.verification);
      user.Some? && !UserOrRoleMissing(db, user.value.id)
    ensures var roles := ResolvedRoles(db, dir, OptionalJwt.RequestUser(req.header, req.verification).value.id);
      && ("MODERATOR" in roles && "ADMIN" in roles ==> Authorize(req, Some(required), db, dir) == Deny(StaticConflict))
      && (!("MODERATOR" in roles && "ADMIN" in roles) && "USER" in roles && "MEMBER" in roles ==>
            Authorize(req, Some(required), db, dir) == Deny(DynamicConflict))
  {
  }

  /**
   * Past the conflict checks, access is granted exactly when every required
   * permission is held; an empty declared list is then granted.
   */
  lemma AllowIffAllHeld(req: Request, required: seq<PermissionName>, db: GuardDb, dir: Direction)
    requires UniqueNames(db.roleStore) && OptionalJwt.CanActivate(req.header, req.verification)
    requires var user := OptionalJwt.RequestUser(req.header, req.verification);
      && user.Some? && !UserOrRoleMissing(db, user.value.id)
      && CheckSsd(ResolvedRoles(db, dir, user.value.id)) && CheckDsd(ResolvedRoles(db, dir, user.value.id))
    ensures var id := OptionalJwt.RequestUser(req.header, req.verification).value.id;
      Authorize(req, Some(required), db, dir) == Allow <==>
        forall p :: p in required ==> p in ResolvedPermissions(db, dir, id)
    ensures Authorize(req, Some([]), db, dir) == Allow
  {
  }

  /** Every refusal other than the JWT step's is a 403 raised after a permission list was declared. */
  lemma DenialsNeedDeclaration(req: Request, required: Option<seq<PermissionName>>, db: GuardDb, dir: Direction)
    requires UniqueNames(db.roleStore)
    requires Authorize(req, required, db, dir).Deny?
    ensures Authorize(req, required, db, dir).reason != JwtRejected ==> required.Some?
  {
  }

  /** A user whose role has a single loaded link holds that role, the parent, and their grants. */
  lemma ResolvedOneLink(db: GuardDb, dir: Direction, userId: string, parent: RoleId)
    requires UniqueNames(db.roleStore) && !UserOrRoleMissing(db, userId)
    requires DirectParents(db.roleStore, dir, AssignedRole(db, userId)) == [parent]
    ensures var rs := db.roleStore.roles; var id := AssignedRole(db, userId);
      && ResolvedRoles(db, dir, userId) == {rs[id].name, rs[parent].name}
      && ResolvedPermissions(db, dir, userId) == rs[id].grants + rs[parent].grants
  {
    OneLinkClosure(db.roleStore, dir, AssignedRole(db, userId), parent);
  }

  /** For a verified user whose role loads, the decision is the one the resolved sets dictate. */
  lemma AuthorizeResolved(req: Request, required: seq<PermissionName>, db: GuardDb, dir: Direction, userId: string)
    requires UniqueNames(db.roleStore) && OptionalJwt.CanActivate(req.header, req.verification)
    requires OptionalJwt.RequestUser(req.header, req.verification) == Some(OptionalJwt.JwtPayload(userId))
    requires !UserOrRoleMissing(db, userId)
    ensures Authorize(req, Some(required), db, dir) ==
      DecideResolved(ResolvedRoles(db, dir, userId), ResolvedPermissions(db, dir, userId), required)
  {
  }

  /** Past both conflict checks, the resolved decision is "every required permission is held". */
  lemma DecideAfterConflicts(roles: set<RoleName>, permissions: set<PermissionName>, required: seq<PermissionName>)
    requires CheckSsd(roles) && CheckDsd(roles)
    ensures DecideResolved(roles, permissions, required) == Allow <==>
      forall i :: 0 <= i < |required| ==> required[i] in permissions
  {
  }

  /**
   * For a verified user whose resolved roles pass both conflict checks, the
   * guard allows exactly the lists made of resolved permissions.
   */
  lemma AllowedExactly(req: Request, required: seq<PermissionName>, db: GuardDb, dir: Direction, userId: string,
                       roles: set<RoleName>, permissions: set<PermissionName>)
    requires UniqueNames(db.roleStore) && OptionalJwt.CanActivate(req.header, req.verification)
    requires OptionalJwt.RequestUser(req.header, req.verification) == Some(OptionalJwt.JwtPayload(userId))
    requires !UserOrRoleMissing(db, userId)
    requires ResolvedRoles(db, dir, userId) == roles && ResolvedPermissions(db, dir, userId) == permissions
    requires CheckSsd(roles) && CheckDsd(roles)
    ensures Authorize(req, Some(required), db, dir) == Allow <==> HoldsAll(permissions, required)
  {
    AuthorizeResolved(req, required, db, dir, userId);
    DecideAfterConflicts(roles, permissions, required);
  }
}
