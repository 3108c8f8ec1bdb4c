/**
 * The role tables the seed script installs (five roles, their direct grants,
 * and the chain USER -> MEMBER -> MODERATOR -> ADMIN -> SUPER_ADMIN), and
 * what the permissions guard makes of them under each reading of the
 * hierarchy's direction.
 */
module Seed {
  import opened Common
  import opened RoleGraph
  import opened PermissionsGuard
  import OptionalJwt

  /** The seeded role with the given id and its direct grants. */
  function SeedRole(id: RoleId): RoleRow {
    if id == 1 then
      RoleRow("USER", {"CREATE_ARTICLE", "EDIT_OWN_ARTICLE", "DELETE_OWN_ARTICLE", "COMMENT",
                       "DELETE_OWN_COMMENT", "DELETE_COMMENT_IN_OWN_ARTICLE"})
    else if id == 2 then RoleRow("MEMBER", {"POST_PREMIUM_ARTICLE", "ACCESS_MEMBER_ONLY_AREA"})
    else if id == 3 then RoleRow("MODERATOR", {"MODERATE_ARTICLE"})
    else if id == 4 then RoleRow("ADMIN", {"ADMINISTER"})
    else RoleRow("SUPER_ADMIN", {"DELETE_COMMENT"})
  }

  const SeedIds: set<RoleId> := {1, 2, 3, 4, 5}

  const SeedRoles: map<RoleId, RoleRow> := map id | id in SeedIds :: SeedRole(id)

  lemma SeedRow(id: RoleId)
    requires id in SeedIds
    ensures id in SeedRoles && SeedRoles[id] == SeedRole(id)
  {
  }

  const SeedHierarchy: seq<HierarchyRow> := [
    HierarchyRow(1, 2), HierarchyRow(2, 3), HierarchyRow(3, 4), HierarchyRow(4, 5)
  ]

  const SeedStore: RoleStore := RoleStore(SeedRoles, SeedHierarchy)

  /** The role a newly registered user receives. */
  const NewUserRoleId: RoleId := 2

  /** A database holding one user "u" with the given role. */
  function OneUser(role: RoleId): GuardDb {
    GuardDb(map["u" := Some(role)], SeedStore)
  }

  /** A request whose token verified as user "u". */
  const AsU: Request := Request(Some("Bearer t"), OptionalJwt.Verification(false, Some(OptionalJwt.JwtPayload("u")), true))

  /** The seeded user "u" and its request pass everything before role resolution. */
  lemma SeededUser(role: RoleId)
    requires role in SeedRoles
    ensures UniqueNames(OneUser(role).roleStore) && OneUser(role).roleStore == SeedStore
    ensures !UserOrRoleMissing(OneUser(role), "u") && AssignedRole(OneUser(role), "u") == role
    ensures OptionalJwt.CanActivate(AsU.header, AsU.verification)
    ensures OptionalJwt.RequestUser(AsU.header, AsU.verification) == Some(OptionalJwt.JwtPayload("u"))
  {
  }

  /** The target of `row` when `id` owns it under `dir`. */
  function Hit(dir: Direction, row: HierarchyRow, id: RoleId): seq<RoleId> {
    if LinkOwner(dir, row) == id then [LinkTarget(dir, row)] else []
  }

  /** The seeded hierarchy, row by row: every target is a seeded role. */
  lemma SeedParents(dir: Direction, id: RoleId)
    ensures DirectParents(SeedStore, dir, id) ==
      Hit(dir, HierarchyRow(1, 2), id) + Hit(dir, HierarchyRow(2, 3), id) +
      Hit(dir, HierarchyRow(3, 4), id) + Hit(dir, HierarchyRow(4, 5), id)
  {
    var h := SeedHierarchy;
    assert 1 in SeedRoles && 2 in SeedRoles && 3 in SeedRoles && 4 in SeedRoles && 5 in SeedRoles;
    assert ParentsIn(SeedRoles, h[4..], dir, id) == [];
    assert ParentsIn(SeedRoles, h[3..], dir, id) == Hit(dir, h[3], id);
    assert ParentsIn(SeedRoles, h[2..], dir, id) == Hit(dir, h[2], id) + Hit(dir, h[3], id);
    assert ParentsIn(SeedRoles, h[1..], dir, id) == Hit(dir, h[1], id) + Hit(dir, h[2], id) + Hit(dir, h[3], id);
  }

  /** MEMBER's single link under each reading of the hierarchy. */
  lemma MemberLinks()
    ensures DirectParents(SeedStore, ChildInheritsParent, 2) == [1]
    ensures DirectParents(SeedStore, ParentInheritsChild, 2) == [3]
  {
    SeedParents(ChildInheritsParent, 2);
    SeedParents(ParentInheritsChild, 2);
  }

  lemma AdminLink()
    ensures DirectParents(SeedStore, ChildInheritsParent, 4) == [3]
  {
    SeedParents(ChildInheritsParent, 4);
  }

  lemma SuperAdminLink()
    ensures DirectParents(SeedStore, ChildInheritsParent, 5) == [4]
  {
    SeedParents(ChildInheritsParent, 5);
  }

  /**
   * Reading the hierarchy as "the child inherits the parent", a new user
   * (MEMBER) resolves to {MEMBER, USER} ...
   */
  lemma NewUserRolesChildInheritsParent()
    ensures UniqueNames(SeedStore)
    ensures ResolvedRoles(OneUser(NewUserRoleId), ChildInheritsParent, "u") == {"MEMBER", "USER"}
  {
    SeededUser(2);
    MemberLinks();
    SeedRow(2);
    SeedRow(1);
    ResolvedOneLink(OneUser(2), ChildInheritsParent, "u", 1);
  }

  /** ... so the dynamic pair USER/MEMBER refuses every endpoint that declares permissions. */
  lemma NewUserRefusedChildInheritsParent(required: seq<PermissionName>)
    ensures UniqueNames(SeedStore)
    ensures Authorize(AsU, Some(required), OneUser(NewUserRoleId), ChildInheritsParent) == Deny(DynamicConflict)
  {
    SeededUser(2);
    NewUserRolesChildInheritsParent();
    AuthorizeResolved(AsU, required, OneUser(2), ChildInheritsParent, "u");
    MemberUserConflict(ResolvedPermissions(OneUser(2), ChildInheritsParent, "u"), required);
  }

  lemma MemberUserConflict(permissions: set<PermissionName>, required: seq<PermissionName>)
    ensures DecideResolved({"MEMBER", "USER"}, permissions, required) == Deny(DynamicConflict)
  {
    assert |"MODERATOR"| != |"MEMBER"| && |"MODERATOR"| != |"USER"|;
    assert CheckSsd({"MEMBER", "USER"});
  }

  /**
   * Reading it as "the parent inherits the child", a new user resolves to
   * {MEMBER, MODERATOR}: no conflict ...
   */
  lemma NewUserRolesParentInheritsChild()
    ensures UniqueNames(SeedStore)
    ensures ResolvedRoles(OneUser(NewUserRoleId), ParentInheritsChild, "u") == {"MEMBER", "MODERATOR"}
    ensures ResolvedPermissions(OneUser(NewUserRoleId), ParentInheritsChild, "u") ==
      SeedRoles[2].grants + SeedRoles[3].grants
  {
    SeededUser(2);
    MemberLinks();
    SeedRow(2);
    SeedRow(3);
    ResolvedOneLink(OneUser(2), ParentInheritsChild, "u", 3);
  }

  lemma MemberModeratorFacts()
    ensures CheckSsd({"MEMBER", "MODERATOR"}) && CheckDsd({"MEMBER", "MODERATOR"})
    ensures SeedRoles[2].grants + SeedRoles[3].grants ==
      {"POST_PREMIUM_ARTICLE", "ACCESS_MEMBER_ONLY_AREA", "MODERATE_ARTICLE"}
  {
  }

  /** ... and it is allowed exactly the grants of MEMBER and MODERATOR, none of USER's. */
  lemma NewUserParentInheritsChild(required: seq<PermissionName>)
    ensures UniqueNames(SeedStore)
    ensures Authorize(AsU, Some(required), OneUser(NewUserRoleId), ParentInheritsChild) == Allow <==>
      HoldsAll({"POST_PREMIUM_ARTICLE", "ACCESS_MEMBER_ONLY_AREA", "MODERATE_ARTICLE"}, required)
  {
    SeededUser(2);
    NewUserRolesParentInheritsChild();
    MemberModeratorFacts();
    AllowedExactly(AsU, required, OneUser(2), ParentInheritsChild, "u", {"MEMBER", "MODERATOR"},
                   {"POST_PREMIUM_ARTICLE", "ACCESS_MEMBER_ONLY_AREA", "MODERATE_ARTICLE"});
  }

  /** ADMIN inherits MODERATOR under the first reading ... */
  lemma AdminRoles()
    ensures UniqueNames(SeedStore)
    ensures ResolvedRoles(OneUser(4), ChildInheritsParent, "u") == {"ADMIN", "MODERATOR"}
  {
    SeededUser(4);
    AdminLink();
    SeedRow(4);
    SeedRow(3);
    var rs := OneUser(4).roleStore.roles;
    assert rs[4].name == "ADMIN" && rs[3].name == "MODERATOR";
    ResolvedOneLink(OneUser(4), ChildInheritsParent, "u", 3);
  }

  /** ... a static conflict, whatever the endpoint declares. */
  lemma AdminStaticConflict(required: seq<PermissionName>)
    ensures UniqueNames(SeedStore)
    ensures Authorize(AsU, Some(required), OneUser(4), ChildInheritsParent) == Deny(StaticConflict)
  {
    SeededUser(4);
    AdminRoles();
    AuthorizeResolved(AsU, required, OneUser(4), ChildInheritsParent, "u");
  }

  /**
   * The depth-one load cuts inheritance after one link: SUPER_ADMIN resolves
   * to {SUPER_ADMIN, ADMIN} and their two grants, although the hierarchy
   * continues to MODERATOR, MEMBER and USER ...
   */
  lemma SuperAdminRoles()
    ensures UniqueNames(SeedStore)
    ensures ResolvedRoles(OneUser(5), ChildInheritsParent, "u") == {"SUPER_ADMIN", "ADMIN"}
    ensures ResolvedPermissions(OneUser(5), ChildInheritsParent, "u") == {"DELETE_COMMENT", "ADMINISTER"}
  {
    SeededUser(5);
    SuperAdminLink();
    SeedRow(5);
    SeedRow(4);
    var rs := OneUser(5).roleStore.roles;
    assert rs[5] == RoleRow("SUPER_ADMIN", {"DELETE_COMMENT"}) && rs[4] == RoleRow("ADMIN", {"ADMINISTER"});
    ResolvedOneLink(OneUser(5), ChildInheritsParent, "u", 4);
  }

  lemma SuperAdminNoConflict()
    ensures CheckSsd({"SUPER_ADMIN", "ADMIN"}) && CheckDsd({"SUPER_ADMIN", "ADMIN"})
  {
  }

  /** ... and is allowed exactly those two, so USER's COMMENT permission is refused. */
  lemma SuperAdminDepthOne(required: seq<PermissionName>)
    ensures UniqueNames(SeedStore)
    ensures Authorize(AsU, Some(required), OneUser(5), ChildInheritsParent) == Allow <==>
      HoldsAll({"DELETE_COMMENT", "ADMINISTER"}, required)
  {
    SeededUser(5);
    SuperAdminRoles();
    SuperAdminNoConflict();
    AllowedExactly(AsU, required, OneUser(5), ChildInheritsParent, "u", {"SUPER_ADMIN", "ADMIN"},
                   {"DELETE_COMMENT", "ADMINISTER"});
  }
}
