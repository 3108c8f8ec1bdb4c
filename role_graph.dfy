/**
 * Permission resolution of the permissions guard
 * (`collectRolesAndPermissions` and the role graph that
 * `fetchUserRolesAndPermissions` loads for it).
 *
 * The traversal is written once over an abstract graph keyed by role name,
 * and proved to compute the reachability closure of the start role and the
 * union of the direct grants of that closure, whatever the graph looks like
 * (cycles and diamonds included). The loaders build that graph from the
 * role tables the way the ORM include does.
 */
module RoleGraph {

  type RoleName = string
  type PermissionName = string

  /**
   * A role as the traversal sees it: its direct grants, and the names of the
   * roles its `parentRoles` links lead to. A link whose target role object was
   * not loaded has no entry in the graph and is never followed.
   */
  datatype RoleNode = RoleNode(grants: set<PermissionName>, parents: seq<RoleName>)

  type Graph = map<RoleName, RoleNode>

  /** `b` is a loaded role that `a` inherits from directly. */
  predicate Edge(g: Graph, a: RoleName, b: RoleName) {
    a in g && b in g && b in g[a].parents
  }

  ghost predicate IsPath(g: Graph, p: seq<RoleName>) {
    && |p| > 0
    && p[0] in g
    && forall i :: 0 <= i < |p| - 1 ==> Edge(g, p[i], p[i + 1])
  }

  ghost predicate Reachable(g: Graph, from: RoleName, to: RoleName) {
    exists p :: IsPath(g, p) && p[0] == from && p[|p| - 1] == to
  }

  /** Every role reachable from `start` through inheritance links. */
  ghost function Closure(g: Graph, start: RoleName): set<RoleName> {
    set r | r in g.Keys && Reachable(g, start, r)
  }

  /** The union of the direct grants of `roles`. */
  function GrantsOf(g: Graph, roles: set<RoleName>): set<PermissionName> {
    set r, p | r in roles && r in g && p in g[r].grants :: p
  }

  /** A set of roles that contains every parent of each of its members. */
  ghost predicate Closed(g: Graph, s: set<RoleName>) {
    forall a, b :: a in s && Edge(g, a, b) ==> b in s
  }

  predicate Distinct<T(==)>(s: seq<T>) {
    forall i, j :: 0 <= i < j < |s| ==> s[i] != s[j]
  }

  lemma ReachableSelf(g: Graph, r: RoleName)
    requires r in g
    ensures Reachable(g, r, r)
  {
    assert IsPath(g, [r]);
  }

  lemma ReachableStep(g: Graph, start: RoleName, a: RoleName, b: RoleName)
    requires Reachable(g, start, a) && Edge(g, a, b)
    ensures Reachable(g, start, b)
  {
    var p :| IsPath(g, p) && p[0] == start && p[|p| - 1] == a;
    var q := p + [b];
    assert forall i :: 0 <= i < |p| ==> q[i] == p[i];
    assert IsPath(g, q);
  }

  lemma {:induction false} PathStaysInClosedSet(g: Graph, p: seq<RoleName>, s: set<RoleName>, k: nat)
    requires IsPath(g, p) && p[0] in s && Closed(g, s) && k < |p|
    ensures p[k] in s
  {
    if k > 0 {
      PathStaysInClosedSet(g, p, s, k - 1);
      assert Edge(g, p[k - 1], p[k]);
    }
  }

  /** The closure is the least closed set containing the start role. */
  lemma ClosureIsLeast(g: Graph, start: RoleName, s: set<RoleName>)
    requires start in s && Closed(g, s)
    ensures Closure(g, start) <= s
  {
    forall r | r in Closure(g, start)
      ensures r in s
    {
      var p :| IsPath(g, p) && p[0] == start && p[|p| - 1] == r;
      PathStaysInClosedSet(g, p, s, |p| - 1);
    }
  }

  lemma ClosureIsClosed(g: Graph, start: RoleName)
    ensures Closed(g, Closure(g, start))
  {
    forall a, b | a in Closure(g, start) && Edge(g, a, b)
      ensures b in Closure(g, start)
    {
      ReachableStep(g, start, a, b);
    }
  }

  lemma GrantsOfAdd(g: Graph, roles: set<RoleName>, r: RoleName)
    requires r in g
    ensures GrantsOf(g, roles + {r}) == GrantsOf(g, roles) + g[r].grants
  {
    forall p | p in g[r].grants
      ensures p in GrantsOf(g, roles + {r})
    {
      assert r in roles + {r};
    }
  }

  /**
   * The traversal's loop invariant: everything visited or waiting on the
   * stack is a loaded role reachable from the start, the start role is
   * visited or waiting, and every parent of a visited role is visited or
   * waiting.
   */
  ghost predicate Frontier(g: Graph, start: RoleName, roles: set<RoleName>, stack: seq<RoleName>) {
    && roles <= g.Keys
    && (forall i :: 0 <= i < |stack| ==> stack[i] in g && Reachable(g, start, stack[i]))
    && (forall r :: r in roles ==> Reachable(g, start, r))
    && (start in roles || start in stack)
    && (forall a, b :: a in roles && Edge(g, a, b) ==> b in roles || b in stack)
  }

  /** Popping an already visited role keeps the invariant. */
  lemma FrontierSkip(g: Graph, start: RoleName, roles: set<RoleName>, stack: seq<RoleName>)
    requires Frontier(g, start, roles, stack) && stack != [] && stack[|stack| - 1] in roles
    ensures Frontier(g, start, roles, stack[..|stack| - 1])
  {
    var rest := stack[..|stack| - 1];
    assert forall x :: x in stack ==> x in rest || x == stack[|stack| - 1];
  }

  /** The pushed parents of a reachable role are reachable. */
  lemma PushedReachable(g: Graph, start: RoleName, current: RoleName, rest: seq<RoleName>, pushed: seq<RoleName>)
    requires current in g && Reachable(g, start, current)
    requires forall i :: 0 <= i < |rest| ==> rest[i] in g && Reachable(g, start, rest[i])
    requires forall k :: 0 <= k < |pushed| ==> pushed[k] in g && pushed[k] in g[current].parents
    ensures forall k :: 0 <= k < |rest + pushed| ==> (rest + pushed)[k] in g && Reachable(g, start, (rest + pushed)[k])
  {
    var next := rest + pushed;
    forall k | 0 <= k < |next|
      ensures next[k] in g && Reachable(g, start, next[k])
    {
      if k >= |rest| {
        ReachableStep(g, start, current, pushed[k - |rest|]);
      } else {
        assert next[k] == rest[k];
      }
    }
  }

  /** Every parent of the newly visited role is visited or waiting. */
  lemma PushedCoversEdges(g: Graph, roles: set<RoleName>, current: RoleName, stack: seq<RoleName>,
                          rest: seq<RoleName>, pushed: seq<RoleName>)
    requires stack != [] && current == stack[|stack| - 1] && rest == stack[..|stack| - 1] && current in g
    requires forall a, b :: a in roles && Edge(g, a, b) ==> b in roles || b in stack
    requires forall b :: b in g[current].parents && b in g && b !in roles + {current} ==> b in pushed
    ensures forall a, b :: a in roles + {current} && Edge(g, a, b) ==> b in roles + {current} || b in rest + pushed
  {
    forall a, b | a in roles + {current} && Edge(g, a, b)
      ensures b in roles + {current} || b in rest + pushed
    {
      if b !in roles + {current} {
        if a == current {
          assert b in pushed;
        } else {
          assert b in stack;
          var k :| 0 <= k < |stack| && stack[k] == b;
          assert k < |rest| && rest[k] == b;
        }
      }
    }
  }

  /** Visiting the popped role and pushing its unvisited parents keeps the invariant. */
  lemma FrontierExpand(g: Graph, start: RoleName, roles: set<RoleName>, stack: seq<RoleName>, pushed: seq<RoleName>)
    requires Frontier(g, start, roles, stack) && stack != []
    requires var current := stack[|stack| - 1];
      && current !in roles
      && (forall k :: 0 <= k < |pushed| ==> pushed[k] in g && pushed[k] in g[current].parents)
      && (forall b :: b in g[current].parents && b in g && b !in roles + {current} ==> b in pushed)
    ensures Frontier(g, start, roles + {stack[|stack| - 1]}, stack[..|stack| - 1] + pushed)
  {
    var current := stack[|stack| - 1];
    var rest := stack[..|stack| - 1];
    assert forall i :: 0 <= i < |rest| ==> rest[i] == stack[i];
    PushedReachable(g, start, current, rest, pushed);
    PushedCoversEdges(g, roles, current, stack, rest, pushed);
    if start !in roles + {current} {
      var k :| 0 <= k < |stack| && stack[k] == start;
      assert rest[k] == start;
    }
  }

  /**
   * The inner loop of `collectRolesAndPermissions`: each parent that is a
   * loaded role and not yet visited is pushed, in order.
   */
  method PushUnvisited(g: Graph, roles: set<RoleName>, parents: seq<RoleName>, stack: seq<RoleName>)
    returns (next: seq<RoleName>, ghost pushed: seq<RoleName>)
    ensures next == stack + pushed
    ensures forall k :: 0 <= k < |pushed| ==> pushed[k] in g && pushed[k] !in roles && pushed[k] in parents
    ensures forall b :: b in parents && b in g && b !in roles ==> b in pushed
  {
    next, pushed := stack, [];
    var i := 0;
    while i < |parents|
      invariant 0 <= i <= |parents|
      invariant next == stack + pushed
      invariant forall k :: 0 <= k < |pushed| ==> pushed[k] in g && pushed[k] !in roles && pushed[k] in parents
      invariant forall j :: 0 <= j < i && parents[j] in g && parents[j] !in roles ==> parents[j] in pushed
    {
      var parent := parents[i];
      if parent in g && parent !in roles {
        next, pushed := next + [parent], pushed + [parent];
      }
      i := i + 1;
    }
  }

  /**
   * `collectRolesAndPermissions`: an explicit stack seeded with the start
   * role, a visited set `roles`, and the union of grants in `permissions`.
   * A popped role already visited is skipped; otherwise it is marked, its
   * grants are added, and each loaded parent not yet visited is pushed.
   *
   * It terminates on every graph, cyclic or not; each role is expanded at
   * most once (`expanded` lists the expansions in order); the visited set is
   * exactly the reachability closure and the permissions exactly its grants.
   */
  method CollectRolesAndPermissions(g: Graph, start: RoleName)
    returns (roles: set<RoleName>, permissions: set<PermissionName>, ghost expanded: seq<RoleName>)
    requires start in g
    ensures start in roles
    ensures roles == Closure(g, start)
    ensures permissions == GrantsOf(g, roles)
    ensures Distinct(expanded) && |expanded| == |roles| <= |g|
    ensures forall r :: r in roles <==> r in expanded
  {
    roles, permissions, expanded := {}, {}, [];
    var stack := [start];
    ReachableSelf(g, start);
    while stack != []
      invariant Frontier(g, start, roles, stack)
      invariant permissions == GrantsOf(g, roles)
      invariant Distinct(expanded) && |expanded| == |roles|
      invariant forall r :: r in roles <==> r in expanded
      decreases |g.Keys - roles|, |stack|
    {
      var current := stack[|stack| - 1];
      if current in roles {
        FrontierSkip(g, start, roles, stack);
        stack := stack[..|stack| - 1];
        continue;
      }
      ghost var before := stack;
      ghost var added;
      stack, added := PushUnvisited(g, roles + {current}, g[current].parents, stack[..|stack| - 1]);
      FrontierExpand(g, start, roles, before, added);
      GrantsOfAdd(g, roles, current);
      ExpandedStep(g, roles, expanded, current);
      roles := roles + {current};
      expanded := expanded + [current];
      permissions := permissions + g[current].grants;
    }
    FrontierDone(g, start, roles);
    CardinalityBound(roles, g.Keys);
  }

  /** Expanding an unvisited loaded role keeps `expanded` a duplicate-free listing of the visited set. */
  lemma ExpandedStep(g: Graph, roles: set<RoleName>, expanded: seq<RoleName>, current: RoleName)
    requires Distinct(expanded) && |expanded| == |roles|
    requires forall r :: r in roles <==> r in expanded
    requires current !in roles && current in g
    ensures Distinct(expanded + [current]) && |expanded + [current]| == |roles + {current}|
    ensures forall r :: r in roles + {current} <==> r in expanded + [current]
    ensures g.Keys - (roles + {current}) < g.Keys - roles
  {
  }

  /** An empty stack leaves exactly the closure visited. */
  lemma FrontierDone(g: Graph, start: RoleName, roles: set<RoleName>)
    requires Frontier(g, start, roles, [])
    ensures start in roles && roles == Closure(g, start)
  {
    ClosureIsLeast(g, start, roles);
  }

  lemma CardinalityBound<T>(a: set<T>, b: set<T>)
    requires a <= b
    ensures |a| <= |b|
  {
    assert b == a + (b - a);
  }

  // ---------------------------------------------------------------------
  // Loading the graph from the role tables.

  type RoleId = int

  /** A row of the role table with its direct grants (role_permission rows). */
  datatype RoleRow = RoleRow(name: RoleName, grants: set<PermissionName>)

  /** A row of the role_hierarchy table. */
  datatype HierarchyRow = HierarchyRow(parentRoleId: RoleId, childRoleId: RoleId)

  /**
   * The schema that fixes which hierarchy rows are a role's `parentRoles`
   * and which end of such a row its `parentRole` object is, is not part of
   * this model, so both readings are kept:
   * ChildInheritsParent: a role's links are the rows where it is the child,
   *   and each leads to the row's parent (USER -> MEMBER makes MEMBER inherit USER);
   * ParentInheritsChild: a role's links are the rows where it is the parent,
   *   and each leads to the row's child (USER -> MEMBER makes USER inherit MEMBER).
   */
  datatype Direction = ChildInheritsParent | ParentInheritsChild

  datatype RoleStore = RoleStore(roles: map<RoleId, RoleRow>, hierarchy: seq<HierarchyRow>)

  /** Role names are unique, as the role table's unique key demands. */
  ghost predicate UniqueNames(s: RoleStore) {
    forall a, b :: a in s.roles && b in s.roles && s.roles[a].name == s.roles[b].name ==> a == b
  }

  function LinkOwner(dir: Direction, row: HierarchyRow): RoleId {
    if dir == ChildInheritsParent then row.childRoleId else row.parentRoleId
  }

  function LinkTarget(dir: Direction, row: HierarchyRow): RoleId {
    if dir == ChildInheritsParent then row.parentRoleId else row.childRoleId
  }

  /** Ids of the roles that `id`'s `parentRoles` links lead to, in row order. */
  function DirectParents(s: RoleStore, dir: Direction, id: RoleId): (ps: seq<RoleId>)
    ensures forall i :: 0 <= i < |ps| ==> ps[i] in s.roles
    ensures forall p :: p in ps <==>
      p in s.roles && exists row :: row in s.hierarchy && LinkOwner(dir, row) == id && LinkTarget(dir, row) == p
  {
    ParentsInMembers(s.roles, s.hierarchy, dir, id);
    ParentsIn(s.roles, s.hierarchy, dir, id)
  }

  /** The rows of `rows` owned by `id`, mapped to their target, keeping only existing roles. */
  function ParentsIn(roles: map<RoleId, RoleRow>, rows: seq<HierarchyRow>, dir: Direction, id: RoleId): seq<RoleId> {
    if rows == [] then []
    else
      var rest := ParentsIn(roles, rows[1..], dir, id);
      var row := rows[0];
      if LinkOwner(dir, row) == id && LinkTarget(dir, row) in roles then [LinkTarget(dir, row)] + rest else rest
  }

  /** What `ParentsIn` lists: exactly the existing targets of the rows `id` owns. */
  lemma {:induction false} ParentsInMembers(roles: map<RoleId, RoleRow>, rows: seq<HierarchyRow>, dir: Direction, id: RoleId)
    ensures var ps := ParentsIn(roles, rows, dir, id);
      && (forall i :: 0 <= i < |ps| ==> ps[i] in roles)
      && (forall p :: p in ps <==>
            p in roles && exists row :: row in rows && LinkOwner(dir, row) == id && LinkTarget(dir, row) == p)
  {
    if rows != [] {
      ParentsInMembers(roles, rows[1..], dir, id);
      assert forall r :: r in rows <==> r == rows[0] || r in rows[1..];
    }
  }

  function NamesOf(s: RoleStore, ids: seq<RoleId>): (names: seq<RoleName>)
    requires forall i :: 0 <= i < |ids| ==> ids[i] in s.roles
    ensures |names| == |ids|
    ensures forall i :: 0 <= i < |ids| ==> names[i] == s.roles[ids[i]].name
  {
    seq(|ids|, i requires 0 <= i < |ids| => s.roles[ids[i]].name)
  }

  /**
   * The graph the guard actually traverses. The include loads the assigned
   * role with its grants and its `parentRoles` links, each carrying its
   * parent role object with grants; the parents' own links are loaded as
   * bare rows (`parentRoles: true`) without a role object, so the traversal
   * cannot follow them: the parents appear here with no links.
   */
  function LoadDepthOne(s: RoleStore, dir: Direction, id: RoleId): (g: Graph)
    requires UniqueNames(s) && id in s.roles
    ensures s.roles[id].name in g
    ensures g[s.roles[id].name] == RoleNode(s.roles[id].grants, NamesOf(s, DirectParents(s, dir, id)))
  {
    var root := s.roles[id];
    var ps := DirectParents(s, dir, id);
    var layer := map p | p in ps :: s.roles[p].name := RoleNode(s.roles[p].grants, []);
    layer[root.name := RoleNode(root.grants, NamesOf(s, ps))]
  }

  /** The whole role graph, every role with all of its links. */
  function LoadFull(s: RoleStore, dir: Direction): (g: Graph)
    requires UniqueNames(s)
    ensures forall id :: id in s.roles ==>
      (s.roles[id].name in g && g[s.roles[id].name] == RoleNode(s.roles[id].grants, NamesOf(s, DirectParents(s, dir, id))))
  {
    map id | id in s.roles :: s.roles[id].name := RoleNode(s.roles[id].grants, NamesOf(s, DirectParents(s, dir, id)))
  }

  /** The depth-one graph holds the role and its direct parents, and only the role has links. */
  lemma DepthOneClosedSet(s: RoleStore, dir: Direction, id: RoleId)
    requires UniqueNames(s) && id in s.roles
    ensures var g := LoadDepthOne(s, dir, id);
      var expected := {s.roles[id].name} + set p | p in DirectParents(s, dir, id) :: s.roles[p].name;
      g.Keys == expected && Closed(g, expected)
  {
    var g := LoadDepthOne(s, dir, id);
    var ps := DirectParents(s, dir, id);
    var root := s.roles[id].name;
    var expected := {root} + set p | p in ps :: s.roles[p].name;
    assert g.Keys == expected;
    forall a, b | a in expected && Edge(g, a, b)
      ensures b in expected
    {
      if a == root {
        var j :| 0 <= j < |ps| && NamesOf(s, ps)[j] == b;
        assert b == s.roles[ps[j]].name;
      }
    }
  }

  /** Each direct parent is reached from the role in the depth-one graph. */
  lemma DepthOneReachesParents(s: RoleStore, dir: Direction, id: RoleId)
    requires UniqueNames(s) && id in s.roles
    ensures var g := LoadDepthOne(s, dir, id);
      forall p :: p in DirectParents(s, dir, id) ==> s.roles[p].name in Closure(g, s.roles[id].name)
  {
    var g := LoadDepthOne(s, dir, id);
    var ps := DirectParents(s, dir, id);
    var root := s.roles[id].name;
    ReachableSelf(g, root);
    forall p | p in ps
      ensures s.roles[p].name in Closure(g, root)
    {
      var j :| 0 <= j < |ps| && ps[j] == p;
      assert NamesOf(s, ps)[j] == s.roles[p].name;
      ReachableStep(g, root, root, s.roles[p].name);
    }
  }

  /**
   * With the depth-one load the resolved roles are exactly the assigned role
   * and its direct parents, and the permissions exactly their direct grants.
   */
  lemma DepthOneClosure(s: RoleStore, dir: Direction, id: RoleId)
    requires UniqueNames(s) && id in s.roles
    ensures var g := LoadDepthOne(s, dir, id);
      var ps := DirectParents(s, dir, id);
      var parentNames := set p | p in ps :: s.roles[p].name;
      && Closure(g, s.roles[id].name) == {s.roles[id].name} + parentNames
      && GrantsOf(g, Closure(g, s.roles[id].name)) == s.roles[id].grants + GrantsOf(g, parentNames)
  {
    var g := LoadDepthOne(s, dir, id);
    var ps := DirectParents(s, dir, id);
    var root := s.roles[id].name;
    var parentNames := set p | p in ps :: s.roles[p].name;
    var expected := {root} + parentNames;
    DepthOneClosedSet(s, dir, id);
    ReachableSelf(g, root);
    ClosureIsLeast(g, root, expected);
    DepthOneReachesParents(s, dir, id);
    assert Closure(g, root) == expected;
    GrantsOfAdd(g, parentNames, root);
    assert expected == parentNames + {root};
  }

  /** The depth-one load of a role with a single link: the role and that parent. */
  lemma OneLinkClosure(s: RoleStore, dir: Direction, id: RoleId, parent: RoleId)
    requires UniqueNames(s) && id in s.roles && DirectParents(s, dir, id) == [parent]
    ensures var g := LoadDepthOne(s, dir, id);
      && Closure(g, s.roles[id].name) == {s.roles[id].name, s.roles[parent].name}
      && GrantsOf(g, Closure(g, s.roles[id].name)) == s.roles[id].grants + s.roles[parent].grants
  {
    var g := LoadDepthOne(s, dir, id);
    var pname := s.roles[parent].name;
    DepthOneClosure(s, dir, id);
    assert (set p | p in [parent] :: s.roles[p].name) == {pname};
    OneLinkParentNode(s, dir, id, parent);
    GrantsOfOne(g, pname);
  }

  /** The single parent's node carries that parent's grants. */
  lemma OneLinkParentNode(s: RoleStore, dir: Direction, id: RoleId, parent: RoleId)
    requires UniqueNames(s) && id in s.roles && DirectParents(s, dir, id) == [parent]
    ensures s.roles[parent].name in LoadDepthOne(s, dir, id)
    ensures LoadDepthOne(s, dir, id)[s.roles[parent].name].grants == s.roles[parent].grants
  {
    if parent != id {
      assert s.roles[parent].name != s.roles[id].name;
    }
  }

  lemma GrantsOfOne(g: Graph, n: RoleName)
    requires n in g
    ensures GrantsOf(g, {n}) == g[n].grants
  {
    forall x | x in g[n].grants
      ensures x in GrantsOf(g, {n})
    {
      assert n in {n};
    }
  }

  /** The fully loaded graph has one node per role and an edge for every link. */
  lemma LoadFullEdge(s: RoleStore, dir: Direction, id: RoleId, parent: RoleId)
    requires UniqueNames(s) && id in s.roles && parent in DirectParents(s, dir, id)
    ensures Edge(LoadFull(s, dir), s.roles[id].name, s.roles[parent].name)
  {
    var ps := DirectParents(s, dir, id);
    var j :| 0 <= j < |ps| && ps[j] == parent;
    assert NamesOf(s, ps)[j] == s.roles[parent].name;
  }

  /** The depth-one load never grants more roles than the whole hierarchy would. */
  lemma DepthOneWithinFull(s: RoleStore, dir: Direction, id: RoleId)
    requires UniqueNames(s) && id in s.roles
    ensures Closure(LoadDepthOne(s, dir, id), s.roles[id].name) <= Closure(LoadFull(s, dir), s.roles[id].name)
  {
    var full := LoadFull(s, dir);
    var root := s.roles[id].name;
    var ps := DirectParents(s, dir, id);
    DepthOneClosure(s, dir, id);
    ReachableSelf(full, root);
    forall p | p in ps
      ensures s.roles[p].name in Closure(full, root)
    {
      LoadFullEdge(s, dir, id, p);
      ReachableStep(full, root, root, s.roles[p].name);
    }
  }
}
