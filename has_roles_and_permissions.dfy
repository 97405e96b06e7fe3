/** The user-side capability: the roles a user holds, the permissions those
    roles give, the point queries and their any/all combinators, and the
    operations that edit one user's rows of role_user. */
module HasRolesAndPermissions {
  import opened RbacStore
  import RoleModel

  /** `$user->roles()`: the live roles joined to the user through the pivot. */
  function Roles(st: State, user: int): (r: set<int>)
    ensures r <= EdgesOf(st.userRole, user)
    ensures forall role :: role in r <==> (user, role) in st.userRole && LiveRole(st, role)
  {
    set r | r in EdgesOf(st.userRole, user) && LiveRole(st, r)
  }

  /** `permissions()`: every live permission reachable from a live role the
      user holds, each id once (`unique('id')`). It is exactly the union of
      the held roles' permission sets, and empty for a user without roles. */
  function Permissions(st: State, user: int): (r: set<int>)
    ensures Roles(st, user) == {} ==> r == {}
    ensures forall role :: role in Roles(st, user) ==> RoleModel.Permissions(st, role) <= r
    ensures forall p :: p in r ==> exists role :: role in Roles(st, user) && p in RoleModel.Permissions(st, role)
  {
    set p | p in st.perms && LivePerm(st, p)
      && exists role :: role in Roles(st, user) && (role, p) in st.rolePerm
  }

  /** `hasRole`: by name, some held live role carries it; by model, its id is
      held (and the role is live). By name it agrees with resolving the name
      first and testing the id. */
  function HasRole(st: State, user: int, role: RoleRef): (b: bool)
    requires UniqueRoleNames(st.roles)
    ensures role.RoleName? ==>
      (b <==> RoleNamed(st.roles, role.name).Some? && RoleNamed(st.roles, role.name).value in Roles(st, user))
    ensures role.RoleValue? ==> (b <==> (user, role.id) in st.userRole && LiveRole(st, role.id))
  {
    match role
    case RoleName(n) => exists r :: r in Roles(st, user) && IsLiveRole(st.roles, r, n)
    case RoleValue(id) => id in Roles(st, user)
  }

  /** `hasPermission`: a name that no live permission has yields false and
      never fails; otherwise the answer is membership by id in `permissions()`.
      By name it is true exactly when some effective permission has the name. */
  function HasPermission(st: State, user: int, perm: PermRef): (b: bool)
    requires UniquePermNames(st.perms)
    ensures perm.PermName? && !HasLivePermNamed(st.perms, perm.name) ==> !b
    ensures perm.PermName? ==> (b <==> exists p :: p in Permissions(st, user) && IsLivePerm(st.perms, p, perm.name))
    ensures perm.PermValue? ==> (b <==> perm.id in Permissions(st, user))
  {
    match perm
    case PermName(n) =>
      (match PermNamed(st.perms, n)
       case None => false
       case Some(p) => p in Permissions(st, user))
    case PermValue(id) => id in Permissions(st, user)
  }

  /** `hasAnyRole`: the loop returns true at the first role held, false when
      the list runs out (so false on an empty list). */
  function HasAnyRole(st: State, user: int, roles: seq<RoleRef>): (b: bool)
    requires UniqueRoleNames(st.roles)
    ensures b <==> exists i :: 0 <= i < |roles| && HasRole(st, user, roles[i])
  {
    if roles == [] then false
    else HasRole(st, user, roles[0]) || HasAnyRole(st, user, roles[1..])
  }

  /** `hasAllRoles`: the loop returns false at the first role missing, true
      when the list runs out (so true on an empty list). */
  function HasAllRoles(st: State, user: int, roles: seq<RoleRef>): (b: bool)
    requires UniqueRoleNames(st.roles)
    ensures !b <==> exists i :: 0 <= i < |roles| && !HasRole(st, user, roles[i])
  {
    if roles == [] then true
    else HasRole(st, user, roles[0]) && HasAllRoles(st, user, roles[1..])
  }

  /** `hasAnyPermission`: true at the first permission held. */
  function HasAnyPermission(st: State, user: int, perms: seq<PermRef>): (b: bool)
    requires UniquePermNames(st.perms)
    ensures b <==> exists i :: 0 <= i < |perms| && HasPermission(st, user, perms[i])
  {
    if perms == [] then false
    else HasPermission(st, user, perms[0]) || HasAnyPermission(st, user, perms[1..])
  }

  /** `hasAllPermissions`: false at the first permission missing. */
  function HasAllPermissions(st: State, user: int, perms: seq<PermRef>): (b: bool)
    requires UniquePermNames(st.perms)
    ensures !b <==> exists i :: 0 <= i < |perms| && !HasPermission(st, user, perms[i])
  {
    if perms == [] then true
    else HasPermission(st, user, perms[0]) && HasAllPermissions(st, user, perms[1..])
  }

  /** Nothing after the first role held is consulted: whatever follows it,
      `hasAnyRole` answers true. */
  lemma {:induction false} AnyRoleStopsAtFirstHit(st: State, user: int, roles: seq<RoleRef>, rest: seq<RoleRef>)
    requires UniqueRoleNames(st.roles)
    requires |roles| > 0 && HasRole(st, user, roles[|roles| - 1])
    ensures HasAnyRole(st, user, roles + rest)
  {
    assert (roles + rest)[|roles| - 1] == roles[|roles| - 1];
  }

  /** Nothing after the first role missing is consulted: whatever follows
      it, `hasAllRoles` answers false. */
  lemma {:induction false} AllRolesStopsAtFirstMiss(st: State, user: int, roles: seq<RoleRef>, rest: seq<RoleRef>)
    requires UniqueRoleNames(st.roles)
    requires |roles| > 0 && !HasRole(st, user, roles[|roles| - 1])
    ensures !HasAllRoles(st, user, roles + rest)
  {
    assert (roles + rest)[|roles| - 1] == roles[|roles| - 1];
  }

  /** Nothing after the first permission held is consulted. */
  lemma {:induction false} AnyPermissionStopsAtFirstHit(st: State, user: int, perms: seq<PermRef>, rest: seq<PermRef>)
    requires UniquePermNames(st.perms)
    requires |perms| > 0 && HasPermission(st, user, perms[|perms| - 1])
    ensures HasAnyPermission(st, user, perms + rest)
  {
    assert (perms + rest)[|perms| - 1] == perms[|perms| - 1];
  }

  /** Nothing after the first permission missing is consulted. */
  lemma {:induction false} AllPermissionsStopsAtFirstMiss(st: State, user: int, perms: seq<PermRef>, rest: seq<PermRef>)
    requires UniquePermNames(st.perms)
    requires |perms| > 0 && !HasPermission(st, user, perms[|perms| - 1])
    ensures !HasAllPermissions(st, user, perms + rest)
  {
    assert (perms + rest)[|perms| - 1] == perms[|perms| - 1];
  }

  /** `isSuperAdmin()`: the user holds the live role named super_admin. */
  function IsSuperAdmin(st: State, user: int): (b: bool)
    requires UniqueRoleNames(st.roles)
    ensures b <==> exists r :: r in Roles(st, user) && IsLiveRole(st.roles, r, "super_admin")
  {
    HasRole(st, user, RoleName("super_admin"))
  }

  /** Giving a user a live role adds exactly that role's permissions to the
      user's effective set, and no other user's set changes. */
  lemma GrantAddsRolePermissions(st: State, user: int, role: int, other: int)
    requires LiveRole(st, role) && other != user
    ensures Permissions(st.(userRole := st.userRole + {(user, role)}), user)
         == Permissions(st, user) + RoleModel.Permissions(st, role)
    ensures Permissions(st.(userRole := st.userRole + {(user, role)}), other) == Permissions(st, other)
  {
    var st' := st.(userRole := st.userRole + {(user, role)});
    assert Roles(st', user) == Roles(st, user) + {role};
    assert Roles(st', other) == Roles(st, other);
  }

  /** Taking a role away never adds a permission, and no other user's set
      changes. */
  lemma RevokeShrinksPermissions(st: State, user: int, role: int, other: int)
    requires other != user
    ensures Permissions(st.(userRole := st.userRole - {(user, role)}), user) <= Permissions(st, user)
    ensures Permissions(st.(userRole := st.userRole - {(user, role)}), other) == Permissions(st, other)
  {
    var st' := st.(userRole := st.userRole - {(user, role)});
    assert Roles(st', user) <= Roles(st, user);
    assert Roles(st', other) == Roles(st, other);
  }

  /** `giveRole`: a name that no live role has fails before any change;
      otherwise the row is attached only when the user does not already hold
      the role, so giving twice leaves one row. */
  method GiveRole(s: Store, user: int, role: RoleRef) returns (res: Result<int>)
    requires s.Valid()
    modifies s`userRole
    ensures s.Valid()
    ensures res == ResolveRole(s.roles, role)
    ensures res.Err? ==> res.error == NotFound && role.RoleName? && s.userRole == old(s.userRole)
    ensures res.Ok? ==> s.userRole == old(s.userRole) + {(user, res.value)}
    ensures forall u :: u != user ==> EdgesOf(s.userRole, u) == EdgesOf(old(s.userRole), u)
    ensures role.RoleName? && res.Ok? ==> HasRole(s.Snapshot(), user, role)
  {
    res := ResolveRole(s.roles, role);
    if res.Ok? {
      if res.value !in Roles(s.Snapshot(), user) {
        s.userRole := s.userRole + {(user, res.value)};
      }
      if role.RoleName? {
        assert res.value in Roles(s.Snapshot(), user);
      }
    }
  }

  /** `revokeRole`: a name that no live role has fails; otherwise exactly the
      (user, role) row is detached, a no-op when it is absent. */
  method RevokeRole(s: Store, user: int, role: RoleRef) returns (res: Result<int>)
    requires s.Valid()
    modifies s`userRole
    ensures s.Valid()
    ensures res == ResolveRole(s.roles, role)
    ensures res.Err? ==> res.error == NotFound && role.RoleName? && s.userRole == old(s.userRole)
    ensures res.Ok? ==> s.userRole == old(s.userRole) - {(user, res.value)}
    ensures forall u :: u != user ==> EdgesOf(s.userRole, u) == EdgesOf(old(s.userRole), u)
    ensures res.Ok? ==> !HasRole(s.Snapshot(), user, RoleValue(res.value))
  {
    res := ResolveRole(s.roles, role);
    if res.Ok? {
      s.userRole := s.userRole - {(user, res.value)};
    }
  }

  /** `syncRoles(ids)`: the user's role rows become exactly `ids`. */
  method SyncRoles(s: Store, user: int, ids: set<int>)
    requires s.Valid()
    modifies s`userRole
    ensures s.Valid()
    ensures s.userRole == SyncEdges(old(s.userRole), user, ids)
    ensures EdgesOf(s.userRole, user) == ids
    ensures forall u :: u != user ==> EdgesOf(s.userRole, u) == EdgesOf(old(s.userRole), u)
    ensures Roles(s.Snapshot(), user) == set r | r in ids && LiveRole(s.Snapshot(), r)
  {
    s.userRole := SyncEdges(s.userRole, user, ids);
  }
}
