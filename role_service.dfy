/** The mutation service: create, update and delete roles and permissions
    (refusing system records), assign, revoke and sync a role's permissions,
    the system/custom listings, and the service's own copy of the seeding. */
module RoleService {
  import opened RbacStore
  import RoleModel
  import HasRolesAndPermissions
  import RbacSeeder

  /** The attributes an update array may carry; an absent key keeps the
      stored value. */
  datatype RolePatch = RolePatch(name: Option<string>, displayName: Option<string>,
                                 description: Option<string>, isSystem: Option<bool>)

  datatype PermPatch = PermPatch(name: Option<string>, resource: Option<string>, action: Option<string>,
                                 description: Option<string>, isSystem: Option<bool>)

  /** One element of the array given to `syncPermissionsToRole`: a name, a
      Permission model, or any other value, which is passed through as an id. */
  datatype SyncArg = ArgName(name: string) | ArgModel(id: int) | ArgRaw(id: int)

  function Supplied<T>(o: Option<T>, current: T): T {
    match o
    case Some(v) => v
    case None => current
  }

  /** `$role->update($data)`: the supplied attributes replace the stored ones. */
  function PatchRole(r: RoleRec, p: RolePatch): (r': RoleRec)
    ensures r'.name == (if p.name.Some? then p.name.value else r.name)
    ensures r'.displayName == (if p.displayName.Some? then p.displayName.value else r.displayName)
    ensures r'.description == (if p.description.Some? then p.description.value else r.description)
    ensures r'.isSystem == (if p.isSystem.Some? then p.isSystem.value else r.isSystem)
    ensures r'.deleted == r.deleted
  {
    RoleRec(Supplied(p.name, r.name), Supplied(p.displayName, r.displayName),
            Supplied(p.description, r.description), Supplied(p.isSystem, r.isSystem), r.deleted)
  }

  function PatchPerm(r: PermRec, p: PermPatch): (r': PermRec)
    ensures r'.name == (if p.name.Some? then p.name.value else r.name)
    ensures r'.resource == (if p.resource.Some? then p.resource.value else r.resource)
    ensures r'.action == (if p.action.Some? then p.action.value else r.action)
    ensures r'.description == (if p.description.Some? then p.description.value else r.description)
    ensures r'.isSystem == (if p.isSystem.Some? then p.isSystem.value else r.isSystem)
    ensures r'.deleted == r.deleted
  {
    PermRec(Supplied(p.name, r.name), Supplied(p.resource, r.resource), Supplied(p.action, r.action),
            Supplied(p.description, r.description), Supplied(p.isSystem, r.isSystem), r.deleted)
  }

  /** An update is a partial overwrite: applying it twice is applying it once,
      an empty one changes nothing, and it never touches the soft-delete flag. */
  lemma PatchRoleLaws(r: RoleRec, p: RolePatch)
    ensures PatchRole(PatchRole(r, p), p) == PatchRole(r, p)
    ensures PatchRole(r, RolePatch(None, None, None, None)) == r
    ensures PatchRole(r, p).deleted == r.deleted
    ensures p.isSystem.None? ==> PatchRole(r, p).isSystem == r.isSystem
  {
  }

  lemma PatchPermLaws(r: PermRec, p: PermPatch)
    ensures PatchPerm(PatchPerm(r, p), p) == PatchPerm(r, p)
    ensures PatchPerm(r, PermPatch(None, None, None, None, None)) == r
    ensures PatchPerm(r, p).deleted == r.deleted
    ensures p.isSystem.None? ==> PatchPerm(r, p).isSystem == r.isSystem
  {
  }

  /** The update would give role `id` a name another live role holds. */
  function RoleNameClash(roles: map<int, RoleRec>, id: int, p: RolePatch): (b: bool)
    requires UniqueRoleNames(roles)
    ensures b <==> p.name.Some? && exists j :: IsLiveRole(roles, j, p.name.value) && j != id
  {
    p.name.Some? && RoleNamed(roles, p.name.value).Some? && RoleNamed(roles, p.name.value).value != id
  }

  function PermNameClash(perms: map<int, PermRec>, id: int, p: PermPatch): (b: bool)
    requires UniquePermNames(perms)
    ensures b <==> p.name.Some? && exists j :: IsLivePerm(perms, j, p.name.value) && j != id
  {
    p.name.Some? && PermNamed(perms, p.name.value).Some? && PermNamed(perms, p.name.value).value != id
  }

  /** `createRole`: the row is stored exactly as supplied (the service adds
      no default of its own); a name a live role already has is refused. */
  method CreateRole(s: Store, d: RoleData) returns (res: Result<int>)
    requires s.Valid()
    modifies s`roles, s`nextRoleId
    ensures s.Valid()
    ensures HasLiveRoleNamed(old(s.roles), d.name) ==>
      res == Err(DuplicateName) && s.roles == old(s.roles) && s.nextRoleId == old(s.nextRoleId)
    ensures !HasLiveRoleNamed(old(s.roles), d.name) ==>
      res.Ok? && res.value !in old(s.roles) && s.roles == old(s.roles)[res.value := NewRole(d)]
    ensures res.Ok? ==> RoleNamed(s.roles, d.name) == Some(res.value)
  {
    if RoleNamed(s.roles, d.name).Some? {
      res := Err(DuplicateName);
    } else {
      var id := s.AddRole(d);
      assert IsLiveRole(s.roles, id, d.name);
      res := Ok(id);
    }
  }

  /** `createPermission`: the row is stored exactly as supplied. */
  method CreatePermission(s: Store, d: PermData) returns (res: Result<int>)
    requires s.Valid()
    modifies s`perms, s`nextPermId
    ensures s.Valid()
    ensures HasLivePermNamed(old(s.perms), d.name) ==>
      res == Err(DuplicateName) && s.perms == old(s.perms) && s.nextPermId == old(s.nextPermId)
    ensures !HasLivePermNamed(old(s.perms), d.name) ==>
      res.Ok? && res.value !in old(s.perms) && s.perms == old(s.perms)[res.value := NewPerm(d)]
    ensures res.Ok? ==> PermNamed(s.perms, d.name) == Some(res.value)
  {
    if PermNamed(s.perms, d.name).Some? {
      res := Err(DuplicateName);
    } else {
      var id := s.AddPerm(d);
      assert IsLivePerm(s.perms, id, d.name);
      res := Ok(id);
    }
  }

  /** `updateRole`: a system role is refused with nothing changed; otherwise
      the supplied attributes are written to that role and no other row. */
  method UpdateRole(s: Store, id: int, p: RolePatch) returns (res: Result<int>)
    requires s.Valid() && id in s.roles
    modifies s`roles
    ensures s.Valid()
    ensures old(s.roles[id].isSystem) ==> res == Err(SystemObject) && s.roles == old(s.roles)
    ensures !old(s.roles[id].isSystem) && RoleNameClash(old(s.roles), id, p) ==>
      res == Err(DuplicateName) && s.roles == old(s.roles)
    ensures !old(s.roles[id].isSystem) && !RoleNameClash(old(s.roles), id, p) ==>
      res == Ok(id) && s.roles == old(s.roles)[id := PatchRole(old(s.roles[id]), p)]
  {
    var r := s.roles[id];
    if r.isSystem {
      return Err(SystemObject);
    }
    if RoleNameClash(s.roles, id, p) {
      return Err(DuplicateName);
    }
    var r0 := s.roles;
    s.roles := s.roles[id := PatchRole(r, p)];
    forall i, j, n | IsLiveRole(s.roles, i, n) && IsLiveRole(s.roles, j, n) ensures i == j {
      if i != id && j != id {
        assert IsLiveRole(r0, i, n) && IsLiveRole(r0, j, n);
      } else if i != id {
        assert IsLiveRole(r0, i, n);
        if p.name.None? { assert IsLiveRole(r0, id, n); }
      } else if j != id {
        assert IsLiveRole(r0, j, n);
        if p.name.None? { assert IsLiveRole(r0, id, n); }
      }
    }
    res := Ok(id);
  }

  /** `updatePermission`: a system permission is refused with nothing
      changed; otherwise only that permission's attributes change. */
  method UpdatePermission(s: Store, id: int, p: PermPatch) returns (res: Result<int>)
    requires s.Valid() && id in s.perms
    modifies s`perms
    ensures s.Valid()
    ensures old(s.perms[id].isSystem) ==> res == Err(SystemObject) && s.perms == old(s.perms)
    ensures !old(s.perms[id].isSystem) && PermNameClash(old(s.perms), id, p) ==>
      res == Err(DuplicateName) && s.perms == old(s.perms)
    ensures !old(s.perms[id].isSystem) && !PermNameClash(old(s.perms), id, p) ==>
      res == Ok(id) && s.perms == old(s.perms)[id := PatchPerm(old(s.perms[id]), p)]
  {
    var r := s.perms[id];
    if r.isSystem {
      return Err(SystemObject);
    }
    if PermNameClash(s.perms, id, p) {
      return Err(DuplicateName);
    }
    var p0 := s.perms;
    s.perms := s.perms[id := PatchPerm(r, p)];
    forall i, j, n | IsLivePerm(s.perms, i, n) && IsLivePerm(s.perms, j, n) ensures i == j {
      if i != id && j != id {
        assert IsLivePerm(p0, i, n) && IsLivePerm(p0, j, n);
      } else if i != id {
        assert IsLivePerm(p0, i, n);
        if p.name.None? { assert IsLivePerm(p0, id, n); }
      } else if j != id {
        assert IsLivePerm(p0, j, n);
        if p.name.None? { assert IsLivePerm(p0, id, n); }
      }
    }
    res := Ok(id);
  }

  /** `deleteRole`: a system role is refused; otherwise the row is
      soft-deleted (kept, flagged) and its pivot rows stay where they are. */
  method DeleteRole(s: Store, id: int) returns (res: Result<bool>)
    requires s.Valid() && id in s.roles
    modifies s`roles
    ensures s.Valid()
    ensures old(s.roles[id].isSystem) ==> res == Err(SystemObject) && s.roles == old(s.roles)
    ensures !old(s.roles[id].isSystem) ==>
      res == Ok(true) && s.roles == old(s.roles)[id := old(s.roles[id]).(deleted := true)]
  {
    var r := s.roles[id];
    if r.isSystem {
      return Err(SystemObject);
    }
    var r0 := s.roles;
    s.roles := s.roles[id := r.(deleted := true)];
    forall i, j, n | IsLiveRole(s.roles, i, n) && IsLiveRole(s.roles, j, n) ensures i == j {
      assert IsLiveRole(r0, i, n) && IsLiveRole(r0, j, n);
    }
    res := Ok(true);
  }

  /** `deletePermission`: a system permission is refused; otherwise the row
      is soft-deleted and its pivot rows stay. */
  method DeletePermission(s: Store, id: int) returns (res: Result<bool>)
    requires s.Valid() && id in s.perms
    modifies s`perms
    ensures s.Valid()
    ensures old(s.perms[id].isSystem) ==> res == Err(SystemObject) && s.perms == old(s.perms)
    ensures !old(s.perms[id].isSystem) ==>
      res == Ok(true) && s.perms == old(s.perms)[id := old(s.perms[id]).(deleted := true)]
  {
    var r := s.perms[id];
    if r.isSystem {
      return Err(SystemObject);
    }
    var p0 := s.perms;
    s.perms := s.perms[id := r.(deleted := true)];
    forall i, j, n | IsLivePerm(s.perms, i, n) && IsLivePerm(s.perms, j, n) ensures i == j {
      assert IsLivePerm(p0, i, n) && IsLivePerm(p0, j, n);
    }
    res := Ok(true);
  }

  /** A soft-deleted role drops out of every user's roles, while its pivot
      rows are kept. */
  lemma SoftDeletedRoleHidden(st: State, id: int, user: int)
    requires id in st.roles
    ensures HasRolesAndPermissions.Roles(st.(roles := st.roles[id := st.roles[id].(deleted := true)]), user)
         == HasRolesAndPermissions.Roles(st, user) - {id}
  {
  }

  /** A soft-deleted permission drops out of every role's and every user's
      permission set. */
  lemma SoftDeletedPermHidden(st: State, id: int, role: int, user: int)
    requires id in st.perms
    ensures RoleModel.Permissions(st.(perms := st.perms[id := st.perms[id].(deleted := true)]), role)
         == RoleModel.Permissions(st, role) - {id}
    ensures HasRolesAndPermissions.Permissions(st.(perms := st.perms[id := st.perms[id].(deleted := true)]), user)
         == HasRolesAndPermissions.Permissions(st, user) - {id}
  {
    var st' := st.(perms := st.perms[id := st.perms[id].(deleted := true)]);
    assert HasRolesAndPermissions.Roles(st', user) == HasRolesAndPermissions.Roles(st, user);
  }

  /** `assignPermissionToRole`: a name is resolved with `firstOrFail` (an
      unknown name fails before any change); the permission is then attached
      through `Role::givePermission`. The role's `is_system` is not checked. */
  method AssignPermissionToRole(s: Store, role: int, perm: PermRef) returns (res: Result<int>)
    requires s.Valid()
    modifies s`rolePerm
    ensures s.Valid()
    ensures res == ResolvePerm(s.perms, perm)
    ensures res.Err? ==> res.error == NotFound && s.rolePerm == old(s.rolePerm)
    ensures res.Ok? ==> s.rolePerm == old(s.rolePerm) + {(role, res.value)}
    ensures forall r :: r != role ==> EdgesOf(s.rolePerm, r) == EdgesOf(old(s.rolePerm), r)
  {
    res := ResolvePerm(s.perms, perm);
    if res.Ok? {
      res := RoleModel.GivePermission(s, role, PermValue(res.value));
    }
  }

  /** `revokePermissionFromRole`: resolve as above, then detach exactly the
      (role, permission) row; an absent row is a no-op. */
  method RevokePermissionFromRole(s: Store, role: int, perm: PermRef) returns (res: Result<int>)
    requires s.Valid()
    modifies s`rolePerm
    ensures s.Valid()
    ensures res == ResolvePerm(s.perms, perm)
    ensures res.Err? ==> res.error == NotFound && s.rolePerm == old(s.rolePerm)
    ensures res.Ok? ==> s.rolePerm == old(s.rolePerm) - {(role, res.value)}
    ensures res.Ok? && (role, res.value) !in old(s.rolePerm) ==> s.rolePerm == old(s.rolePerm)
    ensures forall r :: r != role ==> EdgesOf(s.rolePerm, r) == EdgesOf(old(s.rolePerm), r)
  {
    res := ResolvePerm(s.perms, perm);
    if res.Ok? {
      res := RoleModel.RevokePermission(s, role, PermValue(res.value));
    }
  }

  /** The id one sync argument contributes: a name through `first()` (none
      when no live permission has it), a model or raw value as is. */
  function SyncArgId(perms: map<int, PermRec>, a: SyncArg): (o: Option<int>)
    requires UniquePermNames(perms)
    ensures a.ArgName? ==> (o.None? <==> !HasLivePermNamed(perms, a.name))
    ensures a.ArgName? && o.Some? ==> IsLivePerm(perms, o.value, a.name)
    ensures !a.ArgName? ==> o == Some(a.id)
  {
    match a
    case ArgName(n) => PermNamed(perms, n)
    case ArgModel(id) => Some(id)
    case ArgRaw(id) => Some(id)
  }

  /** `$permissionIds` after the loop has seen `args`: unknown names are
      dropped, everything else contributes its id, in order. */
  function SyncArgIds(perms: map<int, PermRec>, args: seq<SyncArg>): (ids: seq<int>)
    requires UniquePermNames(perms)
    ensures |ids| <= |args|
    ensures forall id :: id in ids <==> exists i :: 0 <= i < |args| && SyncArgId(perms, args[i]) == Some(id)
  {
    if args == [] then []
    else
      var front := SyncArgIds(perms, args[..|args| - 1]);
      var last := args[|args| - 1];
      assert forall i :: 0 <= i < |args| - 1 ==> args[..|args| - 1][i] == args[i];
      match SyncArgId(perms, last)
      case Some(id) => front + [id]
      case None => front
  }

  /** Without unknown names nothing is dropped. */
  lemma {:induction false} SyncArgIdsKeepsAll(perms: map<int, PermRec>, args: seq<SyncArg>)
    requires UniquePermNames(perms)
    requires forall i :: 0 <= i < |args| && args[i].ArgName? ==> HasLivePermNamed(perms, args[i].name)
    ensures |SyncArgIds(perms, args)| == |args|
  {
    if args != [] {
      SyncArgIdsKeepsAll(perms, args[..|args| - 1]);
    }
  }

  /** `syncPermissionsToRole`: collect the ids in a loop, then replace the
      role's rows with exactly those ids; no other role's rows change. */
  method SyncPermissionsToRole(s: Store, role: int, args: seq<SyncArg>) returns (permissionIds: seq<int>)
    requires s.Valid()
    modifies s`rolePerm
    ensures s.Valid()
    ensures permissionIds == SyncArgIds(s.perms, args)
    ensures EdgesOf(s.rolePerm, role) == set id | id in permissionIds
    ensures forall r :: r != role ==> EdgesOf(s.rolePerm, r) == EdgesOf(old(s.rolePerm), r)
  {
    permissionIds := [];
    for i := 0 to |args|
      invariant permissionIds == SyncArgIds(s.perms, args[..i])
    {
      assert args[..i + 1][..i] == args[..i];
      match args[i]
      case ArgName(n) =>
        var perm := PermNamed(s.perms, n);
        if perm.Some? {
          permissionIds := permissionIds + [perm.value];
        }
      case ArgModel(id) =>
        permissionIds := permissionIds + [id];
      case ArgRaw(id) =>
        permissionIds := permissionIds + [id];
    }
    assert args[..|args|] == args;
    RoleModel.SyncPermissions(s, role, set id | id in permissionIds);
  }

  /** `getSystemRoles` / `getCustomRoles` and the permission equivalents
      (as sets of ids; the soft-delete scope applies). */
  function SystemRoles(st: State): (r: set<int>)
    ensures forall id :: id in r <==> LiveRole(st, id) && st.roles[id].isSystem
  {
    set id | id in st.roles && LiveRole(st, id) && st.roles[id].isSystem
  }

  function CustomRoles(st: State): (r: set<int>)
    ensures forall id :: id in r <==> LiveRole(st, id) && !st.roles[id].isSystem
  {
    set id | id in st.roles && LiveRole(st, id) && !st.roles[id].isSystem
  }

  function SystemPermissions(st: State): (r: set<int>)
    ensures forall id :: id in r <==> LivePerm(st, id) && st.perms[id].isSystem
  {
    set id | id in st.perms && LivePerm(st, id) && st.perms[id].isSystem
  }

  function CustomPermissions(st: State): (r: set<int>)
    ensures forall id :: id in r <==> LivePerm(st, id) && !st.perms[id].isSystem
  {
    set id | id in st.perms && LivePerm(st, id) && !st.perms[id].isSystem
  }

  /** The two role listings split the live roles, and likewise for
      permissions. */
  lemma ListingsPartition(st: State)
    ensures SystemRoles(st) !! CustomRoles(st)
    ensures SystemRoles(st) + CustomRoles(st) == set id | id in st.roles && LiveRole(st, id)
    ensures SystemPermissions(st) !! CustomPermissions(st)
    ensures SystemPermissions(st) + CustomPermissions(st) == set id | id in st.perms && LivePerm(st, id)
  {
  }

  /** The super_admin rule of the seeder selects exactly `getSystemPermissions`. */
  lemma SuperAdminGetsSystemPermissions(st: State)
    ensures RbacSeeder.RuleSet(st.perms, RbacSeeder.SuperAdmin) == SystemPermissions(st)
  {
  }

  /** `getPermissionRoles` (`$permission->roles`): the live roles joined to
      the permission. */
  function PermissionRoles(st: State, perm: int): (r: set<int>)
    ensures forall role :: role in r <==> LiveRole(st, role) && perm in EdgesOf(st.rolePerm, role)
  {
    set r | r in st.roles && LiveRole(st, r) && (r, perm) in st.rolePerm
  }

  /** The two sides of permission_role agree: a live role lists a live
      permission exactly when the permission lists the role. */
  lemma PermissionRolesDual(st: State, role: int, perm: int)
    requires LiveRole(st, role) && LivePerm(st, perm)
    ensures perm in RoleModel.Permissions(st, role) <==> role in PermissionRoles(st, perm)
  {
  }

  /** `createSystemRolesAndPermissions`: the four roles and the catalogue are
      find-or-created as in the seeder, but the first `syncPermissions` call
      passes a Collection where an array is declared, so the call fails
      there with no pivot row written. */
  method CreateSystemRolesAndPermissions(s: Store) returns (res: Result<()>)
    requires s.Valid()
    modifies s`roles, s`nextRoleId, s`perms, s`nextPermId
    ensures s.Valid()
    ensures res == Err(TypeMismatch)
    ensures RbacSeeder.SeedRolesPresent(s.roles)
    ensures RbacSeeder.CatalogueReady(s.perms, RbacSeeder.Resources, RbacSeeder.Actions)
    ensures RbacSeeder.Extends(old(s.roles), s.roles) && RbacSeeder.Extends(old(s.perms), s.perms)
    ensures RbacSeeder.NewRowsFromCatalogue(old(s.perms), s.perms, RbacSeeder.Resources, RbacSeeder.Actions)
    ensures old(s.perms) == map[] && s.rolePerm == {} ==> !RbacSeeder.RolesSeeded(s.Snapshot())
  {
    var superAdmin, admin, moderator, user := RbacSeeder.EnsureSystemRoles(s);
    ghost var p0 := s.perms;
    RbacSeeder.EnsureCatalogue(s, RbacSeeder.Resources, RbacSeeder.Actions);
    if p0 == map[] && s.rolePerm == {} {
      RbacSeeder.FreshCatalogueNotSeeded(s.Snapshot(), p0);
    }
    res := Err(TypeMismatch);
  }
}
