/** The Role model: its `permissions` relation, the `hasPermission` query and
    the three operations that edit one role's rows of permission_role. */
module RoleModel {
  import opened RbacStore

  /** `$role->permissions`: the live permissions joined to the role through
      the pivot table (the soft-delete scope hides deleted ones). */
  function Permissions(st: State, role: int): (r: set<int>)
    ensures r <= EdgesOf(st.rolePerm, role)
    ensures forall p :: p in r <==> (role, p) in st.rolePerm && LivePerm(st, p)
  {
    set p | p in EdgesOf(st.rolePerm, role) && LivePerm(st, p)
  }

  /** `hasPermission(name)`: some live permission attached to the role carries
      that name. Under unique names this is the same as looking the name up
      first and then testing the attached set for that id. */
  function HasPermission(st: State, role: int, name: string): (b: bool)
    requires UniquePermNames(st.perms)
    ensures b <==> (PermNamed(st.perms, name).Some? && PermNamed(st.perms, name).value in Permissions(st, role))
    ensures !HasLivePermNamed(st.perms, name) ==> !b
  {
    exists p :: p in Permissions(st, role) && IsLivePerm(st.perms, p, name)
  }

  /** `givePermission`: a name that no live permission has fails before any
      edge changes; otherwise the edge is attached only when the role does
      not already show that permission, so a repeat changes nothing. */
  method GivePermission(s: Store, role: int, perm: PermRef) returns (res: Result<int>)
    requires s.Valid()
    modifies s`rolePerm
    ensures s.Valid()
    ensures res == ResolvePerm(s.perms, perm)
    ensures res.Err? ==> res.error == NotFound && perm.PermName? && s.rolePerm == old(s.rolePerm)
    ensures res.Ok? ==> s.rolePerm == old(s.rolePerm) + {(role, res.value)}
    ensures res.Ok? ==> EdgesOf(s.rolePerm, role) == EdgesOf(old(s.rolePerm), role) + {res.value}
    ensures forall r :: r != role ==> EdgesOf(s.rolePerm, r) == EdgesOf(old(s.rolePerm), r)
    ensures perm.PermName? && res.Ok? ==> HasPermission(s.Snapshot(), role, perm.name)
  {
    res := ResolvePerm(s.perms, perm);
    if res.Ok? {
      if res.value !in Permissions(s.Snapshot(), role) {
        s.rolePerm := s.rolePerm + {(role, res.value)};
      }
      if perm.PermName? {
        assert res.value in Permissions(s.Snapshot(), role);
      }
    }
  }

  /** `revokePermission`: a name that no live permission has fails; otherwise
      exactly the (role, permission) row is detached, and detaching an absent
      row changes nothing. */
  method RevokePermission(s: Store, role: int, perm: PermRef) returns (res: Result<int>)
    requires s.Valid()
    modifies s`rolePerm
    ensures s.Valid()
    ensures res == ResolvePerm(s.perms, perm)
    ensures res.Err? ==> res.error == NotFound && perm.PermName? && s.rolePerm == old(s.rolePerm)
    ensures res.Ok? ==> s.rolePerm == old(s.rolePerm) - {(role, res.value)}
    ensures res.Ok? && (role, res.value) !in old(s.rolePerm) ==> s.rolePerm == old(s.rolePerm)
    ensures forall r :: r != role ==> EdgesOf(s.rolePerm, r) == EdgesOf(old(s.rolePerm), r)
    ensures perm.PermName? && res.Ok? ==> !HasPermission(s.Snapshot(), role, perm.name)
  {
    res := ResolvePerm(s.perms, perm);
    if res.Ok? {
      s.rolePerm := s.rolePerm - {(role, res.value)};
    }
  }

  /** `syncPermissions(ids)`: the role's rows become exactly `ids`, every other
      role keeps its rows. The ids are not checked against the table. */
  method SyncPermissions(s: Store, role: int, ids: set<int>)
    requires s.Valid()
    modifies s`rolePerm
    ensures s.Valid()
    ensures s.rolePerm == SyncEdges(old(s.rolePerm), role, ids)
    ensures EdgesOf(s.rolePerm, role) == ids
    ensures forall r :: r != role ==> EdgesOf(s.rolePerm, r) == EdgesOf(old(s.rolePerm), r)
    ensures Permissions(s.Snapshot(), role) == set p | p in ids && LivePerm(s.Snapshot(), p)
  {
    s.rolePerm := SyncEdges(s.rolePerm, role, ids);
  }
}
