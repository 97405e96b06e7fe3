/** The entity store behind the RBAC engine: role and permission rows with a
    soft-delete flag, user rows, and the two pivot tables (permission_role and
    role_user) as sets of id pairs. */
module RbacStore {

  datatype Option<T> = None | Some(value: T)

  /** The failures the RBAC code surfaces to its callers. */
  datatype Error =
    | SystemObject   // InvalidArgumentException: the record is flagged is_system
    | NotFound       // firstOrFail found no live record with that name
    | DuplicateName  // the unique name index refused an insert or an update
    | TypeMismatch   // a PHP TypeError: an argument of the wrong type

  datatype Result<T> = Ok(value: T) | Err(error: Error)

  /** The fillable attributes of a role. */
  datatype RoleData = RoleData(name: string, displayName: string, description: string, isSystem: bool)

  /** A stored role row; `deleted` stands for a non-null deleted_at. */
  datatype RoleRec = RoleRec(name: string, displayName: string, description: string, isSystem: bool, deleted: bool)

  /** The fillable attributes of a permission. */
  datatype PermData = PermData(name: string, resource: string, action: string, description: string, isSystem: bool)

  /** A stored permission row; `deleted` stands for a non-null deleted_at. */
  datatype PermRec = PermRec(name: string, resource: string, action: string, description: string, isSystem: bool, deleted: bool)

  /** A user row, reduced to what the seeder looks users up by. */
  datatype UserRec = UserRec(email: string)

  /** A snapshot of every table the core reads or writes. Pivot pairs are
      (role_id, permission_id) and (user_id, role_id). */
  datatype State = State(
    roles: map<int, RoleRec>,
    perms: map<int, PermRec>,
    users: map<int, UserRec>,
    rolePerm: set<(int, int)>,
    userRole: set<(int, int)>)

  /** A role argument given either by name or as a model instance (its id). */
  datatype RoleRef = RoleName(name: string) | RoleValue(id: int)

  /** A permission argument given either by name or as a model instance (its id). */
  datatype PermRef = PermName(name: string) | PermValue(id: int)

  function NewRole(d: RoleData): RoleRec {
    RoleRec(d.name, d.displayName, d.description, d.isSystem, false)
  }

  function NewPerm(d: PermData): PermRec {
    PermRec(d.name, d.resource, d.action, d.description, d.isSystem, false)
  }

  predicate LiveRole(st: State, id: int) {
    id in st.roles && !st.roles[id].deleted
  }

  predicate LivePerm(st: State, id: int) {
    id in st.perms && !st.perms[id].deleted
  }

  /** Row `id` is a live role named `name`. */
  predicate IsLiveRole(roles: map<int, RoleRec>, id: int, name: string) {
    id in roles && !roles[id].deleted && roles[id].name == name
  }

  /** Row `id` is a live permission named `name`. */
  predicate IsLivePerm(perms: map<int, PermRec>, id: int, name: string) {
    id in perms && !perms[id].deleted && perms[id].name == name
  }

  predicate HasLiveRoleNamed(roles: map<int, RoleRec>, name: string) {
    exists id {:trigger IsLiveRole(roles, id, name)} :: id in roles && IsLiveRole(roles, id, name)
  }

  predicate HasLivePermNamed(perms: map<int, PermRec>, name: string) {
    exists id {:trigger IsLivePerm(perms, id, name)} :: id in perms && IsLivePerm(perms, id, name)
  }

  // Names are unique among live rows; the migrations that enforce this are
  // not part of this model, so it is kept as an invariant of the store.

  ghost predicate UniqueRoleNames(roles: map<int, RoleRec>) {
    forall i, j, n :: IsLiveRole(roles, i, n) && IsLiveRole(roles, j, n) ==> i == j
  }

  ghost predicate UniquePermNames(perms: map<int, PermRec>) {
    forall i, j, n :: IsLivePerm(perms, i, n) && IsLivePerm(perms, j, n) ==> i == j
  }

  ghost predicate UniqueEmails(users: map<int, UserRec>) {
    forall i, j :: i in users && j in users && users[i].email == users[j].email ==> i == j
  }

  ghost predicate ValidState(st: State) {
    UniqueRoleNames(st.roles) && UniquePermNames(st.perms) && UniqueEmails(st.users)
  }

  /** `Role::where('name', name)->first()`: the live role with that name. */
  function RoleNamed(roles: map<int, RoleRec>, name: string): (o: Option<int>)
    requires UniqueRoleNames(roles)
    ensures o.Some? <==> HasLiveRoleNamed(roles, name)
    ensures o.Some? ==> IsLiveRole(roles, o.value, name)
    ensures forall id :: IsLiveRole(roles, id, name) ==> o == Some(id)
  {
    if HasLiveRoleNamed(roles, name) then
      var id :| id in roles && IsLiveRole(roles, id, name);
      Some(id)
    else
      None
  }

  /** `Permission::where('name', name)->first()`: the live permission with that name. */
  function PermNamed(perms: map<int, PermRec>, name: string): (o: Option<int>)
    requires UniquePermNames(perms)
    ensures o.Some? <==> HasLivePermNamed(perms, name)
    ensures o.Some? ==> IsLivePerm(perms, o.value, name)
    ensures forall id :: IsLivePerm(perms, id, name) ==> o == Some(id)
  {
    if HasLivePermNamed(perms, name) then
      var id :| id in perms && IsLivePerm(perms, id, name);
      Some(id)
    else
      None
  }

  /** `User::where('email', email)->first()`. */
  function UserWithEmail(users: map<int, UserRec>, email: string): (o: Option<int>)
    requires UniqueEmails(users)
    ensures o.Some? ==> o.value in users && users[o.value].email == email
    ensures forall id :: id in users && users[id].email == email ==> o == Some(id)
  {
    if exists id :: id in users && users[id].email == email then
      var id :| id in users && users[id].email == email;
      Some(id)
    else
      None
  }

  /** A role argument resolved the way the source does it: a name through
      `firstOrFail` (NotFound when no live role has it), a model by its id. */
  function ResolveRole(roles: map<int, RoleRec>, ref: RoleRef): (res: Result<int>)
    requires UniqueRoleNames(roles)
    ensures res.Err? ==> res.error == NotFound && ref.RoleName?
    ensures ref.RoleName? ==> (res.Err? <==> !HasLiveRoleNamed(roles, ref.name))
    ensures ref.RoleName? && res.Ok? ==> IsLiveRole(roles, res.value, ref.name)
    ensures ref.RoleValue? ==> res == Ok(ref.id)
  {
    match ref
    case RoleName(n) => (match RoleNamed(roles, n) case Some(id) => Ok(id) case None => Err(NotFound))
    case RoleValue(id) => Ok(id)
  }

  /** A permission argument resolved the same way. */
  function ResolvePerm(perms: map<int, PermRec>, ref: PermRef): (res: Result<int>)
    requires UniquePermNames(perms)
    ensures res.Err? ==> res.error == NotFound && ref.PermName?
    ensures ref.PermName? ==> (res.Err? <==> !HasLivePermNamed(perms, ref.name))
    ensures ref.PermName? && res.Ok? ==> IsLivePerm(perms, res.value, ref.name)
    ensures ref.PermValue? ==> res == Ok(ref.id)
  {
    match ref
    case PermName(n) => (match PermNamed(perms, n) case Some(id) => Ok(id) case None => Err(NotFound))
    case PermValue(id) => Ok(id)
  }

  /** The ids a pivot table links to `owner` (the first column). */
  function EdgesOf(edges: set<(int, int)>, owner: int): (r: set<int>)
    ensures forall t :: t in r <==> (owner, t) in edges
  {
    set e | e in edges && e.0 == owner :: e.1
  }

  /** Laravel's `sync`: the owner's rows become exactly `targets`; rows of
      every other owner are kept. */
  function SyncEdges(edges: set<(int, int)>, owner: int, targets: set<int>): (r: set<(int, int)>)
    ensures EdgesOf(r, owner) == targets
    ensures forall o :: o != owner ==> EdgesOf(r, o) == EdgesOf(edges, o)
  {
    var r := (set e | e in edges && e.0 != owner) + (set t | t in targets :: (owner, t));
    assert forall t :: t in targets ==> (owner, t) in r;
    r
  }

  /** Two pivot tables that link every owner to the same ids are equal. */
  lemma {:induction false} EdgesDetermine(a: set<(int, int)>, b: set<(int, int)>)
    requires forall o :: EdgesOf(a, o) == EdgesOf(b, o)
    ensures a == b
  {
    forall e | e in a ensures e in b {
      assert e.1 in EdgesOf(a, e.0);
    }
    forall e | e in b ensures e in a {
      assert e.1 in EdgesOf(b, e.0);
    }
  }

  /** A second sync leaves no residue of the first: only its own targets. */
  lemma SyncReplaces(edges: set<(int, int)>, owner: int, first: set<int>, second: set<int>)
    ensures SyncEdges(SyncEdges(edges, owner, first), owner, second) == SyncEdges(edges, owner, second)
  {
    var a := SyncEdges(SyncEdges(edges, owner, first), owner, second);
    var b := SyncEdges(edges, owner, second);
    forall o ensures EdgesOf(a, o) == EdgesOf(b, o) {
    }
    EdgesDetermine(a, b);
  }

  /** Syncing an owner to the ids it already has changes nothing. */
  lemma SyncUnchanged(edges: set<(int, int)>, owner: int, targets: set<int>)
    requires EdgesOf(edges, owner) == targets
    ensures SyncEdges(edges, owner, targets) == edges
  {
    var a := SyncEdges(edges, owner, targets);
    forall o ensures EdgesOf(a, o) == EdgesOf(edges, o) {
    }
    EdgesDetermine(a, edges);
  }

  /** The database: one field per table, updated in place by the operations. */
  class Store {
    var roles: map<int, RoleRec>
    var perms: map<int, PermRec>
    var users: map<int, UserRec>
    var rolePerm: set<(int, int)>
    var userRole: set<(int, int)>
    var nextRoleId: int  // the auto-increment counters
    var nextPermId: int

    function Snapshot(): State
      reads this
    {
      State(roles, perms, users, rolePerm, userRole)
    }

    ghost predicate Valid()
      reads this
    {
      && ValidState(Snapshot())
      && (forall id :: id in roles ==> id < nextRoleId)
      && (forall id :: id in perms ==> id < nextPermId)
    }

    /** A store with the given users and no roles, permissions or edges. */
    constructor (users: map<int, UserRec>)
      requires UniqueEmails(users)
      ensures Valid()
      ensures Snapshot() == State(map[], map[], users, {}, {})
    {
      this.roles := map[];
      this.perms := map[];
      this.users := users;
      this.rolePerm := {};
      this.userRole := {};
      this.nextRoleId := 1;
      this.nextPermId := 1;
    }

    /** Inserts a new role row under a fresh id. */
    method AddRole(d: RoleData) returns (id: int)
      requires Valid() && !HasLiveRoleNamed(roles, d.name)
      modifies this`roles, this`nextRoleId
      ensures Valid()
      ensures id !in old(roles) && roles == old(roles)[id := NewRole(d)]
    {
      id := nextRoleId;
      var r0 := roles;
      roles := roles[id := NewRole(d)];
      nextRoleId := nextRoleId + 1;
      forall i, j, n | IsLiveRole(roles, i, n) && IsLiveRole(roles, j, n) ensures i == j {
        if i != id && j != id {
          assert IsLiveRole(r0, i, n) && IsLiveRole(r0, j, n);
        } else if i != id {
          assert IsLiveRole(r0, i, d.name);
        } else if j != id {
          assert IsLiveRole(r0, j, d.name);
        }
      }
    }

    /** Inserts a new permission row under a fresh id. */
    method AddPerm(d: PermData) returns (id: int)
      requires Valid() && !HasLivePermNamed(perms, d.name)
      modifies this`perms, this`nextPermId
      ensures Valid()
      ensures id !in old(perms) && perms == old(perms)[id := NewPerm(d)]
    {
      id := nextPermId;
      var p0 := perms;
      perms := perms[id := NewPerm(d)];
      nextPermId := nextPermId + 1;
      forall i, j, n | IsLivePerm(perms, i, n) && IsLivePerm(perms, j, n) ensures i == j {
        if i != id && j != id {
          assert IsLivePerm(p0, i, n) && IsLivePerm(p0, j, n);
        } else if i != id {
          assert IsLivePerm(p0, i, d.name);
        } else if j != id {
          assert IsLivePerm(p0, j, d.name);
        }
      }
    }

    /** `Role::firstOrCreate(['name' => d.name], …)`: the live role with that
        name, left as it is, or else a new row built from `d`. */
    method FirstOrCreateRole(d: RoleData) returns (id: int)
      requires Valid()
      modifies this`roles, this`nextRoleId
      ensures Valid()
      ensures RoleNamed(roles, d.name) == Some(id)
      ensures old(HasLiveRoleNamed(roles, d.name)) ==> roles == old(roles) && nextRoleId == old(nextRoleId)
      ensures !old(HasLiveRoleNamed(roles, d.name)) ==> id !in old(roles) && roles == old(roles)[id := NewRole(d)]
    {
      var found := RoleNamed(roles, d.name);
      if found.Some? {
        id := found.value;
      } else {
        id := AddRole(d);
        assert IsLiveRole(roles, id, d.name);
      }
    }

    /** `Permission::firstOrCreate(['name' => d.name], …)`. */
    method FirstOrCreatePerm(d: PermData) returns (id: int)
      requires Valid()
      modifies this`perms, this`nextPermId
      ensures Valid()
      ensures PermNamed(perms, d.name) == Some(id)
      ensures old(HasLivePermNamed(perms, d.name)) ==> perms == old(perms) && nextPermId == old(nextPermId)
      ensures !old(HasLivePermNamed(perms, d.name)) ==> id !in old(perms) && perms == old(perms)[id := NewPerm(d)]
    {
      var found := PermNamed(perms, d.name);
      if found.Some? {
        id := found.value;
      } else {
        id := AddPerm(d);
        assert IsLivePerm(perms, id, d.name);
      }
    }
  }
}
