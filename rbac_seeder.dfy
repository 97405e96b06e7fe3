/** The bootstrap seeder: find-or-create the four system roles and the
    resource × action permission catalogue, give each role its rule-defined
    permission set by full replacement, and grant two roles to two users
    when those users exist. */
module RbacSeeder {
  import opened RbacStore
  import RoleModel
  import HasRolesAndPermissions

  /** The four system roles, with the attributes used when they are created
      and the query that selects their default permissions. */
  datatype SeedRole = SuperAdmin | Admin | Moderator | User {

    function Name(): string {
      match this
      case SuperAdmin => "super_admin"
      case Admin => "admin"
      case Moderator => "moderator"
      case User => "user"
    }

    function Data(): RoleData {
      match this
      case SuperAdmin => RoleData("super_admin", "Super Admin", "Super Administrator with full access", true)
      case Admin => RoleData("admin", "Administrator", "Administrator with most permissions", true)
      case Moderator => RoleData("moderator", "Moderator", "Moderator with limited admin permissions", true)
      case User => RoleData("user", "User", "Regular user with basic permissions", true)
    }

    /** The WHERE clause of the role's query. AND binds tighter than OR, so in
        the moderator and user queries only the first clause is restricted to
        system permissions. */
    predicate Selects(p: PermRec)
      ensures Selects(p) && !p.isSystem ==> this == Moderator || this == User
    {
      match this
      case SuperAdmin => p.isSystem
      case Admin => p.isSystem && p.name != "delete_settings" && p.name != "manage_system"
      case Moderator =>
        || (p.isSystem && p.action in ["read", "update"])
        || Like(p.name, "read") || Like(p.name, "update")
        || p.name == "manage_posts" || p.name == "manage_comments"
      case User =>
        || (p.isSystem && Like(p.name, "read"))
        || p.name in ["create_posts", "update_posts", "delete_posts",
                      "create_comments", "update_comments", "delete_comments"]
    }
  }

  /** AND binds tighter than OR. So the moderator query's `read_%` clause
      also selects a custom (non-system) permission, while in the user query
      `read_%` is tied to system permissions. The six names listed for user
      are selected even on a custom permission. */
  lemma CustomPermissionsSelected(p: PermRec)
    requires !p.isSystem
    ensures Like(p.name, "read") ==> Moderator.Selects(p) && !User.Selects(p)
    ensures p.name == "create_posts" ==> User.Selects(p) && !Moderator.Selects(p)
    ensures !SuperAdmin.Selects(p) && !Admin.Selects(p)
  {
    if Like(p.name, "read") {
      assert p.name[0] == 'r';
    }
    if p.name == "create_posts" {
      assert !Like(p.name, "read") by { assert p.name[0] == 'c'; }
      assert !Like(p.name, "update") by { assert p.name[0] == 'c'; }
    }
  }

  const Resources: seq<string> :=
    ["users", "roles", "permissions", "posts", "categories",
     "comments", "settings", "analytics", "reports", "messages"]

  const Actions: seq<string> := ["create", "read", "update", "delete", "manage", "access"]

  const AdminEmail: string := "admin@example.com"
  const UserEmail: string := "user@example.com"

  /** SQL `name LIKE 'prefix_%'`: `_` matches exactly one character and `%`
      any run, so the name is the prefix followed by at least one character. */
  function Like(name: string, prefix: string): (b: bool)
    ensures b <==> |name| > |prefix| && forall k :: 0 <= k < |prefix| ==> name[k] == prefix[k]
  {
    |name| > |prefix| && name[..|prefix|] == prefix
  }

  function PermissionName(action: string, resource: string): string {
    action + "_" + resource
  }

  /** PHP's ucfirst: an initial ASCII lower-case letter becomes upper case. */
  function Ucfirst(s: string): (r: string)
    ensures |r| == |s| && (|s| > 0 ==> r[1..] == s[1..])
    ensures |s| > 0 && 'a' <= s[0] <= 'z' ==> 'A' <= r[0] <= 'Z' && r[0] as int == s[0] as int - 32
    ensures !(|s| > 0 && 'a' <= s[0] <= 'z') ==> r == s
  {
    if |s| > 0 && 'a' <= s[0] <= 'z' then [(s[0] as int - 32) as char] + s[1..] else s
  }

  /** The row created for one catalogue entry. */
  function CatalogueEntry(resource: string, action: string): PermData {
    PermData(PermissionName(action, resource), resource, action, Ucfirst(action) + " " + Ucfirst(resource), true)
  }

  /** Ucfirst of a word with a lower-case initial `c` swaps in its
      upper-case form `C`. */
  lemma UcfirstWord(s: string, upper: char)
    requires |s| > 0 && 'a' <= s[0] <= 'z' && upper as int == s[0] as int - 32
    ensures Ucfirst(s) == [upper] + s[1..]
  {
  }

  /** The description of a catalogue entry, e.g. "Create Users". */
  lemma CatalogueDescription()
    ensures CatalogueEntry("users", "create").description == "Create Users"
  {
    UcfirstWord("create", 'C');
    UcfirstWord("users", 'U');
    assert ['C'] + "create"[1..] == "Create";
    assert ['U'] + "users"[1..] == "Users";
  }

  /** Up to the action's length a generated name spells the action, then `_`. */
  lemma NameCharAt(a: string, r: string, k: int)
    requires 0 <= k <= |a|
    ensures k < |PermissionName(a, r)|
    ensures PermissionName(a, r)[k] == if k < |a| then a[k] else '_'
  {
  }

  lemma PrefixCharAt(n: string, prefix: string, k: int)
    requires Like(n, prefix) && 0 <= k < |prefix|
    ensures k < |n| && n[k] == prefix[k]
  {
    assert n[..|prefix|][k] == n[k];
  }

  /** The action is recovered from a generated name: it is everything before
      the first `_`, as long as actions contain no `_`. */
  lemma {:induction false} PermissionNameInjective(a1: string, r1: string, a2: string, r2: string)
    requires '_' !in a1 && '_' !in a2
    requires PermissionName(a1, r1) == PermissionName(a2, r2)
    ensures a1 == a2 && r1 == r2
  {
    var n := PermissionName(a1, r1);
    if |a1| < |a2| {
      NameCharAt(a1, r1, |a1|);
      NameCharAt(a2, r2, |a1|);
      assert false;
    } else if |a2| < |a1| {
      NameCharAt(a1, r1, |a2|);
      NameCharAt(a2, r2, |a2|);
      assert false;
    }
    assert a1 == n[..|a1|] == a2;
    assert r1 == n[|a1| + 1..] == r2;
  }

  /** `LIKE 'prefix_%'` on a generated name only looks at the action, when
      the prefix has no `_`: the action must start with the prefix. */
  lemma {:induction false} LikeOnPermissionName(a: string, r: string, prefix: string)
    requires '_' !in prefix
    ensures Like(PermissionName(a, r), prefix) <==> |a| >= |prefix| && a[..|prefix|] == prefix
  {
    var n := PermissionName(a, r);
    if |a| < |prefix| && Like(n, prefix) {
      NameCharAt(a, r, |a|);
      PrefixCharAt(n, prefix, |a|);
      assert false;
    }
    if |a| >= |prefix| {
      assert n[..|prefix|] == a[..|prefix|];
    }
  }

  lemma ActionsHaveNoUnderscore()
    ensures forall a :: a in Actions ==> '_' !in a
  {
  }

  /** The 60 generated names are pairwise distinct. */
  lemma CatalogueNamesDistinct(i: int, j: int, i2: int, j2: int)
    requires 0 <= i < |Resources| && 0 <= j < |Actions|
    requires 0 <= i2 < |Resources| && 0 <= j2 < |Actions|
    requires PermissionName(Actions[j], Resources[i]) == PermissionName(Actions[j2], Resources[i2])
    ensures i == i2 && j == j2
  {
    ActionsHaveNoUnderscore();
    PermissionNameInjective(Actions[j], Resources[i], Actions[j2], Resources[i2]);
  }

  /** `manage_system`, which the admin query excludes, is never generated. */
  lemma ManageSystemNotInCatalogue(r: string, a: string)
    requires r in Resources && a in Actions
    ensures PermissionName(a, r) != "manage_system"
  {
    ActionsHaveNoUnderscore();
    if PermissionName(a, r) == "manage_system" {
      assert "manage_system" == PermissionName("manage", "system");
      PermissionNameInjective(a, r, "manage", "system");
      assert false;
    }
  }

  /** A generated name equals another generated name exactly when action
      and resource agree. */
  lemma NameIs(a: string, r: string, x: string, y: string)
    requires '_' !in a && '_' !in x
    ensures PermissionName(a, r) == PermissionName(x, y) <==> a == x && r == y
  {
    if PermissionName(a, r) == PermissionName(x, y) {
      PermissionNameInjective(a, r, x, y);
    }
  }

  /** On the catalogue, `LIKE 'read_%'` and `LIKE 'update_%'` pick out the
      read and update actions. */
  lemma LikeOnCatalogue(r: string, a: string)
    requires a in Actions
    ensures Like(PermissionName(a, r), "read") <==> a == "read"
    ensures Like(PermissionName(a, r), "update") <==> a == "update"
  {
    LikeOnPermissionName(a, r, "read");
    LikeOnPermissionName(a, r, "update");
    if a == "create" {
      assert a[..4] == "crea" && a[..6] == "create";
    } else if a == "read" {
      assert a[..4] == "read";
    } else if a == "update" {
      assert a[..4] == "upda" && a[..6] == "update";
    } else if a == "delete" {
      assert a[..4] == "dele" && a[..6] == "delete";
    } else if a == "manage" {
      assert a[..4] == "mana" && a[..6] == "manage";
    } else {
      assert a == "access";
      assert a[..4] == "acce" && a[..6] == "access";
    }
  }

  /** Which catalogue entries each query selects. With 10 resources and 6
      actions: super_admin all 60, admin 59 (all but delete_settings),
      moderator 22 (read and update of every resource, manage of posts and
      comments) and user 16 (read of every resource, create, update and delete
      of posts and comments). */
  lemma AdminRuleOnCatalogue(r: string, a: string)
    requires r in Resources && a in Actions
    ensures SuperAdmin.Selects(NewPerm(CatalogueEntry(r, a)))
    ensures Admin.Selects(NewPerm(CatalogueEntry(r, a))) <==> !(a == "delete" && r == "settings")
  {
    ActionsHaveNoUnderscore();
    ManageSystemNotInCatalogue(r, a);
    assert "delete_settings" == PermissionName("delete", "settings");
    NameIs(a, r, "delete", "settings");
  }

  lemma ModeratorRuleOnCatalogue(r: string, a: string)
    requires r in Resources && a in Actions
    ensures Moderator.Selects(NewPerm(CatalogueEntry(r, a))) <==>
      a == "read" || a == "update" || (a == "manage" && (r == "posts" || r == "comments"))
  {
    ActionsHaveNoUnderscore();
    LikeOnCatalogue(r, a);
    assert "manage_posts" == PermissionName("manage", "posts");
    assert "manage_comments" == PermissionName("manage", "comments");
    NameIs(a, r, "manage", "posts");
    NameIs(a, r, "manage", "comments");
  }

  /** The create, update and delete names of one resource. */
  lemma CrudNames(a: string, r: string, x: string)
    requires '_' !in a
    ensures PermissionName(a, r) in [PermissionName("create", x), PermissionName("update", x), PermissionName("delete", x)]
      <==> (a == "create" || a == "update" || a == "delete") && r == x
  {
    NameIs(a, r, "create", x);
    NameIs(a, r, "update", x);
    NameIs(a, r, "delete", x);
  }

  lemma UserListNames(a: string, r: string)
    requires '_' !in a
    ensures PermissionName(a, r) in ["create_posts", "update_posts", "delete_posts",
                                     "create_comments", "update_comments", "delete_comments"]
      <==> (a == "create" || a == "update" || a == "delete") && (r == "posts" || r == "comments")
  {
    assert "create_posts" == PermissionName("create", "posts");
    assert "update_posts" == PermissionName("update", "posts");
    assert "delete_posts" == PermissionName("delete", "posts");
    assert "create_comments" == PermissionName("create", "comments");
    assert "update_comments" == PermissionName("update", "comments");
    assert "delete_comments" == PermissionName("delete", "comments");
    assert ["create_posts", "update_posts", "delete_posts"]
      == [PermissionName("create", "posts"), PermissionName("update", "posts"), PermissionName("delete", "posts")];
    assert ["create_comments", "update_comments", "delete_comments"]
      == [PermissionName("create", "comments"), PermissionName("update", "comments"), PermissionName("delete", "comments")];
    CrudNames(a, r, "posts");
    CrudNames(a, r, "comments");
  }

  lemma UserRuleOnCatalogue(r: string, a: string)
    requires r in Resources && a in Actions
    ensures User.Selects(NewPerm(CatalogueEntry(r, a))) <==>
      a == "read" || ((a == "create" || a == "update" || a == "delete") && (r == "posts" || r == "comments"))
  {
    ActionsHaveNoUnderscore();
    LikeOnCatalogue(r, a);
    UserListNames(a, r);
  }

  /** With only users and posts as resources and create and read as actions,
      the user query selects read_users, read_posts and create_posts. */
  lemma SmallCatalogueUserSet(r: string, a: string)
    requires r in ["users", "posts"] && a in ["create", "read"]
    ensures User.Selects(NewPerm(CatalogueEntry(r, a))) <==>
      PermissionName(a, r) in [PermissionName("read", "users"), PermissionName("read", "posts"), PermissionName("create", "posts")]
  {
    UserRuleOnCatalogue(r, a);
    NameIs(a, r, "read", "users");
    NameIs(a, r, "read", "posts");
    NameIs(a, r, "create", "posts");
  }


  /** Every resource × action name has a live permission. */
  ghost predicate CatalogueReady(perms: map<int, PermRec>, resources: seq<string>, actions: seq<string>) {
    forall i, j :: 0 <= i < |resources| && 0 <= j < |actions| ==>
      HasLivePermNamed(perms, PermissionName(actions[j], resources[i]))
  }

  /** `rec` is exactly the row `firstOrCreate` builds for its own resource
      and action, and those are among the given ones. */
  predicate CatalogueRow(rec: PermRec, resources: seq<string>, actions: seq<string>) {
    && rec.resource in resources && rec.action in actions
    && rec == NewPerm(CatalogueEntry(rec.resource, rec.action))
  }

  /** Every row of `m1` that is not in `m0` was created from a catalogue entry. */
  ghost predicate NewRowsFromCatalogue(m0: map<int, PermRec>, m1: map<int, PermRec>,
                                       resources: seq<string>, actions: seq<string>) {
    forall id {:trigger IsNew(m0, m1, id)} :: IsNew(m0, m1, id) ==> CatalogueRow(m1[id], resources, actions)
  }

  /** Row `id` of `m1` was added after `m0`. */
  predicate IsNew<V>(m0: map<int, V>, m1: map<int, V>, id: int) {
    id in m1 && id !in m0
  }

  /** Rows added in two steps, each from the catalogue, are from the catalogue. */
  lemma NewRowsCompose(m0: map<int, PermRec>, m1: map<int, PermRec>, m2: map<int, PermRec>,
                       resources: seq<string>, actions: seq<string>,
                       resources2: seq<string>, actions2: seq<string>)
    requires Extends(m1, m2) && NewRowsFromCatalogue(m0, m1, resources, actions)
    requires NewRowsFromCatalogue(m1, m2, resources2, actions2)
    requires forall r :: r in resources2 ==> r in resources
    requires forall a :: a in actions2 ==> a in actions
    ensures NewRowsFromCatalogue(m0, m2, resources, actions)
  {
    forall id | IsNew(m0, m2, id) ensures CatalogueRow(m2[id], resources, actions) {
      if id in m1 {
        assert IsNew(m0, m1, id);
      } else {
        assert IsNew(m1, m2, id);
      }
    }
  }

  /** Every row of `m0` is still in `m1`, unmodified. */
  ghost predicate Extends<V>(m0: map<int, V>, m1: map<int, V>) {
    forall id :: id in m0 ==> id in m1 && m1[id] == m0[id]
  }

  /** The ids a role's query returns: live permissions its clause selects. */
  function RuleSet(perms: map<int, PermRec>, sr: SeedRole): (r: set<int>)
    ensures forall id :: id in r <==> id in perms && !perms[id].deleted && sr.Selects(perms[id])
  {
    set id | id in perms && !perms[id].deleted && sr.Selects(perms[id])
  }

  ghost predicate SeedRolesPresent(roles: map<int, RoleRec>) {
    && HasLiveRoleNamed(roles, SuperAdmin.Name())
    && HasLiveRoleNamed(roles, Admin.Name())
    && HasLiveRoleNamed(roles, Moderator.Name())
    && HasLiveRoleNamed(roles, User.Name())
  }

  /** The id of a seeded role in a state where it exists. */
  function SeedRoleId(st: State, sr: SeedRole): int
    requires ValidState(st) && HasLiveRoleNamed(st.roles, sr.Name())
  {
    RoleNamed(st.roles, sr.Name()).value
  }

  /** Each system role exists and holds exactly its rule-defined set. */
  ghost predicate RolesSeeded(st: State) {
    && ValidState(st)
    && SeedRolesPresent(st.roles)
    && CatalogueReady(st.perms, Resources, Actions)
    && EdgesOf(st.rolePerm, SeedRoleId(st, SuperAdmin)) == RuleSet(st.perms, SuperAdmin)
    && EdgesOf(st.rolePerm, SeedRoleId(st, Admin)) == RuleSet(st.perms, Admin)
    && EdgesOf(st.rolePerm, SeedRoleId(st, Moderator)) == RuleSet(st.perms, Moderator)
    && EdgesOf(st.rolePerm, SeedRoleId(st, User)) == RuleSet(st.perms, User)
  }

  /** The (user, role) row the seeder adds for `email`, if such a user exists. */
  function GrantEdge(users: map<int, UserRec>, email: string, role: int): (r: set<(int, int)>)
    requires UniqueEmails(users)
    ensures UserWithEmail(users, email).None? ==> r == {}
    ensures UserWithEmail(users, email).Some? ==> r == {(UserWithEmail(users, email).value, role)}
  {
    match UserWithEmail(users, email)
    case Some(u) => {(u, role)}
    case None => {}
  }

  /** What a completed run leaves behind. */
  ghost predicate Seeded(st: State) {
    && RolesSeeded(st)
    && GrantEdge(st.users, AdminEmail, SeedRoleId(st, SuperAdmin)) <= st.userRole
    && GrantEdge(st.users, UserEmail, SeedRoleId(st, User)) <= st.userRole
  }

  /** Rows are never modified or removed, so a live name stays live. */
  lemma LiveNamesPersist(m0: map<int, PermRec>, m1: map<int, PermRec>)
    requires Extends(m0, m1)
    ensures forall name :: HasLivePermNamed(m0, name) ==> HasLivePermNamed(m1, name)
  {
    forall name | HasLivePermNamed(m0, name) ensures HasLivePermNamed(m1, name) {
      var id :| id in m0 && IsLivePerm(m0, id, name);
      assert IsLivePerm(m1, id, name);
    }
  }

  lemma ExtendsTrans<V>(m0: map<int, V>, m1: map<int, V>, m2: map<int, V>)
    requires Extends(m0, m1) && Extends(m1, m2)
    ensures Extends(m0, m2)
  {
  }

  lemma RoleNamedPersists(r0: map<int, RoleRec>, r1: map<int, RoleRec>, name: string)
    requires UniqueRoleNames(r0) && UniqueRoleNames(r1) && Extends(r0, r1)
    requires HasLiveRoleNamed(r0, name)
    ensures RoleNamed(r1, name) == RoleNamed(r0, name)
  {
    var id := RoleNamed(r0, name).value;
    assert id in r1 && r1[id] == r0[id];
  }

  /** One role's `firstOrCreate`, with what the later calls rely on: rows
      are only added, and an added row carries the role's attributes. */
  method EnsureRole(s: Store, sr: SeedRole) returns (id: int)
    requires s.Valid()
    modifies s`roles, s`nextRoleId
    ensures s.Valid()
    ensures RoleNamed(s.roles, sr.Name()) == Some(id)
    ensures Extends(old(s.roles), s.roles)
    ensures forall k {:trigger IsNew(old(s.roles), s.roles, k)} :: IsNew(old(s.roles), s.roles, k) ==> s.roles[k] == NewRole(sr.Data())
    ensures HasLiveRoleNamed(old(s.roles), sr.Name()) ==> s.roles == old(s.roles) && s.nextRoleId == old(s.nextRoleId)
  {
    id := s.FirstOrCreateRole(sr.Data());
  }

  /** On a store that had no permissions, a catalogue with no pivot rows is
      not a seeded one: super_admin's rule selects every new row. */
  lemma FreshCatalogueNotSeeded(st: State, p0: map<int, PermRec>)
    requires ValidState(st) && SeedRolesPresent(st.roles) && st.rolePerm == {}
    requires CatalogueReady(st.perms, Resources, Actions)
    requires p0 == map[] && NewRowsFromCatalogue(p0, st.perms, Resources, Actions)
    ensures !RolesSeeded(st)
  {
    assert HasLivePermNamed(st.perms, PermissionName(Actions[0], Resources[0]));
    var id :| id in st.perms && IsLivePerm(st.perms, id, PermissionName(Actions[0], Resources[0]));
    assert IsNew(p0, st.perms, id);
    assert id in RuleSet(st.perms, SuperAdmin);
    assert id !in EdgesOf(st.rolePerm, SeedRoleId(st, SuperAdmin));
  }

  /** The four role `firstOrCreate` calls: a live role with the name is kept
      as it is (its attributes are used only on creation). */
  method EnsureSystemRoles(s: Store) returns (superAdmin: int, admin: int, moderator: int, user: int)
    requires s.Valid()
    modifies s`roles, s`nextRoleId
    ensures s.Valid() && SeedRolesPresent(s.roles)
    ensures RoleNamed(s.roles, SuperAdmin.Name()) == Some(superAdmin)
    ensures RoleNamed(s.roles, Admin.Name()) == Some(admin)
    ensures RoleNamed(s.roles, Moderator.Name()) == Some(moderator)
    ensures RoleNamed(s.roles, User.Name()) == Some(user)
    ensures Extends(old(s.roles), s.roles)
    ensures forall k {:trigger IsNew(old(s.roles), s.roles, k)} :: IsNew(old(s.roles), s.roles, k) ==>
      s.roles[k] in {NewRole(SuperAdmin.Data()), NewRole(Admin.Data()), NewRole(Moderator.Data()), NewRole(User.Data())}
    ensures SeedRolesPresent(old(s.roles)) ==> s.roles == old(s.roles) && s.nextRoleId == old(s.nextRoleId)
  {
    ghost var r0 := s.roles;
    superAdmin := EnsureRole(s, SuperAdmin);
    ghost var r1 := s.roles;
    admin := EnsureRole(s, Admin);
    ghost var r2 := s.roles;
    moderator := EnsureRole(s, Moderator);
    ghost var r3 := s.roles;
    user := EnsureRole(s, User);
    ExtendsTrans(r1, r2, r3);
    ExtendsTrans(r1, r3, s.roles);
    ExtendsTrans(r2, r3, s.roles);
    ExtendsTrans(r0, r1, s.roles);
    RoleNamedPersists(r1, s.roles, SuperAdmin.Name());
    RoleNamedPersists(r2, s.roles, Admin.Name());
    RoleNamedPersists(r3, s.roles, Moderator.Name());
    forall k | IsNew(r0, s.roles, k)
      ensures s.roles[k] in {NewRole(SuperAdmin.Data()), NewRole(Admin.Data()), NewRole(Moderator.Data()), NewRole(User.Data())}
    {
      if k in r3 {
        if k in r2 {
          if k in r1 { assert IsNew(r0, r1, k); } else { assert IsNew(r1, r2, k); }
        } else {
          assert IsNew(r2, r3, k);
        }
      } else {
        assert IsNew(r3, s.roles, k);
      }
    }
  }

  /** One catalogue entry's `firstOrCreate`. */
  method EnsurePerm(s: Store, resource: string, action: string) returns (id: int)
    requires s.Valid()
    modifies s`perms, s`nextPermId
    ensures s.Valid()
    ensures IsLivePerm(s.perms, id, PermissionName(action, resource))
    ensures Extends(old(s.perms), s.perms)
    ensures NewRowsFromCatalogue(old(s.perms), s.perms, [resource], [action])
    ensures HasLivePermNamed(old(s.perms), PermissionName(action, resource)) ==> s.perms == old(s.perms) && s.nextPermId == old(s.nextPermId)
  {
    id := s.FirstOrCreatePerm(CatalogueEntry(resource, action));
    forall k | IsNew(old(s.perms), s.perms, k) ensures CatalogueRow(s.perms[k], [resource], [action]) {
      assert s.perms[k] == NewPerm(CatalogueEntry(resource, action));
    }
  }

  /** The inner loop: `firstOrCreate` for every action of one resource. */
  method EnsureResource(s: Store, resource: string, actions: seq<string>)
    requires s.Valid()
    modifies s`perms, s`nextPermId
    ensures s.Valid()
    ensures forall j :: 0 <= j < |actions| ==> HasLivePermNamed(s.perms, PermissionName(actions[j], resource))
    ensures Extends(old(s.perms), s.perms)
    ensures NewRowsFromCatalogue(old(s.perms), s.perms, [resource], actions)
    ensures (forall j :: 0 <= j < |actions| ==> HasLivePermNamed(old(s.perms), PermissionName(actions[j], resource))) ==>
      s.perms == old(s.perms) && s.nextPermId == old(s.nextPermId)
  {
    ghost var p0 := s.perms;
    ghost var allPresent := forall j :: 0 <= j < |actions| ==> HasLivePermNamed(p0, PermissionName(actions[j], resource));
    ghost var ids: seq<int> := [];
    var j := 0;
    while j < |actions|
      invariant 0 <= j <= |actions| && |ids| == j
      invariant s.Valid()
      invariant Extends(p0, s.perms)
      invariant NewRowsFromCatalogue(p0, s.perms, [resource], actions)
      invariant forall j' :: 0 <= j' < j ==> IsLivePerm(s.perms, ids[j'], PermissionName(actions[j'], resource))
      invariant allPresent ==> s.perms == p0 && s.nextPermId == old(s.nextPermId)
    {
      ghost var before := s.perms;
      var id := EnsurePerm(s, resource, actions[j]);
      ExtendsTrans(p0, before, s.perms);
      NewRowsCompose(p0, before, s.perms, [resource], actions, [resource], [actions[j]]);
      ids := ids + [id];
      j := j + 1;
    }
  }

  /** The nested resource × action loops of `firstOrCreate` calls. */
  method EnsureCatalogue(s: Store, resources: seq<string>, actions: seq<string>)
    requires s.Valid()
    modifies s`perms, s`nextPermId
    ensures s.Valid()
    ensures CatalogueReady(s.perms, resources, actions)
    ensures Extends(old(s.perms), s.perms)
    ensures NewRowsFromCatalogue(old(s.perms), s.perms, resources, actions)
    ensures CatalogueReady(old(s.perms), resources, actions) ==> s.perms == old(s.perms) && s.nextPermId == old(s.nextPermId)
  {
    ghost var p0 := s.perms;
    var i := 0;
    while i < |resources|
      invariant 0 <= i <= |resources|
      invariant s.Valid()
      invariant Extends(p0, s.perms)
      invariant NewRowsFromCatalogue(p0, s.perms, resources, actions)
      invariant forall i', j :: 0 <= i' < i && 0 <= j < |actions| ==>
        HasLivePermNamed(s.perms, PermissionName(actions[j], resources[i']))
      invariant CatalogueReady(p0, resources, actions) ==> s.perms == p0 && s.nextPermId == old(s.nextPermId)
    {
      ghost var before := s.perms;
      EnsureResource(s, resources[i], actions);
      LiveNamesPersist(before, s.perms);
      ExtendsTrans(p0, before, s.perms);
      NewRowsCompose(p0, before, s.perms, resources, actions, [resources[i]], actions);
      i := i + 1;
    }
  }

  /** Sync one role to the ids its query returns. */
  method SyncSeedRole(s: Store, role: int, sr: SeedRole)
    requires s.Valid()
    modifies s`rolePerm
    ensures s.Valid()
    ensures EdgesOf(s.rolePerm, role) == RuleSet(s.perms, sr)
    ensures forall r :: r != role ==> EdgesOf(s.rolePerm, r) == EdgesOf(old(s.rolePerm), r)
    ensures EdgesOf(old(s.rolePerm), role) == RuleSet(s.perms, sr) ==> s.rolePerm == old(s.rolePerm)
  {
    var ids := RuleSet(s.perms, sr);
    RoleModel.SyncPermissions(s, role, ids);
  }

  /** The four `syncPermissions` calls, one per system role. */
  method SyncSystemRoles(s: Store, superAdmin: int, admin: int, moderator: int, user: int)
    requires s.Valid()
    requires superAdmin != admin && superAdmin != moderator && superAdmin != user
    requires admin != moderator && admin != user && moderator != user
    modifies s`rolePerm
    ensures s.Valid()
    ensures EdgesOf(s.rolePerm, superAdmin) == RuleSet(s.perms, SuperAdmin)
    ensures EdgesOf(s.rolePerm, admin) == RuleSet(s.perms, Admin)
    ensures EdgesOf(s.rolePerm, moderator) == RuleSet(s.perms, Moderator)
    ensures EdgesOf(s.rolePerm, user) == RuleSet(s.perms, User)
    ensures forall r :: r != superAdmin && r != admin && r != moderator && r != user ==>
      EdgesOf(s.rolePerm, r) == EdgesOf(old(s.rolePerm), r)
    ensures && EdgesOf(old(s.rolePerm), superAdmin) == RuleSet(s.perms, SuperAdmin)
            && EdgesOf(old(s.rolePerm), admin) == RuleSet(s.perms, Admin)
            && EdgesOf(old(s.rolePerm), moderator) == RuleSet(s.perms, Moderator)
            && EdgesOf(old(s.rolePerm), user) == RuleSet(s.perms, User)
            ==> s.rolePerm == old(s.rolePerm)
  {
    SyncSeedRole(s, superAdmin, SuperAdmin);
    SyncSeedRole(s, admin, Admin);
    SyncSeedRole(s, moderator, Moderator);
    SyncSeedRole(s, user, User);
  }

  /** Roles, catalogue and the four syncs: everything `run()` does before the
      user grants. */
  method SeedRolesAndPermissions(s: Store) returns (superAdmin: int, admin: int, moderator: int, user: int)
    requires s.Valid()
    modifies s`roles, s`nextRoleId, s`perms, s`nextPermId, s`rolePerm
    ensures s.Valid() && RolesSeeded(s.Snapshot())
    ensures superAdmin == SeedRoleId(s.Snapshot(), SuperAdmin) && user == SeedRoleId(s.Snapshot(), User)
    ensures admin == SeedRoleId(s.Snapshot(), Admin) && moderator == SeedRoleId(s.Snapshot(), Moderator)
    ensures Extends(old(s.roles), s.roles) && Extends(old(s.perms), s.perms)
    ensures NewRowsFromCatalogue(old(s.perms), s.perms, Resources, Actions)
    ensures forall r :: r != superAdmin && r != admin && r != moderator && r != user ==>
      EdgesOf(s.rolePerm, r) == EdgesOf(old(s.rolePerm), r)
    ensures SeedRolesPresent(old(s.roles)) && CatalogueReady(old(s.perms), Resources, Actions) ==>
      s.roles == old(s.roles) && s.perms == old(s.perms)
      && s.nextRoleId == old(s.nextRoleId) && s.nextPermId == old(s.nextPermId)
    ensures old(RolesSeeded(s.Snapshot())) ==> s.rolePerm == old(s.rolePerm)
  {
    ghost var st0 := s.Snapshot();
    superAdmin, admin, moderator, user := EnsureSystemRoles(s);
    EnsureCatalogue(s, Resources, Actions);
    ghost var st1 := s.Snapshot();
    if RolesSeeded(st0) {
      assert st1.roles == st0.roles && st1.perms == st0.perms;
    }
    SyncSystemRoles(s, superAdmin, admin, moderator, user);
  }

  /** The two conditional `giveRole` calls at the end of `run()`. */
  method GrantSeedUsers(s: Store, superAdmin: int, user: int)
    requires s.Valid()
    modifies s`userRole
    ensures s.Valid()
    ensures s.userRole == old(s.userRole) + GrantEdge(s.users, AdminEmail, superAdmin)
                                          + GrantEdge(s.users, UserEmail, user)
  {
    var adminUser := UserWithEmail(s.users, AdminEmail);
    if adminUser.Some? {
      var _ := HasRolesAndPermissions.GiveRole(s, adminUser.value, RoleValue(superAdmin));
    }
    var plainUser := UserWithEmail(s.users, UserEmail);
    if plainUser.Some? {
      var _ := HasRolesAndPermissions.GiveRole(s, plainUser.value, RoleValue(user));
    }
  }

  /** `run()`. Afterwards every role holds its rule set and the two grants are
      in place; existing rows are never modified; when everything already
      exists nothing new is created; and on a store that a run has already
      seeded (with no edits since) a second run changes nothing. */
  method Run(s: Store)
    requires s.Valid()
    modifies s`roles, s`nextRoleId, s`perms, s`nextPermId, s`rolePerm, s`userRole
    ensures s.Valid() && Seeded(s.Snapshot())
    ensures Extends(old(s.roles), s.roles) && Extends(old(s.perms), s.perms)
    ensures NewRowsFromCatalogue(old(s.perms), s.perms, Resources, Actions)
    ensures forall r ::
      && r != SeedRoleId(s.Snapshot(), SuperAdmin) && r != SeedRoleId(s.Snapshot(), Admin)
      && r != SeedRoleId(s.Snapshot(), Moderator) && r != SeedRoleId(s.Snapshot(), User)
      ==> EdgesOf(s.rolePerm, r) == EdgesOf(old(s.rolePerm), r)
    ensures s.userRole == old(s.userRole) + GrantEdge(s.users, AdminEmail, SeedRoleId(s.Snapshot(), SuperAdmin))
                                          + GrantEdge(s.users, UserEmail, SeedRoleId(s.Snapshot(), User))
    ensures SeedRolesPresent(old(s.roles)) && CatalogueReady(old(s.perms), Resources, Actions) ==>
      s.roles == old(s.roles) && s.perms == old(s.perms)
    ensures old(Seeded(s.Snapshot())) ==>
      s.Snapshot() == old(s.Snapshot()) && s.nextRoleId == old(s.nextRoleId) && s.nextPermId == old(s.nextPermId)
  {
    var superAdmin, admin, moderator, user := SeedRolesAndPermissions(s);
    GrantSeedUsers(s, superAdmin, user);
  }
}
