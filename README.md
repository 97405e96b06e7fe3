# RBAC core of laravel-vibe, modelled in Dafny

This project models the role-based access control engine of the Laravel
application. The engine has three kinds of record:

- users;
- roles, which are soft-deletable and may carry an `is_system` flag;
- permissions, which are soft-deletable, named `{action}_{resource}`, and
  may carry an `is_system` flag.

Two pivot tables link them:

- `permission_role` links roles to permissions;
- `role_user` links users to roles.

The modelled core:

- the `Role` model: its `permissions` relation, `hasPermission`, and
  `givePermission` / `revokePermission` / `syncPermissions`;
- the `HasRolesAndPermissions` trait that users carry: `roles`, the
  effective permission set, the role and permission queries with their any/all
  loops, `giveRole` / `revokeRole` / `syncRoles`, and `isSuperAdmin`;
- `RoleService`:
  - create, update and delete of roles and permissions, refused on system
    records;
  - assign, revoke and sync of a role's permissions;
  - the system/custom listings;
  - its own copy of the bootstrap;
- `RBACSeeder::run`:
  - find-or-create of the four system roles and of the 10 × 6
    resource × action permission catalogue;
  - full replacement of each role's permissions by the set its query
    selects;
  - the two conditional user grants.

Files:

- `store.dfy` (`RbacStore`) holds the database. Rows are maps from id to
  record with a `deleted` flag that stands for a non-null `deleted_at`.
  Pivot tables are sets of id pairs. The class `Store` holds the tables and
  the auto-increment counters; operations update its fields in place. This
  file also holds the Eloquent lookups used throughout:
  - `where('name', …)->first()` becomes `RoleNamed` / `PermNamed`; the
    soft-delete scope hides trashed rows;
  - `firstOrFail` becomes `ResolveRole` / `ResolvePerm`, which return
    `NotFound`;
  - `firstOrCreate` becomes `FirstOrCreateRole` / `FirstOrCreatePerm`;
  - `sync` becomes `SyncEdges`.
- `role.dfy` (`RoleModel`) models `app/Models/Role.php`.
- `has_roles_and_permissions.dfy` (`HasRolesAndPermissions`) models the trait.
- `role_service.dfy` (`RoleService`) models the service.
- `rbac_seeder.dfy` (`RbacSeeder`) models the seeder.

Exceptions become a `Result` whose `Error` names the failure:

- `SystemObject` for the `InvalidArgumentException` on system records;
- `NotFound` for `firstOrFail`;
- `DuplicateName` for an insert or update that the unique name index refuses;
- `TypeMismatch` for a PHP `TypeError`.

Role and permission names are kept unique among live rows as an invariant of
the store (`Store.Valid`).

On a small catalogue with resources users and posts and actions create and
read, the `user` query selects `read_users`, `read_posts` and `create_posts`
(`RbacSeeder.SmallCatalogueUserSet`).

## Model

| member | source | states |
|---|---|---|
| RbacStore.RoleNamed | app/Traits/HasRolesAndPermissions.php:96 | `Role::where('name')` finds a role exactly when a live role has the name; the one it returns is live, carries the name, and is the only such row |
| RbacStore.PermNamed | app/Traits/HasRolesAndPermissions.php:61 | `Permission::where('name')->first()` finds a permission exactly when a live permission has the name; the result is live, carries the name, and is the only such row |
| RbacStore.UserWithEmail | database/seeders/RBACSeeder.php:115-121 | the user lookup by email returns the user with that email whenever one exists |
| RbacStore.ResolveRole | app/Traits/HasRolesAndPermissions.php:95-97 | `firstOrFail` on a role name fails with NotFound exactly when no live role has the name, and otherwise yields that live role; a model yields its own id |
| RbacStore.ResolvePerm | app/Models/Role.php:42-44 | `firstOrFail` on a permission name fails with NotFound exactly when no live permission has the name, and otherwise yields that live permission; a model yields its own id |
| RbacStore.EdgesOf | app/Models/Role.php:30-33 | a role's pivot ids are exactly the second components of its pivot pairs |
| RbacStore.SyncEdges | app/Models/Role.php:64-69 | after `sync` the owner's pivot ids are exactly the targets, and every other owner's rows are unchanged |
| RbacStore.EdgesDetermine | app/Models/Role.php:30-33 | two pivot tables that agree on every owner's ids are the same table |
| RbacStore.SyncReplaces | app/Models/Role.php:64-69 | a second `sync` leaves nothing of the first: the result is the second sync applied to the original table |
| RbacStore.SyncUnchanged | app/Models/Role.php:64-69 | syncing an owner to the ids it already has changes nothing |
| RbacStore.Store.AddRole | app/Services/RoleService.php:11-14 | an insert adds exactly one row under an id not used before and keeps live role names unique |
| RbacStore.Store.AddPerm | app/Services/RoleService.php:36-39 | an insert adds exactly one row under an id not used before and keeps live permission names unique |
| RbacStore.Store.FirstOrCreateRole | database/seeders/RBACSeeder.php:14-21 | `firstOrCreate` returns the live role with the name, leaving the table untouched when one exists, and otherwise adds exactly the row built from the attributes |
| RbacStore.Store.FirstOrCreatePerm | database/seeders/RBACSeeder.php:65-74 | the same for a permission |
| RoleModel.Permissions | app/Models/Role.php:30-33 | `$role->permissions` holds exactly the live permissions with a pivot row to the role |
| RoleModel.HasPermission | app/Models/Role.php:35-38 | a role has a permission name exactly when the live permission with that name is attached to it; a name no live permission has gives false |
| RoleModel.GivePermission | app/Models/Role.php:40-51 | an unknown name fails with NotFound before any change; otherwise the edge is present afterwards, giving twice leaves one edge, other roles are untouched, and `hasPermission` then holds |
| RoleModel.RevokePermission | app/Models/Role.php:53-62 | an unknown name fails with NotFound and changes nothing; otherwise exactly that edge is removed, an absent edge is a no-op, and `hasPermission` then fails |
| RoleModel.SyncPermissions | app/Models/Role.php:64-69 | the role's pivot ids become exactly the given ids, other roles keep theirs, and its `permissions` are the live ones among them |
| HasRolesAndPermissions.Roles | app/Traits/HasRolesAndPermissions.php:12-15 | `$user->roles` holds exactly the live roles with a pivot row to the user |
| HasRolesAndPermissions.Permissions | app/Traits/HasRolesAndPermissions.php:17-25 | a user's effective permissions are exactly the union of the permission sets of the live roles the user holds (each id once), and empty without roles |
| HasRolesAndPermissions.HasRole | app/Traits/HasRolesAndPermissions.php:27-34 | by name: the live role of that name is among the user's roles; by model: the user has a pivot row to it and it is live |
| HasRolesAndPermissions.HasPermission | app/Traits/HasRolesAndPermissions.php:58-69 | a name no live permission has yields false; by name it holds exactly when an effective permission carries the name; by model, exactly when its id is effective |
| HasRolesAndPermissions.HasAnyRole | app/Traits/HasRolesAndPermissions.php:36-45 | true exactly when some listed role is held (false for an empty list) |
| HasRolesAndPermissions.HasAllRoles | app/Traits/HasRolesAndPermissions.php:47-56 | false exactly when some listed role is missing (true for an empty list) |
| HasRolesAndPermissions.HasAnyPermission | app/Traits/HasRolesAndPermissions.php:71-80 | true exactly when some listed permission is held |
| HasRolesAndPermissions.HasAllPermissions | app/Traits/HasRolesAndPermissions.php:82-91 | false exactly when some listed permission is missing |
| HasRolesAndPermissions.AnyRoleStopsAtFirstHit | app/Traits/HasRolesAndPermissions.php:38-42 | once a held role is reached, whatever follows it, `hasAnyRole` is true |
| HasRolesAndPermissions.AllRolesStopsAtFirstMiss | app/Traits/HasRolesAndPermissions.php:49-53 | once a missing role is reached, whatever follows it, `hasAllRoles` is false |
| HasRolesAndPermissions.AnyPermissionStopsAtFirstHit | app/Traits/HasRolesAndPermissions.php:73-77 | once a held permission is reached, whatever follows it, `hasAnyPermission` is true |
| HasRolesAndPermissions.AllPermissionsStopsAtFirstMiss | app/Traits/HasRolesAndPermissions.php:84-88 | once a missing permission is reached, whatever follows it, `hasAllPermissions` is false |
| HasRolesAndPermissions.IsSuperAdmin | app/Traits/HasRolesAndPermissions.php:153-156 | true exactly when the user holds the live role named super_admin |
| HasRolesAndPermissions.GrantAddsRolePermissions | app/Traits/HasRolesAndPermissions.php:93-104 | giving a user a live role adds exactly that role's permissions to the user's effective set, and no other user's set changes |
| HasRolesAndPermissions.RevokeShrinksPermissions | app/Traits/HasRolesAndPermissions.php:106-115 | revoking a role never adds a permission to the user, and no other user's set changes |
| HasRolesAndPermissions.GiveRole | app/Traits/HasRolesAndPermissions.php:93-104 | an unknown name fails with NotFound before any change; otherwise the user holds the role afterwards, giving twice leaves one row, and other users are untouched |
| HasRolesAndPermissions.RevokeRole | app/Traits/HasRolesAndPermissions.php:106-115 | an unknown name fails with NotFound; otherwise exactly that row is removed and the user no longer has the role |
| HasRolesAndPermissions.SyncRoles | app/Traits/HasRolesAndPermissions.php:117-122 | the user's role ids become exactly the given ids, and other users keep theirs |
| RoleService.PatchRole | app/Services/RoleService.php:22 | `update($data)` sets each supplied attribute, keeps each absent one, and never touches the soft-delete flag |
| RoleService.PatchPerm | app/Services/RoleService.php:47 | the same for a permission's attributes |
| RoleService.PatchRoleLaws | app/Services/RoleService.php:22 | an update array is a partial overwrite: applying it twice equals applying it once, an empty one changes nothing, and the soft-delete flag is untouched |
| RoleService.PatchPermLaws | app/Services/RoleService.php:47 | the same for permissions |
| RoleService.RoleNameClash | app/Services/RoleService.php:22 | an update clashes exactly when it supplies a name that another live role holds |
| RoleService.PermNameClash | app/Services/RoleService.php:47 | an update clashes exactly when it supplies a name that another live permission holds |
| RoleService.CreateRole | app/Services/RoleService.php:11-14 | a name held by a live role gives DuplicateName and changes nothing; otherwise exactly one new row, equal to the supplied data, is added and is found by its name |
| RoleService.CreatePermission | app/Services/RoleService.php:36-39 | the same for permissions |
| RoleService.UpdateRole | app/Services/RoleService.php:16-25 | a system role gives SystemObject with nothing changed; a name clash gives DuplicateName with nothing changed; otherwise only that role's supplied attributes change |
| RoleService.UpdatePermission | app/Services/RoleService.php:41-50 | the same for permissions |
| RoleService.DeleteRole | app/Services/RoleService.php:27-34 | a system role gives SystemObject with nothing changed; otherwise only that row's deleted flag is set, and its pivot rows stay |
| RoleService.DeletePermission | app/Services/RoleService.php:52-59 | the same for permissions |
| RoleService.SoftDeletedRoleHidden | app/Services/RoleService.php:33 | soft-deleting a role removes exactly that role from every user's roles |
| RoleService.SoftDeletedPermHidden | app/Services/RoleService.php:58 | soft-deleting a permission removes exactly it from every role's permissions and every user's effective set |
| RoleService.AssignPermissionToRole | app/Services/RoleService.php:61-68 | an unknown name fails with NotFound and changes nothing; otherwise the edge is added, and other roles are untouched |
| RoleService.RevokePermissionFromRole | app/Services/RoleService.php:70-77 | an unknown name fails with NotFound; otherwise exactly that edge is removed, and an absent edge is a no-op |
| RoleService.SyncArgId | app/Services/RoleService.php:84-93 | a name contributes nothing exactly when no live permission has it, and otherwise the id of the live permission with that name; a model or any other value contributes its id |
| RoleService.SyncArgIds | app/Services/RoleService.php:81-94 | the collected ids are at most as many as the arguments, and an id is collected exactly when some argument contributes it |
| RoleService.SyncArgIdsKeepsAll | app/Services/RoleService.php:84-93 | without unknown names every argument contributes one id |
| RoleService.SyncPermissionsToRole | app/Services/RoleService.php:79-97 | the loop collects exactly the ids of the arguments, and the role's pivot ids become exactly those; other roles are untouched |
| RoleService.SystemRoles | app/Services/RoleService.php:99-102 | `getSystemRoles` holds exactly the live roles flagged `is_system` (partitioned with the custom ones by `ListingsPartition`) |
| RoleService.CustomRoles | app/Services/RoleService.php:104-107 | `getCustomRoles` holds exactly the live roles not flagged `is_system` |
| RoleService.SystemPermissions | app/Services/RoleService.php:109-112 | `getSystemPermissions` holds exactly the live permissions flagged `is_system` |
| RoleService.CustomPermissions | app/Services/RoleService.php:114-117 | `getCustomPermissions` holds exactly the live permissions not flagged `is_system` |
| RoleService.ListingsPartition | app/Services/RoleService.php:99-117 | the system and custom listings are disjoint and together are all live roles (and likewise all live permissions) |
| RoleService.SuperAdminGetsSystemPermissions | database/seeders/RBACSeeder.php:80-82 | the super_admin query selects exactly `getSystemPermissions` |
| RoleService.PermissionRoles | app/Services/RoleService.php:124-127 | `$permission->roles` holds exactly the live roles whose permission set has a pivot row to it (dual to `$role->permissions` by `PermissionRolesDual`) |
| RoleService.PermissionRolesDual | app/Services/RoleService.php:119-127 | a live role lists a live permission exactly when that permission lists the role |
| RoleService.CreateSystemRolesAndPermissions | app/Services/RoleService.php:134-232 | the four roles and the full catalogue exist and existing rows are kept, but the call fails with TypeMismatch at the first sync; on a fresh store the roles are left unseeded |
| RbacSeeder.Ucfirst | database/seeders/RBACSeeder.php:71 | `ucfirst` keeps the length and every character after the first, replaces an initial lower-case ASCII letter by its upper-case form (code point minus 32), and leaves any other string unchanged |
| RbacSeeder.CatalogueDescription | database/seeders/RBACSeeder.php:71 | the entry for resource users and action create is described as "Create Users" |
| RbacSeeder.Like | database/seeders/RBACSeeder.php:94-95 | SQL `LIKE 'prefix_%'` holds exactly when the name is longer than the prefix and agrees with it character by character |
| RbacSeeder.SeedRole.Selects | database/seeders/RBACSeeder.php:80-111 | the WHERE clause of each role's query, with AND binding tighter than OR: only the moderator and user queries can select a permission that is not a system one |
| RbacSeeder.CustomPermissionsSelected | database/seeders/RBACSeeder.php:91-111 | through the OR clauses, a custom `read_…` permission is selected by moderator but not by user, a custom `create_posts` by user, and no custom permission by super_admin or admin |
| RbacSeeder.PermissionNameInjective | database/seeders/RBACSeeder.php:63 | `{action}_{resource}` determines the action and the resource when actions contain no `_` |
| RbacSeeder.LikeOnPermissionName | database/seeders/RBACSeeder.php:94-95 | `LIKE 'prefix_%'` on a generated name holds exactly when the action starts with the prefix |
| RbacSeeder.LikeOnCatalogue | database/seeders/RBACSeeder.php:104 | on the catalogue, `LIKE 'read_%'` selects the read action and `LIKE 'update_%'` the update action |
| RbacSeeder.NameIs | database/seeders/RBACSeeder.php:63 | two generated names are equal exactly when their actions and resources are |
| RbacSeeder.CatalogueNamesDistinct | database/seeders/RBACSeeder.php:61-78 | the 60 generated names are pairwise distinct |
| RbacSeeder.ManageSystemNotInCatalogue | database/seeders/RBACSeeder.php:86 | `manage_system`, which the admin query excludes, is never generated |
| RbacSeeder.AdminRuleOnCatalogue | database/seeders/RBACSeeder.php:80-89 | super_admin selects every catalogue entry, and admin every entry except delete_settings |
| RbacSeeder.ModeratorRuleOnCatalogue | database/seeders/RBACSeeder.php:91-99 | moderator selects exactly the read and update entries plus manage of posts and comments |
| RbacSeeder.CrudNames | database/seeders/RBACSeeder.php:105-110 | a generated name is create, update or delete of resource x exactly when action and resource say so |
| RbacSeeder.UserListNames | database/seeders/RBACSeeder.php:105-110 | the six names listed for user are exactly create, update and delete of posts and comments |
| RbacSeeder.UserRuleOnCatalogue | database/seeders/RBACSeeder.php:103-111 | user selects exactly the read entries plus create, update and delete of posts and comments |
| RbacSeeder.SmallCatalogueUserSet | database/seeders/RBACSeeder.php:103-111 | with resources users and posts and actions create and read, user selects read_users, read_posts and create_posts |
| RbacSeeder.RuleSet | database/seeders/RBACSeeder.php:80-111 | a role's query returns exactly the live permissions its WHERE clause selects; what that is on the catalogue is stated by `AdminRuleOnCatalogue`, `ModeratorRuleOnCatalogue` and `UserRuleOnCatalogue` |
| RbacSeeder.GrantEdge | database/seeders/RBACSeeder.php:115-121 | the grant adds no row when no user has the email, and otherwise exactly the row for that user; `GrantSeedUsers` adds exactly these |
| RbacSeeder.NewRowsCompose | database/seeders/RBACSeeder.php:61-78 | rows added over successive `firstOrCreate` calls are all catalogue rows |
| RbacSeeder.LiveNamesPersist | database/seeders/RBACSeeder.php:61-78 | find-or-create never removes a live name |
| RbacSeeder.RoleNamedPersists | database/seeders/RBACSeeder.php:14-48 | a role found by name is still the one found after later role inserts |
| RbacSeeder.FreshCatalogueNotSeeded | app/Services/RoleService.php:198-200 | on a store that had no permissions, catalogue rows without pivot rows are not a seeded state |
| RbacSeeder.EnsureRole | database/seeders/RBACSeeder.php:14-21 | one role's `firstOrCreate`: the role exists, rows are only added, and an added row carries the role's creation attributes |
| RbacSeeder.EnsureSystemRoles | database/seeders/RBACSeeder.php:14-48 | all four roles exist, existing rows are kept unmodified, new rows carry the seeder's attributes, and nothing changes when all four already exist |
| RbacSeeder.EnsurePerm | database/seeders/RBACSeeder.php:65-74 | the catalogue name is live afterwards, rows are only added, and a new row is exactly that entry |
| RbacSeeder.EnsureResource | database/seeders/RBACSeeder.php:62-77 | every action of the resource has a live permission, rows are only added and all come from the catalogue, and nothing changes when all were present |
| RbacSeeder.EnsureCatalogue | database/seeders/RBACSeeder.php:61-78 | every resource × action name has a live permission, rows are only added and all come from the catalogue, and nothing changes when all were present |
| RbacSeeder.SyncSeedRole | database/seeders/RBACSeeder.php:82 | a role's pivot ids become exactly its query's result, other roles are untouched, and nothing changes when they already were |
| RbacSeeder.SyncSystemRoles | database/seeders/RBACSeeder.php:80-113 | each of the four roles holds exactly its rule set, other roles are untouched, and nothing changes when all four already held theirs |
| RbacSeeder.SeedRolesAndPermissions | database/seeders/RBACSeeder.php:14-113 | roles, catalogue and the four rule sets are in place, rows are only added and all new ones are catalogue rows, and a seeded store keeps its pivot table |
| RbacSeeder.GrantSeedUsers | database/seeders/RBACSeeder.php:115-121 | exactly the two grants are added, each only when its user exists |
| RbacSeeder.Run | database/seeders/RBACSeeder.php:12-122 | afterwards the store is seeded; existing rows are never modified; other roles' pivot rows are untouched; when everything exists nothing new is created; a second run on a seeded store changes nothing |

## Left out

- Database migrations are not part of this model. Names are kept unique among live rows only: a new row may reuse the name of a soft-deleted row, which a global unique index would refuse with a database error.
- Restore and force delete are not part of the core files, and neither are timestamps, foreign-key checks, transactions, or concurrent requests.
- `LIKE` is modelled as case-sensitive prefix matching. The collation of the database is not modelled.
- Pivot tables are sets. A duplicate `permission_role` row cannot be represented. Such a row can arise when `givePermission` re-attaches a permission whose old pivot row points at a soft-deleted record.
- The order of Eloquent collections and of the arrays given to `sync` is not modelled. Results are sets of ids.
- `Role::users` (app/Models/Role.php:25-28) is not modelled: the core never reads it. `Permission::roles` is modelled by `RoleService.PermissionRoles`.
- HasRolesAndPermissions.HasPermission: `contains($permission)` at app/Traits/HasRolesAndPermissions.php:68 is read as membership by id. `permissions()` returns a plain Collection, whose one-argument `contains` compares whole objects loosely. The eager-loaded permissions also carry pivot data that a record looked up by name lacks, so as written the test may fail even for a held permission. That comparison belongs to framework code outside the core, so it is not modelled.
- The trait's user-level `givePermission`, `revokePermission` and `syncPermissions` (app/Traits/HasRolesAndPermissions.php:124-151) are left out. They reach through `permissions()`, which returns a plain Collection with no `attach`, `detach` or `sync`. No edge table between users and permissions exists in the core.
- The `$permissions` array the seeder fills (database/seeders/RBACSeeder.php:59-77) is never read and is left out.
- Users are reduced to their email. Role and Permission model arguments are their ids, and the update and delete operations require the id to be a row of the table.
- `createRole` and `createPermission` take the attribute array as a complete record. Missing attributes and mass-assignment filtering are not modelled.
- The Filament admin resources, routes, the service provider and `DatabaseSeeder` are callers of the core and are not modelled.
- RbacSeeder.RuleSet: the role sizes on a fresh store (60, 59, 22 and 16 permissions) follow from the per-entry rule lemmas. They are not proved as cardinalities.

## Findings

| source | as written | input that shows it | evidently intended | confidence | as-written member | corrected member |
|---|---|---|---|---|---|---|
| app/Services/RoleService.php:200 | `syncPermissions($allPermissions)` passes an Eloquent Collection to a parameter declared `array`, so PHP throws a TypeError after roles and catalogue are created and before any pivot row is written (lines 207, 219 and 231 repeat it) | any call of `createSystemRolesAndPermissions`, e.g. on an empty store | sync each role to the ids of its query, as the seeder does with `->pluck('id')->toArray()` | high, not executed | RoleService.CreateSystemRolesAndPermissions | RbacSeeder.SeedRolesAndPermissions |
