# Tenant and workspace seeding, modelled in Dafny

This project models the tenant part of the database seed script `prisma/seed.ts`.
That part has two pieces:

- **`createTenant`**. It creates one tenant. Then it creates one tenant membership per
  (user, role) member; every membership has joined = CREATOR and status = ACTIVE. Then it
  creates one workspace per name, with placeholder business fields. Last, it links every
  member to every workspace with a workspace membership.
- **The tenant policy of `seed`**. It picks three users from the user directory by
  position. It creates the four tenant-scoped roles tenantOwner, tenantAdmin, tenantMember
  and tenantGuest. Then it builds "Tenant 1" with three members and "Tenant 2" with two.
  The admin of Tenant 1 becomes the owner of Tenant 2.

The database is modelled as an append-only log of rows plus a fresh-id counter (`Records.Db`).
Every create appends one row that carries the next id. The tables an application would
query are a view of that log (`Records.TablesOf`). `createTenant` is a pure function from a
database and its arguments to the extended database and the new tenant. Its creates are
issued one after another, in the order the script issues them: the tenant, every tenant
membership, every workspace, then each workspace's memberships.

The modules are:

- `Wrappers`: the `Option` type, for a decoder or a run that may yield nothing.
- `Enums`: the two numeric enums and their stored codes.
- `Records`: the entities, the log, the table view, and the database invariant `Consistent`.
- `Assembler`: `createTenant`, and `TenantGraph`, a description of exactly what one call
  writes. Each property is proved for any tables that satisfy `TenantGraph`, then carried
  over to `CreateTenant`.
- `Seeding`: the roles, the positional policy, the two calls, and the per-tenant views.

## Model

| member | source | states |
|---|---|---|
| Enums.StatusCode | prisma/seed.ts:9-14 | A membership status is stored as its declaration position (0 to 3), and decoding that code gives the status back. |
| Enums.StatusOfCode | prisma/seed.ts:9-14 | A stored status decodes exactly when it is one of the four declared positions. |
| Enums.JoinedCode | prisma/seed.ts:16-21 | A join method is stored as its declaration position (0 to 3), and decoding that code gives the join method back. |
| Enums.JoinedOfCode | prisma/seed.ts:16-21 | A stored join method decodes exactly when it is one of the four declared positions. |
| Assembler.CreateTenantUsers | prisma/seed.ts:30-40 | Appends only tenant-membership rows with fresh ids: one per member, in member order, each with the call's tenant id, the member's user and role ids, joined = CREATOR and status = ACTIVE. |
| Assembler.CreateWorkspaces | prisma/seed.ts:42-51 | Appends only workspace rows with fresh ids: one per name, in name order, each with the call's tenant id, type 0 and empty business fields. |
| Assembler.CreateWorkspaceUsers | prisma/seed.ts:53-60 | Appends only workspace-membership rows: one per member, in member order, linking the given workspace to that member's user. |
| Assembler.CreateWorkspaceMemberships | prisma/seed.ts:42-60 | For a list of workspaces, the workspace-membership keys are the workspace-by-member cross product, workspace by workspace. |
| Assembler.CreateTenant | prisma/seed.ts:23-28 | Only appends to the database, with fresh ids, and returns a tenant that has the given name and the first fresh id. |
| Assembler.CreateTenantOrder | prisma/seed.ts:24-61 | The first row written is the returned tenant. Rows then come in phase order: tenant, memberships, workspaces, workspace memberships. |
| Assembler.CreateTenantGraph | prisma/seed.ts:23-63 | One call writes exactly a tenant graph. There are no roles and one tenant. Memberships match the members one to one, in order, with fixed joined and status codes. Workspaces match the names one to one. Workspace memberships are the cross product. Workspace ids are distinct and issued after the tenant. |
| Assembler.CreateTenantCounts | prisma/seed.ts:24-60 | Exactly 1 tenant, \|members\| memberships, \|names\| workspaces and \|names\| × \|members\| workspace memberships. The log grows by their sum. |
| Assembler.CreateTenantEmpty | prisma/seed.ts:24-53 | With no workspace names and no members, the log grows by exactly the tenant row. |
| Assembler.CreateTenantLinks | prisma/seed.ts:42-60 | Every workspace membership links a workspace of this call to an input user, and every (workspace, member) pair is linked. |
| Assembler.CreateTenantUnique | prisma/seed.ts:30-60 | (tenant, user) keys are unique exactly when the members' users are distinct. Distinct users also make (workspace, user) keys unique. With at least one workspace, a repeated user repeats a (workspace, user) key. |
| Assembler.CreateTenantPreservesConsistency | prisma/seed.ts:23-64 | Suppose the database is consistent, the members are distinct users, and their roles exist. Then after the call, ids are still primary keys, every tenant, role and workspace reference resolves, and memberships stay unique across tenants. |
| Assembler.GraphCounts | prisma/seed.ts:30-60 | A tenant graph has 1 tenant, one membership per member, one workspace per name, and \|names\| × \|members\| workspace memberships. |
| Assembler.GraphLinks | prisma/seed.ts:42-60 | In a tenant graph, workspace memberships link only its own workspaces to input users, and they cover every pair. |
| Assembler.GraphUnique | prisma/seed.ts:30-60 | In a tenant graph, membership keys are unique if and only if the users are distinct. |
| Assembler.GraphOwnership | prisma/seed.ts:33-45 | Every membership and every workspace of a tenant graph carries the graph's tenant id. |
| Assembler.GraphReferences | prisma/seed.ts:33-56 | Appending a tenant graph keeps every tenant, role and workspace reference resolving, provided the members' roles exist. |
| Assembler.GraphKeysUnique | prisma/seed.ts:30-60 | Appending a tenant graph of distinct users, whose ids are newer than every existing tenant and workspace, keeps (tenant, user) and (workspace, user) keys unique. |
| Assembler.GraphPreservesConsistency | prisma/seed.ts:23-64 | Suppose the database is consistent, and a tenant graph is appended whose tenant takes the next fresh id, whose members are distinct users, and whose members' roles already exist. Then the database stays consistent. |
| Assembler.CrossLength | prisma/seed.ts:42-60 | The cross product has \|workspaces\| × \|members\| entries. |
| Assembler.CrossMembers | prisma/seed.ts:42-60 | A pair is in the cross product if and only if its workspace id belongs to a listed workspace and its user id belongs to a member. |
| Assembler.CrossNoDuplicates | prisma/seed.ts:42-60 | Distinct workspaces and distinct users give a cross product without repeats. |
| Seeding.CreateRole | prisma/seed.ts:199-206 | Appends exactly one role row, with the given name, one permission of the same name, and the next fresh id. |
| Seeding.CreateTenantRoles | prisma/seed.ts:199-245 | Appends exactly four roles, in order tenantOwner, tenantAdmin, tenantMember, tenantGuest. Each has its own name as its single permission, and each has a consecutive fresh id. |
| Seeding.Seed | prisma/seed.ts:188-269 | Only appends to the database. It creates "Tenant 1" and then "Tenant 2", and Tenant 1's id is the smaller. |
| Seeding.Tenant1Members | prisma/seed.ts:188-258 | Tenant 1 has three members, in order: directory entry 1 as owner, entry 0 as admin, entry 2 as member. |
| Seeding.Tenant2Members | prisma/seed.ts:188-268 | Tenant 2 has two members, in order: directory entry 0 as owner and entry 2 as member. |
| Seeding.MemberPolicy | prisma/seed.ts:250-268 | Tenant 1's admin is Tenant 2's owner. The plain member has the same role in both tenants. Every Tenant 2 user is also in Tenant 1. When the three users differ, Tenant 1's owner is not in Tenant 2. |
| Seeding.ScriptDirectorySeeds | prisma/seed.ts:96-99 | A directory of the script's `totalUsers` = 10 users always seeds. |
| Seeding.SeedFromDirectory | prisma/seed.ts:188-193 | Seeding yields a result exactly when the directory has at least three users. With fewer, nothing is written. |
| Seeding.SeedRowCount | prisma/seed.ts:199-269 | Seeding appends exactly 25 rows. |
| Seeding.SeedScenario | prisma/seed.ts:188-269 | The full seeded dataset. The four roles, with permissions. Tenants [Tenant 1, Tenant 2]. Tenant 1: users[1] as owner, users[0] as admin, users[2] as member. Tenant 2: users[0] as owner, users[2] as member. Each tenant has its two named workspaces, and their memberships are the cross product. No membership uses tenantGuest. |
| Seeding.SeedPerTenant | prisma/seed.ts:249-269 | Filtered by tenant: Tenant 1 has 3 memberships, 2 workspaces and 6 workspace memberships; Tenant 2 has 2, 2 and 4. users[0] is admin of Tenant 1 and owner of Tenant 2. |
| Seeding.SeedPreservesConsistency | prisma/seed.ts:188-269 | Seeding a consistent database whose first three users are distinct leaves it consistent. |
| Seeding.SplitWorkspaceMemberships | prisma/seed.ts:42-60 | The workspace memberships of two tenant graphs, with any workspace names and members, split by tenant when the second tenant's id is above every workspace id of the first. |
| Seeding.RolesPreserveConsistency | prisma/seed.ts:199-245 | Appending only fresh role rows keeps the database consistent and adds their ids to the role ids. |

## Left out

- The database wipe `deleteAllData()` (prisma/seed.ts:71). It is I/O, and the script does not await it. The model starts from any database instead, and `Records.EmptyConsistent` covers an empty one.
- The global `admin` and `tenant` roles (prisma/seed.ts:75-93). The tenant logic does not use them. Users' connection to the `tenant` role is not modelled either.
- Generating the user directory (prisma/seed.ts:96-133). It uses random faker content, passwords from a helper outside this model, and image files read from disk. The directory is a parameter: a list of users in creation order.
- The "kody" user (prisma/seed.ts:138-183). It needs password hashing and fixture files.
- Console timing and logging, the Prisma disconnect, and the process exit code (prisma/seed.ts:67-68, 189-193, 275-282).
- Concurrency inside `createTenant`. The script runs its membership and workspace creates inside `forEach(async ...)` without awaiting them (prisma/seed.ts:30, 42, 53). So the call can return before those rows exist, their ids can interleave, and a failed create does not reach the caller. The model issues the creates one after another in source order, and every create succeeds. Across the two calls in `seed`, the awaited `createTenant("Tenant 1", …)` resolves once its tenant row exists, so Tenant 2's creates can be issued before Tenant 1's memberships and workspaces (prisma/seed.ts:53-60, 250-262). Two facts rest only on the sequential order: the Tenant-1-then-Tenant-2 layout of the tables in `Seeding.SeedScenario` (the first three memberships, the first two workspaces, and their cross product first), and the "newer ids" premise of `Seeding.SplitWorkspaceMemberships`.
- Error propagation. `createTenant` does not await its membership and workspace creates, so a failed create cannot reach its caller. The model has no failure path for a create.
- Persistence failures of the database library: uniqueness constraints, partial writes, rollback. Ids come from a counter, in place of the database's own id generation.
- Seeding.Seed: requires at least three users. The script never checks this. `Seeding.SeedFromDirectory` models the failure for a shorter directory, and `Seeding.ScriptDirectorySeeds` shows that the script's own directory, of `TotalUsers` = 10 users, is large enough.
- Assembler.CreateTenantPreservesConsistency: `Consistent` checks the tenant, role and workspace references, but not the user ids in tenant and workspace memberships (prisma/seed.ts:34, 57). Users are not rows of the log, because the directory is a parameter of the model. `Assembler.GraphPreservesConsistency` and `Seeding.SeedPreservesConsistency` promise the same, and no more.
- Seeding.CreateRole: the nested `permissions: { create: { name } }` of each role create (prisma/seed.ts:202-204) writes a separate Permission record, and whatever link record the schema needs. The model keeps the permission's name as a field of the role row and gives it no id or row of its own.
- Seeding.SeedRowCount: the 25 rows are the model's log. The script also writes one Permission record per role, so its database receives at least 29 records.
