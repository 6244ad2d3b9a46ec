/** The tenant part of the seed script: the four tenant-scoped roles, then
    two tenants built from the first three users of the directory.

    The directory is the list of users the script created earlier, in
    creation order; the policy picks users by position. */
module Seeding {
  import opened Wrappers
  import opened Enums
  import opened Records
  import opened Assembler

  /** How many users the script creates before building tenants. */
  const TotalUsers: nat := 10

  /** Directory positions of the three users the tenants are built from. */
  const OwnerPosition: nat := 1
  const AdminPosition: nat := 0
  const MemberPosition: nat := 2

  /** The tenant-scoped roles, in creation order. */
  const TenantRoleNames: seq<string> := ["tenantOwner", "tenantAdmin", "tenantMember", "tenantGuest"]

  const Tenant1Name: string := "Tenant 1"
  const Tenant2Name: string := "Tenant 2"
  const Tenant1Workspaces: seq<string> := ["T1.Workspace 1", "T1.Workspace 2"]
  const Tenant2Workspaces: seq<string> := ["T2.Workspace 1", "T2.Workspace 2"]

  datatype TenantRoles = TenantRoles(owner: Role, admin: Role, member: Role, guest: Role)

  /** The result of seeding: the database, the roles and the two tenants. */
  datatype Seeded = Seeded(db: Db, roles: TenantRoles, tenant1: Tenant, tenant2: Tenant)

  /** Creates a role together with one permission of the same name. */
  function CreateRole(db: Db, name: string): (r: (Db, Role))
    ensures Appends(db, r.0) && Delta(db, r.0) == [RoleRow(r.1)]
    ensures r.1.name == name && r.1.permissions == [name] && r.1.id == db.nextId
  {
    var role := Role(db.nextId, name, [name]);
    (Create(db, RoleRow(role)), role)
  }

  /** Creates the four tenant-scoped roles, in order, and nothing else. */
  function CreateTenantRoles(db: Db): (r: (Db, TenantRoles))
    ensures Appends(db, r.0)
    ensures TablesOf(Delta(db, r.0)) == NoTables.(roles := [r.1.owner, r.1.admin, r.1.member, r.1.guest])
    ensures forall i :: 0 <= i < 4 ==>
      TablesOf(Delta(db, r.0)).roles[i].name == TenantRoleNames[i]
      && TablesOf(Delta(db, r.0)).roles[i].permissions == [TenantRoleNames[i]]
      && TablesOf(Delta(db, r.0)).roles[i].id == db.nextId + i
  {
    var (db1, owner) := CreateRole(db, TenantRoleNames[0]);
    var (db2, admin) := CreateRole(db1, TenantRoleNames[1]);
    var (db3, member) := CreateRole(db2, TenantRoleNames[2]);
    var (db4, guest) := CreateRole(db3, TenantRoleNames[3]);
    AppendsTrans(db, db1, db2);
    AppendsTrans(db, db2, db3);
    AppendsTrans(db, db3, db4);
    RoleTables(owner, admin, member, guest);
    (db4, TenantRoles(owner, admin, member, guest))
  }

  lemma RoleTables(a: Role, b: Role, c: Role, d: Role)
    ensures TablesOf([RoleRow(a)] + [RoleRow(b)] + [RoleRow(c)] + [RoleRow(d)])
         == NoTables.(roles := [a, b, c, d])
  {
    TablesOfSnoc([], RoleRow(a));
    assert [] + [RoleRow(a)] == [RoleRow(a)];
    TablesOfSnoc([RoleRow(a)], RoleRow(b));
    TablesOfSnoc([RoleRow(a)] + [RoleRow(b)], RoleRow(c));
    TablesOfSnoc([RoleRow(a)] + [RoleRow(b)] + [RoleRow(c)], RoleRow(d));
  }

  /** Tenant 1: users[1] as owner, users[0] as admin, users[2] as member. */
  function Tenant1Members(users: seq<User>, roles: TenantRoles): (r: seq<Member>)
    requires |users| >= 3
    ensures |r| == 3 && r[0].role == roles.owner && r[1].role == roles.admin && r[2].role == roles.member
    ensures r[0].user == users[1] && r[1].user == users[0] && r[2].user == users[2]
  {
    [ Member(users[OwnerPosition], roles.owner),
      Member(users[AdminPosition], roles.admin),
      Member(users[MemberPosition], roles.member) ]
  }

  /** Tenant 2: the Tenant 1 admin, users[0], as owner, and users[2] as member. */
  function Tenant2Members(users: seq<User>, roles: TenantRoles): (r: seq<Member>)
    requires |users| >= 3
    ensures |r| == 2 && r[0].role == roles.owner && r[1].role == roles.member
    ensures r[0].user == users[0] && r[1].user == users[2]
  {
    [ Member(users[AdminPosition], roles.owner),
      Member(users[MemberPosition], roles.member) ]
  }

  /** The two tenants share their people: Tenant 1's admin owns Tenant 2,
      the plain member keeps the same role in both, every Tenant 2 user
      also belongs to Tenant 1, and Tenant 1's owner, when the three users
      are different people, has no place in Tenant 2. */
  lemma MemberPolicy(users: seq<User>, roles: TenantRoles)
    requires |users| >= 3
    ensures Tenant2Members(users, roles)[0].user == Tenant1Members(users, roles)[1].user
    ensures Tenant2Members(users, roles)[1] == Tenant1Members(users, roles)[2]
    ensures UserIds(Tenant2Members(users, roles)) <= UserIds(Tenant1Members(users, roles))
    ensures users[1].id != users[0].id && users[1].id != users[2].id ==>
      Tenant1Members(users, roles)[0].user.id !in UserIds(Tenant2Members(users, roles))
  {
  }

  /** The tenant part of the seed script. The script reads users[0..2]
      without checking the directory's size; its directory has TotalUsers. */
  function Seed(db: Db, users: seq<User>): (r: Seeded)
    requires |users| >= 3
    ensures Appends(db, r.db)
    ensures r.tenant1.name == Tenant1Name && r.tenant2.name == Tenant2Name
    ensures r.tenant1.id < r.tenant2.id
  {
    var (db1, roles) := CreateTenantRoles(db);
    var (db2, tenant1) := CreateTenant(db1, Tenant1Name, Tenant1Workspaces, Tenant1Members(users, roles));
    var (db3, tenant2) := CreateTenant(db2, Tenant2Name, Tenant2Workspaces, Tenant2Members(users, roles));
    AppendsTrans(db, db1, db2);
    AppendsTrans(db, db2, db3);
    Seeded(db3, roles, tenant1, tenant2)
  }

  /** The tenant part of the script over a directory of any size. With fewer
      than three users the script fails when it logs the username of a
      missing directory entry, before any tenant role is written, so the run
      yields nothing. The script's own directory holds TotalUsers users. */
  function SeedFromDirectory(db: Db, users: seq<User>): (r: Option<Seeded>)
    ensures r.Some? <==> |users| >= 3
    ensures r.Some? ==> Appends(db, r.value.db)
    ensures r.Some? ==> r.value.tenant1.name == Tenant1Name && r.value.tenant2.name == Tenant2Name
  {
    if |users| < 3 then None else Some(Seed(db, users))
  }

  /** The directory the script builds, of TotalUsers users, is large enough to seed. */
  lemma ScriptDirectorySeeds(db: Db, users: seq<User>)
    requires |users| == TotalUsers
    ensures SeedFromDirectory(db, users).Some?
  {
  }

  /** A run of the seeding steps: the roles take the database from `db` to
      `db1`, Tenant 1 from `db1` to `db2`, Tenant 2 from `db2` to `r.db`. */
  predicate SeedRun(db: Db, db1: Db, db2: Db, users: seq<User>, r: Seeded) {
    && |users| >= 3
    && Appends(db, db1) && Appends(db1, db2) && Appends(db2, r.db)
    && TablesOf(Delta(db, db1)) == NoTables.(roles := [r.roles.owner, r.roles.admin, r.roles.member, r.roles.guest])
    && (forall i :: 0 <= i < 4 ==>
          TablesOf(Delta(db, db1)).roles[i].name == TenantRoleNames[i]
          && TablesOf(Delta(db, db1)).roles[i].permissions == [TenantRoleNames[i]]
          && TablesOf(Delta(db, db1)).roles[i].id == db.nextId + i)
    && r.tenant1 == Tenant(db1.nextId, Tenant1Name)
    && r.tenant2 == Tenant(db2.nextId, Tenant2Name)
    && TenantGraph(TablesOf(Delta(db1, db2)), r.tenant1, Tenant1Workspaces, Tenant1Members(users, r.roles))
    && TenantGraph(TablesOf(Delta(db2, r.db)), r.tenant2, Tenant2Workspaces, Tenant2Members(users, r.roles))
  }

  /** The database after the tenant roles and Tenant 1 have been written. */
  function Tenant1Db(db: Db, users: seq<User>): Db
    requires |users| >= 3
  {
    var (db1, roles) := CreateTenantRoles(db);
    CreateTenant(db1, Tenant1Name, Tenant1Workspaces, Tenant1Members(users, roles)).0
  }

  /** Seed performs a run of the seeding steps. */
  lemma SeedSteps(db: Db, users: seq<User>)
    requires |users| >= 3
    ensures SeedRun(db, CreateTenantRoles(db).0, Tenant1Db(db, users), users, Seed(db, users))
  {
    var db1, roles := CreateTenantRoles(db).0, CreateTenantRoles(db).1;
    var m1, m2 := Tenant1Members(users, roles), Tenant2Members(users, roles);
    var db2 := Tenant1Db(db, users);
    assert db2 == CreateTenant(db1, Tenant1Name, Tenant1Workspaces, m1).0;
    var r := Seed(db, users);
    assert r == Seeded(CreateTenant(db2, Tenant2Name, Tenant2Workspaces, m2).0, roles,
      Tenant(db1.nextId, Tenant1Name), Tenant(db2.nextId, Tenant2Name));
    CreateTenantGraph(db1, Tenant1Name, Tenant1Workspaces, m1);
    CreateTenantGraph(db2, Tenant2Name, Tenant2Workspaces, m2);
  }

  /** The tables each step of a seeding run appends: `t0` holds the four
      roles, `t1` Tenant 1's graph and `t2` Tenant 2's, whose ids all come
      after every id of `t1`. */
  predicate SeededParts(t0: Tables, t1: Tables, t2: Tables, users: seq<User>, r: Seeded) {
    && |users| >= 3
    && t0 == NoTables.(roles := [r.roles.owner, r.roles.admin, r.roles.member, r.roles.guest])
    && (forall i :: 0 <= i < 4 ==>
          t0.roles[i].name == TenantRoleNames[i] && t0.roles[i].permissions == [TenantRoleNames[i]])
    && r.roles.guest.id !in {r.roles.owner.id, r.roles.admin.id, r.roles.member.id}
    && r.tenant1.id < r.tenant2.id
    && TenantGraph(t1, r.tenant1, Tenant1Workspaces, Tenant1Members(users, r.roles))
    && TenantGraph(t2, r.tenant2, Tenant2Workspaces, Tenant2Members(users, r.roles))
    && (forall w :: w in t1.workspaces ==> w.id < r.tenant2.id)
  }

  /** The tables a run appends are those of its three steps, in order. */
  lemma RunParts(db: Db, db1: Db, db2: Db, users: seq<User>, r: Seeded)
    requires SeedRun(db, db1, db2, users, r)
    ensures Appends(db, r.db)
    ensures SeededParts(TablesOf(Delta(db, db1)), TablesOf(Delta(db1, db2)), TablesOf(Delta(db2, r.db)), users, r)
    ensures TablesOf(Delta(db, r.db))
         == TablesOf(Delta(db, db1)).Concat(TablesOf(Delta(db1, db2))).Concat(TablesOf(Delta(db2, r.db)))
  {
    AppendsTrans(db, db1, db2);
    AppendsTrans(db, db2, r.db);
    TablesOfConcat(Delta(db, db1), Delta(db1, db2));
    TablesOfConcat(Delta(db, db1) + Delta(db1, db2), Delta(db2, r.db));
    var roles := TablesOf(Delta(db, db1)).roles;
    assert roles[3].id == db.nextId + 3 && roles[0].id == db.nextId;
    assert roles[1].id == db.nextId + 1 && roles[2].id == db.nextId + 2;
    var d1 := Delta(db1, db2);
    assert TablesOf(d1).Size() >= 1;
    forall i | 0 <= i < |d1| ensures d1[i].Id() < db2.nextId {
      assert d1[i] == db2.log[|db1.log| + i];
    }
    WorkspacesBelow(d1, db2.nextId);
  }

  /** The entries of `s` whose key is one of `keys`, in order. */
  function Filter<T(!new)>(s: seq<T>, key: T -> nat, keys: set<nat>): (r: seq<T>)
    ensures |r| <= |s|
    ensures forall x :: x in r <==> x in s && key(x) in keys
  {
    if |s| == 0 then []
    else if key(s[0]) in keys then [s[0]] + Filter(s[1..], key, keys)
    else Filter(s[1..], key, keys)
  }

  lemma {:induction false} FilterConcat<T(!new)>(a: seq<T>, b: seq<T>, key: T -> nat, keys: set<nat>)
    ensures Filter(a + b, key, keys) == Filter(a, key, keys) + Filter(b, key, keys)
  {
    if |a| > 0 {
      assert (a + b)[1..] == a[1..] + b;
      FilterConcat(a[1..], b, key, keys);
    } else {
      assert a + b == b;
    }
  }

  lemma {:induction false} FilterAll<T(!new)>(s: seq<T>, key: T -> nat, keys: set<nat>)
    requires forall x :: x in s ==> key(x) in keys
    ensures Filter(s, key, keys) == s
  {
    if |s| > 0 {
      assert s[0] in s;
      FilterAll(s[1..], key, keys);
    }
  }

  lemma FilterNone<T(!new)>(s: seq<T>, key: T -> nat, keys: set<nat>)
    requires forall x :: x in s ==> key(x) !in keys
    ensures Filter(s, key, keys) == []
  {
    if Filter(s, key, keys) != [] {
      assert Filter(s, key, keys)[0] in Filter(s, key, keys);
    }
  }

  function TenantOfMembership(tu: TenantUser): nat { tu.tenantId }
  function TenantOfWorkspace(w: Workspace): nat { w.tenantId }
  function WorkspaceOfMembership(wu: WorkspaceUser): nat { wu.workspaceId }

  /** The memberships of tenant `tenantId`. */
  function MembershipsOf(t: Tables, tenantId: nat): seq<TenantUser> {
    Filter(t.tenantUsers, TenantOfMembership, {tenantId})
  }

  /** The workspaces of tenant `tenantId`. */
  function WorkspacesOf(t: Tables, tenantId: nat): seq<Workspace> {
    Filter(t.workspaces, TenantOfWorkspace, {tenantId})
  }

  /** The workspace memberships of the workspaces of tenant `tenantId`. */
  function WorkspaceMembershipsOf(t: Tables, tenantId: nat): seq<WorkspaceUser> {
    Filter(t.workspaceUsers, WorkspaceOfMembership, IdsOf(WorkspacesOf(t, tenantId)))
  }

  /** The whole tenant dataset of a seeding run: the four roles with their
      permissions, the two tenants, each tenant's memberships with the
      positional policy, each tenant's two workspaces, and the workspace
      memberships of each tenant as the cross product of its workspaces and
      its users. tenantGuest is created but no membership uses it. */
  predicate SeededDataset(all: Tables, users: seq<User>, r: Seeded)
    requires |users| >= 3
  {
    && all.roles == [r.roles.owner, r.roles.admin, r.roles.member, r.roles.guest]
    && (forall i :: 0 <= i < 4 ==>
          all.roles[i].name == TenantRoleNames[i] && all.roles[i].permissions == [TenantRoleNames[i]])
    && all.tenants == [r.tenant1, r.tenant2]
    && |all.tenantUsers| == 5
    && MembershipsFor(all.tenantUsers[..3], r.tenant1.id, Tenant1Members(users, r.roles))
    && MembershipsFor(all.tenantUsers[3..], r.tenant2.id, Tenant2Members(users, r.roles))
    && |all.workspaces| == 4
    && WorkspacesFor(all.workspaces[..2], r.tenant1.id, Tenant1Workspaces)
    && WorkspacesFor(all.workspaces[2..], r.tenant2.id, Tenant2Workspaces)
    && |all.workspaceUsers| == 10
    && WorkspaceKeys(all.workspaceUsers)
       == Cross(all.workspaces[..2], Tenant1Members(users, r.roles))
        + Cross(all.workspaces[2..], Tenant2Members(users, r.roles))
    && (forall tu :: tu in all.tenantUsers ==> tu.roleId != r.roles.guest.id)
  }

  /** The memberships of the seeded dataset: Tenant 1's three, then Tenant 2's two, none with the guest role. */
  lemma PartsMemberships(t0: Tables, t1: Tables, t2: Tables, users: seq<User>, r: Seeded)
    requires SeededParts(t0, t1, t2, users, r)
    ensures var all := t0.Concat(t1).Concat(t2);
      && |all.tenantUsers| == 5
      && MembershipsFor(all.tenantUsers[..3], r.tenant1.id, Tenant1Members(users, r.roles))
      && MembershipsFor(all.tenantUsers[3..], r.tenant2.id, Tenant2Members(users, r.roles))
      && (forall tu :: tu in all.tenantUsers ==> tu.roleId != r.roles.guest.id)
  {
    var m1, m2 := Tenant1Members(users, r.roles), Tenant2Members(users, r.roles);
    var tus := t0.tenantUsers + t1.tenantUsers + t2.tenantUsers;
    assert tus == t1.tenantUsers + t2.tenantUsers;
    assert tus[..3] == t1.tenantUsers && tus[3..] == t2.tenantUsers;
    forall tu | tu in tus ensures tu.roleId != r.roles.guest.id {
      var i :| 0 <= i < 5 && tus[i] == tu;
      if i < 3 {
        assert IsMembershipFor(tu, r.tenant1.id, m1[i]);
      } else {
        assert IsMembershipFor(tu, r.tenant2.id, m2[i - 3]);
      }
    }
  }

  /** The workspaces of the seeded dataset and their memberships. */
  lemma PartsWorkspaces(t0: Tables, t1: Tables, t2: Tables, users: seq<User>, r: Seeded)
    requires SeededParts(t0, t1, t2, users, r)
    ensures var all := t0.Concat(t1).Concat(t2);
      && |all.workspaces| == 4
      && WorkspacesFor(all.workspaces[..2], r.tenant1.id, Tenant1Workspaces)
      && WorkspacesFor(all.workspaces[2..], r.tenant2.id, Tenant2Workspaces)
      && |all.workspaceUsers| == 10
      && WorkspaceKeys(all.workspaceUsers)
         == Cross(all.workspaces[..2], Tenant1Members(users, r.roles))
          + Cross(all.workspaces[2..], Tenant2Members(users, r.roles))
  {
    var m1, m2 := Tenant1Members(users, r.roles), Tenant2Members(users, r.roles);
    GraphCounts(t1, r.tenant1, Tenant1Workspaces, m1);
    GraphCounts(t2, r.tenant2, Tenant2Workspaces, m2);
    var ws := t0.workspaces + t1.workspaces + t2.workspaces;
    assert ws == t1.workspaces + t2.workspaces;
    assert ws[..2] == t1.workspaces && ws[2..] == t2.workspaces;
    var wus := t0.workspaceUsers + t1.workspaceUsers + t2.workspaceUsers;
    assert wus == t1.workspaceUsers + t2.workspaceUsers;
    WorkspaceKeysConcat(t1.workspaceUsers, t2.workspaceUsers);
  }

  lemma PartsDataset(t0: Tables, t1: Tables, t2: Tables, users: seq<User>, r: Seeded)
    requires SeededParts(t0, t1, t2, users, r)
    ensures SeededDataset(t0.Concat(t1).Concat(t2), users, r)
  {
    PartsMemberships(t0, t1, t2, users, r);
    PartsWorkspaces(t0, t1, t2, users, r);
  }

  /** Seeding writes 25 rows: 4 roles, then 1 + 3 + 2 + 6 for Tenant 1 and 1 + 2 + 2 + 4 for Tenant 2. */
  lemma SeedRowCount(db: Db, users: seq<User>)
    requires |users| >= 3
    ensures |Seed(db, users).db.log| == |db.log| + 25
  {
    var db1, db2 := CreateTenantRoles(db).0, Tenant1Db(db, users);
    SeedSteps(db, users);
    var r := Seed(db, users);
    RunParts(db, db1, db2, users, r);
    var t0, t1, t2 := TablesOf(Delta(db, db1)), TablesOf(Delta(db1, db2)), TablesOf(Delta(db2, r.db));
    GraphCounts(t1, r.tenant1, Tenant1Workspaces, Tenant1Members(users, r.roles));
    GraphCounts(t2, r.tenant2, Tenant2Workspaces, Tenant2Members(users, r.roles));
    assert TablesOf(Delta(db, r.db)).Size() == t0.Size() + t1.Size() + t2.Size();
  }

  /** The tenant dataset seeding writes. */
  lemma SeedScenario(db: Db, users: seq<User>)
    requires |users| >= 3
    ensures Appends(db, Seed(db, users).db)
    ensures SeededDataset(TablesOf(Delta(db, Seed(db, users).db)), users, Seed(db, users))
  {
    var db1, db2 := CreateTenantRoles(db).0, Tenant1Db(db, users);
    SeedSteps(db, users);
    RunParts(db, db1, db2, users, Seed(db, users));
    PartsDataset(TablesOf(Delta(db, db1)), TablesOf(Delta(db1, db2)), TablesOf(Delta(db2, Seed(db, users).db)), users, Seed(db, users));
  }

  /** Per tenant, seeding leaves Tenant 1 with 3 memberships, 2 workspaces
      and 6 workspace memberships, and Tenant 2 with 2, 2 and 4; users[0] is
      the admin of Tenant 1 and the owner of Tenant 2. */
  predicate PerTenantCounts(all: Tables, users: seq<User>, r: Seeded)
    requires |users| >= 3
  {
    && |MembershipsOf(all, r.tenant1.id)| == 3
    && |WorkspacesOf(all, r.tenant1.id)| == 2
    && |WorkspaceMembershipsOf(all, r.tenant1.id)| == 6
    && |MembershipsOf(all, r.tenant2.id)| == 2
    && |WorkspacesOf(all, r.tenant2.id)| == 2
    && |WorkspaceMembershipsOf(all, r.tenant2.id)| == 4
    && MembershipsOf(all, r.tenant1.id)[1].userId == users[AdminPosition].id
    && MembershipsOf(all, r.tenant1.id)[1].roleId == r.roles.admin.id
    && MembershipsOf(all, r.tenant2.id)[0].userId == users[AdminPosition].id
    && MembershipsOf(all, r.tenant2.id)[0].roleId == r.roles.owner.id
  }

  /** Filtering two blocks whose entries carry the keys `k1` and `k2` by
      either key gives back that key's block. */
  lemma SplitByKey<T(!new)>(a: seq<T>, b: seq<T>, key: T -> nat, k1: nat, k2: nat)
    requires k1 != k2
    requires forall x :: x in a ==> key(x) == k1
    requires forall x :: x in b ==> key(x) == k2
    ensures Filter(a + b, key, {k1}) == a
    ensures Filter(a + b, key, {k2}) == b
  {
    FilterConcat(a, b, key, {k1});
    FilterConcat(a, b, key, {k2});
    FilterAll(a, key, {k1});
    FilterNone(b, key, {k1});
    FilterNone(a, key, {k2});
    FilterAll(b, key, {k2});
  }

  /** Filtering the seeded memberships and workspaces by tenant gives back each tenant's own. */
  lemma PartsByTenant(t0: Tables, t1: Tables, t2: Tables, users: seq<User>, r: Seeded)
    requires SeededParts(t0, t1, t2, users, r)
    ensures MembershipsOf(t0.Concat(t1).Concat(t2), r.tenant1.id) == t1.tenantUsers
    ensures MembershipsOf(t0.Concat(t1).Concat(t2), r.tenant2.id) == t2.tenantUsers
    ensures WorkspacesOf(t0.Concat(t1).Concat(t2), r.tenant1.id) == t1.workspaces
    ensures WorkspacesOf(t0.Concat(t1).Concat(t2), r.tenant2.id) == t2.workspaces
  {
    var all := t0.Concat(t1).Concat(t2);
    GraphOwnership(t1, r.tenant1, Tenant1Workspaces, Tenant1Members(users, r.roles));
    GraphOwnership(t2, r.tenant2, Tenant2Workspaces, Tenant2Members(users, r.roles));
    assert all.tenantUsers == t1.tenantUsers + t2.tenantUsers;
    assert all.workspaces == t1.workspaces + t2.workspaces;
    SplitByKey(t1.tenantUsers, t2.tenantUsers, TenantOfMembership, r.tenant1.id, r.tenant2.id);
    SplitByKey(t1.workspaces, t2.workspaces, TenantOfWorkspace, r.tenant1.id, r.tenant2.id);
  }

  lemma PartsPerTenant(t0: Tables, t1: Tables, t2: Tables, users: seq<User>, r: Seeded)
    requires SeededParts(t0, t1, t2, users, r)
    ensures PerTenantCounts(t0.Concat(t1).Concat(t2), users, r)
  {
    var m1, m2 := Tenant1Members(users, r.roles), Tenant2Members(users, r.roles);
    var all := t0.Concat(t1).Concat(t2);
    GraphCounts(t1, r.tenant1, Tenant1Workspaces, m1);
    GraphCounts(t2, r.tenant2, Tenant2Workspaces, m2);
    PartsByTenant(t0, t1, t2, users, r);
    assert all.workspaceUsers == t1.workspaceUsers + t2.workspaceUsers;
    SplitWorkspaceMemberships(t1, t2, r.tenant1, r.tenant2, Tenant1Workspaces, Tenant2Workspaces, m1, m2);
    assert IsMembershipFor(t1.tenantUsers[1], r.tenant1.id, m1[1]);
    assert IsMembershipFor(t2.tenantUsers[0], r.tenant2.id, m2[0]);
  }

  /** Per-tenant counts after seeding. */
  lemma SeedPerTenant(db: Db, users: seq<User>)
    requires |users| >= 3
    ensures Appends(db, Seed(db, users).db)
    ensures PerTenantCounts(TablesOf(Delta(db, Seed(db, users).db)), users, Seed(db, users))
  {
    var db1, db2 := CreateTenantRoles(db).0, Tenant1Db(db, users);
    SeedSteps(db, users);
    RunParts(db, db1, db2, users, Seed(db, users));
    PartsPerTenant(TablesOf(Delta(db, db1)), TablesOf(Delta(db1, db2)), TablesOf(Delta(db2, Seed(db, users).db)), users, Seed(db, users));
  }

  /** Splitting the workspace memberships of two tenant graphs, the second's
      workspace ids all above the first's, by tenant. */
  lemma SplitWorkspaceMemberships(t1: Tables, t2: Tables, tenant1: Tenant, tenant2: Tenant,
                                  names1: seq<string>, names2: seq<string>,
                                  m1: seq<Member>, m2: seq<Member>)
    requires TenantGraph(t1, tenant1, names1, m1)
    requires TenantGraph(t2, tenant2, names2, m2)
    requires forall w :: w in t1.workspaces ==> w.id < tenant2.id
    ensures Filter(t1.workspaceUsers + t2.workspaceUsers, WorkspaceOfMembership, IdsOf(t1.workspaces)) == t1.workspaceUsers
    ensures Filter(t1.workspaceUsers + t2.workspaceUsers, WorkspaceOfMembership, IdsOf(t2.workspaces)) == t2.workspaceUsers
  {
    GraphLinks(t1, tenant1, names1, m1);
    GraphLinks(t2, tenant2, names2, m2);
    assert IdsOf(t1.workspaces) !! IdsOf(t2.workspaces);
    var k := WorkspaceOfMembership;
    var ids1, ids2 := IdsOf(t1.workspaces), IdsOf(t2.workspaces);
    FilterConcat(t1.workspaceUsers, t2.workspaceUsers, k, ids1);
    FilterConcat(t1.workspaceUsers, t2.workspaceUsers, k, ids2);
    FilterAll(t1.workspaceUsers, k, ids1);
    FilterNone(t2.workspaceUsers, k, ids1);
    FilterNone(t1.workspaceUsers, k, ids2);
    FilterAll(t2.workspaceUsers, k, ids2);
  }

  lemma WorkspacesBelow(log: seq<Row>, hi: nat)
    requires forall i :: 0 <= i < |log| ==> log[i].Id() < hi
    ensures forall w :: w in TablesOf(log).workspaces ==> w.id < hi
  {
    RowsOfTables(log);
    forall w | w in TablesOf(log).workspaces ensures w.id < hi {
      assert WorkspaceRow(w) in log;
      var i :| 0 <= i < |log| && log[i] == WorkspaceRow(w);
      assert log[i].Id() == w.id;
    }
  }

  /** Appending only role rows with fresh ids keeps the database consistent. */
  lemma RolesPreserveConsistency(db: Db, db': Db)
    requires Consistent(db)
    requires Appends(db, db')
    requires TablesOf(Delta(db, db')) == NoTables.(roles := TablesOf(Delta(db, db')).roles)
    ensures Consistent(db')
    ensures RoleIds(TablesOf(db.log)) + RoleIds(TablesOf(Delta(db, db'))) == RoleIds(TablesOf(db'.log))
  {
    AppendsKeepsIdsFresh(db, db');
    AppendsTables(db, db');
    var before, all := TablesOf(db.log), TablesOf(db'.log);
    assert all.tenants == before.tenants && all.workspaces == before.workspaces;
    assert all.tenantUsers == before.tenantUsers && all.workspaceUsers == before.workspaceUsers;
    assert RoleIds(before) <= RoleIds(all);
  }

  /** Appending a tenant graph leaves the roles table as it was. */
  lemma GraphKeepsRoles(db: Db, db': Db)
    requires Appends(db, db')
    requires TablesOf(Delta(db, db')).roles == []
    ensures RoleIds(TablesOf(db'.log)) == RoleIds(TablesOf(db.log))
  {
    AppendsLog(db, db');
    TablesOfConcat(db.log, Delta(db, db'));
    assert TablesOf(db'.log).roles == TablesOf(db.log).roles + [];
  }

  /** The members of both tenants are distinct users whose roles exist, given
      three distinct directory users and roles drawn from `roleIds`. */
  lemma MembersValid(users: seq<User>, roles: TenantRoles, roleIds: set<nat>)
    requires |users| >= 3
    requires users[0].id != users[1].id && users[0].id != users[2].id && users[1].id != users[2].id
    requires {roles.owner.id, roles.admin.id, roles.member.id} <= roleIds
    ensures DistinctUsers(Tenant1Members(users, roles)) && DistinctUsers(Tenant2Members(users, roles))
    ensures forall m :: m in Tenant1Members(users, roles) ==> m.role.id in roleIds
    ensures forall m :: m in Tenant2Members(users, roles) ==> m.role.id in roleIds
  {
  }

  lemma RunPreservesConsistency(db: Db, db1: Db, db2: Db, users: seq<User>, r: Seeded)
    requires SeedRun(db, db1, db2, users, r)
    requires Consistent(db)
    requires users[0].id != users[1].id && users[0].id != users[2].id && users[1].id != users[2].id
    ensures Consistent(r.db)
  {
    var m1, m2 := Tenant1Members(users, r.roles), Tenant2Members(users, r.roles);
    RolesPreserveConsistency(db, db1);
    var roles := TablesOf(Delta(db, db1)).roles;
    assert {r.roles.owner.id, r.roles.admin.id, r.roles.member.id} <= RoleIds(TablesOf(Delta(db, db1)));
    var ids := RoleIds(TablesOf(db1.log));
    MembersValid(users, r.roles, ids);
    GraphPreservesConsistency(db1, db2, r.tenant1, Tenant1Workspaces, m1);
    GraphKeepsRoles(db1, db2);
    GraphPreservesConsistency(db2, r.db, r.tenant2, Tenant2Workspaces, m2);
  }

  /** Seeding a consistent database keeps it consistent, provided the three
      directory users it picks are distinct. */
  lemma SeedPreservesConsistency(db: Db, users: seq<User>)
    requires |users| >= 3
    requires Consistent(db)
    requires users[0].id != users[1].id && users[0].id != users[2].id && users[1].id != users[2].id
    ensures Consistent(Seed(db, users).db)
  {
    var db1, db2 := CreateTenantRoles(db).0, Tenant1Db(db, users);
    SeedSteps(db, users);
    RunPreservesConsistency(db, db1, db2, users, Seed(db, users));
  }
}
