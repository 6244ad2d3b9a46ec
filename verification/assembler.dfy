/** createTenant: one tenant, its memberships, its workspaces and the
    workspace memberships, appended to the database log.

    The creates are issued one after another in the order the script issues
    them: the tenant (awaited first), then one tenant membership per member,
    then one workspace per name, then for each workspace one membership per
    member. */
module Assembler {
  import opened Enums
  import opened Records

  /** A tenant membership row for `m` in tenant `tenantId`, with the fixed
      seeding policy: joined as creator, status active. */
  predicate IsMembershipFor(tu: TenantUser, tenantId: nat, m: Member) {
    && tu.tenantId == tenantId
    && tu.userId == m.user.id
    && tu.roleId == m.role.id
    && tu.joined == JoinedCode(Creator)
    && tu.status == StatusCode(Active)
  }

  /** One membership row per member, in member order. */
  predicate MembershipsFor(tus: seq<TenantUser>, tenantId: nat, ms: seq<Member>) {
    && |tus| == |ms|
    && forall i :: 0 <= i < |ms| ==> IsMembershipFor(tus[i], tenantId, ms[i])
  }

  /** A workspace of tenant `tenantId` named `name`, with placeholder business fields. */
  predicate IsWorkspaceFor(w: Workspace, tenantId: nat, name: string) {
    && w.tenantId == tenantId
    && w.name == name
    && w.businessType == 0
    && w.businessMainActivity == ""
    && w.registrationNumber == ""
  }

  /** One workspace per name, in name order. */
  predicate WorkspacesFor(ws: seq<Workspace>, tenantId: nat, names: seq<string>) {
    && |ws| == |names|
    && forall j :: 0 <= j < |names| ==> IsWorkspaceFor(ws[j], tenantId, names[j])
  }

  /** Every row of `rows` has kind `kind`. */
  predicate AllOfKind(rows: seq<Row>, kind: nat) {
    forall i :: 0 <= i < |rows| ==> Phase(rows[i]) == kind
  }

  /** The position of a row's kind in createTenant's creation order. */
  function Phase(r: Row): nat {
    match r
    case TenantRow(_) => 0
    case TenantUserRow(_) => 1
    case WorkspaceRow(_) => 2
    case WorkspaceUserRow(_) => 3
    case RoleRow(_) => 4
  }

  /** Rows appear in creation-phase order: tenant, tenant memberships,
      workspaces, workspace memberships. */
  predicate PhaseOrdered(rows: seq<Row>) {
    forall i, j :: 0 <= i < j < |rows| ==> Phase(rows[i]) <= Phase(rows[j])
  }

  predicate DistinctUsers(ms: seq<Member>) {
    forall i, j :: 0 <= i < j < |ms| ==> ms[i].user.id != ms[j].user.id
  }

  function UserIds(ms: seq<Member>): set<nat> {
    set m | m in ms :: m.user.id
  }

  function IdsOf(ws: seq<Workspace>): set<nat> {
    set w | w in ws :: w.id
  }

  /** The (workspace, user) keys linking one workspace to every member. */
  function MemberLinks(workspaceId: nat, ms: seq<Member>): seq<(nat, nat)> {
    seq(|ms|, k requires 0 <= k < |ms| => (workspaceId, ms[k].user.id))
  }

  /** The (workspace, user) keys of the full cross product, workspace by workspace. */
  function Cross(ws: seq<Workspace>, ms: seq<Member>): seq<(nat, nat)> {
    if |ws| == 0 then [] else MemberLinks(ws[0].id, ms) + Cross(ws[1..], ms)
  }

  /** The cross product has one key per (workspace, member) pair. */
  lemma {:induction false} CrossLength(ws: seq<Workspace>, ms: seq<Member>)
    ensures |Cross(ws, ms)| == |ws| * |ms|
  {
    if |ws| > 0 {
      CrossLength(ws[1..], ms);
      calc {
        |Cross(ws, ms)|;
        |ms| + (|ws| - 1) * |ms|;
        |ws| * |ms|;
      }
    }
  }

  /** A key is in the cross product exactly when its workspace is one of
      `ws` and its user is one of the members. */
  lemma {:induction false} CrossMembers(ws: seq<Workspace>, ms: seq<Member>, wid: nat, uid: nat)
    ensures (wid, uid) in Cross(ws, ms) <==> wid in IdsOf(ws) && uid in UserIds(ms)
  {
    if |ws| > 0 {
      CrossMembers(ws[1..], ms, wid, uid);
      assert IdsOf(ws) == {ws[0].id} + IdsOf(ws[1..]) by {
        assert ws == [ws[0]] + ws[1..];
      }
      if (wid, uid) in MemberLinks(ws[0].id, ms) {
        var k :| 0 <= k < |ms| && MemberLinks(ws[0].id, ms)[k] == (wid, uid);
        assert ms[k] in ms;
      }
      if wid == ws[0].id && uid in UserIds(ms) {
        var m :| m in ms && m.user.id == uid;
        var k :| 0 <= k < |ms| && ms[k] == m;
        assert MemberLinks(ws[0].id, ms)[k] == (wid, uid);
      }
    }
  }

  /** Distinct workspaces and distinct users give a cross product without repeats. */
  lemma {:induction false} CrossNoDuplicates(ws: seq<Workspace>, ms: seq<Member>)
    requires DistinctWorkspaceIds(ws)
    requires DistinctUsers(ms)
    ensures NoDuplicates(Cross(ws, ms))
  {
    if |ws| > 0 {
      var rest := ws[1..];
      CrossNoDuplicates(rest, ms);
      var head, tail := MemberLinks(ws[0].id, ms), Cross(rest, ms);
      forall i, j | 0 <= i < j < |head + tail| ensures (head + tail)[i] != (head + tail)[j] {
        if j < |head| {
        } else if i >= |head| {
          assert (head + tail)[i] == tail[i - |head|];
          assert (head + tail)[j] == tail[j - |head|];
        } else {
          var p := tail[j - |head|];
          CrossMembers(rest, ms, p.0, p.1);
          var w :| w in rest && w.id == p.0;
          var x :| 0 <= x < |rest| && rest[x] == w;
          assert ws[x + 1] == w;
        }
      }
    }
  }

  function CreateTenantUsers(db: Db, tenantId: nat, ms: seq<Member>): (r: Db)
    ensures Appends(db, r)
    ensures AllOfKind(Delta(db, r), 1)
    ensures var added := TablesOf(Delta(db, r));
      added == NoTables.(tenantUsers := added.tenantUsers) && MembershipsFor(added.tenantUsers, tenantId, ms)
    decreases |ms|
  {
    if |ms| == 0 then db
    else
      var row := TenantUserRow(TenantUser(
        db.nextId, tenantId, ms[0].user.id, ms[0].role.id, JoinedCode(Creator), StatusCode(Active)));
      var db1 := Create(db, row);
      var r := CreateTenantUsers(db1, tenantId, ms[1..]);
      AppendsTrans(db, db1, r);
      TenantUserCons(row.tenantUser, Delta(db1, r), tenantId, ms);
      r
  }

  function CreateWorkspaces(db: Db, tenantId: nat, names: seq<string>): (r: (Db, seq<Workspace>))
    ensures Appends(db, r.0)
    ensures AllOfKind(Delta(db, r.0), 2)
    ensures TablesOf(Delta(db, r.0)) == NoTables.(workspaces := r.1)
    ensures WorkspacesFor(r.1, tenantId, names)
    decreases |names|
  {
    if |names| == 0 then (db, [])
    else
      var w := Workspace(db.nextId, tenantId, names[0], 0, "", "");
      var db1 := Create(db, WorkspaceRow(w));
      var (r, ws) := CreateWorkspaces(db1, tenantId, names[1..]);
      AppendsTrans(db, db1, r);
      WorkspaceCons(w, Delta(db1, r), ws);
      (r, [w] + ws)
  }

  /** A row followed by rows of its own kind: the kind is kept and the tables split. */
  lemma KindCons(row: Row, rest: seq<Row>, kind: nat)
    requires Phase(row) == kind && AllOfKind(rest, kind)
    ensures AllOfKind([row] + rest, kind)
    ensures TablesOf([row] + rest) == NoTables.Insert(row).Concat(TablesOf(rest))
  {
    TablesOfConcat([row], rest);
    assert TablesOf([row]) == TablesOf([]).Insert(row);
  }

  lemma WorkspaceCons(w: Workspace, rest: seq<Row>, ws: seq<Workspace>)
    requires AllOfKind(rest, 2) && TablesOf(rest) == NoTables.(workspaces := ws)
    ensures AllOfKind([WorkspaceRow(w)] + rest, 2)
    ensures TablesOf([WorkspaceRow(w)] + rest) == NoTables.(workspaces := [w] + ws)
  {
    KindCons(WorkspaceRow(w), rest, 2);
  }

  lemma TenantUserCons(tu: TenantUser, rest: seq<Row>, tenantId: nat, ms: seq<Member>)
    requires |ms| > 0 && IsMembershipFor(tu, tenantId, ms[0])
    requires AllOfKind(rest, 1)
    requires TablesOf(rest) == NoTables.(tenantUsers := TablesOf(rest).tenantUsers)
    requires MembershipsFor(TablesOf(rest).tenantUsers, tenantId, ms[1..])
    ensures AllOfKind([TenantUserRow(tu)] + rest, 1)
    ensures var added := TablesOf([TenantUserRow(tu)] + rest);
      added == NoTables.(tenantUsers := added.tenantUsers) && MembershipsFor(added.tenantUsers, tenantId, ms)
  {
    KindCons(TenantUserRow(tu), rest, 1);
    var tus := [tu] + TablesOf(rest).tenantUsers;
    assert TablesOf([TenantUserRow(tu)] + rest) == NoTables.(tenantUsers := tus);
    forall i | 0 <= i < |ms| ensures IsMembershipFor(tus[i], tenantId, ms[i]) {
      if i > 0 {
        assert tus[i] == TablesOf(rest).tenantUsers[i - 1] && ms[i] == ms[1..][i - 1];
      }
    }
  }

  lemma WorkspaceUserCons(wu: WorkspaceUser, rest: seq<Row>, workspaceId: nat, ms: seq<Member>)
    requires |ms| > 0 && wu.workspaceId == workspaceId && wu.userId == ms[0].user.id
    requires AllOfKind(rest, 3)
    requires TablesOf(rest) == NoTables.(workspaceUsers := TablesOf(rest).workspaceUsers)
    requires WorkspaceKeys(TablesOf(rest).workspaceUsers) == MemberLinks(workspaceId, ms[1..])
    ensures AllOfKind([WorkspaceUserRow(wu)] + rest, 3)
    ensures var added := TablesOf([WorkspaceUserRow(wu)] + rest);
      added == NoTables.(workspaceUsers := added.workspaceUsers)
      && WorkspaceKeys(added.workspaceUsers) == MemberLinks(workspaceId, ms)
  {
    KindCons(WorkspaceUserRow(wu), rest, 3);
    var wus := [wu] + TablesOf(rest).workspaceUsers;
    assert TablesOf([WorkspaceUserRow(wu)] + rest) == NoTables.(workspaceUsers := wus);
    WorkspaceKeysConcat([wu], TablesOf(rest).workspaceUsers);
    assert MemberLinks(workspaceId, ms) == [(workspaceId, ms[0].user.id)] + MemberLinks(workspaceId, ms[1..]);
  }

  function CreateWorkspaceUsers(db: Db, workspaceId: nat, ms: seq<Member>): (r: Db)
    ensures Appends(db, r)
    ensures AllOfKind(Delta(db, r), 3)
    ensures var added := TablesOf(Delta(db, r));
      added == NoTables.(workspaceUsers := added.workspaceUsers)
      && WorkspaceKeys(added.workspaceUsers) == MemberLinks(workspaceId, ms)
    decreases |ms|
  {
    if |ms| == 0 then db
    else
      var row := WorkspaceUserRow(WorkspaceUser(db.nextId, workspaceId, ms[0].user.id));
      var db1 := Create(db, row);
      var r := CreateWorkspaceUsers(db1, workspaceId, ms[1..]);
      AppendsTrans(db, db1, r);
      WorkspaceUserCons(row.workspaceUser, Delta(db1, r), workspaceId, ms);
      r
  }

  function CreateWorkspaceMemberships(db: Db, ws: seq<Workspace>, ms: seq<Member>): (r: Db)
    ensures Appends(db, r)
    ensures AllOfKind(Delta(db, r), 3)
    ensures var added := TablesOf(Delta(db, r));
      added == NoTables.(workspaceUsers := added.workspaceUsers)
      && WorkspaceKeys(added.workspaceUsers) == Cross(ws, ms)
    decreases |ws|
  {
    if |ws| == 0 then db
    else
      var db1 := CreateWorkspaceUsers(db, ws[0].id, ms);
      var r := CreateWorkspaceMemberships(db1, ws[1..], ms);
      AppendsTrans(db, db1, r);
      TablesOfConcat(Delta(db, db1), Delta(db1, r));
      WorkspaceKeysConcat(TablesOf(Delta(db, db1)).workspaceUsers, TablesOf(Delta(db1, r)).workspaceUsers);
      r
  }

  lemma PhaseOrderedSegments(a: seq<Row>, b: seq<Row>, c: seq<Row>, d: seq<Row>)
    requires AllOfKind(a, 0) && AllOfKind(b, 1) && AllOfKind(c, 2) && AllOfKind(d, 3)
    ensures PhaseOrdered(a + b + c + d)
    ensures |a| > 0 ==> (a + b + c + d)[0] == a[0]
  {
    var s := a + b + c + d;
    forall i, j | 0 <= i < j < |s| ensures Phase(s[i]) <= Phase(s[j]) {
      assert Phase(s[i]) == (if i < |a| then 0 else if i < |a| + |b| then 1 else if i < |a| + |b| + |c| then 2 else 3);
      assert Phase(s[j]) == (if j < |a| then 0 else if j < |a| + |b| then 1 else if j < |a| + |b| + |c| then 2 else 3);
    }
  }

  /** The tables of four consecutive log segments. */
  lemma FourSegments(d1: seq<Row>, d2: seq<Row>, d3: seq<Row>, d4: seq<Row>)
    ensures TablesOf(d1 + d2 + d3 + d4)
         == TablesOf(d1).Concat(TablesOf(d2)).Concat(TablesOf(d3)).Concat(TablesOf(d4))
  {
    TablesOfConcat(d1, d2);
    TablesOfConcat(d1 + d2, d3);
    TablesOfConcat(d1 + d2 + d3, d4);
  }

  /** The tables written by the four phases of createTenant, put together. */
  lemma PhaseTables(t1: Tables, t2: Tables, t3: Tables, t4: Tables,
                    tenant: Tenant, tus: seq<TenantUser>, ws: seq<Workspace>, wus: seq<WorkspaceUser>)
    requires t1 == NoTables.(tenants := [tenant])
    requires t2 == NoTables.(tenantUsers := tus)
    requires t3 == NoTables.(workspaces := ws)
    requires t4 == NoTables.(workspaceUsers := wus)
    ensures t1.Concat(t2).Concat(t3).Concat(t4) == Tables([], [tenant], tus, ws, wus)
  {
    assert [] + tus + [] + [] == tus;
    assert [] + [] + ws + [] == ws;
    assert [] + [] + [] + wus == wus;
  }

  /** The databases createTenant passes through: after the tenant row, after
      the tenant memberships, after the workspaces (with the workspaces
      themselves) and after the workspace memberships. */
  datatype Stages = Stages(db1: Db, db2: Db, db3: Db, ws: seq<Workspace>, db4: Db)

  function CreateTenantStages(db: Db, name: string, workspaceNames: seq<string>, ms: seq<Member>): (s: Stages)
    ensures Appends(db, s.db1) && Appends(s.db1, s.db2) && Appends(s.db2, s.db3) && Appends(s.db3, s.db4)
  {
    var tenant := Tenant(db.nextId, name);
    var db1 := Create(db, TenantRow(tenant));
    var db2 := CreateTenantUsers(db1, tenant.id, ms);
    var (db3, ws) := CreateWorkspaces(db2, tenant.id, workspaceNames);
    var db4 := CreateWorkspaceMemberships(db3, ws, ms);
    Stages(db1, db2, db3, ws, db4)
  }

  /** createTenant: returns the new tenant and the database with every row of
      this call appended, with fresh ids, after the rows already there. */
  function CreateTenant(db: Db, name: string, workspaceNames: seq<string>, ms: seq<Member>): (r: (Db, Tenant))
    ensures Appends(db, r.0)
    ensures r.1.name == name && r.1.id == db.nextId
  {
    var s := CreateTenantStages(db, name, workspaceNames, ms);
    AppendsTrans(db, s.db1, s.db2);
    AppendsTrans(db, s.db2, s.db3);
    AppendsTrans(db, s.db3, s.db4);
    (s.db4, Tenant(db.nextId, name))
  }

  /** The tables formed by the rows one createTenant call appends. */
  function Added(db: Db, name: string, workspaceNames: seq<string>, ms: seq<Member>): Tables {
    TablesOf(Delta(db, CreateTenant(db, name, workspaceNames, ms).0))
  }

  /** What each phase of one call appends: the tenant row alone, then only
      tenant memberships, then only the workspaces, then only workspace
      memberships. */
  predicate PhasesOf(db: Db, name: string, workspaceNames: seq<string>, ms: seq<Member>, s: Stages)
    requires Appends(db, s.db1) && Appends(s.db1, s.db2) && Appends(s.db2, s.db3) && Appends(s.db3, s.db4)
  {
    var d2, d3, d4 := Delta(s.db1, s.db2), Delta(s.db2, s.db3), Delta(s.db3, s.db4);
    && Delta(db, s.db1) == [TenantRow(Tenant(db.nextId, name))]
    && AllOfKind(d2, 1) && TablesOf(d2) == NoTables.(tenantUsers := TablesOf(d2).tenantUsers)
    && MembershipsFor(TablesOf(d2).tenantUsers, db.nextId, ms)
    && AllOfKind(d3, 2) && TablesOf(d3) == NoTables.(workspaces := s.ws)
    && WorkspacesFor(s.ws, db.nextId, workspaceNames)
    && AllOfKind(d4, 3) && TablesOf(d4) == NoTables.(workspaceUsers := TablesOf(d4).workspaceUsers)
    && WorkspaceKeys(TablesOf(d4).workspaceUsers) == Cross(s.ws, ms)
  }

  /** The rows of one call are the concatenation of its four phases. */
  lemma CreateTenantPhases(db: Db, name: string, workspaceNames: seq<string>, ms: seq<Member>)
    ensures var s := CreateTenantStages(db, name, workspaceNames, ms);
      Delta(db, CreateTenant(db, name, workspaceNames, ms).0)
        == Delta(db, s.db1) + Delta(s.db1, s.db2) + Delta(s.db2, s.db3) + Delta(s.db3, s.db4)
    ensures PhasesOf(db, name, workspaceNames, ms, CreateTenantStages(db, name, workspaceNames, ms))
  {
    var s := CreateTenantStages(db, name, workspaceNames, ms);
    AppendsTrans(db, s.db1, s.db2);
    AppendsTrans(db, s.db2, s.db3);
    AppendsTrans(db, s.db3, s.db4);
  }

  /** The call writes the tenant first, then every tenant membership, then
      every workspace, then every workspace membership. */
  lemma CreateTenantOrder(db: Db, name: string, workspaceNames: seq<string>, ms: seq<Member>)
    ensures var d := Delta(db, CreateTenant(db, name, workspaceNames, ms).0);
      |d| > 0 && d[0] == TenantRow(Tenant(db.nextId, name)) && PhaseOrdered(d)
  {
    CreateTenantPhases(db, name, workspaceNames, ms);
    var s := CreateTenantStages(db, name, workspaceNames, ms);
    var d1, d2, d3, d4 := Delta(db, s.db1), Delta(s.db1, s.db2), Delta(s.db2, s.db3), Delta(s.db3, s.db4);
    assert AllOfKind(d1, 0);
    PhaseOrderedSegments(d1, d2, d3, d4);
  }

  /** What one createTenant call writes, as tables: no roles; the tenant;
      one active creator membership per member, in input order; one
      placeholder workspace per name, in input order, with distinct ids issued
      after the tenant's; and the workspace-by-member cross product of
      workspace memberships. */
  predicate TenantGraph(added: Tables, tenant: Tenant, workspaceNames: seq<string>, ms: seq<Member>) {
    && added.roles == []
    && added.tenants == [tenant]
    && MembershipsFor(added.tenantUsers, tenant.id, ms)
    && WorkspacesFor(added.workspaces, tenant.id, workspaceNames)
    && WorkspaceKeys(added.workspaceUsers) == Cross(added.workspaces, ms)
    && DistinctWorkspaceIds(added.workspaces)
    && forall w :: w in added.workspaces ==> tenant.id <= w.id
  }

  lemma CreateTenantContents(db: Db, name: string, workspaceNames: seq<string>, ms: seq<Member>)
    ensures Added(db, name, workspaceNames, ms).roles == []
    ensures Added(db, name, workspaceNames, ms).tenants == [Tenant(db.nextId, name)]
    ensures MembershipsFor(Added(db, name, workspaceNames, ms).tenantUsers, db.nextId, ms)
    ensures WorkspacesFor(Added(db, name, workspaceNames, ms).workspaces, db.nextId, workspaceNames)
    ensures var added := Added(db, name, workspaceNames, ms);
      WorkspaceKeys(added.workspaceUsers) == Cross(added.workspaces, ms)
  {
    CreateTenantPhases(db, name, workspaceNames, ms);
    var s := CreateTenantStages(db, name, workspaceNames, ms);
    var d1, d2, d3, d4, ws := Delta(db, s.db1), Delta(s.db1, s.db2), Delta(s.db2, s.db3), Delta(s.db3, s.db4), s.ws;
    FourSegments(d1, d2, d3, d4);
    PhaseTables(TablesOf(d1), TablesOf(d2), TablesOf(d3), TablesOf(d4),
      Tenant(db.nextId, name), TablesOf(d2).tenantUsers, ws, TablesOf(d4).workspaceUsers);
  }

  /** The rows of one call carry consecutive fresh ids, so its workspaces have distinct ids
      all at or above the counter it started from. */
  lemma CreateTenantWorkspaceIds(db: Db, name: string, workspaceNames: seq<string>, ms: seq<Member>)
    ensures DistinctWorkspaceIds(Added(db, name, workspaceNames, ms).workspaces)
    ensures forall w :: w in Added(db, name, workspaceNames, ms).workspaces ==> db.nextId <= w.id
  {
    var r := CreateTenant(db, name, workspaceNames, ms);
    DeltaIdsFresh(db, r.0);
    WorkspaceIdsDistinct(Delta(db, r.0));
    WorkspacesAtOrAbove(Delta(db, r.0), db.nextId);
  }

  /** One createTenant call writes exactly the tenant graph of its arguments. */
  lemma CreateTenantGraph(db: Db, name: string, workspaceNames: seq<string>, ms: seq<Member>)
    ensures TenantGraph(Added(db, name, workspaceNames, ms), Tenant(db.nextId, name), workspaceNames, ms)
  {
    CreateTenantContents(db, name, workspaceNames, ms);
    CreateTenantWorkspaceIds(db, name, workspaceNames, ms);
  }

  /** Counts of a tenant graph: one tenant, one membership per member, one
      workspace per name, one workspace membership per (workspace, member) pair. */
  lemma GraphCounts(added: Tables, tenant: Tenant, workspaceNames: seq<string>, ms: seq<Member>)
    requires TenantGraph(added, tenant, workspaceNames, ms)
    ensures |added.tenants| == 1
    ensures |added.tenantUsers| == |ms|
    ensures |added.workspaces| == |workspaceNames|
    ensures |added.workspaceUsers| == |workspaceNames| * |ms|
    ensures added.Size() == 1 + |ms| + |workspaceNames| + |workspaceNames| * |ms|
  {
    CrossLength(added.workspaces, ms);
  }

  /** Every membership and every workspace of a tenant graph belongs to its tenant. */
  lemma GraphOwnership(added: Tables, tenant: Tenant, workspaceNames: seq<string>, ms: seq<Member>)
    requires TenantGraph(added, tenant, workspaceNames, ms)
    ensures forall tu :: tu in added.tenantUsers ==> tu.tenantId == tenant.id
    ensures forall w :: w in added.workspaces ==> w.tenantId == tenant.id
  {
    forall tu | tu in added.tenantUsers ensures tu.tenantId == tenant.id {
      var i :| 0 <= i < |added.tenantUsers| && added.tenantUsers[i] == tu;
      assert IsMembershipFor(tu, tenant.id, ms[i]);
    }
    forall w | w in added.workspaces ensures w.tenantId == tenant.id {
      var j :| 0 <= j < |added.workspaces| && added.workspaces[j] == w;
      assert IsWorkspaceFor(w, tenant.id, workspaceNames[j]);
    }
  }

  /** Workspace memberships of a tenant graph form the cross product: each
      links one of its workspaces to an input user, and each such pair is linked. */
  lemma GraphLinks(added: Tables, tenant: Tenant, workspaceNames: seq<string>, ms: seq<Member>)
    requires TenantGraph(added, tenant, workspaceNames, ms)
    ensures forall wu :: wu in added.workspaceUsers ==>
      wu.workspaceId in IdsOf(added.workspaces) && wu.userId in UserIds(ms)
    ensures forall j, k :: 0 <= j < |added.workspaces| && 0 <= k < |ms| ==>
      (added.workspaces[j].id, ms[k].user.id) in WorkspaceKeys(added.workspaceUsers)
  {
    var keys := WorkspaceKeys(added.workspaceUsers);
    forall wu | wu in added.workspaceUsers
      ensures wu.workspaceId in IdsOf(added.workspaces) && wu.userId in UserIds(ms)
    {
      var i :| 0 <= i < |added.workspaceUsers| && added.workspaceUsers[i] == wu;
      assert keys[i] == (wu.workspaceId, wu.userId);
      CrossMembers(added.workspaces, ms, wu.workspaceId, wu.userId);
    }
    forall j, k | 0 <= j < |added.workspaces| && 0 <= k < |ms|
      ensures (added.workspaces[j].id, ms[k].user.id) in keys
    {
      assert added.workspaces[j] in added.workspaces;
      assert ms[k] in ms;
      CrossMembers(added.workspaces, ms, added.workspaces[j].id, ms[k].user.id);
    }
  }

  /** In a tenant graph, memberships are unique exactly when the input users are distinct. */
  lemma GraphUnique(added: Tables, tenant: Tenant, workspaceNames: seq<string>, ms: seq<Member>)
    requires TenantGraph(added, tenant, workspaceNames, ms)
    ensures NoDuplicates(MembershipKeys(added.tenantUsers)) <==> DistinctUsers(ms)
    ensures DistinctUsers(ms) ==> NoDuplicates(WorkspaceKeys(added.workspaceUsers))
    ensures |workspaceNames| > 0 && !DistinctUsers(ms) ==> !NoDuplicates(WorkspaceKeys(added.workspaceUsers))
  {
    var tkeys, wkeys := MembershipKeys(added.tenantUsers), WorkspaceKeys(added.workspaceUsers);
    if DistinctUsers(ms) {
      forall i, j | 0 <= i < j < |tkeys| ensures tkeys[i] != tkeys[j] {
        assert IsMembershipFor(added.tenantUsers[i], tenant.id, ms[i]);
        assert IsMembershipFor(added.tenantUsers[j], tenant.id, ms[j]);
      }
      CrossNoDuplicates(added.workspaces, ms);
    } else {
      var i, j :| 0 <= i < j < |ms| && ms[i].user.id == ms[j].user.id;
      assert IsMembershipFor(added.tenantUsers[i], tenant.id, ms[i]);
      assert IsMembershipFor(added.tenantUsers[j], tenant.id, ms[j]);
      assert tkeys[i] == tkeys[j];
      if |workspaceNames| > 0 {
        var ws := added.workspaces;
        assert Cross(ws, ms) == MemberLinks(ws[0].id, ms) + Cross(ws[1..], ms);
        assert wkeys[i] == wkeys[j];
      }
    }
  }

  /** A tenant graph appended to resolving tables keeps every tenant, role
      and workspace reference resolving when its members' roles already exist. */
  lemma GraphReferences(before: Tables, added: Tables, tenant: Tenant, workspaceNames: seq<string>, ms: seq<Member>)
    requires ReferencesResolve(before)
    requires TenantGraph(added, tenant, workspaceNames, ms)
    requires forall m :: m in ms ==> m.role.id in RoleIds(before)
    ensures ReferencesResolve(before.Concat(added))
  {
    var all := before.Concat(added);
    GraphLinks(added, tenant, workspaceNames, ms);
    assert TenantIds(before) <= TenantIds(all);
    assert RoleIds(all) == RoleIds(before);
    assert tenant in all.tenants;
    assert tenant.id in TenantIds(all);
    forall tu | tu in all.tenantUsers
      ensures tu.tenantId in TenantIds(all) && tu.roleId in RoleIds(all)
    {
      if tu !in before.tenantUsers {
        var i :| 0 <= i < |added.tenantUsers| && added.tenantUsers[i] == tu;
        assert IsMembershipFor(tu, tenant.id, ms[i]);
        assert ms[i] in ms;
      }
    }
    forall w | w in all.workspaces ensures w.tenantId in TenantIds(all) {
      if w !in before.workspaces {
        var j :| 0 <= j < |added.workspaces| && added.workspaces[j] == w;
        assert IsWorkspaceFor(w, tenant.id, workspaceNames[j]);
      }
    }
    assert WorkspaceIds(before) <= WorkspaceIds(all);
    assert IdsOf(added.workspaces) <= WorkspaceIds(all);
  }

  /** A tenant graph of distinct users, whose tenant and workspaces are newer
      than every existing tenant and workspace, keeps memberships unique. */
  lemma GraphKeysUnique(before: Tables, added: Tables, tenant: Tenant, workspaceNames: seq<string>, ms: seq<Member>)
    requires ReferencesResolve(before)
    requires NoDuplicates(MembershipKeys(before.tenantUsers))
    requires NoDuplicates(WorkspaceKeys(before.workspaceUsers))
    requires TenantGraph(added, tenant, workspaceNames, ms)
    requires DistinctUsers(ms)
    requires forall x :: x in before.tenants ==> x.id < tenant.id
    requires forall x :: x in before.workspaces ==> x.id < tenant.id
    ensures NoDuplicates(MembershipKeys(before.Concat(added).tenantUsers))
    ensures NoDuplicates(WorkspaceKeys(before.Concat(added).workspaceUsers))
  {
    GraphUnique(added, tenant, workspaceNames, ms);
    MembershipKeysConcat(before.tenantUsers, added.tenantUsers);
    var tOld, tNew := MembershipKeys(before.tenantUsers), MembershipKeys(added.tenantUsers);
    forall i, j | 0 <= i < |tOld| && 0 <= j < |tNew| ensures tOld[i] != tNew[j] {
      assert before.tenantUsers[i] in before.tenantUsers;
      assert IsMembershipFor(added.tenantUsers[j], tenant.id, ms[j]);
    }
    NoDuplicatesConcat(tOld, tNew);
    GraphLinks(added, tenant, workspaceNames, ms);
    WorkspaceKeysConcat(before.workspaceUsers, added.workspaceUsers);
    var wOld, wNew := WorkspaceKeys(before.workspaceUsers), WorkspaceKeys(added.workspaceUsers);
    forall i, j | 0 <= i < |wOld| && 0 <= j < |wNew| ensures wOld[i] != wNew[j] {
      assert before.workspaceUsers[i] in before.workspaceUsers;
      assert added.workspaceUsers[j] in added.workspaceUsers;
    }
    NoDuplicatesConcat(wOld, wNew);
  }

  /** Appending a tenant graph whose tenant takes the next fresh id keeps the
      database consistent when its users are distinct and their roles exist:
      fresh keys, resolving references, and unique (tenant, user) and
      (workspace, user) memberships across all tenants. */
  lemma GraphPreservesConsistency(db: Db, db': Db, tenant: Tenant, workspaceNames: seq<string>, ms: seq<Member>)
    requires Consistent(db)
    requires Appends(db, db')
    requires tenant.id == db.nextId
    requires TenantGraph(TablesOf(Delta(db, db')), tenant, workspaceNames, ms)
    requires DistinctUsers(ms)
    requires forall m :: m in ms ==> m.role.id in RoleIds(TablesOf(db.log))
    ensures Consistent(db')
  {
    var before, added := TablesOf(db.log), TablesOf(Delta(db, db'));
    AppendsKeepsIdsFresh(db, db');
    AppendsTables(db, db');
    KeysBelowNext(db);
    GraphReferences(before, added, tenant, workspaceNames, ms);
    GraphKeysUnique(before, added, tenant, workspaceNames, ms);
  }

  /** Exact counts of one call, including the number of rows it appends. */
  lemma CreateTenantCounts(db: Db, name: string, workspaceNames: seq<string>, ms: seq<Member>)
    ensures var added := Added(db, name, workspaceNames, ms);
      && |added.tenants| == 1
      && |added.tenantUsers| == |ms|
      && |added.workspaces| == |workspaceNames|
      && |added.workspaceUsers| == |workspaceNames| * |ms|
    ensures |CreateTenant(db, name, workspaceNames, ms).0.log| - |db.log|
         == 1 + |ms| + |workspaceNames| + |workspaceNames| * |ms|
  {
    CreateTenantGraph(db, name, workspaceNames, ms);
    GraphCounts(Added(db, name, workspaceNames, ms), Tenant(db.nextId, name), workspaceNames, ms);
  }

  /** With no workspaces and no members the tenant is the only row written. */
  lemma CreateTenantEmpty(db: Db, name: string)
    ensures CreateTenant(db, name, [], []).0.log == db.log + [TenantRow(Tenant(db.nextId, name))]
  {
    CreateTenantCounts(db, name, [], []);
    CreateTenantOrder(db, name, [], []);
    AppendsLog(db, CreateTenant(db, name, [], []).0);
  }

  /** One call's workspace memberships are the cross product of its workspaces and users. */
  lemma CreateTenantLinks(db: Db, name: string, workspaceNames: seq<string>, ms: seq<Member>)
    ensures var added := Added(db, name, workspaceNames, ms);
      forall wu :: wu in added.workspaceUsers ==>
        wu.workspaceId in IdsOf(added.workspaces) && wu.userId in UserIds(ms)
    ensures var added := Added(db, name, workspaceNames, ms);
      forall j, k :: 0 <= j < |added.workspaces| && 0 <= k < |ms| ==>
        (added.workspaces[j].id, ms[k].user.id) in WorkspaceKeys(added.workspaceUsers)
  {
    CreateTenantGraph(db, name, workspaceNames, ms);
    GraphLinks(Added(db, name, workspaceNames, ms), Tenant(db.nextId, name), workspaceNames, ms);
  }

  /** Within one call, memberships are unique exactly when the input users are distinct. */
  lemma CreateTenantUnique(db: Db, name: string, workspaceNames: seq<string>, ms: seq<Member>)
    ensures NoDuplicates(MembershipKeys(Added(db, name, workspaceNames, ms).tenantUsers)) <==> DistinctUsers(ms)
    ensures DistinctUsers(ms) ==> NoDuplicates(WorkspaceKeys(Added(db, name, workspaceNames, ms).workspaceUsers))
    ensures |workspaceNames| > 0 && !DistinctUsers(ms) ==>
      !NoDuplicates(WorkspaceKeys(Added(db, name, workspaceNames, ms).workspaceUsers))
  {
    CreateTenantGraph(db, name, workspaceNames, ms);
    GraphUnique(Added(db, name, workspaceNames, ms), Tenant(db.nextId, name), workspaceNames, ms);
  }

  /** createTenant keeps the database consistent when its users are distinct and their roles exist. */
  lemma CreateTenantPreservesConsistency(db: Db, name: string, workspaceNames: seq<string>, ms: seq<Member>)
    requires Consistent(db)
    requires DistinctUsers(ms)
    requires forall m :: m in ms ==> m.role.id in RoleIds(TablesOf(db.log))
    ensures Consistent(CreateTenant(db, name, workspaceNames, ms).0)
  {
    CreateTenantGraph(db, name, workspaceNames, ms);
    GraphPreservesConsistency(db, CreateTenant(db, name, workspaceNames, ms).0,
      Tenant(db.nextId, name), workspaceNames, ms);
  }
}
