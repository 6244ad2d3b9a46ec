/** The records the seed script writes, and the database they are written to.

    The database is an append-only log of rows plus the next fresh id; every
    create appends one row carrying that id. The tables an application would
    query are a view of the log (TablesOf), one sequence per entity kind in
    creation order. */
module Records {

  /** A user of the directory; only its id matters to tenant construction. */
  datatype User = User(id: nat, username: string)

  /** A role together with the names of the permissions created with it. */
  datatype Role = Role(id: nat, name: string, permissions: seq<string>)

  /** A user paired with the tenant-scoped role it is to hold. */
  datatype Member = Member(user: User, role: Role)

  datatype Tenant = Tenant(id: nat, name: string)

  /** Membership of a user in a tenant; `joined` and `status` hold enum codes. */
  datatype TenantUser = TenantUser(id: nat, tenantId: nat, userId: nat, roleId: nat, joined: nat, status: nat)

  datatype Workspace = Workspace(
    id: nat,
    tenantId: nat,
    name: string,
    businessType: int,
    businessMainActivity: string,
    registrationNumber: string)

  /** Membership of a user in a workspace. */
  datatype WorkspaceUser = WorkspaceUser(id: nat, workspaceId: nat, userId: nat)

  /** One created record. */
  datatype Row =
    | RoleRow(role: Role)
    | TenantRow(tenant: Tenant)
    | TenantUserRow(tenantUser: TenantUser)
    | WorkspaceRow(workspace: Workspace)
    | WorkspaceUserRow(workspaceUser: WorkspaceUser)
  {
    function Id(): nat {
      match this
      case RoleRow(x) => x.id
      case TenantRow(x) => x.id
      case TenantUserRow(x) => x.id
      case WorkspaceRow(x) => x.id
      case WorkspaceUserRow(x) => x.id
    }
  }

  datatype Db = Db(log: seq<Row>, nextId: nat)

  /** The log seen as one table per entity kind, each in creation order. */
  datatype Tables = Tables(
    roles: seq<Role>,
    tenants: seq<Tenant>,
    tenantUsers: seq<TenantUser>,
    workspaces: seq<Workspace>,
    workspaceUsers: seq<WorkspaceUser>)
  {
    function Size(): nat {
      |roles| + |tenants| + |tenantUsers| + |workspaces| + |workspaceUsers|
    }

    /** Adds a row to the end of the table of its kind. */
    function Insert(r: Row): (t: Tables)
      ensures t.Size() == Size() + 1
    {
      match r
      case RoleRow(x) => this.(roles := roles + [x])
      case TenantRow(x) => this.(tenants := tenants + [x])
      case TenantUserRow(x) => this.(tenantUsers := tenantUsers + [x])
      case WorkspaceRow(x) => this.(workspaces := workspaces + [x])
      case WorkspaceUserRow(x) => this.(workspaceUsers := workspaceUsers + [x])
    }

    function Concat(other: Tables): Tables {
      Tables(
        roles + other.roles,
        tenants + other.tenants,
        tenantUsers + other.tenantUsers,
        workspaces + other.workspaces,
        workspaceUsers + other.workspaceUsers)
    }
  }

  const NoTables := Tables([], [], [], [], [])

  /** The tables a log produces: every row lands in exactly one table. */
  function TablesOf(log: seq<Row>): (t: Tables)
    ensures t.Size() == |log|
    decreases |log|
  {
    if |log| == 0 then NoTables
    else TablesOf(log[..|log| - 1]).Insert(log[|log| - 1])
  }

  lemma TablesOfSnoc(log: seq<Row>, r: Row)
    ensures TablesOf(log + [r]) == TablesOf(log).Insert(r)
  {
    assert (log + [r])[..|log|] == log;
  }

  lemma InsertAfterConcat(t: Tables, u: Tables, r: Row)
    ensures t.Concat(u).Insert(r) == t.Concat(u.Insert(r))
  {
    match r
    case RoleRow(x) => assert t.roles + u.roles + [x] == t.roles + (u.roles + [x]);
    case TenantRow(x) => assert t.tenants + u.tenants + [x] == t.tenants + (u.tenants + [x]);
    case TenantUserRow(x) =>
      assert t.tenantUsers + u.tenantUsers + [x] == t.tenantUsers + (u.tenantUsers + [x]);
    case WorkspaceRow(x) =>
      assert t.workspaces + u.workspaces + [x] == t.workspaces + (u.workspaces + [x]);
    case WorkspaceUserRow(x) =>
      assert t.workspaceUsers + u.workspaceUsers + [x] == t.workspaceUsers + (u.workspaceUsers + [x]);
  }

  /** The tables of two logs laid end to end are the tables of each, laid end to end. */
  lemma {:induction false} TablesOfConcat(a: seq<Row>, b: seq<Row>)
    ensures TablesOf(a + b) == TablesOf(a).Concat(TablesOf(b))
    decreases |b|
  {
    if |b| == 0 {
      assert a + b == a;
      var t := TablesOf(a);
      assert t.Concat(NoTables) == t;
    } else {
      var init, last := b[..|b| - 1], b[|b| - 1];
      assert b == init + [last];
      assert a + b == (a + init) + [last];
      TablesOfConcat(a, init);
      TablesOfSnoc(a + init, last);
      TablesOfSnoc(init, last);
      InsertAfterConcat(TablesOf(a), TablesOf(init), last);
    }
  }

  /** Every table entry is a row of the log. */
  lemma {:induction false} RowsOfTables(log: seq<Row>)
    ensures forall x :: x in TablesOf(log).roles ==> RoleRow(x) in log
    ensures forall x :: x in TablesOf(log).tenants ==> TenantRow(x) in log
    ensures forall x :: x in TablesOf(log).tenantUsers ==> TenantUserRow(x) in log
    ensures forall x :: x in TablesOf(log).workspaces ==> WorkspaceRow(x) in log
    ensures forall x :: x in TablesOf(log).workspaceUsers ==> WorkspaceUserRow(x) in log
    decreases |log|
  {
    if |log| > 0 {
      var init, last := log[..|log| - 1], log[|log| - 1];
      RowsOfTables(init);
      assert log == init + [last];
      assert forall r :: r in init ==> r in log;
      var t, t' := TablesOf(init), TablesOf(log);
      match last
      case RoleRow(x) => assert t' == t.(roles := t.roles + [x]);
      case TenantRow(x) => assert t' == t.(tenants := t.tenants + [x]);
      case TenantUserRow(x) => assert t' == t.(tenantUsers := t.tenantUsers + [x]);
      case WorkspaceRow(x) => assert t' == t.(workspaces := t.workspaces + [x]);
      case WorkspaceUserRow(x) => assert t' == t.(workspaceUsers := t.workspaceUsers + [x]);
    }
  }

  /** The rows `after` holds beyond `before`. */
  function Delta(before: Db, after: Db): seq<Row>
    requires |before.log| <= |after.log|
  {
    after.log[|before.log|..]
  }

  /** `after` is `before` with rows appended, each taking the next fresh id in turn. */
  predicate Appends(before: Db, after: Db) {
    && |before.log| <= |after.log|
    && after.log[..|before.log|] == before.log
    && after.nextId == before.nextId + (|after.log| - |before.log|)
    && forall i :: |before.log| <= i < |after.log| ==> after.log[i].Id() == before.nextId + (i - |before.log|)
  }

  lemma AppendsLog(before: Db, after: Db)
    requires Appends(before, after)
    ensures after.log == before.log + Delta(before, after)
  {
    assert after.log == after.log[..|before.log|] + after.log[|before.log|..];
  }

  /** The tables after an append are the old tables followed by those of the appended rows. */
  lemma AppendsTables(before: Db, after: Db)
    requires Appends(before, after)
    ensures TablesOf(after.log) == TablesOf(before.log).Concat(TablesOf(Delta(before, after)))
  {
    AppendsLog(before, after);
    TablesOfConcat(before.log, Delta(before, after));
  }

  lemma AppendsTrans(a: Db, b: Db, c: Db)
    requires Appends(a, b) && Appends(b, c)
    ensures Appends(a, c)
    ensures Delta(a, c) == Delta(a, b) + Delta(b, c)
  {
    AppendsLog(a, b);
    AppendsLog(b, c);
    assert c.log == a.log + (Delta(a, b) + Delta(b, c));
    assert c.log[..|a.log|] == a.log;
  }

  /** Appends one row; the row must carry the next fresh id, as the database assigns it. */
  function Create(db: Db, row: Row): (r: Db)
    requires row.Id() == db.nextId
    ensures Appends(db, r) && Delta(db, r) == [row]
  {
    Db(db.log + [row], db.nextId + 1)
  }

  /** No two rows share an id. */
  predicate RowIdsDistinct(rows: seq<Row>) {
    forall i, j :: 0 <= i < j < |rows| ==> rows[i].Id() != rows[j].Id()
  }

  /** Ids are primary keys and the counter is ahead of every id handed out. */
  predicate IdsFresh(db: Db) {
    && RowIdsDistinct(db.log)
    && forall i :: 0 <= i < |db.log| ==> db.log[i].Id() < db.nextId
  }

  predicate DistinctWorkspaceIds(ws: seq<Workspace>) {
    forall i, j :: 0 <= i < j < |ws| ==> ws[i].id != ws[j].id
  }

  predicate NoDuplicates<X(==)>(s: seq<X>) {
    forall i, j :: 0 <= i < j < |s| ==> s[i] != s[j]
  }

  function RoleIds(t: Tables): set<nat> {
    set x | x in t.roles :: x.id
  }

  function TenantIds(t: Tables): set<nat> {
    set x | x in t.tenants :: x.id
  }

  function WorkspaceIds(t: Tables): set<nat> {
    set x | x in t.workspaces :: x.id
  }

  /** The (tenant, user) key of each tenant membership. */
  function MembershipKeys(tus: seq<TenantUser>): (k: seq<(nat, nat)>)
    ensures |k| == |tus|
  {
    seq(|tus|, i requires 0 <= i < |tus| => (tus[i].tenantId, tus[i].userId))
  }

  /** The (workspace, user) key of each workspace membership. */
  function WorkspaceKeys(wus: seq<WorkspaceUser>): (k: seq<(nat, nat)>)
    ensures |k| == |wus|
  {
    seq(|wus|, i requires 0 <= i < |wus| => (wus[i].workspaceId, wus[i].userId))
  }

  lemma MembershipKeysConcat(a: seq<TenantUser>, b: seq<TenantUser>)
    ensures MembershipKeys(a + b) == MembershipKeys(a) + MembershipKeys(b)
  {
  }

  lemma WorkspaceKeysConcat(a: seq<WorkspaceUser>, b: seq<WorkspaceUser>)
    ensures WorkspaceKeys(a + b) == WorkspaceKeys(a) + WorkspaceKeys(b)
  {
  }

  /** Every tenant, role and workspace reference of the tenant side names a
      row that exists. User references are not checked: users are not rows
      of the log. */
  predicate ReferencesResolve(t: Tables) {
    && (forall tu :: tu in t.tenantUsers ==> tu.tenantId in TenantIds(t) && tu.roleId in RoleIds(t))
    && (forall w :: w in t.workspaces ==> w.tenantId in TenantIds(t))
    && (forall wu :: wu in t.workspaceUsers ==> wu.workspaceId in WorkspaceIds(t))
  }

  /** The database invariant: fresh primary keys, resolving references, and at
      most one membership per (tenant, user) and per (workspace, user). */
  predicate Consistent(db: Db) {
    && IdsFresh(db)
    && ReferencesResolve(TablesOf(db.log))
    && NoDuplicates(MembershipKeys(TablesOf(db.log).tenantUsers))
    && NoDuplicates(WorkspaceKeys(TablesOf(db.log).workspaceUsers))
  }

  /** Appending rows with the next fresh ids keeps ids primary keys below the counter. */
  lemma AppendsKeepsIdsFresh(before: Db, after: Db)
    requires IdsFresh(before) && Appends(before, after)
    ensures IdsFresh(after)
  {
    var n := |before.log|;
    assert forall i :: 0 <= i < n ==> after.log[i] == before.log[i];
  }

  /** Tenants and workspaces carry ids the counter has already passed. */
  lemma KeysBelowNext(db: Db)
    requires IdsFresh(db)
    ensures forall x :: x in TablesOf(db.log).tenants ==> x.id < db.nextId
    ensures forall x :: x in TablesOf(db.log).workspaces ==> x.id < db.nextId
  {
    RowsOfTables(db.log);
    forall x | x in TablesOf(db.log).tenants ensures x.id < db.nextId {
      var i :| 0 <= i < |db.log| && db.log[i] == TenantRow(x);
    }
    forall x | x in TablesOf(db.log).workspaces ensures x.id < db.nextId {
      var i :| 0 <= i < |db.log| && db.log[i] == WorkspaceRow(x);
    }
  }

  /** Distinct row ids make the workspace table's ids distinct. */
  lemma {:induction false} WorkspaceIdsDistinct(log: seq<Row>)
    requires RowIdsDistinct(log)
    ensures DistinctWorkspaceIds(TablesOf(log).workspaces)
    decreases |log|
  {
    if |log| > 0 {
      var init, last := log[..|log| - 1], log[|log| - 1];
      assert forall i :: 0 <= i < |init| ==> init[i] == log[i];
      WorkspaceIdsDistinct(init);
      if last.WorkspaceRow? {
        var ws0 := TablesOf(init).workspaces;
        RowsOfTables(init);
        forall i | 0 <= i < |ws0| ensures ws0[i].id != last.workspace.id {
          var k :| 0 <= k < |init| && init[k] == WorkspaceRow(ws0[i]);
          assert log[k].Id() != log[|log| - 1].Id();
        }
      }
    }
  }

  /** The empty database is consistent. */
  lemma EmptyConsistent(start: nat)
    ensures Consistent(Db([], start))
  {
  }

  /** The rows appended by `Appends` have distinct ids, none below the counter they started from. */
  lemma DeltaIdsFresh(before: Db, after: Db)
    requires Appends(before, after)
    ensures RowIdsDistinct(Delta(before, after))
    ensures forall i :: 0 <= i < |Delta(before, after)| ==> Delta(before, after)[i].Id() >= before.nextId
  {
    var d := Delta(before, after);
    assert forall i :: 0 <= i < |d| ==> d[i] == after.log[|before.log| + i];
  }

  /** A workspace of a log whose row ids are at least `lo` has an id at least `lo`. */
  lemma WorkspacesAtOrAbove(log: seq<Row>, lo: nat)
    requires forall i :: 0 <= i < |log| ==> log[i].Id() >= lo
    ensures forall w :: w in TablesOf(log).workspaces ==> lo <= w.id
  {
    RowsOfTables(log);
    forall w | w in TablesOf(log).workspaces ensures lo <= w.id {
      var i :| 0 <= i < |log| && log[i] == WorkspaceRow(w);
    }
  }

  lemma NoDuplicatesConcat<X>(a: seq<X>, b: seq<X>)
    requires NoDuplicates(a) && NoDuplicates(b)
    requires forall i, j :: 0 <= i < |a| && 0 <= j < |b| ==> a[i] != b[j]
    ensures NoDuplicates(a + b)
  {
  }
}
