/** The database backend of the directory (lib/prisma-store.ts). The `User` and
    `ActivityLog` tables are sequences under the schema's unique constraints; what
    the database does wrong is a parameter. Every operation is proved to reach the
    same decision as the in-memory store (module Directory), to answer `null` --
    "backend unavailable" -- when the client is missing, the seed fails or a query
    throws, and to clear the cached seed so that the next call seeds again. */
module PrismaStore {
  import opened Types
  import opened Text
  import opened Directory
  import opened Sorting
  import opened Prisma

  /** What goes wrong in the database during one call. */
  datatype Fault =
    | NoFault
    | SeedCountFault   // the seed's `user.count()` throws
    | SeedLogFault     // the seed's `activityLog.createMany` throws after the users were inserted
    | QueryFault       // the operation's first query throws
    | LogFault         // the operation's audit insert throws

  /** The conditions one call runs under: the environment, whether the client library
      loads, and the database fault, if any. */
  datatype Conditions = Conditions(env: Env, clientLoads: bool, fault: Fault)

  /** The `User` table (in insertion order) and the `ActivityLog` table. */
  datatype Tables = Tables(users: seq<StoredUser>, logs: seq<LogEntry>)

  ghost predicate IdsDiffer(users: seq<StoredUser>, i: nat, j: nat) {
    i < |users| && j < |users| && users[i].id != users[j].id
  }

  ghost predicate IdsUnique(users: seq<StoredUser>) {
    forall i: nat, j: nat :: i < j < |users| ==> IdsDiffer(users, i, j)
  }

  ghost predicate LogIdsDiffer(logs: seq<LogEntry>, i: nat, j: nat) {
    i < |logs| && j < |logs| && logs[i].id != logs[j].id
  }

  ghost predicate LogIdsUnique(logs: seq<LogEntry>) {
    forall i: nat, j: nat :: i < j < |logs| ==> LogIdsDiffer(logs, i, j)
  }

  /** The schema's unique constraints: `User.id`, `User.username`, `ActivityLog.id`. */
  ghost predicate Constrained(t: Tables) {
    IdsUnique(t.users) && UsernamesUnique(t.users) && LogIdsUnique(t.logs)
  }

  predicate IdFree(users: seq<StoredUser>, id: string) {
    forall j :: 0 <= j < |users| ==> users[j].id != id
  }

  predicate LogIdFree(logs: seq<LogEntry>, id: string) {
    forall j :: 0 <= j < |logs| ==> logs[j].id != id
  }

  /** An insert that violates no constraint keeps the constraints. */
  lemma AddUserKeepsConstraints(t: Tables, u: StoredUser)
    requires Constrained(t) && IdFree(t.users, u.id)
    requires forall j :: 0 <= j < |t.users| ==> t.users[j].username != u.username
    ensures Constrained(Tables(t.users + [u], t.logs))
  {
    var r := t.users + [u];
    forall a: nat, b: nat | a < b < |r| ensures IdsDiffer(r, a, b) && NamesDiffer(r, a, b) {
      if b < |t.users| {
        assert IdsDiffer(t.users, a, b) && NamesDiffer(t.users, a, b);
      }
    }
  }

  lemma AddLogKeepsConstraints(t: Tables, e: LogEntry)
    requires Constrained(t) && LogIdFree(t.logs, e.id)
    ensures Constrained(Tables(t.users, t.logs + [e]))
  {
    var r := t.logs + [e];
    forall a: nat, b: nat | a < b < |r| ensures LogIdsDiffer(r, a, b) {
      if b < |t.logs| {
        assert LogIdsDiffer(t.logs, a, b);
      }
    }
  }

  /** Rewriting columns other than `id` and `username` keeps the constraints. */
  lemma SameKeysKeepConstraints(t: Tables, users: seq<StoredUser>)
    requires Constrained(t) && |users| == |t.users|
    requires forall j :: 0 <= j < |users| ==> users[j].id == t.users[j].id && users[j].username == t.users[j].username
    ensures Constrained(Tables(users, t.logs))
  {
    forall a: nat, b: nat | a < b < |users| ensures IdsDiffer(users, a, b) && NamesDiffer(users, a, b) {
      assert IdsDiffer(t.users, a, b) && NamesDiffer(t.users, a, b);
    }
  }

  // ---------------------------------------------------------------------------
  // Seeding (lib/prisma-store.ts:63-122)

  /** The tables after an attempt to make them ready, and whether it succeeded. */
  datatype Prepared = Prepared(tables: Tables, ok: bool)

  /** The seed body: counts the users and, only when there are none, inserts the two
      seed accounts and then the two seed events, each batch as one statement. */
  function SeedBody(t: Tables, fault: Fault): Prepared {
    if fault == SeedCountFault then Prepared(t, false)
    else if t.users != [] then Prepared(t, true)
    else if fault == SeedLogFault || !LogIdFree(t.logs, "log_seed_001") || !LogIdFree(t.logs, "log_seed_002")
    then Prepared(Tables(SeedUsers(), t.logs), false)
    else Prepared(Tables(SeedUsers(), t.logs + SeedLogs()), true)
  }

  /** `ensureSeeded`: a cached seed has already completed and is not run again. */
  function Prepare(t: Tables, cached: bool, fault: Fault): Prepared {
    if cached then Prepared(t, true) else SeedBody(t, fault)
  }

  /** Seeding touches only an empty `User` table, fills it with exactly the two seed
      accounts, and only ever appends the two seed events to the log table; a
      successful seed of an empty database yields the seed state. */
  lemma SeedOnlyFillsEmptyTable(t: Tables, cached: bool, fault: Fault)
    ensures var p := Prepare(t, cached, fault);
      && (p.tables.users == t.users || (t.users == [] && p.tables.users == SeedUsers()))
      && (p.tables.logs == t.logs || p.tables.logs == t.logs + SeedLogs())
      && (cached ==> p == Prepared(t, true))
      && (t.users != [] && fault != SeedCountFault ==> p == Prepared(t, true))
      && ((!cached && t.users == [] && fault == NoFault && LogIdFree(t.logs, "log_seed_001")
           && LogIdFree(t.logs, "log_seed_002")) ==> p == Prepared(Tables(SeedUsers(), t.logs + SeedLogs()), true))
  {
  }

  /** Seeding keeps the constraints, and a seeded `User` table is safe. */
  lemma SeedKeepsConstraints(t: Tables, cached: bool, fault: Fault)
    requires Constrained(t)
    ensures Constrained(Prepare(t, cached, fault).tables)
    ensures t.users == [] && Prepare(t, cached, fault).tables.users != [] ==> Safe(Prepare(t, cached, fault).tables.users)
  {
    SeedIsSafe();
    var s := SeedUsers();
    forall a: nat, b: nat | a < b < |s| ensures IdsDiffer(s, a, b) {
      assert s[0].id[2] != s[1].id[2];
    }
    var g := SeedLogs();
    var r := t.logs + g;
    if LogIdFree(t.logs, "log_seed_001") && LogIdFree(t.logs, "log_seed_002") {
      forall a: nat, b: nat | a < b < |r| ensures LogIdsDiffer(r, a, b) {
        if b < |t.logs| {
          assert LogIdsDiffer(t.logs, a, b);
        } else if a >= |t.logs| {
          assert g[0].id[11] != g[1].id[11];
        }
      }
    }
  }

  // ---------------------------------------------------------------------------
  // What each operation does once the tables are ready

  /** The tables after an operation's callback, and its answer; `None` when the
      callback throws. */
  datatype Run<+T> = Run(tables: Tables, answer: Option<T>)

  /** A read-only callback: answers `value` unless its query throws. */
  function ReadRun<T>(t: Tables, fault: Fault, value: T): (run: Run<T>)
  {
    Run(t, if fault == QueryFault then None else Some(value))
  }

  /** The callback of `authenticateUserDb`: the login stamp and its event are one
      transaction stamped with the same time `now`. */
  function LoginRun(t: Tables, username: string, password: string, now: Timestamp, logId: string, fault: Fault)
    : Run<Result<SessionUser>>
  {
    if fault == QueryFault then Run(t, None)
    else match LoginDecision(t.users, username, password)
      case Err(e) => Run(t, Some(Err(e)))
      case Ok(i) =>
        var u := t.users[i];
        if fault == LogFault || !LogIdFree(t.logs, logId) then Run(t, None)
        else Run(Tables(WithLogin(t.users, i, now),
                        t.logs + [AuditEntry(Stamp(logId, now), u.username, LoginSuccess, u.username,
                                             LoginDetails(u.role, "Prisma"))]),
                 Some(Ok(SessionOf(u))))
  }

  /** The callback of `recordLogoutDb`. */
  function LogoutRun(t: Tables, session: SessionUser, stamp: Stamp, fault: Fault): Run<bool> {
    if fault == LogFault || !LogIdFree(t.logs, stamp.id) then Run(t, None)
    else Run(Tables(t.users, t.logs + [AuditEntry(stamp, session.username, Logout, session.username, LogoutDetails)]),
             Some(true))
  }

  /** The callback of `createUserAccountDb`: the blank check needs no query, so it
      comes before the first query can fail; the insert and its event are two
      statements, so a failing event leaves the new account in place. */
  function CreateRun(t: Tables, input: AccountInput, actor: SessionUser, userStamp: Stamp, logStamp: Stamp,
                     fault: Fault): Run<Result<PublicUser>>
  {
    var n := Normalized(input);
    if n.username == "" || n.name == "" || n.password == "" then Run(t, Some(Err(MissingFields)))
    else if fault == QueryFault then Run(t, None)
    else match CreateDecision(t.users, input)
      case Err(e) => Run(t, Some(Err(e)))
      case Ok(n) => CreateWrite(t, NewUser(n, userStamp), actor, logStamp, fault)
  }

  /** The writes of an accepted create: the insert of `u`, then its event. */
  function CreateWrite(t: Tables, u: StoredUser, actor: SessionUser, logStamp: Stamp, fault: Fault)
    : Run<Result<PublicUser>>
  {
    if !IdFree(t.users, u.id) then Run(t, None)
    else if fault == LogFault || !LogIdFree(t.logs, logStamp.id) then Run(Tables(t.users + [u], t.logs), None)
    else Run(Tables(t.users + [u],
                    t.logs + [AuditEntry(logStamp, actor.username, CreateUser, u.username, CreatedDetails(u.role))]),
             Some(Ok(Sanitize(u))))
  }

  /** The callback of `updateUserRoleDb`: the update and its event are two statements. */
  function RoleRun(t: Tables, id: string, role: Role, actor: SessionUser, stamp: Stamp, fault: Fault)
    : Run<Result<PublicUser>>
  {
    if fault == QueryFault then Run(t, None)
    else match RoleDecision(t.users, id, role, actor.username)
      case RoleRefused(e) => Run(t, Some(Err(e)))
      case RoleUnchanged(i) => Run(t, Some(Ok(Sanitize(t.users[i]))))
      case RoleApplied(i) => RoleWrite(t, i, role, actor, stamp, fault)
  }

  /** The writes of an approved role change: the update of account `i`, then its event. */
  function RoleWrite(t: Tables, i: nat, role: Role, actor: SessionUser, stamp: Stamp, fault: Fault)
    : Run<Result<PublicUser>>
    requires i < |t.users|
  {
    var after := WithRole(t.users, i, role);
    if fault == LogFault || !LogIdFree(t.logs, stamp.id) then Run(Tables(after, t.logs), None)
    else Run(Tables(after,
                    t.logs + [AuditEntry(stamp, actor.username, UpdateRole, after[i].username, RoleChangedDetails(role))]),
             Some(Ok(Sanitize(after[i]))))
  }

  /** The callback of `deleteUserAccountDb`: the delete and its event are one transaction. */
  function DeleteRun(t: Tables, id: string, actor: SessionUser, stamp: Stamp, fault: Fault): Run<Result<()>> {
    if fault == QueryFault then Run(t, None)
    else match DeleteDecision(t.users, id, actor.username)
      case DeleteRefused(e) => Run(t, Some(Err(e)))
      case DeleteApproved(i) =>
        if fault == LogFault || !LogIdFree(t.logs, stamp.id) then Run(t, None)
        else Run(Tables(Without(t.users, i),
                        t.logs + [AuditEntry(stamp, actor.username, DeleteUser, t.users[i].username,
                                             DeletedDetails(t.users[i].role))]),
                 Some(Ok(())))
  }

  /** `withPrisma` around a callback: `null` without a client, `null` with the seed
      cache cleared when seeding or the callback throws, the callback's answer otherwise. */
  ghost predicate Served<T>(opens: bool, before: Tables, cached: bool, fault: Fault,
                            body: Tables -> Run<T>, after: Tables, cachedAfter: bool, r: Option<T>)
  {
    if !opens then r.None? && after == before && cachedAfter == cached
    else
      var p := Prepare(before, cached, fault);
      if !p.ok then r.None? && after == p.tables && !cachedAfter
      else after == body(p.tables).tables && r == body(p.tables).answer && cachedAfter == r.Some?
  }

  /** `getClientOrNull` returns a client (the result of `getPrismaClient`). */
  predicate Opens(client: bool, unavailable: bool, c: Conditions) {
    IsPrismaEnabledByEnv(c.env) && !unavailable && (client || c.clientLoads)
  }

  // ---------------------------------------------------------------------------
  // The callbacks agree with the shared policy

  /** Whatever a login does, an answer is the in-memory login's answer, and only the
      chosen account's login time changes. */
  lemma LoginRunAgrees(t: Tables, username: string, password: string, now: Timestamp, logId: string, fault: Fault)
    ensures var run := LoginRun(t, username, password, now, logId, fault);
      && (run.answer.Some? ==> run.answer.value == LoginOutcome(t.users, username, password))
      && (run.answer == Some(Err(InvalidCredentials)) || run.answer == Some(Err(AccountNotActive)) || run.answer.None?
          ==> run.tables == t)
      && (run.answer.Some? && run.answer.value.Ok? ==>
            var i := LoginDecision(t.users, username, password).value;
            run.tables.users == WithLogin(t.users, i, now) && |run.tables.logs| == |t.logs| + 1)
  {
  }

  /** A create answers as the in-memory create does; the `User` table either stays as
      it was or becomes exactly what the policy prescribes, even when the event insert
      fails afterwards. */
  lemma CreateRunAgrees(t: Tables, input: AccountInput, actor: SessionUser, userStamp: Stamp, logStamp: Stamp,
                        fault: Fault)
    ensures var run := CreateRun(t, input, actor, userStamp, logStamp, fault);
      && (run.answer.Some? ==> run.answer.value == CreateOutcome(t.users, input, userStamp))
      && (run.answer.Some? ==> run.tables.users == Apply(t.users, Create(input, userStamp)))
      && (run.tables.users == t.users || run.tables.users == Apply(t.users, Create(input, userStamp)))
      && (run.tables.logs == t.logs || |run.tables.logs| == |t.logs| + 1)
      && (CreateDecision(t.users, input) == Err(MissingFields) ==> run == Run(t, Some(Err(MissingFields))))
  {
    var d := CreateDecision(t.users, input);
    if fault != QueryFault && d.Ok? {
      var u := NewUser(d.value, userStamp);
      CreateWriteShape(t, u, actor, logStamp, fault);
      assert Apply(t.users, Create(input, userStamp)) == t.users + [u];
      assert CreateOutcome(t.users, input, userStamp) == Ok(Sanitize(u));
    } else {
      assert CreateRun(t, input, actor, userStamp, logStamp, fault).tables == t;
    }
  }

  /** A request with a blank username, name or password is refused as such whatever
      the database would do, with no table changed; only a complete request can meet
      a failing query. */
  lemma CreateBlankRefusedFirst(t: Tables, input: AccountInput, actor: SessionUser, userStamp: Stamp,
                                logStamp: Stamp, fault: Fault)
    ensures Trim(input.username) == "" || Trim(input.name) == "" || Trim(input.password) == "" ==>
      CreateRun(t, input, actor, userStamp, logStamp, fault) == Run(t, Some(Err(MissingFields)))
    ensures CreateRun(t, input, actor, userStamp, logStamp, fault).answer.None? ==>
      Trim(input.username) != "" && Trim(input.name) != "" && Trim(input.password) != ""
  {
    CreateDecisionExact(t.users, input);
  }

  /** The writes of an accepted create add `u` or nothing, and answer only when both
      the insert and its event succeeded. */
  lemma CreateWriteShape(t: Tables, u: StoredUser, actor: SessionUser, logStamp: Stamp, fault: Fault)
    ensures var w := CreateWrite(t, u, actor, logStamp, fault);
      && (w.tables.users == t.users || w.tables.users == t.users + [u])
      && (w.answer.Some? ==> w.answer == Some(Ok(Sanitize(u))) && w.tables.users == t.users + [u])
      && (w.tables.logs == t.logs || |w.tables.logs| == |t.logs| + 1)
  {
  }

  /** A role change answers as the in-memory one does, and the `User` table either stays
      as it was or becomes exactly what the policy prescribes. */
  lemma RoleRunAgrees(t: Tables, id: string, role: Role, actor: SessionUser, stamp: Stamp, fault: Fault)
    ensures var run := RoleRun(t, id, role, actor, stamp, fault);
      && (run.answer.Some? ==> run.answer.value == RoleOutcome(t.users, id, role, actor.username))
      && (run.answer.Some? ==> run.tables.users == Apply(t.users, SetRole(id, role, actor.username)))
      && (run.tables.users == t.users || run.tables.users == Apply(t.users, SetRole(id, role, actor.username)))
  {
  }

  /** A deletion answers as the in-memory one does; the delete and its event happen
      together or not at all. */
  lemma DeleteRunAgrees(t: Tables, id: string, actor: SessionUser, stamp: Stamp, fault: Fault)
    ensures var run := DeleteRun(t, id, actor, stamp, fault);
      && (run.answer.Some? ==> run.answer.value == DeleteOutcome(t.users, id, actor.username))
      && (run.answer.Some? ==> run.tables.users == Apply(t.users, Remove(id, actor.username)))
      && (run.answer.None? ==> run.tables == t)
      && (run.tables.users != t.users <==> |run.tables.logs| == |t.logs| + 1)
  {
    var d := DeleteDecision(t.users, id, actor.username);
    if fault != QueryFault && d.DeleteApproved? {
      assert |Without(t.users, d.index)| != |t.users|;
    }
  }

  /** Whatever happens, a callback keeps the directory safe: it leaves the `User` table
      as it was or changes it as the policy prescribes. */
  lemma RunsKeepSafe(t: Tables, req: Request, actor: SessionUser, s1: Stamp, s2: Stamp, fault: Fault)
    requires Safe(t.users)
    ensures req.Create? ==> Safe(CreateRun(t, req.input, actor, req.stamp, s2, fault).tables.users)
    ensures req.SetRole? && req.actor == actor.username ==> Safe(RoleRun(t, req.id, req.role, actor, s1, fault).tables.users)
    ensures req.Remove? && req.actor == actor.username ==> Safe(DeleteRun(t, req.id, actor, s1, fault).tables.users)
  {
    ApplyKeepsSafe(t.users, req);
    match req
    case Create(input, stamp) => CreateRunAgrees(t, input, actor, stamp, s2, fault);
    case SetRole(id, role, _) => RoleRunAgrees(t, id, role, actor, s1, fault);
    case Remove(id, _) => DeleteRunAgrees(t, id, actor, s1, fault);
  }

  // ---------------------------------------------------------------------------
  // Orderings of the listings (lib/prisma-store.ts:163-175)

  /** `orderBy: [{ createdAt: "asc" }, { username: "asc" }]`. */
  predicate UserBefore(a: PublicUser, b: PublicUser) {
    if a.createdAt != b.createdAt then Text.LexLeq(a.createdAt, b.createdAt) else Text.LexLeq(a.username, b.username)
  }

  /** `orderBy: [{ timestamp: "desc" }, { id: "desc" }]`. */
  predicate LogBefore(a: LogEntry, b: LogEntry) {
    if a.timestamp != b.timestamp then Text.LexLeq(b.timestamp, a.timestamp) else Text.LexLeq(b.id, a.id)
  }

  lemma OrdersTotal()
    ensures Total(UserBefore) && Total(LogBefore)
  {
    forall a: PublicUser, b: PublicUser ensures UserBefore(a, b) || UserBefore(b, a) {
      Text.LexLeqTotal(a.createdAt, b.createdAt);
      Text.LexLeqTotal(a.username, b.username);
    }
    forall a: LogEntry, b: LogEntry ensures LogBefore(a, b) || LogBefore(b, a) {
      Text.LexLeqTotal(a.timestamp, b.timestamp);
      Text.LexLeqTotal(a.id, b.id);
    }
  }

  /** `listUsersDb`'s answer. */
  function ListedUsers(users: seq<StoredUser>): seq<PublicUser> {
    SortBy(PublicUsers(users), UserBefore)
  }

  /** `listLogsDb`'s answer. */
  function ListedLogs(logs: seq<LogEntry>): seq<LogEntry> {
    SortBy(logs, LogBefore)
  }

  /** The listings hold exactly the table's rows, in the order the queries ask for:
      accounts oldest first then by username, events newest first then by id. */
  lemma ListingsOrdered(users: seq<StoredUser>, logs: seq<LogEntry>)
    ensures multiset(ListedUsers(users)) == multiset(PublicUsers(users))
    ensures multiset(ListedLogs(logs)) == multiset(logs)
    ensures forall i :: 0 < i < |ListedUsers(users)| ==> UserBefore(ListedUsers(users)[i - 1], ListedUsers(users)[i])
    ensures forall i :: 0 < i < |ListedLogs(logs)| ==> LogBefore(ListedLogs(logs)[i - 1], ListedLogs(logs)[i])
  {
    OrdersTotal();
    SortBySorted(PublicUsers(users), UserBefore);
    SortBySorted(logs, LogBefore);
  }

  // ---------------------------------------------------------------------------
  // The adapter's process-wide state

  class DurableStore {
    /** The client globals of lib/prisma.ts. */
    const gate: ClientGate
    var users: seq<StoredUser>
    var logs: seq<LogEntry>
    /** `__rims_prisma_seed_promise__` is set. */
    var seedCached: bool
    /** `__rims_prisma_query_warned__`. */
    var queryWarned: bool
    /** How often the seed body has started, and how many query warnings were printed. */
    ghost var seedRuns: nat
    ghost var queryWarnings: nat

    ghost function Contents(): Tables
      reads this
    {
      Tables(users, logs)
    }

    /** The tables keep the schema's constraints and the query warning is printed at most once. */
    ghost predicate Valid()
      reads this, gate
    {
      gate.Valid() && Constrained(Contents()) && queryWarnings <= (if queryWarned then 1 else 0)
    }

    /** A process connected to a database holding `t`. */
    constructor (gate: ClientGate, t: Tables)
      requires gate.Valid() && Constrained(t)
      ensures Valid() && this.gate == gate && Contents() == t
      ensures !seedCached && !queryWarned && seedRuns == 0 && queryWarnings == 0
    {
      this.gate := gate;
      users, logs := t.users, t.logs;
      seedCached, queryWarned := false, false;
      seedRuns, queryWarnings := 0, 0;
    }

    /** The query-warning flag and count after a step from `warned` and `warnings` in
        which the adapter failed (`failed`) or not: a failure sets the flag outside
        production and prints the warning only the first time. */
    ghost predicate WarnedOn(warned: bool, warnings: nat, production: bool, failed: bool)
      reads this
    {
      && queryWarned == (warned || (failed && !production))
      && queryWarnings == warnings + (if failed && !production && !warned then 1 else 0)
    }

    /** What one adapter call does to the process-wide bookkeeping, from the state before
        it (client globals `g`, seed cached `cached`, seed runs `runs`, warning flag and
        count): the client globals step as `getPrismaClient` does, the seed body starts
        when the call reaches the database with no seed cached, and a call that reaches
        the database and then fails (`failed`) warns as `WarnedOn` says. */
    ghost predicate Stepped(g: GateState, cached: bool, runs: nat, warned: bool, warnings: nat,
                            c: Conditions, failed: bool)
      reads this, gate
    {
      var reached := Opens(g.client, g.unavailable, c);
      gate.State() == GateStep(g, c.env, c.clientLoads)
      && seedRuns == runs + (if reached && !cached then 1 else 0)
      && WarnedOn(warned, warnings, c.env.production, reached && failed)
    }

    /** `warnPrismaQueryFallback`: warns once per process, never in production. */
    method WarnQueryFallback(production: bool)
      requires Valid()
      modifies this
      ensures Valid()
      ensures Contents() == old(Contents()) && seedCached == old(seedCached) && seedRuns == old(seedRuns)
      ensures queryWarned == (old(queryWarned) || !production)
      ensures queryWarnings == old(queryWarnings) + (if !production && !old(queryWarned) then 1 else 0)
    {
      if production || queryWarned {
        return;
      }
      queryWarned := true;
      queryWarnings := queryWarnings + 1;
    }

    /** The `catch` of `withPrisma`: forget the seed promise and warn. */
    method Fail(production: bool)
      requires Valid()
      modifies this
      ensures Valid()
      ensures Contents() == old(Contents()) && !seedCached && seedRuns == old(seedRuns)
      ensures queryWarned == (old(queryWarned) || !production)
      ensures queryWarnings == old(queryWarnings) + (if !production && !old(queryWarned) then 1 else 0)
    {
      seedCached := false;
      WarnQueryFallback(production);
    }

    /** `ensureSeeded`: the seed body starts only when no seed is cached, and the
        promise stays cached until a `catch` clears it. */
    method EnsureSeeded(fault: Fault) returns (ok: bool)
      requires Valid()
      modifies this
      ensures Valid() && seedCached
      ensures Prepared(Contents(), ok) == Prepare(old(Contents()), old(seedCached), fault)
      ensures seedRuns == old(seedRuns) + (if old(seedCached) then 0 else 1)
      ensures queryWarned == old(queryWarned) && queryWarnings == old(queryWarnings)
    {
      SeedKeepsConstraints(Contents(), seedCached, fault);
      if seedCached {
        return true;
      }
      seedCached := true;
      seedRuns := seedRuns + 1;
      if fault == SeedCountFault {
        return false;
      }
      if |users| > 0 {
        return true;
      }
      users := SeedUsers();
      if fault == SeedLogFault || !LogIdFree(logs, "log_seed_001") || !LogIdFree(logs, "log_seed_002") {
        return false;
      }
      logs := logs + SeedLogs();
      ok := true;
    }

    /** The prologue of `withPrisma` and `getUserByUsernameDb`: get the client, then
        seed inside the `try`. */
    method Open(c: Conditions) returns (ok: bool)
      requires Valid()
      modifies this, gate
      ensures Valid()
      ensures ok ==> seedCached
      ensures !Opens(old(gate.client), old(gate.unavailable), c) ==>
        !ok && Contents() == old(Contents()) && seedCached == old(seedCached)
      ensures Opens(old(gate.client), old(gate.unavailable), c) ==>
        var p := Prepare(old(Contents()), old(seedCached), c.fault);
        ok == p.ok && Contents() == p.tables && seedCached == ok
      ensures Stepped(old(gate.State()), old(seedCached), old(seedRuns), old(queryWarned), old(queryWarnings), c, !ok)
    {
      var client := gate.GetPrismaClient(c.env, c.clientLoads);
      if !client {
        return false;
      }
      ok := EnsureSeeded(c.fault);
      if !ok {
        Fail(c.env.production);
      }
    }

    /** `listUsersDb`. */
    method ListUsersDb(c: Conditions) returns (r: Option<seq<PublicUser>>)
      requires Valid()
      modifies this, gate
      ensures Valid()
      ensures Served(Opens(old(gate.client), old(gate.unavailable), c), old(Contents()), old(seedCached), c.fault,
                     (t: Tables) => ReadRun(t, c.fault, ListedUsers(t.users)), Contents(), seedCached, r)
      ensures Stepped(old(gate.State()), old(seedCached), old(seedRuns), old(queryWarned), old(queryWarnings), c, r.None?)
    {
      var ok := Open(c);
      if !ok {
        return None;
      }
      if c.fault == QueryFault {
        Fail(c.env.production);
        return None;
      }
      r := Some(ListedUsers(users));
    }

    /** `listLogsDb`. */
    method ListLogsDb(c: Conditions) returns (r: Option<seq<LogEntry>>)
      requires Valid()
      modifies this, gate
      ensures Valid()
      ensures Served(Opens(old(gate.client), old(gate.unavailable), c), old(Contents()), old(seedCached), c.fault,
                     (t: Tables) => ReadRun(t, c.fault, ListedLogs(t.logs)), Contents(), seedCached, r)
      ensures Stepped(old(gate.State()), old(seedCached), old(seedRuns), old(queryWarned), old(queryWarnings), c, r.None?)
    {
      var ok := Open(c);
      if !ok {
        return None;
      }
      if c.fault == QueryFault {
        Fail(c.env.production);
        return None;
      }
      r := Some(ListedLogs(logs));
    }

    /** `getUserByUsernameDb`: `None` is `undefined` (unavailable), `Some(None)` is
        `null` (no such account). */
    method GetUserByUsernameDb(username: string, c: Conditions) returns (r: Option<Option<PublicUser>>)
      requires Valid()
      modifies this, gate
      ensures Valid()
      ensures Served(Opens(old(gate.client), old(gate.unavailable), c), old(Contents()), old(seedCached), c.fault,
                     (t: Tables) => ReadRun(t, c.fault, Lookup(t.users, username)), Contents(), seedCached, r)
      ensures Stepped(old(gate.State()), old(seedCached), old(seedRuns), old(queryWarned), old(queryWarnings), c, r.None?)
    {
      var ok := Open(c);
      if !ok {
        return None;
      }
      if c.fault == QueryFault {
        Fail(c.env.production);
        return None;
      }
      var found := IndexOfUsername(users, username);
      r := Some(if found.Some? then Some(Sanitize(users[found.value])) else None);
    }

    /** `getDashboardSummaryDb`: the four counts. */
    method GetDashboardSummaryDb(c: Conditions) returns (r: Option<DashboardSummary>)
      requires Valid()
      modifies this, gate
      ensures Valid()
      ensures Served(Opens(old(gate.client), old(gate.unavailable), c), old(Contents()), old(seedCached), c.fault,
                     (t: Tables) => ReadRun(t, c.fault, Summary(t.users, t.logs)), Contents(), seedCached, r)
      ensures Stepped(old(gate.State()), old(seedCached), old(seedRuns), old(queryWarned), old(queryWarnings), c, r.None?)
    {
      var ok := Open(c);
      if !ok {
        return None;
      }
      if c.fault == QueryFault {
        Fail(c.env.production);
        return None;
      }
      r := Some(DashboardSummary(|users|, CountRole(users, Admin), CountRole(users, Staff), |logs|));
    }

    /** The callback of `authenticateUserDb`, with its `catch`. */
    method LoginQuery(username: string, password: string, now: Timestamp, logId: string, c: Conditions)
      returns (r: Option<Result<SessionUser>>)
      requires Valid() && seedCached
      modifies this
      ensures Valid()
      ensures Run(Contents(), r) == LoginRun(old(Contents()), username, password, now, logId, c.fault)
      ensures seedCached == r.Some?
      ensures seedRuns == old(seedRuns) && WarnedOn(old(queryWarned), old(queryWarnings), c.env.production, r.None?)
    {
      if c.fault == QueryFault {
        Fail(c.env.production);
        return None;
      }
      var found := IndexOfUsername(users, username);
      if found.None? || users[found.value].password != password {
        return Some(Err(InvalidCredentials));
      }
      var i := found.value;
      if users[i].status != Active {
        return Some(Err(AccountNotActive));
      }
      var user := users[i];
      if c.fault == LogFault || !LogIdFree(logs, logId) {
        Fail(c.env.production);
        return None;
      }
      var entry := AuditEntry(Stamp(logId, now), user.username, LoginSuccess, user.username,
                              LoginDetails(user.role, "Prisma"));
      SameKeysKeepConstraints(Contents(), WithLogin(users, i, now));
      AddLogKeepsConstraints(Tables(WithLogin(users, i, now), logs), entry);
      users, logs := WithLogin(users, i, now), logs + [entry];
      r := Some(Ok(SessionOf(user)));
    }

    /** `authenticateUserDb`. */
    method AuthenticateUserDb(username: string, password: string, now: Timestamp, logId: string, c: Conditions)
      returns (r: Option<Result<SessionUser>>)
      requires Valid()
      modifies this, gate
      ensures Valid()
      ensures Served(Opens(old(gate.client), old(gate.unavailable), c), old(Contents()), old(seedCached), c.fault,
                     (t: Tables) => LoginRun(t, username, password, now, logId, c.fault), Contents(), seedCached, r)
      ensures Stepped(old(gate.State()), old(seedCached), old(seedRuns), old(queryWarned), old(queryWarnings), c, r.None?)
    {
      var ok := Open(c);
      if !ok {
        return None;
      }
      r := LoginQuery(username, password, now, logId, c);
    }

    /** `recordLogoutDb`. */
    method RecordLogoutDb(session: SessionUser, stamp: Stamp, c: Conditions) returns (r: Option<bool>)
      requires Valid()
      modifies this, gate
      ensures Valid()
      ensures Served(Opens(old(gate.client), old(gate.unavailable), c), old(Contents()), old(seedCached), c.fault,
                     (t: Tables) => LogoutRun(t, session, stamp, c.fault), Contents(), seedCached, r)
      ensures Stepped(old(gate.State()), old(seedCached), old(seedRuns), old(queryWarned), old(queryWarnings), c, r.None?)
    {
      var ok := Open(c);
      if !ok {
        return None;
      }
      if c.fault == LogFault || !LogIdFree(logs, stamp.id) {
        Fail(c.env.production);
        return None;
      }
      var entry := AuditEntry(stamp, session.username, Logout, session.username, LogoutDetails);
      AddLogKeepsConstraints(Contents(), entry);
      logs := logs + [entry];
      r := Some(true);
    }

    /** The callback of `createUserAccountDb`, with its `catch`. */
    method CreateQuery(input: AccountInput, actor: SessionUser, userStamp: Stamp, logStamp: Stamp, c: Conditions)
      returns (r: Option<Result<PublicUser>>)
      requires Valid() && seedCached
      modifies this
      ensures Valid()
      ensures Run(Contents(), r) == CreateRun(old(Contents()), input, actor, userStamp, logStamp, c.fault)
      ensures seedCached == r.Some?
      ensures seedRuns == old(seedRuns) && WarnedOn(old(queryWarned), old(queryWarnings), c.env.production, r.None?)
    {
      var account := Normalized(input);
      if account.username == "" || account.name == "" || account.password == "" {
        return Some(Err(MissingFields));
      }
      if c.fault == QueryFault {
        Fail(c.env.production);
        return None;
      }
      if IndexOfUsername(users, account.username).Some? {
        return Some(Err(UsernameTaken));
      }
      r := CreateWrites(NewUser(account, userStamp), actor, logStamp, c);
    }

    /** `user.create` followed by `appendLog`. */
    method CreateWrites(created: StoredUser, actor: SessionUser, logStamp: Stamp, c: Conditions)
      returns (r: Option<Result<PublicUser>>)
      requires Valid() && seedCached
      requires forall j :: 0 <= j < |users| ==> users[j].username != created.username
      modifies this
      ensures Valid()
      ensures Run(Contents(), r) == CreateWrite(old(Contents()), created, actor, logStamp, c.fault)
      ensures seedCached == r.Some?
      ensures seedRuns == old(seedRuns) && WarnedOn(old(queryWarned), old(queryWarnings), c.env.production, r.None?)
    {
      if !IdFree(users, created.id) {
        Fail(c.env.production);
        return None;
      }
      AddUserKeepsConstraints(Contents(), created);
      users := users + [created];
      if c.fault == LogFault || !LogIdFree(logs, logStamp.id) {
        Fail(c.env.production);
        return None;
      }
      var entry := AuditEntry(logStamp, actor.username, CreateUser, created.username, CreatedDetails(created.role));
      AddLogKeepsConstraints(Contents(), entry);
      logs := logs + [entry];
      r := Some(Ok(Sanitize(created)));
    }

    /** `createUserAccountDb`. */
    method CreateUserAccountDb(input: AccountInput, actor: SessionUser, userStamp: Stamp, logStamp: Stamp,
                               c: Conditions)
      returns (r: Option<Result<PublicUser>>)
      requires Valid()
      modifies this, gate
      ensures Valid()
      ensures Served(Opens(old(gate.client), old(gate.unavailable), c), old(Contents()), old(seedCached), c.fault,
                     (t: Tables) => CreateRun(t, input, actor, userStamp, logStamp, c.fault), Contents(), seedCached, r)
      ensures Stepped(old(gate.State()), old(seedCached), old(seedRuns), old(queryWarned), old(queryWarnings), c, r.None?)
    {
      var ok := Open(c);
      if !ok {
        return None;
      }
      r := CreateQuery(input, actor, userStamp, logStamp, c);
    }

    /** The callback of `updateUserRoleDb`, with its `catch`. */
    method RoleQuery(id: string, role: Role, actor: SessionUser, stamp: Stamp, c: Conditions)
      returns (r: Option<Result<PublicUser>>)
      requires Valid() && seedCached
      modifies this
      ensures Valid()
      ensures Run(Contents(), r) == RoleRun(old(Contents()), id, role, actor, stamp, c.fault)
      ensures seedCached == r.Some?
      ensures seedRuns == old(seedRuns) && WarnedOn(old(queryWarned), old(queryWarnings), c.env.production, r.None?)
    {
      if c.fault == QueryFault {
        Fail(c.env.production);
        return None;
      }
      var found := IndexOfId(users, id);
      if found.None? {
        return Some(Err(UserNotFound));
      }
      var i := found.value;
      var user := users[i];
      if user.role == role {
        return Some(Ok(Sanitize(user)));
      }
      if user.username == actor.username && role != Admin {
        return Some(Err(SelfDemotion));
      }
      if role != Admin && user.role == Admin {
        var adminCount := CountRole(users, Admin);
        if adminCount <= 1 {
          return Some(Err(LastAdmin));
        }
      }
      r := RoleWrites(i, role, actor, stamp, c);
    }

    /** `user.update` followed by `appendLog`. */
    method RoleWrites(i: nat, role: Role, actor: SessionUser, stamp: Stamp, c: Conditions)
      returns (r: Option<Result<PublicUser>>)
      requires Valid() && seedCached && i < |users|
      modifies this
      ensures Valid()
      ensures Run(Contents(), r) == RoleWrite(old(Contents()), i, role, actor, stamp, c.fault)
      ensures seedCached == r.Some?
      ensures seedRuns == old(seedRuns) && WarnedOn(old(queryWarned), old(queryWarnings), c.env.production, r.None?)
    {
      SameKeysKeepConstraints(Contents(), WithRole(users, i, role));
      users := WithRole(users, i, role);
      var updated := users[i];
      if c.fault == LogFault || !LogIdFree(logs, stamp.id) {
        Fail(c.env.production);
        return None;
      }
      var entry := AuditEntry(stamp, actor.username, UpdateRole, updated.username, RoleChangedDetails(role));
      AddLogKeepsConstraints(Contents(), entry);
      logs := logs + [entry];
      r := Some(Ok(Sanitize(updated)));
    }

    /** `updateUserRoleDb`. */
    method UpdateUserRoleDb(id: string, role: Role, actor: SessionUser, stamp: Stamp, c: Conditions)
      returns (r: Option<Result<PublicUser>>)
      requires Valid()
      modifies this, gate
      ensures Valid()
      ensures Served(Opens(old(gate.client), old(gate.unavailable), c), old(Contents()), old(seedCached), c.fault,
                     (t: Tables) => RoleRun(t, id, role, actor, stamp, c.fault), Contents(), seedCached, r)
      ensures Stepped(old(gate.State()), old(seedCached), old(seedRuns), old(queryWarned), old(queryWarnings), c, r.None?)
    {
      var ok := Open(c);
      if !ok {
        return None;
      }
      r := RoleQuery(id, role, actor, stamp, c);
    }

    /** The callback of `deleteUserAccountDb`, with its `catch`. */
    method DeleteQuery(id: string, actor: SessionUser, stamp: Stamp, c: Conditions)
      returns (r: Option<Result<()>>)
      requires Valid() && seedCached
      modifies this
      ensures Valid()
      ensures Run(Contents(), r) == DeleteRun(old(Contents()), id, actor, stamp, c.fault)
      ensures seedCached == r.Some?
      ensures seedRuns == old(seedRuns) && WarnedOn(old(queryWarned), old(queryWarnings), c.env.production, r.None?)
    {
      if c.fault == QueryFault {
        Fail(c.env.production);
        return None;
      }
      var found := IndexOfId(users, id);
      if found.None? {
        return Some(Err(UserNotFound));
      }
      var index := found.value;
      var user := users[index];
      if user.username == actor.username {
        return Some(Err(SelfDeletion));
      }
      if user.role == Admin {
        var adminCount := CountRole(users, Admin);
        if adminCount <= 1 {
          return Some(Err(LastAdmin));
        }
      }
      if c.fault == LogFault || !LogIdFree(logs, stamp.id) {
        Fail(c.env.production);
        return None;
      }
      var entry := AuditEntry(stamp, actor.username, DeleteUser, user.username, DeletedDetails(user.role));
      WithoutKeepsUsernames(users, index);
      WithoutKeepsIds(users, index);
      AddLogKeepsConstraints(Tables(Without(users, index), logs), entry);
      users, logs := Without(users, index), logs + [entry];
      r := Some(Ok(()));
    }

    /** `deleteUserAccountDb`. */
    method DeleteUserAccountDb(id: string, actor: SessionUser, stamp: Stamp, c: Conditions)
      returns (r: Option<Result<()>>)
      requires Valid()
      modifies this, gate
      ensures Valid()
      ensures Served(Opens(old(gate.client), old(gate.unavailable), c), old(Contents()), old(seedCached), c.fault,
                     (t: Tables) => DeleteRun(t, id, actor, stamp, c.fault), Contents(), seedCached, r)
      ensures Stepped(old(gate.State()), old(seedCached), old(seedRuns), old(queryWarned), old(queryWarnings), c, r.None?)
    {
      var ok := Open(c);
      if !ok {
        return None;
      }
      r := DeleteQuery(id, actor, stamp, c);
    }
  }

  lemma WithoutKeepsIds(users: seq<StoredUser>, i: nat)
    requires i < |users| && IdsUnique(users)
    ensures IdsUnique(Without(users, i))
  {
    var r := Without(users, i);
    forall a: nat, b: nat | a < b < |r| ensures IdsDiffer(r, a, b) {
      var a' := if a < i then a else a + 1;
      var b' := if b < i then b else b + 1;
      assert r[a] == users[a'] && r[b] == users[b'] && IdsDiffer(users, a', b');
    }
  }
}
