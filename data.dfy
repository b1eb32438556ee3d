/** The data layer (lib/data.ts): every directory operation asks the database
    backend first and serves its answer unless that answer is `null` (unavailable),
    in which case the in-memory store answers. An exception escaping the database
    backend is caught, reported once per process, and also answered from memory.
    Each wrapper returns, as a ghost out-parameter, the database backend's answer. */
module Data {
  import opened Types
  import opened Directory
  import opened Prisma
  import opened PrismaStore
  import opened Store

  /** The identifiers and times the environment supplies to one request: for the
      account a create inserts, and for the audit event the request writes. */
  datatype Stamps = Stamps(user: Stamp, log: Stamp)

  /** `getPersistenceModeLabel`. */
  function PersistenceModeLabel(env: Env): (mode: string)
    ensures mode == "postgresql" || mode == "memory"
    ensures mode == "postgresql" <==> IsPrismaEnabledByEnv(env)
  {
    if IsPrismaEnabledByEnv(env) then "postgresql" else "memory"
  }

  /** The label reads only the database switch: memory mode reads "memory" whatever
      the URL, and two environments that agree on the switch get the same label. */
  lemma ModeLabelFollowsSwitch(e1: Env, e2: Env)
    ensures e1.dataMode == Some("memory") ==> PersistenceModeLabel(e1) == "memory"
    ensures IsPrismaEnabledByEnv(e1) == IsPrismaEnabledByEnv(e2) ==> PersistenceModeLabel(e1) == PersistenceModeLabel(e2)
  {
  }

  class DataLayer {
    const mem: MemoryStore
    const db: DurableStore
    /** `__rims_data_fallback_warned__`. */
    var fallbackWarned: bool
    /** How many "Data layer fallback" warnings were printed. */
    ghost var fallbackWarnings: nat

    ghost predicate Valid()
      reads this, mem, db, db.gate
    {
      mem.Valid() && db.Valid() && fallbackWarnings <= (if fallbackWarned then 1 else 0)
    }

    constructor (mem: MemoryStore, db: DurableStore)
      requires mem.Valid() && db.Valid()
      ensures Valid() && this.mem == mem && this.db == db
      ensures !fallbackWarned && fallbackWarnings == 0
    {
      this.mem, this.db := mem, db;
      fallbackWarned, fallbackWarnings := false, 0;
    }

    /** `warnDataFallback`: the flag is set before the one warning is printed and is
        checked first on every later call; production never warns. */
    method WarnDataFallback(production: bool)
      requires Valid()
      modifies this
      ensures Valid()
      ensures fallbackWarned == (old(fallbackWarned) || !production)
      ensures fallbackWarnings == old(fallbackWarnings) + (if !production && !old(fallbackWarned) then 1 else 0)
      ensures fallbackWarnings <= 1
    {
      if production || fallbackWarned {
        return;
      }
      fallbackWarned := true;
      fallbackWarnings := fallbackWarnings + 1;
    }

    /** `listUsers`. */
    method ListUsers(c: Conditions, escapes: bool) returns (r: seq<PublicUser>, ghost durable: Option<seq<PublicUser>>)
      requires Valid()
      modifies this, mem, db, db.gate
      ensures Valid()
      ensures escapes ==> durable.None? && db.Contents() == old(db.Contents())
      ensures !escapes ==>
        Served(Opens(old(db.gate.client), old(db.gate.unavailable), c), old(db.Contents()), old(db.seedCached),
               c.fault, (t: Tables) => ReadRun(t, c.fault, ListedUsers(t.users)), db.Contents(), db.seedCached, durable)
      ensures durable.Some? ==> r == durable.value
      ensures durable.None? ==> r == PublicUsers(old(mem.UsersView()))
      ensures mem.UsersView() == old(mem.UsersView()) && mem.LogsView() == old(mem.LogsView())
      ensures fallbackWarned == (old(fallbackWarned) || (escapes && !c.env.production))
      ensures fallbackWarnings == old(fallbackWarnings) + (if escapes && !c.env.production && !old(fallbackWarned) then 1 else 0)
      ensures !escapes ==>
        db.Stepped(old(db.gate.State()), old(db.seedCached), old(db.seedRuns), old(db.queryWarned), old(db.queryWarnings),
                   c, durable.None?)
    {
      var answer := ListUsersFromDb(c, escapes);
      durable := answer;
      if answer.Some? {
        r := answer.value;
      } else {
        label BeforeMemory:
        r := mem.ListUsers();
        assert unchanged@BeforeMemory(this, db, db.gate);
      }
    }

    /** The database half of `listUsers`: the backend's answer, or `None` when the backend
        is unavailable or its exception escapes (and is reported). */
    method ListUsersFromDb(c: Conditions, escapes: bool)
      returns (answer: Option<seq<PublicUser>>)
      requires Valid()
      modifies this, db, db.gate
      ensures Valid()
      ensures escapes ==> answer.None? && db.Contents() == old(db.Contents())
      ensures !escapes ==>
        Served(Opens(old(db.gate.client), old(db.gate.unavailable), c), old(db.Contents()), old(db.seedCached),
               c.fault, (t: Tables) => ReadRun(t, c.fault, ListedUsers(t.users)), db.Contents(), db.seedCached, answer)
      ensures fallbackWarned == (old(fallbackWarned) || (escapes && !c.env.production))
      ensures fallbackWarnings == old(fallbackWarnings) + (if escapes && !c.env.production && !old(fallbackWarned) then 1 else 0)
      ensures !escapes ==>
        db.Stepped(old(db.gate.State()), old(db.seedCached), old(db.seedRuns), old(db.queryWarned), old(db.queryWarnings),
                   c, answer.None?)
    {
      if escapes {
        WarnDataFallback(c.env.production);
        answer := None;
      } else {
        answer := db.ListUsersDb(c);
      }
    }

    /** `listLogs`. */
    method ListLogs(c: Conditions, escapes: bool) returns (r: seq<LogEntry>, ghost durable: Option<seq<LogEntry>>)
      requires Valid()
      modifies this, mem, db, db.gate
      ensures Valid()
      ensures escapes ==> durable.None? && db.Contents() == old(db.Contents())
      ensures !escapes ==>
        Served(Opens(old(db.gate.client), old(db.gate.unavailable), c), old(db.Contents()), old(db.seedCached),
               c.fault, (t: Tables) => ReadRun(t, c.fault, ListedLogs(t.logs)), db.Contents(), db.seedCached, durable)
      ensures durable.Some? ==> r == durable.value
      ensures durable.None? ==> r == old(mem.LogsView())
      ensures mem.UsersView() == old(mem.UsersView()) && mem.LogsView() == old(mem.LogsView())
      ensures fallbackWarned == (old(fallbackWarned) || (escapes && !c.env.production))
      ensures fallbackWarnings == old(fallbackWarnings) + (if escapes && !c.env.production && !old(fallbackWarned) then 1 else 0)
      ensures !escapes ==>
        db.Stepped(old(db.gate.State()), old(db.seedCached), old(db.seedRuns), old(db.queryWarned), old(db.queryWarnings),
                   c, durable.None?)
    {
      var answer := ListLogsFromDb(c, escapes);
      durable := answer;
      if answer.Some? {
        r := answer.value;
      } else {
        label BeforeMemory:
        r := mem.ListLogs();
        assert unchanged@BeforeMemory(this, db, db.gate);
      }
    }

    /** The database half of `listLogs`: the backend's answer, or `None` when the backend
        is unavailable or its exception escapes (and is reported). */
    method ListLogsFromDb(c: Conditions, escapes: bool)
      returns (answer: Option<seq<LogEntry>>)
      requires Valid()
      modifies this, db, db.gate
      ensures Valid()
      ensures escapes ==> answer.None? && db.Contents() == old(db.Contents())
      ensures !escapes ==>
        Served(Opens(old(db.gate.client), old(db.gate.unavailable), c), old(db.Contents()), old(db.seedCached),
               c.fault, (t: Tables) => ReadRun(t, c.fault, ListedLogs(t.logs)), db.Contents(), db.seedCached, answer)
      ensures fallbackWarned == (old(fallbackWarned) || (escapes && !c.env.production))
      ensures fallbackWarnings == old(fallbackWarnings) + (if escapes && !c.env.production && !old(fallbackWarned) then 1 else 0)
      ensures !escapes ==>
        db.Stepped(old(db.gate.State()), old(db.seedCached), old(db.seedRuns), old(db.queryWarned), old(db.queryWarnings),
                   c, answer.None?)
    {
      if escapes {
        WarnDataFallback(c.env.production);
        answer := None;
      } else {
        answer := db.ListLogsDb(c);
      }
    }

    /** `getUserByUsername`: only `undefined` from the database falls back; its `null`
        (no such account) is the answer. */
    method GetUserByUsername(username: string, c: Conditions, escapes: bool)
      returns (r: Option<PublicUser>, ghost durable: Option<Option<PublicUser>>)
      requires Valid()
      modifies this, mem, db, db.gate
      ensures Valid()
      ensures escapes ==> durable.None? && db.Contents() == old(db.Contents())
      ensures !escapes ==>
        Served(Opens(old(db.gate.client), old(db.gate.unavailable), c), old(db.Contents()), old(db.seedCached),
               c.fault, (t: Tables) => ReadRun(t, c.fault, Lookup(t.users, username)), db.Contents(), db.seedCached, durable)
      ensures durable.Some? ==> r == durable.value
      ensures durable == Some(None) ==> r.None?
      ensures durable.None? ==> r == Lookup(old(mem.UsersView()), username)
      ensures mem.UsersView() == old(mem.UsersView()) && mem.LogsView() == old(mem.LogsView())
      ensures fallbackWarned == (old(fallbackWarned) || (escapes && !c.env.production))
      ensures fallbackWarnings == old(fallbackWarnings) + (if escapes && !c.env.production && !old(fallbackWarned) then 1 else 0)
      ensures !escapes ==>
        db.Stepped(old(db.gate.State()), old(db.seedCached), old(db.seedRuns), old(db.queryWarned), old(db.queryWarnings),
                   c, durable.None?)
    {
      var answer := GetUserByUsernameFromDb(username, c, escapes);
      durable := answer;
      if answer.Some? {
        r := answer.value;
      } else {
        label BeforeMemory:
        r := mem.GetUserByUsername(username);
        assert unchanged@BeforeMemory(this, db, db.gate);
      }
    }

    /** The database half of `getUserByUsername`: the backend's answer, or `None` when the backend
        is unavailable or its exception escapes (and is reported). */
    method GetUserByUsernameFromDb(username: string, c: Conditions, escapes: bool)
      returns (answer: Option<Option<PublicUser>>)
      requires Valid()
      modifies this, db, db.gate
      ensures Valid()
      ensures escapes ==> answer.None? && db.Contents() == old(db.Contents())
      ensures !escapes ==>
        Served(Opens(old(db.gate.client), old(db.gate.unavailable), c), old(db.Contents()), old(db.seedCached),
               c.fault, (t: Tables) => ReadRun(t, c.fault, Lookup(t.users, username)), db.Contents(), db.seedCached, answer)
      ensures fallbackWarned == (old(fallbackWarned) || (escapes && !c.env.production))
      ensures fallbackWarnings == old(fallbackWarnings) + (if escapes && !c.env.production && !old(fallbackWarned) then 1 else 0)
      ensures !escapes ==>
        db.Stepped(old(db.gate.State()), old(db.seedCached), old(db.seedRuns), old(db.queryWarned), old(db.queryWarnings),
                   c, answer.None?)
    {
      if escapes {
        WarnDataFallback(c.env.production);
        answer := None;
      } else {
        answer := db.GetUserByUsernameDb(username, c);
      }
    }

    /** `getDashboardSummary`. */
    method GetDashboardSummary(c: Conditions, escapes: bool) returns (r: DashboardSummary, ghost durable: Option<DashboardSummary>)
      requires Valid()
      modifies this, mem, db, db.gate
      ensures Valid()
      ensures escapes ==> durable.None? && db.Contents() == old(db.Contents())
      ensures !escapes ==>
        Served(Opens(old(db.gate.client), old(db.gate.unavailable), c), old(db.Contents()), old(db.seedCached),
               c.fault, (t: Tables) => ReadRun(t, c.fault, Summary(t.users, t.logs)), db.Contents(), db.seedCached, durable)
      ensures durable.Some? ==> r == durable.value
      ensures durable.None? ==> r == Summary(old(mem.UsersView()), old(mem.LogsView()))
      ensures r.adminUsers + r.staffUsers == r.totalUsers
      ensures mem.UsersView() == old(mem.UsersView()) && mem.LogsView() == old(mem.LogsView())
      ensures fallbackWarned == (old(fallbackWarned) || (escapes && !c.env.production))
      ensures fallbackWarnings == old(fallbackWarnings) + (if escapes && !c.env.production && !old(fallbackWarned) then 1 else 0)
      ensures !escapes ==>
        db.Stepped(old(db.gate.State()), old(db.seedCached), old(db.seedRuns), old(db.queryWarned), old(db.queryWarnings),
                   c, durable.None?)
    {
      var answer := GetDashboardSummaryFromDb(c, escapes);
      durable := answer;
      if answer.Some? {
        r := answer.value;
      } else {
        label BeforeMemory:
        r := mem.GetDashboardSummary();
        assert unchanged@BeforeMemory(this, db, db.gate);
      }
    }

    /** The database half of `getDashboardSummary`: the backend's answer, or `None` when the backend
        is unavailable or its exception escapes (and is reported). */
    method GetDashboardSummaryFromDb(c: Conditions, escapes: bool)
      returns (answer: Option<DashboardSummary>)
      requires Valid()
      modifies this, db, db.gate
      ensures Valid()
      ensures escapes ==> answer.None? && db.Contents() == old(db.Contents())
      ensures !escapes ==>
        Served(Opens(old(db.gate.client), old(db.gate.unavailable), c), old(db.Contents()), old(db.seedCached),
               c.fault, (t: Tables) => ReadRun(t, c.fault, Summary(t.users, t.logs)), db.Contents(), db.seedCached, answer)
      ensures fallbackWarned == (old(fallbackWarned) || (escapes && !c.env.production))
      ensures fallbackWarnings == old(fallbackWarnings) + (if escapes && !c.env.production && !old(fallbackWarned) then 1 else 0)
      ensures !escapes ==>
        db.Stepped(old(db.gate.State()), old(db.seedCached), old(db.seedRuns), old(db.queryWarned), old(db.queryWarnings),
                   c, answer.None?)
    {
      if escapes {
        WarnDataFallback(c.env.production);
        answer := None;
      } else {
        answer := db.GetDashboardSummaryDb(c);
      }
    }

    /** `authenticateUser`: the login time is the log stamp's time. */
    method AuthenticateUser(username: string, password: string, stamp: Stamp, c: Conditions, escapes: bool)
      returns (r: Result<SessionUser>, ghost durable: Option<Result<SessionUser>>)
      requires Valid()
      modifies this, mem, db, db.gate
      ensures Valid()
      ensures escapes ==> durable.None? && db.Contents() == old(db.Contents())
      ensures !escapes ==>
        Served(Opens(old(db.gate.client), old(db.gate.unavailable), c), old(db.Contents()), old(db.seedCached),
               c.fault, (t: Tables) => LoginRun(t, username, password, stamp.at, stamp.id, c.fault), db.Contents(), db.seedCached, durable)
      ensures durable.Some? ==> r == durable.value && mem.UsersView() == old(mem.UsersView()) && mem.LogsView() == old(mem.LogsView())
      ensures durable.None? ==> r == LoginOutcome(old(mem.UsersView()), username, password)
      ensures durable.None? ==> match LoginDecision(old(mem.UsersView()), username, password)
        case Err(_) =>
          mem.UsersView() == old(mem.UsersView()) && mem.LogsView() == old(mem.LogsView())
        case Ok(i) =>
          var u := old(mem.UsersView())[i];
          && mem.UsersView() == WithLogin(old(mem.UsersView()), i, stamp.at)
          && mem.LogsView() == [AuditEntry(stamp, u.username, LoginSuccess, u.username, LoginDetails(u.role, "mock"))]
                               + old(mem.LogsView())
      ensures fallbackWarned == (old(fallbackWarned) || (escapes && !c.env.production))
      ensures fallbackWarnings == old(fallbackWarnings) + (if escapes && !c.env.production && !old(fallbackWarned) then 1 else 0)
      ensures !escapes ==>
        db.Stepped(old(db.gate.State()), old(db.seedCached), old(db.seedRuns), old(db.queryWarned), old(db.queryWarnings),
                   c, durable.None?)
    {
      var answer := AuthenticateUserFromDb(username, password, stamp, c, escapes);
      durable := answer;
      if answer.Some? {
        r := answer.value;
      } else {
        r := LoginInMemory(username, password, stamp);
      }
    }

    /** The database half of `authenticateUser`: the backend's answer, or `None` when the backend
        is unavailable or its exception escapes (and is reported). */
    method AuthenticateUserFromDb(username: string, password: string, stamp: Stamp, c: Conditions, escapes: bool)
      returns (answer: Option<Result<SessionUser>>)
      requires Valid()
      modifies this, db, db.gate
      ensures Valid()
      ensures escapes ==> answer.None? && db.Contents() == old(db.Contents())
      ensures !escapes ==>
        Served(Opens(old(db.gate.client), old(db.gate.unavailable), c), old(db.Contents()), old(db.seedCached),
               c.fault, (t: Tables) => LoginRun(t, username, password, stamp.at, stamp.id, c.fault), db.Contents(), db.seedCached, answer)
      ensures fallbackWarned == (old(fallbackWarned) || (escapes && !c.env.production))
      ensures fallbackWarnings == old(fallbackWarnings) + (if escapes && !c.env.production && !old(fallbackWarned) then 1 else 0)
      ensures !escapes ==>
        db.Stepped(old(db.gate.State()), old(db.seedCached), old(db.seedRuns), old(db.queryWarned), old(db.queryWarnings),
                   c, answer.None?)
    {
      if escapes {
        WarnDataFallback(c.env.production);
        answer := None;
      } else {
        answer := db.AuthenticateUserDb(username, password, stamp.at, stamp.id, c);
      }
    }

    /** `recordLogout`: `Some(true)` from the database, otherwise the in-memory
        store's `undefined` (`None`) after it logged the event. */
    method RecordLogout(session: SessionUser, stamp: Stamp, c: Conditions, escapes: bool)
      returns (r: Option<bool>, ghost durable: Option<bool>)
      requires Valid()
      modifies this, mem, db, db.gate
      ensures Valid()
      ensures escapes ==> durable.None? && db.Contents() == old(db.Contents())
      ensures !escapes ==>
        Served(Opens(old(db.gate.client), old(db.gate.unavailable), c), old(db.Contents()), old(db.seedCached),
               c.fault, (t: Tables) => LogoutRun(t, session, stamp, c.fault), db.Contents(), db.seedCached, durable)
      ensures durable.Some? ==> r == durable && mem.UsersView() == old(mem.UsersView()) && mem.LogsView() == old(mem.LogsView())
      ensures durable.None? ==> r.None? && mem.UsersView() == old(mem.UsersView())
      ensures durable.None? ==>
        mem.LogsView() == [AuditEntry(stamp, session.username, Logout, session.username, LogoutDetails)] + old(mem.LogsView())
      ensures fallbackWarned == (old(fallbackWarned) || (escapes && !c.env.production))
      ensures fallbackWarnings == old(fallbackWarnings) + (if escapes && !c.env.production && !old(fallbackWarned) then 1 else 0)
      ensures !escapes ==>
        db.Stepped(old(db.gate.State()), old(db.seedCached), old(db.seedRuns), old(db.queryWarned), old(db.queryWarnings),
                   c, durable.None?)
    {
      var answer := RecordLogoutFromDb(session, stamp, c, escapes);
      durable := answer;
      if answer.Some? {
        r := answer;
      } else {
        label BeforeMemory:
        mem.RecordLogout(session, stamp);
        assert unchanged@BeforeMemory(this, db, db.gate);
        r := None;
      }
    }

    /** The database half of `recordLogout`: the backend's answer, or `None` when the backend
        is unavailable or its exception escapes (and is reported). */
    method RecordLogoutFromDb(session: SessionUser, stamp: Stamp, c: Conditions, escapes: bool)
      returns (answer: Option<bool>)
      requires Valid()
      modifies this, db, db.gate
      ensures Valid()
      ensures escapes ==> answer.None? && db.Contents() == old(db.Contents())
      ensures !escapes ==>
        Served(Opens(old(db.gate.client), old(db.gate.unavailable), c), old(db.Contents()), old(db.seedCached),
               c.fault, (t: Tables) => LogoutRun(t, session, stamp, c.fault), db.Contents(), db.seedCached, answer)
      ensures fallbackWarned == (old(fallbackWarned) || (escapes && !c.env.production))
      ensures fallbackWarnings == old(fallbackWarnings) + (if escapes && !c.env.production && !old(fallbackWarned) then 1 else 0)
      ensures !escapes ==>
        db.Stepped(old(db.gate.State()), old(db.seedCached), old(db.seedRuns), old(db.queryWarned), old(db.queryWarnings),
                   c, answer.None?)
    {
      if escapes {
        WarnDataFallback(c.env.production);
        answer := None;
      } else {
        answer := db.RecordLogoutDb(session, stamp, c);
      }
    }

    /** `createUserAccount`: a refusal from the database is an answer, not a reason to
        fall back. */
    method CreateUserAccount(input: AccountInput, actor: SessionUser, stamps: Stamps, c: Conditions, escapes: bool)
      returns (r: Result<PublicUser>, ghost durable: Option<Result<PublicUser>>)
      requires Valid()
      modifies this, mem, db, db.gate
      ensures Valid()
      ensures escapes ==> durable.None? && db.Contents() == old(db.Contents())
      ensures !escapes ==>
        Served(Opens(old(db.gate.client), old(db.gate.unavailable), c), old(db.Contents()), old(db.seedCached),
               c.fault, (t: Tables) => CreateRun(t, input, actor, stamps.user, stamps.log, c.fault), db.Contents(), db.seedCached, durable)
      ensures durable.Some? ==> r == durable.value && mem.UsersView() == old(mem.UsersView()) && mem.LogsView() == old(mem.LogsView())
      ensures durable.None? ==> r == CreateOutcome(old(mem.UsersView()), input, stamps.user)
      ensures durable.None? ==> mem.UsersView() == Apply(old(mem.UsersView()), Create(input, stamps.user))
      ensures durable.None? ==> match CreateDecision(old(mem.UsersView()), input)
        case Err(_) =>
          mem.LogsView() == old(mem.LogsView())
        case Ok(n) =>
          mem.LogsView() == [AuditEntry(stamps.log, actor.username, CreateUser, n.username, CreatedDetails(n.role))]
                            + old(mem.LogsView())
      ensures fallbackWarned == (old(fallbackWarned) || (escapes && !c.env.production))
      ensures fallbackWarnings == old(fallbackWarnings) + (if escapes && !c.env.production && !old(fallbackWarned) then 1 else 0)
      ensures !escapes ==>
        db.Stepped(old(db.gate.State()), old(db.seedCached), old(db.seedRuns), old(db.queryWarned), old(db.queryWarnings),
                   c, durable.None?)
    {
      var answer := CreateUserAccountFromDb(input, actor, stamps, c, escapes);
      durable := answer;
      if answer.Some? {
        r := answer.value;
      } else {
        r := CreateInMemory(input, actor, stamps);
      }
    }

    /** The database half of `createUserAccount`: the backend's answer, or `None` when the backend
        is unavailable or its exception escapes (and is reported). */
    method CreateUserAccountFromDb(input: AccountInput, actor: SessionUser, stamps: Stamps, c: Conditions, escapes: bool)
      returns (answer: Option<Result<PublicUser>>)
      requires Valid()
      modifies this, db, db.gate
      ensures Valid()
      ensures escapes ==> answer.None? && db.Contents() == old(db.Contents())
      ensures !escapes ==>
        Served(Opens(old(db.gate.client), old(db.gate.unavailable), c), old(db.Contents()), old(db.seedCached),
               c.fault, (t: Tables) => CreateRun(t, input, actor, stamps.user, stamps.log, c.fault), db.Contents(), db.seedCached, answer)
      ensures fallbackWarned == (old(fallbackWarned) || (escapes && !c.env.production))
      ensures fallbackWarnings == old(fallbackWarnings) + (if escapes && !c.env.production && !old(fallbackWarned) then 1 else 0)
      ensures !escapes ==>
        db.Stepped(old(db.gate.State()), old(db.seedCached), old(db.seedRuns), old(db.queryWarned), old(db.queryWarnings),
                   c, answer.None?)
    {
      if escapes {
        WarnDataFallback(c.env.production);
        answer := None;
      } else {
        answer := db.CreateUserAccountDb(input, actor, stamps.user, stamps.log, c);
      }
    }

    /** The in-memory answer to a create request. */
    method CreateInMemory(input: AccountInput, actor: SessionUser, stamps: Stamps) returns (r: Result<PublicUser>)
      requires Valid()
      modifies mem
      ensures Valid()
      ensures r == CreateOutcome(old(mem.UsersView()), input, stamps.user)
      ensures mem.UsersView() == Apply(old(mem.UsersView()), Create(input, stamps.user))
      ensures match CreateDecision(old(mem.UsersView()), input)
        case Err(_) =>
          mem.LogsView() == old(mem.LogsView())
        case Ok(n) =>
          mem.LogsView() == [AuditEntry(stamps.log, actor.username, CreateUser, n.username, CreatedDetails(n.role))]
                            + old(mem.LogsView())
    {
      r := mem.CreateUserAccount(input, actor, stamps.user, stamps.log);
      assert unchanged(this, db, db.gate);
    }

    /** The in-memory answer to a login request. */
    method LoginInMemory(username: string, password: string, stamp: Stamp) returns (r: Result<SessionUser>)
      requires Valid()
      modifies mem
      ensures Valid()
      ensures r == LoginOutcome(old(mem.UsersView()), username, password)
      ensures match LoginDecision(old(mem.UsersView()), username, password)
        case Err(_) =>
          mem.UsersView() == old(mem.UsersView()) && mem.LogsView() == old(mem.LogsView())
        case Ok(i) =>
          var u := old(mem.UsersView())[i];
          && mem.UsersView() == WithLogin(old(mem.UsersView()), i, stamp.at)
          && mem.LogsView() == [AuditEntry(stamp, u.username, LoginSuccess, u.username, LoginDetails(u.role, "mock"))]
                               + old(mem.LogsView())
    {
      r := mem.AuthenticateUser(username, password, stamp.at, stamp);
      assert unchanged(this, db, db.gate);
    }

    /** `updateUserRole`. */
    method UpdateUserRole(id: string, role: Role, actor: SessionUser, stamp: Stamp, c: Conditions, escapes: bool)
      returns (r: Result<PublicUser>, ghost durable: Option<Result<PublicUser>>)
      requires Valid()
      modifies this, mem, db, db.gate
      ensures Valid()
      ensures escapes ==> durable.None? && db.Contents() == old(db.Contents())
      ensures !escapes ==>
        Served(Opens(old(db.gate.client), old(db.gate.unavailable), c), old(db.Contents()), old(db.seedCached),
               c.fault, (t: Tables) => RoleRun(t, id, role, actor, stamp, c.fault), db.Contents(), db.seedCached, durable)
      ensures durable.Some? ==> r == durable.value && mem.UsersView() == old(mem.UsersView()) && mem.LogsView() == old(mem.LogsView())
      ensures durable.None? ==> r == RoleOutcome(old(mem.UsersView()), id, role, actor.username)
      ensures durable.None? ==> mem.UsersView() == Apply(old(mem.UsersView()), SetRole(id, role, actor.username))
      ensures durable.None? ==> match RoleDecision(old(mem.UsersView()), id, role, actor.username)
        case RoleRefused(_) =>
          mem.UsersView() == old(mem.UsersView()) && mem.LogsView() == old(mem.LogsView())
        case RoleUnchanged(_) =>
          mem.UsersView() == old(mem.UsersView()) && mem.LogsView() == old(mem.LogsView())
        case RoleApplied(i) =>
          && mem.UsersView() == WithRole(old(mem.UsersView()), i, role)
          && mem.LogsView() == [AuditEntry(stamp, actor.username, UpdateRole, old(mem.UsersView())[i].username,
                                           RoleChangedDetails(role))] + old(mem.LogsView())
      ensures fallbackWarned == (old(fallbackWarned) || (escapes && !c.env.production))
      ensures fallbackWarnings == old(fallbackWarnings) + (if escapes && !c.env.production && !old(fallbackWarned) then 1 else 0)
      ensures !escapes ==>
        db.Stepped(old(db.gate.State()), old(db.seedCached), old(db.seedRuns), old(db.queryWarned), old(db.queryWarnings),
                   c, durable.None?)
    {
      var answer := UpdateUserRoleFromDb(id, role, actor, stamp, c, escapes);
      durable := answer;
      if answer.Some? {
        r := answer.value;
      } else {
        r := RoleInMemory(id, role, actor, stamp);
      }
    }

    /** The database half of `updateUserRole`: the backend's answer, or `None` when the backend
        is unavailable or its exception escapes (and is reported). */
    method UpdateUserRoleFromDb(id: string, role: Role, actor: SessionUser, stamp: Stamp, c: Conditions, escapes: bool)
      returns (answer: Option<Result<PublicUser>>)
      requires Valid()
      modifies this, db, db.gate
      ensures Valid()
      ensures escapes ==> answer.None? && db.Contents() == old(db.Contents())
      ensures !escapes ==>
        Served(Opens(old(db.gate.client), old(db.gate.unavailable), c), old(db.Contents()), old(db.seedCached),
               c.fault, (t: Tables) => RoleRun(t, id, role, actor, stamp, c.fault), db.Contents(), db.seedCached, answer)
      ensures fallbackWarned == (old(fallbackWarned) || (escapes && !c.env.production))
      ensures fallbackWarnings == old(fallbackWarnings) + (if escapes && !c.env.production && !old(fallbackWarned) then 1 else 0)
      ensures !escapes ==>
        db.Stepped(old(db.gate.State()), old(db.seedCached), old(db.seedRuns), old(db.queryWarned), old(db.queryWarnings),
                   c, answer.None?)
    {
      if escapes {
        WarnDataFallback(c.env.production);
        answer := None;
      } else {
        answer := db.UpdateUserRoleDb(id, role, actor, stamp, c);
      }
    }

    /** `deleteUserAccount`. */
    method DeleteUserAccount(id: string, actor: SessionUser, stamp: Stamp, c: Conditions, escapes: bool)
      returns (r: Result<()>, ghost durable: Option<Result<()>>)
      requires Valid()
      modifies this, mem, db, db.gate
      ensures Valid()
      ensures escapes ==> durable.None? && db.Contents() == old(db.Contents())
      ensures !escapes ==>
        Served(Opens(old(db.gate.client), old(db.gate.unavailable), c), old(db.Contents()), old(db.seedCached),
               c.fault, (t: Tables) => DeleteRun(t, id, actor, stamp, c.fault), db.Contents(), db.seedCached, durable)
      ensures durable.Some? ==> r == durable.value && mem.UsersView() == old(mem.UsersView()) && mem.LogsView() == old(mem.LogsView())
      ensures durable.None? ==> r == DeleteOutcome(old(mem.UsersView()), id, actor.username)
      ensures durable.None? ==> mem.UsersView() == Apply(old(mem.UsersView()), Remove(id, actor.username))
      ensures durable.None? ==> match DeleteDecision(old(mem.UsersView()), id, actor.username)
        case DeleteRefused(_) =>
          mem.UsersView() == old(mem.UsersView()) && mem.LogsView() == old(mem.LogsView())
        case DeleteApproved(i) =>
          var u := old(mem.UsersView())[i];
          && mem.UsersView() == Without(old(mem.UsersView()), i)
          && mem.LogsView() == [AuditEntry(stamp, actor.username, DeleteUser, u.username, DeletedDetails(u.role))]
                               + old(mem.LogsView())
      ensures fallbackWarned == (old(fallbackWarned) || (escapes && !c.env.production))
      ensures fallbackWarnings == old(fallbackWarnings) + (if escapes && !c.env.production && !old(fallbackWarned) then 1 else 0)
      ensures !escapes ==>
        db.Stepped(old(db.gate.State()), old(db.seedCached), old(db.seedRuns), old(db.queryWarned), old(db.queryWarnings),
                   c, durable.None?)
    {
      var answer := DeleteUserAccountFromDb(id, actor, stamp, c, escapes);
      durable := answer;
      if answer.Some? {
        r := answer.value;
      } else {
        r := DeleteInMemory(id, actor, stamp);
      }
    }

    /** The database half of `deleteUserAccount`: the backend's answer, or `None` when the backend
        is unavailable or its exception escapes (and is reported). */
    method DeleteUserAccountFromDb(id: string, actor: SessionUser, stamp: Stamp, c: Conditions, escapes: bool)
      returns (answer: Option<Result<()>>)
      requires Valid()
      modifies this, db, db.gate
      ensures Valid()
      ensures escapes ==> answer.None? && db.Contents() == old(db.Contents())
      ensures !escapes ==>
        Served(Opens(old(db.gate.client), old(db.gate.unavailable), c), old(db.Contents()), old(db.seedCached),
               c.fault, (t: Tables) => DeleteRun(t, id, actor, stamp, c.fault), db.Contents(), db.seedCached, answer)
      ensures fallbackWarned == (old(fallbackWarned) || (escapes && !c.env.production))
      ensures fallbackWarnings == old(fallbackWarnings) + (if escapes && !c.env.production && !old(fallbackWarned) then 1 else 0)
      ensures !escapes ==>
        db.Stepped(old(db.gate.State()), old(db.seedCached), old(db.seedRuns), old(db.queryWarned), old(db.queryWarnings),
                   c, answer.None?)
    {
      if escapes {
        WarnDataFallback(c.env.production);
        answer := None;
      } else {
        answer := db.DeleteUserAccountDb(id, actor, stamp, c);
      }
    }

    /** The in-memory answer to a role change. */
    method RoleInMemory(id: string, role: Role, actor: SessionUser, stamp: Stamp) returns (r: Result<PublicUser>)
      requires Valid()
      modifies mem
      ensures Valid()
      ensures r == RoleOutcome(old(mem.UsersView()), id, role, actor.username)
      ensures mem.UsersView() == Apply(old(mem.UsersView()), SetRole(id, role, actor.username))
      ensures match RoleDecision(old(mem.UsersView()), id, role, actor.username)
        case RoleRefused(_) =>
          mem.UsersView() == old(mem.UsersView()) && mem.LogsView() == old(mem.LogsView())
        case RoleUnchanged(_) =>
          mem.UsersView() == old(mem.UsersView()) && mem.LogsView() == old(mem.LogsView())
        case RoleApplied(i) =>
          && mem.UsersView() == WithRole(old(mem.UsersView()), i, role)
          && mem.LogsView() == [AuditEntry(stamp, actor.username, UpdateRole, old(mem.UsersView())[i].username,
                                           RoleChangedDetails(role))] + old(mem.LogsView())
    {
      r := mem.UpdateUserRole(id, role, actor, stamp);
      assert unchanged(this, db, db.gate);
    }

    /** The in-memory answer to a delete request. */
    method DeleteInMemory(id: string, actor: SessionUser, stamp: Stamp) returns (r: Result<()>)
      requires Valid()
      modifies mem
      ensures Valid()
      ensures r == DeleteOutcome(old(mem.UsersView()), id, actor.username)
      ensures mem.UsersView() == Apply(old(mem.UsersView()), Remove(id, actor.username))
      ensures match DeleteDecision(old(mem.UsersView()), id, actor.username)
        case DeleteRefused(_) =>
          mem.UsersView() == old(mem.UsersView()) && mem.LogsView() == old(mem.LogsView())
        case DeleteApproved(i) =>
          var u := old(mem.UsersView())[i];
          && mem.UsersView() == Without(old(mem.UsersView()), i)
          && mem.LogsView() == [AuditEntry(stamp, actor.username, DeleteUser, u.username, DeletedDetails(u.role))]
                               + old(mem.LogsView())
    {
      r := mem.DeleteUserAccount(id, actor, stamp);
      assert unchanged(this, db, db.gate);
    }
  }
}
