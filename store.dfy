/** The in-memory account directory and audit log (lib/store.ts): one process-wide
    state, created with its seed on first access, whose account list and audit log
    the operations change in place. Each operation is proved to take exactly the
    decision module Directory prescribes and to leave the log prepended-to only. */
module Store {
  import opened Types
  import opened Text
  import opened Directory

  class MemoryStore {
    /** Whether the process-wide state (`globalThis.__rims_store__`) exists yet. */
    var seeded: bool
    /** The accounts, in creation order. */
    var users: seq<StoredUser>
    /** The audit log, newest first. */
    var logs: seq<LogEntry>

    /** The accounts as any access sees them: the seed before the first access. */
    ghost function UsersView(): seq<StoredUser>
      reads this
    {
      if seeded then users else SeedUsers()
    }

    /** The audit log as any access sees it. */
    ghost function LogsView(): seq<LogEntry>
      reads this
    {
      if seeded then logs else SeedLogs()
    }

    /** The store has an administrator and unique usernames at all times. */
    ghost predicate Valid()
      reads this
    {
      (!seeded ==> users == [] && logs == []) && Safe(UsersView())
    }

    /** A process that has not touched the store yet. */
    constructor ()
      ensures Valid() && !seeded
      ensures UsersView() == SeedUsers() && LogsView() == SeedLogs()
    {
      seeded, users, logs := false, [], [];
      SeedIsSafe();
    }

    /** `getState`: creates the seeded state on first access and reuses it afterwards. */
    method GetState()
      requires Valid()
      modifies this
      ensures Valid() && seeded
      ensures !old(seeded) ==> users == SeedUsers() && logs == SeedLogs()
      ensures old(seeded) ==> users == old(users) && logs == old(logs)
      ensures UsersView() == old(UsersView()) && LogsView() == old(LogsView())
    {
      if !seeded {
        users, logs := SeedUsers(), SeedLogs();
        seeded := true;
      }
    }

    /** `appendLog`: prepends one event built from the input and the stamp. */
    method AppendLog(user: string, action: Action, target: string, details: string, stamp: Stamp)
      returns (entry: LogEntry)
      requires Valid()
      modifies this
      ensures Valid() && seeded
      ensures entry == AuditEntry(stamp, user, action, target, details)
      ensures LogsView() == [entry] + old(LogsView())
      ensures UsersView() == old(UsersView())
    {
      GetState();
      entry := AuditEntry(stamp, user, action, target, details);
      logs := [entry] + logs;
    }

    /** `listUsers`: every account, in creation order, without credentials. */
    method ListUsers() returns (r: seq<PublicUser>)
      requires Valid()
      modifies this
      ensures Valid() && seeded
      ensures UsersView() == old(UsersView()) && LogsView() == old(LogsView())
      ensures r == PublicUsers(UsersView())
    {
      GetState();
      r := seq(|users|, i requires 0 <= i < |users| reads this => Sanitize(users[i]));
    }

    /** `listLogs`: a copy of the audit log, newest first. */
    method ListLogs() returns (r: seq<LogEntry>)
      requires Valid()
      modifies this
      ensures Valid() && seeded
      ensures UsersView() == old(UsersView()) && LogsView() == old(LogsView())
      ensures r == LogsView()
    {
      GetState();
      r := logs;
    }

    /** `getUserByUsername`: exact, case-sensitive match. */
    method GetUserByUsername(username: string) returns (r: Option<PublicUser>)
      requires Valid()
      modifies this
      ensures Valid() && seeded
      ensures UsersView() == old(UsersView()) && LogsView() == old(LogsView())
      ensures r == Lookup(UsersView(), username)
    {
      GetState();
      var found := IndexOfUsername(users, username);
      r := if found.Some? then Some(Sanitize(users[found.value])) else None;
    }

    /** `getDashboardSummary`. */
    method GetDashboardSummary() returns (r: DashboardSummary)
      requires Valid()
      modifies this
      ensures Valid() && seeded
      ensures UsersView() == old(UsersView()) && LogsView() == old(LogsView())
      ensures r == Summary(UsersView(), LogsView())
    {
      GetState();
      r := DashboardSummary(|users|, CountRole(users, Admin), CountRole(users, Staff), |logs|);
    }

    /** `authenticateUser`: on success stamps the login time, logs LOGIN_SUCCESS and
        returns the session identity; on failure changes nothing. */
    method AuthenticateUser(username: string, password: string, now: Timestamp, stamp: Stamp)
      returns (r: Result<SessionUser>)
      requires Valid()
      modifies this
      ensures Valid() && seeded
      ensures r == LoginOutcome(old(UsersView()), username, password)
      ensures match LoginDecision(old(UsersView()), username, password)
        case Err(_) =>
          UsersView() == old(UsersView()) && LogsView() == old(LogsView())
        case Ok(i) =>
          var u := old(UsersView())[i];
          && UsersView() == WithLogin(old(UsersView()), i, now)
          && LogsView() == [AuditEntry(stamp, u.username, LoginSuccess, u.username, LoginDetails(u.role, "mock"))]
                           + old(LogsView())
    {
      GetState();
      var found := IndexOfUsername(users, username);
      if found.None? || users[found.value].password != password {
        return Err(InvalidCredentials);
      }
      var i := found.value;
      if users[i].status != Active {
        return Err(AccountNotActive);
      }
      WithLoginKeepsSafe(users, i, now);
      users := WithLogin(users, i, now);
      var user := users[i];
      var _ := AppendLog(user.username, LoginSuccess, user.username, LoginDetails(user.role, "mock"), stamp);
      r := Ok(SessionOf(user));
    }

    /** `recordLogout`: logs one LOGOUT event for the session's user. */
    method RecordLogout(session: SessionUser, stamp: Stamp)
      requires Valid()
      modifies this
      ensures Valid() && seeded
      ensures UsersView() == old(UsersView())
      ensures LogsView() == [AuditEntry(stamp, session.username, Logout, session.username, LogoutDetails)]
                            + old(LogsView())
    {
      var _ := AppendLog(session.username, Logout, session.username, LogoutDetails, stamp);
    }

    /** `createUserAccount`: normalises the input, refuses blanks and duplicates,
        otherwise appends one active account and logs CREATE_USER. */
    method CreateUserAccount(input: AccountInput, actor: SessionUser, userStamp: Stamp, logStamp: Stamp)
      returns (r: Result<PublicUser>)
      requires Valid()
      modifies this
      ensures Valid() && seeded
      ensures UsersView() == Apply(old(UsersView()), Create(input, userStamp))
      ensures r == CreateOutcome(old(UsersView()), input, userStamp)
      ensures match CreateDecision(old(UsersView()), input)
        case Err(_) =>
          UsersView() == old(UsersView()) && LogsView() == old(LogsView())
        case Ok(n) =>
          && UsersView() == old(UsersView()) + [NewUser(n, userStamp)]
          && LogsView() == [AuditEntry(logStamp, actor.username, CreateUser, n.username, CreatedDetails(n.role))]
                           + old(LogsView())
    {
      GetState();

      var username := Lower(Trim(input.username));
      var name := Trim(input.name);
      var password := Trim(input.password);
      if username == "" || name == "" || password == "" {
        return Err(MissingFields);
      }
      if IndexOfUsername(users, username).Some? {
        return Err(UsernameTaken);
      }
      var newUser := StoredUser(userStamp.id, username, name, input.role, Active, userStamp.at, None, password);
      ApplyKeepsSafe(users, Create(input, userStamp));
      AddAccount(newUser);
      var _ := AppendLog(actor.username, CreateUser, newUser.username, CreatedDetails(newUser.role), logStamp);
      r := Ok(Sanitize(newUser));
    }

    /** Appends one account that keeps the directory safe. */
    method AddAccount(u: StoredUser)
      requires Valid() && seeded && Safe(users + [u])
      modifies this
      ensures Valid() && seeded
      ensures users == old(users) + [u] && logs == old(logs)
    {
      users := users + [u];
    }

    /** `updateUserRole`: not found, same role (success, no log), self-demotion and
        last administrator are checked in that order; otherwise only the target's role
        changes and one UPDATE_ROLE event is logged. */
    method UpdateUserRole(id: string, role: Role, actor: SessionUser, stamp: Stamp)
      returns (r: Result<PublicUser>)
      requires Valid()
      modifies this
      ensures Valid() && seeded
      ensures UsersView() == Apply(old(UsersView()), SetRole(id, role, actor.username))
      ensures r == RoleOutcome(old(UsersView()), id, role, actor.username)
      ensures match RoleDecision(old(UsersView()), id, role, actor.username)
        case RoleRefused(_) =>
          UsersView() == old(UsersView()) && LogsView() == old(LogsView())
        case RoleUnchanged(_) =>
          UsersView() == old(UsersView()) && LogsView() == old(LogsView())
        case RoleApplied(i) =>
          && UsersView() == WithRole(old(UsersView()), i, role)
          && LogsView() == [AuditEntry(stamp, actor.username, UpdateRole, old(UsersView())[i].username,
                                       RoleChangedDetails(role))] + old(LogsView())
    {
      GetState();
      ghost var verdict := RoleDecision(users, id, role, actor.username);
      var found := IndexOfId(users, id);
      if found.None? {
        return Err(UserNotFound);
      }
      var i := found.value;
      var user := users[i];
      if user.role == role {
        return Ok(Sanitize(user));
      }
      if user.username == actor.username && role != Admin {
        return Err(SelfDemotion);
      }
      if role != Admin {
        var adminCount := CountRole(users, Admin);
        if user.role == Admin && adminCount <= 1 {
          return Err(LastAdmin);
        }
      }
      assert verdict == RoleApplied(i);
      ApplyKeepsSafe(users, SetRole(id, role, actor.username));
      users := WithRole(users, i, role);
      var _ := AppendLog(actor.username, UpdateRole, user.username, RoleChangedDetails(role), stamp);
      r := Ok(Sanitize(users[i]));
    }

    /** `deleteUserAccount`: not found, self-deletion and last administrator are
        refused; otherwise exactly that account is removed, the others keep their
        order, and one DELETE_USER event is logged. */
    method DeleteUserAccount(id: string, actor: SessionUser, stamp: Stamp) returns (r: Result<()>)
      requires Valid()
      modifies this
      ensures Valid() && seeded
      ensures UsersView() == Apply(old(UsersView()), Remove(id, actor.username))
      ensures r == DeleteOutcome(old(UsersView()), id, actor.username)
      ensures match DeleteDecision(old(UsersView()), id, actor.username)
        case DeleteRefused(_) =>
          UsersView() == old(UsersView()) && LogsView() == old(LogsView())
        case DeleteApproved(i) =>
          var u := old(UsersView())[i];
          && UsersView() == Without(old(UsersView()), i)
          && LogsView() == [AuditEntry(stamp, actor.username, DeleteUser, u.username, DeletedDetails(u.role))]
                           + old(LogsView())
    {
      GetState();
      var found := IndexOfId(users, id);
      if found.None? {
        return Err(UserNotFound);
      }
      var index := found.value;
      var user := users[index];
      if user.username == actor.username {
        return Err(SelfDeletion);
      }
      if user.role == Admin {
        var adminCount := CountRole(users, Admin);
        if adminCount <= 1 {
          return Err(LastAdmin);
        }
      }
      ApplyKeepsSafe(users, Remove(id, actor.username));
      users := Without(users, index);
      var _ := AppendLog(actor.username, DeleteUser, user.username, DeletedDetails(user.role), stamp);
      r := Ok(());
    }
  }
}
