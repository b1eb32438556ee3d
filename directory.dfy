/** The account-safety policy that both directory backends enforce, written once as
    decision functions over the list of stored accounts: who may log in, what a new
    account looks like, and when a role change or a deletion is refused. The
    in-memory store (module Store) and the database adapter (module PrismaStore) are
    each proved to reach exactly these decisions. */
module Directory {
  import opened Types
  import opened Text

  // ---------------------------------------------------------------------------
  // Lookup and counting over the account list

  /** The first index whose element satisfies `p` (`find` / `findIndex`). */
  function FindFirst<T>(s: seq<T>, p: T -> bool): (r: Option<nat>)
    ensures r.Some? ==> r.value < |s| && p(s[r.value])
    ensures r.Some? ==> forall j :: 0 <= j < r.value ==> !p(s[j])
    ensures r.None? ==> forall j :: 0 <= j < |s| ==> !p(s[j])
  {
    if s == [] then None
    else if p(s[0]) then Some(0)
    else match FindFirst(s[1..], p)
      case None => None
      case Some(k) => Some(k + 1)
  }

  /** `users.find(u => u.id === id)`, as an index. */
  function IndexOfId(users: seq<StoredUser>, id: string): (r: Option<nat>)
    ensures r.Some? ==> r.value < |users| && users[r.value].id == id
    ensures r.Some? ==> forall j :: 0 <= j < r.value ==> users[j].id != id
    ensures r.None? ==> forall j :: 0 <= j < |users| ==> users[j].id != id
  {
    FindFirst(users, (u: StoredUser) => u.id == id)
  }

  /** `users.find(u => u.username === username)`, as an index. */
  function IndexOfUsername(users: seq<StoredUser>, username: string): (r: Option<nat>)
    ensures r.Some? ==> r.value < |users| && users[r.value].username == username
    ensures r.Some? ==> forall j :: 0 <= j < r.value ==> users[j].username != username
    ensures r.None? ==> forall j :: 0 <= j < |users| ==> users[j].username != username
  {
    FindFirst(users, (u: StoredUser) => u.username == username)
  }

  /** `users.filter(u => u.role === role).length`: none counted exactly when no account
      has the role, all counted exactly when every account has it. */
  function CountRole(users: seq<StoredUser>, role: Role): (n: nat)
    ensures n <= |users|
    ensures n == 0 <==> forall i :: 0 <= i < |users| ==> users[i].role != role
    ensures n == |users| <==> forall i :: 0 <= i < |users| ==> users[i].role == role
  {
    if users == [] then 0
    else (if users[0].role == role then 1 else 0) + CountRole(users[1..], role)
  }

  lemma {:induction false} CountRoleConcat(a: seq<StoredUser>, b: seq<StoredUser>, role: Role)
    ensures CountRole(a + b, role) == CountRole(a, role) + CountRole(b, role)
  {
    if a == [] {
      assert a + b == b;
    } else {
      assert (a + b)[1..] == a[1..] + b;
      CountRoleConcat(a[1..], b, role);
    }
  }

  /** Every account is either an administrator or staff: the two counts add up. */
  lemma {:induction false} CountRolesPartition(users: seq<StoredUser>)
    ensures CountRole(users, Admin) + CountRole(users, Staff) == |users|
  {
    if users != [] {
      CountRolesPartition(users[1..]);
    }
  }

  /** Splitting the list around position `i`. */
  lemma CountRoleAround(users: seq<StoredUser>, i: nat, role: Role)
    requires i < |users|
    ensures CountRole(users, role)
         == CountRole(users[..i], role) + (if users[i].role == role then 1 else 0)
            + CountRole(users[i + 1..], role)
  {
    assert users == users[..i] + ([users[i]] + users[i + 1..]);
    CountRoleConcat(users[..i], [users[i]] + users[i + 1..], role);
    CountRoleConcat([users[i]], users[i + 1..], role);
  }

  /** An account holding a role makes that role's count positive. */
  lemma CountRolePositive(users: seq<StoredUser>, i: nat)
    requires i < |users|
    ensures CountRole(users, users[i].role) >= 1
  {
    CountRoleAround(users, i, users[i].role);
  }

  /** `getUserByUsername`: the public view of the account with this username, if any. */
  function Lookup(users: seq<StoredUser>, username: string): (r: Option<PublicUser>)
    ensures r.None? <==> forall j :: 0 <= j < |users| ==> users[j].username != username
    ensures r.Some? ==> r.value.username == username
    ensures r.Some? ==> exists j :: 0 <= j < |users| && r.value == Sanitize(users[j])
  {
    match IndexOfUsername(users, username)
    case None => None
    case Some(i) => Some(Sanitize(users[i]))
  }

  /** `users.map(sanitizeUser)` (and `toPublicUser` in the database): every account's
      public view, in list order. */
  function PublicUsers(users: seq<StoredUser>): (r: seq<PublicUser>)
    ensures |r| == |users| && forall i :: 0 <= i < |users| ==> r[i] == Sanitize(users[i])
  {
    if users == [] then [] else [Sanitize(users[0])] + PublicUsers(users[1..])
  }

  /** `getDashboardSummary`: the account counts, per role, and the number of audit events. */
  function Summary(users: seq<StoredUser>, logs: seq<LogEntry>): (r: DashboardSummary)
    ensures r.totalUsers == |users| && r.logEntries == |logs|
    ensures r.adminUsers + r.staffUsers == r.totalUsers
    ensures r.adminUsers == CountRole(users, Admin)
  {
    CountRolesPartition(users);
    DashboardSummary(|users|, CountRole(users, Admin), CountRole(users, Staff), |logs|)
  }

  /** The accounts at positions `i` and `j` have different usernames. */
  ghost predicate NamesDiffer(users: seq<StoredUser>, i: nat, j: nat) {
    i < |users| && j < |users| && users[i].username != users[j].username
  }

  /** No two accounts share a username. */
  ghost predicate UsernamesUnique(users: seq<StoredUser>) {
    forall i: nat, j: nat :: i < j < |users| ==> NamesDiffer(users, i, j)
  }

  /** The state invariant of the directory: an administrator exists and usernames are unique. */
  ghost predicate Safe(users: seq<StoredUser>) {
    CountRole(users, Admin) >= 1 && UsernamesUnique(users)
  }

  // ---------------------------------------------------------------------------
  // Effects on the account list

  /** `user.role = role` on the account at `i`. */
  function WithRole(users: seq<StoredUser>, i: nat, role: Role): (r: seq<StoredUser>)
    requires i < |users|
    ensures |r| == |users| && r[i] == users[i].(role := role)
    ensures forall j :: 0 <= j < |users| && j != i ==> r[j] == users[j]
  {
    users[i := users[i].(role := role)]
  }

  /** `user.lastLoginAt = at` on the account at `i`. */
  function WithLogin(users: seq<StoredUser>, i: nat, at: Timestamp): (r: seq<StoredUser>)
    requires i < |users|
    ensures |r| == |users| && r[i] == users[i].(lastLoginAt := Some(at))
    ensures forall j :: 0 <= j < |users| && j != i ==> r[j] == users[j]
  {
    users[i := users[i].(lastLoginAt := Some(at))]
  }

  /** `users.splice(i, 1)`: the others stay, in their order. */
  function Without(users: seq<StoredUser>, i: nat): (r: seq<StoredUser>)
    requires i < |users|
    ensures |r| == |users| - 1
    ensures forall j :: 0 <= j < i ==> r[j] == users[j]
    ensures forall j :: i <= j < |r| ==> r[j] == users[j + 1]
  {
    users[..i] + users[i + 1..]
  }

  lemma WithRoleKeepsUsernames(users: seq<StoredUser>, i: nat, role: Role)
    requires i < |users| && UsernamesUnique(users)
    ensures UsernamesUnique(WithRole(users, i, role))
  {
    var r := WithRole(users, i, role);
    forall a: nat, b: nat | a < b < |r| ensures NamesDiffer(r, a, b) {
      assert NamesDiffer(users, a, b);
    }
  }

  lemma WithLoginKeepsSafe(users: seq<StoredUser>, i: nat, at: Timestamp)
    requires i < |users| && Safe(users)
    ensures Safe(WithLogin(users, i, at))
  {
    var r := WithLogin(users, i, at);
    forall a: nat, b: nat | a < b < |r| ensures NamesDiffer(r, a, b) {
      assert NamesDiffer(users, a, b);
    }
    CountRoleAround(users, i, Admin);
    CountRoleAround(r, i, Admin);
    assert r[..i] == users[..i] && r[i + 1..] == users[i + 1..];
  }

  lemma WithoutKeepsUsernames(users: seq<StoredUser>, i: nat)
    requires i < |users| && UsernamesUnique(users)
    ensures UsernamesUnique(Without(users, i))
  {
    var r := Without(users, i);
    forall a: nat, b: nat | a < b < |r| ensures NamesDiffer(r, a, b) {
      var a' := if a < i then a else a + 1;
      var b' := if b < i then b else b + 1;
      assert r[a] == users[a'] && r[b] == users[b'] && NamesDiffer(users, a', b');
    }
  }

  // ---------------------------------------------------------------------------
  // Seed data (lib/store.ts:34-80, lib/prisma-store.ts:71-117)

  const SeedCreatedAt: Timestamp := "2026-02-20T09:00:00.000Z"

  function SeedUsers(): seq<StoredUser> {
    [ StoredUser("u_admin_001", "admin", "Regional Admin", Admin, Active, SeedCreatedAt,
                 Some("2026-02-24T08:15:00.000Z"), "admin123"),
      StoredUser("u_staff_001", "staff", "Support Staff", Staff, Active, SeedCreatedAt,
                 Some("2026-02-23T14:42:00.000Z"), "staff123") ]
  }

  function SeedLogs(): seq<LogEntry> {
    [ LogEntry("log_seed_001", "system", CreateUser, Some("admin"), "2026-02-20T09:00:00.000Z",
               "Initial administrator account seeded for demo environment."),
      LogEntry("log_seed_002", "system", CreateUser, Some("staff"), "2026-02-20T09:01:00.000Z",
               "Initial staff account seeded for demo environment.") ]
  }

  /** The seed holds exactly one administrator (`admin`) and one staff account
      (`staff`), with distinct usernames, and two audit events. */
  lemma SeedIsSafe()
    ensures |SeedUsers()| == 2 && |SeedLogs()| == 2
    ensures SeedUsers()[0].username == "admin" && SeedUsers()[0].role == Admin
    ensures SeedUsers()[1].username == "staff" && SeedUsers()[1].role == Staff
    ensures CountRole(SeedUsers(), Admin) == 1 && Safe(SeedUsers())
  {
    var s := SeedUsers();
    assert s[1..][1..] == [];
    assert s[0].username[0] != s[1].username[0];
  }

  // ---------------------------------------------------------------------------
  // Audit events

  /** The entry `appendLog` builds from its input and the environment's stamp. */
  function AuditEntry(stamp: Stamp, user: string, action: Action, target: string, details: string): LogEntry {
    LogEntry(stamp.id, user, action, Some(target), stamp.at, details)
  }

  /** The details of a successful login; `flow` is "mock" in memory, "Prisma" in the database. */
  function LoginDetails(role: Role, flow: string): string {
    RoleText(role) + " user authenticated through " + flow + " session flow."
  }

  const LogoutDetails: string := "User ended session."

  function CreatedDetails(role: Role): string {
    "Created " + RoleText(role) + " account."
  }

  function RoleChangedDetails(role: Role): string {
    "Role changed to " + RoleText(role) + "."
  }

  function DeletedDetails(role: Role): string {
    "Deleted " + RoleText(role) + " account."
  }

  // ---------------------------------------------------------------------------
  // Authentication (lib/store.ts:171-203, lib/prisma-store.ts:218-262)

  /** Which account a login succeeds for, or why it fails. */
  function LoginDecision(users: seq<StoredUser>, username: string, password: string): (r: Result<nat>)
    ensures r.Ok? ==> r.value < |users| && users[r.value].username == username
    ensures r.Ok? ==> users[r.value].password == password && users[r.value].status == Active
    ensures r.Err? ==> r.error == InvalidCredentials || r.error == AccountNotActive
  {
    match IndexOfUsername(users, username)
    case None => Err(InvalidCredentials)
    case Some(i) =>
      if users[i].password != password then Err(InvalidCredentials)
      else if users[i].status != Active then Err(AccountNotActive)
      else Ok(i)
  }

  /** An unknown username or a wrong password is refused as "Invalid credentials"
      whatever the account's status, so the status check never reveals that an
      account exists; only the right password on a disabled account reads "not active". */
  lemma LoginChecksCredentialsFirst(users: seq<StoredUser>, username: string, password: string)
    requires UsernamesUnique(users)
    ensures LoginDecision(users, username, password) == Err(InvalidCredentials)
        <==> forall j :: 0 <= j < |users| && users[j].username == username ==> users[j].password != password
    ensures LoginDecision(users, username, password) == Err(AccountNotActive)
        <==> exists j :: 0 <= j < |users| && users[j].username == username
                      && users[j].password == password && users[j].status != Active
  {
    match IndexOfUsername(users, username)
    case None =>
    case Some(i) =>
      forall j | 0 <= j < |users| && j != i ensures users[j].username != username {
        if j < i {
          assert NamesDiffer(users, j, i);
        } else {
          assert NamesDiffer(users, i, j);
        }
      }
  }

  /** What a login returns: the session identity of the account, never its credential. */
  function LoginOutcome(users: seq<StoredUser>, username: string, password: string): (r: Result<SessionUser>)
    ensures r.Ok? <==> LoginDecision(users, username, password).Ok?
    ensures r.Ok? ==> exists j :: 0 <= j < |users| && r.value == SessionOf(users[j])
                                 && users[j].password == password && users[j].status == Active
    ensures r.Ok? ==> r.value.username == username
    ensures r.Err? ==> r.error == LoginDecision(users, username, password).error
  {
    match LoginDecision(users, username, password)
    case Err(e) => Err(e)
    case Ok(i) => Ok(SessionOf(users[i]))
  }

  // ---------------------------------------------------------------------------
  // Account creation (lib/store.ts:214-257, lib/prisma-store.ts:277-319)

  /** The fields a create request carries. */
  datatype AccountInput = AccountInput(username: string, name: string, password: string, role: Role)

  /** The account a create request describes, after normalisation. */
  datatype NewAccount = NewAccount(username: string, name: string, password: string, role: Role)

  /** `username.trim().toLowerCase()`. */
  function NormalizeUsername(s: string): string {
    Lower(Trim(s))
  }

  /** Normalising a normalised username changes nothing, so a stored username is
      found again by any spelling that normalises to it. */
  lemma NormalizeUsernameIdempotent(s: string)
    ensures NormalizeUsername(NormalizeUsername(s)) == NormalizeUsername(s)
  {
    var t := Trim(s);
    LowerCommutesWithTrim(t);
    TrimIdempotent(s);
    LowerIdempotent(t);
  }

  function Normalized(input: AccountInput): NewAccount {
    NewAccount(NormalizeUsername(input.username), Trim(input.name), Trim(input.password), input.role)
  }

  /** Whether a create request is accepted, and with which normalised fields. */
  function CreateDecision(users: seq<StoredUser>, input: AccountInput): (r: Result<NewAccount>)
    ensures r.Ok? ==> r.value == Normalized(input)
    ensures r.Ok? ==> r.value.username != "" && r.value.name != "" && r.value.password != ""
    ensures r.Ok? ==> forall j :: 0 <= j < |users| ==> users[j].username != r.value.username
    ensures r.Err? ==> r.error == MissingFields || r.error == UsernameTaken
  {
    var n := Normalized(input);
    if n.username == "" || n.name == "" || n.password == "" then Err(MissingFields)
    else if IndexOfUsername(users, n.username).Some? then Err(UsernameTaken)
    else Ok(n)
  }

  /** A create request is refused for blanks exactly when a trimmed field is empty,
      and as a duplicate exactly when it has no blanks and its normalised username is
      already taken. */
  lemma CreateDecisionExact(users: seq<StoredUser>, input: AccountInput)
    ensures CreateDecision(users, input) == Err(MissingFields) <==>
      Trim(input.username) == "" || Trim(input.name) == "" || Trim(input.password) == ""
    ensures CreateDecision(users, input) == Err(UsernameTaken) <==>
      && CreateDecision(users, input) != Err(MissingFields)
      && exists j :: 0 <= j < |users| && users[j].username == NormalizeUsername(input.username)
  {
    var t := Trim(input.username);
    assert |Lower(t)| == |t|;
  }

  /** The stored form of a new account: active, never logged in. */
  function NewUser(n: NewAccount, stamp: Stamp): (u: StoredUser)
    ensures u.status == Active && u.lastLoginAt == None && u.id == stamp.id && u.createdAt == stamp.at
    ensures u.username == n.username && u.name == n.name && u.password == n.password && u.role == n.role
  {
    StoredUser(stamp.id, n.username, n.name, n.role, Active, stamp.at, None, n.password)
  }

  /** What a create request returns: the public view of the new account. */
  function CreateOutcome(users: seq<StoredUser>, input: AccountInput, stamp: Stamp): (r: Result<PublicUser>)
    ensures r.Err? <==> CreateDecision(users, input).Err?
    ensures r.Ok? ==> r.value.status == Active && r.value.lastLoginAt == None
    ensures r.Ok? ==> r.value.id == stamp.id && r.value.createdAt == stamp.at
    ensures r.Ok? ==> r.value.username == NormalizeUsername(input.username) && r.value.role == input.role
    ensures r.Ok? ==> r.value.name == Trim(input.name)
    ensures r.Ok? ==> forall j :: 0 <= j < |users| ==> users[j].username != r.value.username
    ensures r.Err? ==> r.error == CreateDecision(users, input).error
  {
    match CreateDecision(users, input)
    case Err(e) => Err(e)
    case Ok(n) => Ok(Sanitize(NewUser(n, stamp)))
  }

  /** An accepted creation keeps usernames unique. */
  lemma CreateKeepsUsernamesUnique(users: seq<StoredUser>, input: AccountInput, stamp: Stamp)
    requires UsernamesUnique(users) && CreateDecision(users, input).Ok?
    ensures UsernamesUnique(users + [NewUser(CreateDecision(users, input).value, stamp)])
  {
    var r := users + [NewUser(CreateDecision(users, input).value, stamp)];
    forall a: nat, b: nat | a < b < |r| ensures NamesDiffer(r, a, b) {
      if b < |users| {
        assert NamesDiffer(users, a, b);
      }
    }
  }

  // ---------------------------------------------------------------------------
  // Role change (lib/store.ts:259-296, lib/prisma-store.ts:321-362)

  datatype RoleVerdict =
    | RoleRefused(error: DirectoryError)
    | RoleUnchanged(index: nat)   // the account already has the role: success, no log
    | RoleApplied(index: nat)     // the role is changed and one UPDATE_ROLE event logged

  /** The checks in the source's order: not found, same role, self-demotion, last administrator. */
  function RoleDecision(users: seq<StoredUser>, id: string, role: Role, actor: string): (v: RoleVerdict)
    ensures !v.RoleRefused? ==> v.index < |users| && users[v.index].id == id
    ensures v.RoleRefused? ==> v.error in {UserNotFound, SelfDemotion, LastAdmin}
  {
    match IndexOfId(users, id)
    case None => RoleRefused(UserNotFound)
    case Some(i) =>
      if users[i].role == role then RoleUnchanged(i)
      else if users[i].username == actor && role != Admin then RoleRefused(SelfDemotion)
      else if role != Admin && users[i].role == Admin && CountRole(users, Admin) <= 1 then RoleRefused(LastAdmin)
      else RoleApplied(i)
  }

  /** What a role change returns: the account as it is afterwards. */
  function RoleOutcome(users: seq<StoredUser>, id: string, role: Role, actor: string): (r: Result<PublicUser>)
    ensures r.Ok? <==> !RoleDecision(users, id, role, actor).RoleRefused?
    ensures r.Ok? ==> r.value.id == id && r.value.role == role
    ensures r.Ok? ==> exists j :: 0 <= j < |users| && r.value == Sanitize(users[j].(role := role))
    ensures r.Err? ==> r.error == RoleDecision(users, id, role, actor).error
  {
    match RoleDecision(users, id, role, actor)
    case RoleRefused(e) => Err(e)
    case RoleUnchanged(i) => Ok(Sanitize(users[i]))
    case RoleApplied(i) => Ok(Sanitize(users[i].(role := role)))
  }

  /** When each verdict is given. Not found exactly when no account has the id;
      otherwise, for the first account with it: unchanged exactly when it already has
      the role; a self-demotion exactly when the role differs, the account is the
      actor's and the new role is not administrator; the last administrator exactly
      when the role differs, it is not the actor's, an administrator would become staff
      and there is at most one administrator; applied in every other case. */
  lemma RoleDecisionExact(users: seq<StoredUser>, id: string, role: Role, actor: string)
    ensures RoleDecision(users, id, role, actor) == RoleRefused(UserNotFound)
        <==> forall j :: 0 <= j < |users| ==> users[j].id != id
    ensures IndexOfId(users, id).Some? ==>
      var i := IndexOfId(users, id).value;
      var u := users[i];
      var v := RoleDecision(users, id, role, actor);
      && (v == RoleUnchanged(i) <==> u.role == role)
      && (v == RoleRefused(SelfDemotion) <==> u.role != role && u.username == actor && role != Admin)
      && (v == RoleRefused(LastAdmin) <==>
            u.role != role && u.username != actor && role != Admin && u.role == Admin && CountRole(users, Admin) <= 1)
      && (v == RoleApplied(i) <==>
            u.role != role && (role == Admin || (u.username != actor && (u.role != Admin || CountRole(users, Admin) > 1))))
  {
  }

  /** An approved role change never removes the last administrator. */
  lemma RoleChangeKeepsAnAdmin(users: seq<StoredUser>, id: string, role: Role, actor: string)
    requires CountRole(users, Admin) >= 1 && RoleDecision(users, id, role, actor).RoleApplied?
    ensures CountRole(WithRole(users, RoleDecision(users, id, role, actor).index, role), Admin) >= 1
  {
    var i := RoleDecision(users, id, role, actor).index;
    var r := WithRole(users, i, role);
    CountRoleAround(users, i, Admin);
    CountRoleAround(r, i, Admin);
    assert r[..i] == users[..i] && r[i + 1..] == users[i + 1..];
  }

  /** An approved role change never demotes the acting user (compared by username). */
  lemma RoleChangeSparesActor(users: seq<StoredUser>, id: string, role: Role, actor: string)
    requires RoleDecision(users, id, role, actor).RoleApplied?
    ensures users[RoleDecision(users, id, role, actor).index].username == actor ==> role == Admin
  {
  }

  /** The same-role check comes first: asking for the role an account already has
      succeeds without change even when the actor demotes itself or it is the last
      administrator. */
  lemma SameRoleCheckedFirst(users: seq<StoredUser>, id: string, role: Role, actor: string, i: nat)
    requires IndexOfId(users, id) == Some(i) && users[i].role == role
    ensures RoleDecision(users, id, role, actor) == RoleUnchanged(i)
  {
  }

  // ---------------------------------------------------------------------------
  // Deletion (lib/store.ts:298-332, lib/prisma-store.ts:364-400)

  datatype DeleteVerdict = DeleteRefused(error: DirectoryError) | DeleteApproved(index: nat)

  /** The checks in the source's order: not found, self-deletion, last administrator. */
  function DeleteDecision(users: seq<StoredUser>, id: string, actor: string): (v: DeleteVerdict)
    ensures v.DeleteApproved? ==> v.index < |users| && users[v.index].id == id
    ensures v.DeleteApproved? ==> users[v.index].username != actor
    ensures v.DeleteRefused? ==> v.error in {UserNotFound, SelfDeletion, LastAdmin}
  {
    match IndexOfId(users, id)
    case None => DeleteRefused(UserNotFound)
    case Some(i) =>
      if users[i].username == actor then DeleteRefused(SelfDeletion)
      else if users[i].role == Admin && CountRole(users, Admin) <= 1 then DeleteRefused(LastAdmin)
      else DeleteApproved(i)
  }

  /** When each verdict is given. Not found exactly when no account has the id;
      otherwise, for the first account with it: a self-deletion exactly when it is the
      actor's; the last administrator exactly when it is not the actor's, it is an
      administrator and there is at most one; approved in every other case. */
  lemma DeleteDecisionExact(users: seq<StoredUser>, id: string, actor: string)
    ensures DeleteDecision(users, id, actor) == DeleteRefused(UserNotFound)
        <==> forall j :: 0 <= j < |users| ==> users[j].id != id
    ensures IndexOfId(users, id).Some? ==>
      var i := IndexOfId(users, id).value;
      var u := users[i];
      var v := DeleteDecision(users, id, actor);
      && (v == DeleteRefused(SelfDeletion) <==> u.username == actor)
      && (v == DeleteRefused(LastAdmin) <==> u.username != actor && u.role == Admin && CountRole(users, Admin) <= 1)
      && (v == DeleteApproved(i) <==> u.username != actor && (u.role != Admin || CountRole(users, Admin) > 1))
  {
  }

  /** What a deletion returns. */
  function DeleteOutcome(users: seq<StoredUser>, id: string, actor: string): (r: Result<()>)
    ensures r.Ok? <==> DeleteDecision(users, id, actor).DeleteApproved?
    ensures r.Err? ==> r.error == DeleteDecision(users, id, actor).error
  {
    match DeleteDecision(users, id, actor)
    case DeleteRefused(e) => Err(e)
    case DeleteApproved(_) => Ok(())
  }

  /** An approved deletion never removes the last administrator. */
  lemma DeleteKeepsAnAdmin(users: seq<StoredUser>, id: string, actor: string)
    requires CountRole(users, Admin) >= 1 && DeleteDecision(users, id, actor).DeleteApproved?
    ensures CountRole(Without(users, DeleteDecision(users, id, actor).index), Admin) >= 1
  {
    var i := DeleteDecision(users, id, actor).index;
    CountRoleAround(users, i, Admin);
    CountRoleConcat(users[..i], users[i + 1..], Admin);
  }

  // ---------------------------------------------------------------------------
  // Sequences of administrative requests

  datatype Request =
    | Create(input: AccountInput, stamp: Stamp)
    | SetRole(id: string, role: Role, actor: string)
    | Remove(id: string, actor: string)

  /** The account list after one request, as either backend leaves it. */
  function Apply(users: seq<StoredUser>, req: Request): seq<StoredUser> {
    match req
    case Create(input, stamp) =>
      (match CreateDecision(users, input)
       case Ok(n) => users + [NewUser(n, stamp)]
       case Err(_) => users)
    case SetRole(id, role, actor) =>
      (match RoleDecision(users, id, role, actor)
       case RoleApplied(i) => WithRole(users, i, role)
       case _ => users)
    case Remove(id, actor) =>
      (match DeleteDecision(users, id, actor)
       case DeleteApproved(i) => Without(users, i)
       case _ => users)
  }

  /** The account list after a whole sequence of requests, in order. */
  function Replay(users: seq<StoredUser>, reqs: seq<Request>): seq<StoredUser>
    decreases |reqs|
  {
    if reqs == [] then users else Replay(Apply(users, reqs[0]), reqs[1..])
  }

  /** One request keeps the directory safe. */
  lemma ApplyKeepsSafe(users: seq<StoredUser>, req: Request)
    requires Safe(users)
    ensures Safe(Apply(users, req))
  {
    match req
    case Create(input, stamp) =>
      if CreateDecision(users, input).Ok? {
        CreateKeepsUsernamesUnique(users, input, stamp);
        CountRoleConcat(users, [NewUser(CreateDecision(users, input).value, stamp)], Admin);
      }
    case SetRole(id, role, actor) =>
      if RoleDecision(users, id, role, actor).RoleApplied? {
        RoleChangeKeepsAnAdmin(users, id, role, actor);
        WithRoleKeepsUsernames(users, RoleDecision(users, id, role, actor).index, role);
      }
    case Remove(id, actor) =>
      if DeleteDecision(users, id, actor).DeleteApproved? {
        DeleteKeepsAnAdmin(users, id, actor);
        WithoutKeepsUsernames(users, DeleteDecision(users, id, actor).index);
      }
  }

  /** No sequence of creations, role changes and deletions can leave the directory
      without an administrator or with two accounts of the same username. */
  lemma {:induction false} ReplayKeepsSafe(users: seq<StoredUser>, reqs: seq<Request>)
    requires Safe(users)
    ensures Safe(Replay(users, reqs))
    decreases |reqs|
  {
    if reqs != [] {
      ApplyKeepsSafe(users, reqs[0]);
      ReplayKeepsSafe(Apply(users, reqs[0]), reqs[1..]);
    }
  }
}
