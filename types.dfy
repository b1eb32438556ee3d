/** The records the account directory and the audit log hold (lib/types.ts), the
    stored account with its credential (lib/store.ts), and the directory's error
    returns with the exact messages the source gives them. */
module Types {

  datatype Option<+T> = None | Some(value: T)

  /** `UserRole`. */
  datatype Role = Admin | Staff

  /** `UserStatus`. */
  datatype Status = Active | Disabled

  /** `ActivityAction`. */
  datatype Action = LoginSuccess | CreateUser | DeleteUser | UpdateRole | Logout

  /** Timestamps are canonical ISO-8601 strings (`Date.prototype.toISOString`). */
  type Timestamp = string

  /** The identity a session carries (`SessionUser`). */
  datatype SessionUser = SessionUser(id: string, username: string, name: string, role: Role)

  /** An account as the directory shows it (`PublicUser`): no credential. */
  datatype PublicUser = PublicUser(
    id: string, username: string, name: string, role: Role, status: Status,
    createdAt: Timestamp, lastLoginAt: Option<Timestamp>)

  /** An account as it is stored (`StoredUser` in memory, the `User` table in the database). */
  datatype StoredUser = StoredUser(
    id: string, username: string, name: string, role: Role, status: Status,
    createdAt: Timestamp, lastLoginAt: Option<Timestamp>, password: string)

  /** One audit event (`ActivityLogEntry`, the `ActivityLog` table). */
  datatype LogEntry = LogEntry(
    id: string, user: string, action: Action, target: Option<string>,
    timestamp: Timestamp, details: string)

  /** `DashboardSummary`. */
  datatype DashboardSummary = DashboardSummary(
    totalUsers: nat, adminUsers: nat, staffUsers: nat, logEntries: nat)

  /** The identifier and the time an environment supplies to one write: `createId`
      and `nowIso` in memory, the column defaults in the database. */
  datatype Stamp = Stamp(id: string, at: Timestamp)

  /** The error returns of the directory operations. */
  datatype DirectoryError =
    | InvalidCredentials
    | AccountNotActive
    | MissingFields
    | UsernameTaken
    | UserNotFound
    | SelfDemotion
    | LastAdmin
    | SelfDeletion

  /** A value, or the `{ error }` object the directory returns instead. */
  datatype Result<+T> = Ok(value: T) | Err(error: DirectoryError)

  /** The text of each error return (lib/store.ts, lib/prisma-store.ts). */
  function ErrorMessage(e: DirectoryError): (m: string)
    ensures m != ""
  {
    match e
    case InvalidCredentials => "Invalid credentials"
    case AccountNotActive => "Account is not active"
    case MissingFields => "Username, name, and password are required."
    case UsernameTaken => "Username already exists."
    case UserNotFound => "User not found."
    case SelfDemotion => "You cannot remove your own admin access in the demo."
    case LastAdmin => "At least one administrator must remain."
    case SelfDeletion => "You cannot delete your own account in the demo."
  }

  /** The string literal of a role. */
  function RoleText(r: Role): string {
    match r
    case Admin => "ADMIN"
    case Staff => "STAFF"
  }

  /** The string literal of an action. */
  function ActionText(a: Action): string {
    match a
    case LoginSuccess => "LOGIN_SUCCESS"
    case CreateUser => "CREATE_USER"
    case DeleteUser => "DELETE_USER"
    case UpdateRole => "UPDATE_ROLE"
    case Logout => "LOGOUT"
  }

  /** `sanitizeUser` (and `toPublicUser`): the stored account without its credential. */
  function Sanitize(u: StoredUser): (p: PublicUser)
    ensures p.id == u.id && p.username == u.username && p.name == u.name
    ensures p.role == u.role && p.status == u.status
    ensures p.createdAt == u.createdAt && p.lastLoginAt == u.lastLoginAt
  {
    PublicUser(u.id, u.username, u.name, u.role, u.status, u.createdAt, u.lastLoginAt)
  }

  /** Two stored accounts that differ only in their credential look the same from
      outside: the projection never reveals the password. */
  lemma SanitizeHidesPassword(u: StoredUser, pw: string)
    ensures Sanitize(u.(password := pw)) == Sanitize(u)
  {
  }

  /** The session identity of an account. */
  function SessionOf(u: StoredUser): (s: SessionUser)
    ensures s.id == u.id && s.username == u.username && s.name == u.name && s.role == u.role
  {
    SessionUser(u.id, u.username, u.name, u.role)
  }
}
