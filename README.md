# Account directory and authorization core of the RIMS administration console

This project models the part of the console that decides who may do what to which
account, and what is recorded when they do. It proves properties of that model in
Dafny.

- **The account-safety policy** (module `Directory`). Both backends enforce it.
  - A login checks the credentials before the account status.
  - A new account is trimmed and its username lower-cased. A blank field is refused, and so is a taken username.
  - A role change checks, in this order: the account is not found, the account already has the role, the actor demotes itself, the change removes the last administrator.
  - A deletion is refused when the account is not found, when the actor deletes itself, and when it would remove the last administrator.
  - Each rule is a decision function over the account list. Two invariants are proved to survive every sequence of requests: an administrator exists, and usernames are unique.
- **The in-memory store** (module `Store`, class `MemoryStore`). This is `lib/store.ts`.
  - It holds one process-wide account list and audit log, seeded on first access.
  - Its operations change the state in place.
  - Each operation is proved to reach the policy's decision, to change exactly what the decision says, and to only prepend to the log.
- **The database backend** (module `PrismaStore`, class `DurableStore`). This is `lib/prisma-store.ts`.
  - The `User` and `ActivityLog` tables are sequences under their unique constraints.
  - The seed runs once per cached seed promise, and a failure clears the cache.
  - `null` (`undefined` for the username lookup) means the backend is unavailable.
  - The database's faults are a parameter.
  - Each callback is proved to answer as the in-memory store would from the same accounts.
  - The listings are proved sorted in the order the queries request.
- **The client gate** (module `Prisma`). This is `lib/prisma.ts`: the environment switch, plus a client that is built at most once and stays unavailable once it has failed to load.
- **The data layer** (module `Data`, class `DataLayer`). This is `lib/data.ts`.
  - Each wrapper serves the database's answer unless that answer is the unavailable sentinel. Then it serves the in-memory answer.
  - A policy refusal from the database is passed through.
  - An exception escaping the database backend is reported once per process and answered from memory.
- **The session cookie** (modules `Utf8`, `Base64Url`, `Json`, `Auth`). This is `lib/auth.ts`.
  - `JSON.stringify`, UTF-8 and unpadded base64url are written out, as are Node's lenient decoders and a JSON parser for the full grammar.
  - A cookie written for a session reads back as that session's claims.
  - The guards trust the directory's current record of the username, not the cookie's other claims.
- **The audit-log search** (module `LogsRoute`). This is `app/api/logs/route.ts`.
- **The page guard** (module `Middleware`). This is `middleware.ts`.

Shared pieces:
- `Types` holds the records.
- `Permissions` holds the role predicates.
- `Text` holds the string built-ins the source relies on.
- `Sorting` holds the reference sort that specifies `orderBy`.

Ids, timestamps, the environment, whether the client library loads, and database faults are all parameters. Each comes from outside the modelled code.

Where the code and the design description of the system disagree, the model follows the code:
- **Role-change order.** The role change checks "already has the role" first. A no-op request therefore succeeds even for a self-demotion, or for the last administrator (`Directory.SameRoleCheckedFirst`). The description checks it last.
- **The last-administrator rule.** It counts every `ADMIN` account, active or disabled. It does not count only active administrators.
- **The duplicate check.** It compares the normalised new username with the stored usernames exactly. It is case-insensitive only because stored usernames were lower-cased when they were created.
- **Audit-event failures in the database.** Account creation and role changes write the account, then the event, as two statements. If the event insert throws, the account change stays and the call answers `null`. The data layer then repeats the request in memory (`PrismaStore.CreateWriteShape`, `PrismaStore.RoleRunAgrees`). The description treats such a failure as harmless and not something to fall back on. Login and deletion use a transaction and are all-or-nothing (`PrismaStore.DeleteRunAgrees`).
- **The fallback warning.** The data layer warns only when a database call throws, not when it answers `null`.

## Model

| member | source | states |
|---|---|---|
| Types.Sanitize | lib/store.ts:90-100 | the public view carries every field of the account except the password, unchanged |
| Types.SanitizeHidesPassword | lib/store.ts:90-100 | two accounts that differ only in their password have the same public view |
| Types.SessionOf | lib/store.ts:195-202 | the session identity is the account's id, username, name and role |
| Permissions.IsAdmin | lib/permissions.ts:3-5 | true exactly for the ADMIN role |
| Permissions.RoleLabel | lib/permissions.ts:7-9 | ADMIN reads "Administrator", STAFF reads "Staff" |
| Permissions.RoleLabelFaithful | lib/permissions.ts:3-9 | different roles get different labels, and a role is ADMIN exactly when its label is "Administrator" |
| Text.TrimStart | lib/store.ts:224-226 | the result is the suffix of the input that starts at its first non-blank character; everything dropped is blank |
| Text.TrimEnd | lib/store.ts:224-226 | the result is the prefix of the input that ends at its last non-blank character; everything dropped is blank |
| Text.TrimIsCoreSlice | lib/store.ts:224-226 | the trimmed text is a contiguous slice of the input that neither starts nor ends with a blank, and it is empty exactly when the input is all blanks |
| Text.TrimIdempotent | lib/store.ts:224-226 | trimming twice is trimming once |
| Text.Lower | lib/store.ts:224 | lower-casing keeps the length and maps each character on its own |
| Text.LowerIdempotent | lib/store.ts:224 | no capital letter is left, so lower-casing twice is lower-casing once |
| Text.LowerCommutesWithTrim | app/api/logs/route.ts:12 | trimming then lower-casing equals lower-casing then trimming |
| Text.ContainsAt | app/api/logs/route.ts:28 | `includes` holds exactly when the needle occurs at some position of the haystack |
| Text.ContainsEmpty | app/api/logs/route.ts:28 | the empty needle occurs in every text |
| Text.LexLeqTotal | lib/prisma-store.ts:164 | the text order compares any two strings, and in both directions only when they are equal |
| Text.LexLeqTransitive | lib/prisma-store.ts:173 | the text order is transitive |
| Directory.FindFirst | lib/store.ts:131 | `find` gives the first position that satisfies the predicate, or none when no position does |
| Directory.IndexOfId | lib/store.ts:265 | the first account with the id, or none when no account has it |
| Directory.IndexOfUsername | lib/store.ts:176 | the first account with the username, or none when no account has it |
| Directory.CountRole | lib/store.ts:280 | no account is counted exactly when none has the role, and every account exactly when all have it |
| Directory.CountRoleConcat | lib/store.ts:280 | the role count of two lists put together is the sum of their counts |
| Directory.CountRolesPartition | lib/store.ts:137-138 | the administrator count and the staff count add up to the number of accounts |
| Directory.Lookup | lib/store.ts:130-133 | none exactly when no account has the username; otherwise the public view of an account with that username |
| Directory.PublicUsers | lib/store.ts:122-124 | one public view per account, in list order |
| Directory.Summary | lib/store.ts:135-146 | the totals are the list lengths, the administrator count is the ADMIN count, and the two role counts add up to the total |
| Directory.WithRole | lib/store.ts:286 | only the account at the position changes, and only its role |
| Directory.WithLogin | lib/store.ts:186 | only the account at the position changes, and only its last-login time |
| Directory.Without | lib/store.ts:322 | exactly the account at the position is removed, and the others keep their order |
| Directory.WithRoleKeepsUsernames | lib/store.ts:286 | a role change keeps usernames unique |
| Directory.WithLoginKeepsSafe | lib/store.ts:186 | stamping a login keeps an administrator and unique usernames |
| Directory.WithoutKeepsUsernames | lib/store.ts:322 | removing an account keeps usernames unique |
| Directory.SeedIsSafe | lib/store.ts:34-80 | the seed is one ADMIN `admin` and one STAFF `staff` with distinct usernames, plus two audit events |
| Directory.LoginDecision | lib/store.ts:175-184 | a login succeeds only for the account with the username, the same password and ACTIVE status, and fails only as invalid credentials or an inactive account |
| Directory.LoginChecksCredentialsFirst | lib/store.ts:176-184 | with unique usernames: "Invalid credentials" exactly when no account has both the username and the password; "not active" exactly when the one that has them is not ACTIVE |
| Directory.LoginOutcome | lib/store.ts:195-202 | a successful login returns the session identity of an active account with that username and password, and no credential; a refusal carries the decision's error |
| Directory.NormalizeUsernameIdempotent | lib/store.ts:224 | normalising a normalised username changes nothing |
| Directory.CreateDecision | lib/store.ts:224-234 | an accepted request has non-empty normalised fields and a username no account has; a refusal is a missing field or a taken username |
| Directory.CreateDecisionExact | lib/store.ts:228-234 | refused as missing fields exactly when a trimmed field is empty; refused as taken exactly when nothing is missing and an account has the normalised username |
| Directory.NewUser | lib/store.ts:236-245 | a new account is ACTIVE, has never logged in, and takes its id and creation time from the environment and its other fields from the request |
| Directory.CreateOutcome | lib/store.ts:236-256 | a successful create returns an ACTIVE, never-logged-in account with the normalised username and the requested role, the trimmed name, and no existing account has that username; a refusal carries the decision's error |
| Directory.CreateKeepsUsernamesUnique | lib/store.ts:232-247 | appending an accepted account keeps usernames unique |
| Directory.RoleDecision | lib/store.ts:264-284 | anything but a refusal names the account with the id; a refusal is not-found, self-demotion or last-administrator |
| Directory.RoleDecisionExact | lib/store.ts:264-284 | not found exactly when no account has the id; otherwise unchanged exactly when the account already has the role, a self-demotion exactly when the role differs on the actor's own account and is not administrator, the last administrator exactly when an administrator other than the actor would become staff while at most one administrator exists, and applied in every other case |
| Directory.RoleOutcome | lib/store.ts:271-295 | success exactly when the decision is not a refusal; the account returned has the id and the requested role; a refusal carries the decision's error |
| Directory.RoleChangeKeepsAnAdmin | lib/store.ts:279-286 | an approved role change leaves at least one administrator |
| Directory.RoleChangeSparesActor | lib/store.ts:275-277 | an approved change of the actor's own account only ever makes it ADMIN |
| Directory.SameRoleCheckedFirst | lib/store.ts:271-273 | asking for the role an account already has succeeds unchanged, whoever asks and whatever the admin count |
| Directory.DeleteDecisionExact | lib/store.ts:303-320 | not found exactly when no account has the id; otherwise a self-deletion exactly when the account is the actor's, the last administrator exactly when it is not the actor's, is an administrator and is the only one, and approved in every other case |
| Directory.DeleteDecision | lib/store.ts:303-320 | an approved deletion names the account with the id, which is not the actor's own; a refusal is not-found, self-deletion or last-administrator |
| Directory.DeleteOutcome | lib/store.ts:303-331 | success exactly when the deletion is approved; otherwise the decision's error |
| Directory.DeleteKeepsAnAdmin | lib/store.ts:315-322 | an approved deletion leaves at least one administrator |
| Directory.ApplyKeepsSafe | lib/store.ts:214-332 | any single create, role change or deletion keeps an administrator and unique usernames |
| Directory.ReplayKeepsSafe | lib/store.ts:214-332 | no sequence of creates, role changes and deletions can remove the last administrator or duplicate a username |
| Store.MemoryStore.constructor | lib/store.ts:82-88 | before the first access, every operation sees the seed |
| Store.MemoryStore.GetState | lib/store.ts:82-88 | the first access installs the seed; later accesses reuse the state; either way the visible state does not change |
| Store.MemoryStore.AppendLog | lib/store.ts:102-120 | exactly one event, built from the input and the stamp, is put in front of the log; the accounts do not change |
| Store.MemoryStore.ListUsers | lib/store.ts:122-124 | the public view of every account, in creation order; nothing changes |
| Store.MemoryStore.ListLogs | lib/store.ts:126-128 | the whole log, newest first; nothing changes |
| Store.MemoryStore.GetUserByUsername | lib/store.ts:130-133 | the policy's lookup of the username; nothing changes |
| Store.MemoryStore.GetDashboardSummary | lib/store.ts:135-146 | the policy's summary of the current accounts and log; nothing changes |
| Store.MemoryStore.AuthenticateUser | lib/store.ts:171-203 | answers the policy's login outcome; on failure nothing changes; on success only the account's last-login time changes, and one LOGIN_SUCCESS event is prepended |
| Store.MemoryStore.RecordLogout | lib/store.ts:205-212 | one LOGOUT event for the session's user is prepended; the accounts do not change |
| Store.MemoryStore.CreateUserAccount | lib/store.ts:214-257 | answers the policy's create outcome; a refusal changes nothing; an acceptance appends exactly the new account and prepends one CREATE_USER event |
| Store.MemoryStore.AddAccount | lib/store.ts:247 | the account is pushed at the end of the list, and the store stays safe |
| Store.MemoryStore.UpdateUserRole | lib/store.ts:259-296 | answers the policy's role outcome; refusals and no-op requests change nothing; an applied change alters only the target's role and prepends one UPDATE_ROLE event |
| Store.MemoryStore.DeleteUserAccount | lib/store.ts:298-332 | answers the policy's delete outcome; a refusal changes nothing; an approval removes exactly the target, keeps the others' order, and prepends one DELETE_USER event |
| Sorting.SortBy | lib/prisma-store.ts:163-165 | the listing is a permutation of the rows |
| Sorting.InsertSorted | lib/prisma-store.ts:163-165 | inserting into a sorted listing keeps it sorted |
| Sorting.SortBySorted | lib/prisma-store.ts:172-174 | with a total comparison the listing is sorted |
| Prisma.EnabledExactly | lib/prisma.ts:12-18 | memory mode turns the database off whatever the URL; otherwise the database is on exactly when the URL is non-empty |
| Prisma.ClientGate.constructor | lib/prisma.ts:3-10 | a fresh process has no client, is not marked unavailable and has not warned |
| Prisma.ClientGate.GetPrismaClient | lib/prisma.ts:24-54 | a client comes back exactly when the database is on, not marked unavailable, and loaded or loadable; once unavailable it stays so; the client is built at most once and the warning printed at most once, never in production; the globals change exactly as `GateStep` says |
| Prisma.GateRunKeeps | lib/prisma.ts:24-54 | over any sequence of calls the globals stay consistent, so the client is built at most once and the warning printed at most once; an unavailable process and a held client are left exactly as they are |
| Prisma.UnavailableIsSticky | lib/prisma.ts:29-31 | once a call marks the backend unavailable, every later call leaves the globals as they were, so no client is ever returned again |
| PrismaStore.AddUserKeepsConstraints | lib/prisma-store.ts:300-308 | inserting an account with a free id and username keeps the unique constraints |
| PrismaStore.AddLogKeepsConstraints | lib/prisma-store.ts:149-156 | inserting an event with a free id keeps the unique constraints |
| PrismaStore.SameKeysKeepConstraints | lib/prisma-store.ts:348-351 | rewriting columns other than the id and the username keeps the unique constraints |
| PrismaStore.SeedOnlyFillsEmptyTable | lib/prisma-store.ts:63-122 | a cached seed does nothing; a non-empty user table is left alone; only an empty one gets exactly the two seed accounts; events are only appended; a fault-free seed of an empty database gives the seed state |
| PrismaStore.SeedKeepsConstraints | lib/prisma-store.ts:73-117 | seeding keeps the unique constraints, and a seeded user table is safe |
| PrismaStore.LoginRunAgrees | lib/prisma-store.ts:222-261 | any answer is the in-memory login's answer; a refusal or a fault changes no table; a success changes only the account's login time and adds one event |
| PrismaStore.CreateRunAgrees | lib/prisma-store.ts:286-318 | any answer is the in-memory create's answer; the user table ends up as it was or exactly as the policy prescribes; a request refused for blanks is answered so with no table changed, whatever the database would do |
| PrismaStore.CreateBlankRefusedFirst | lib/prisma-store.ts:287-293 | a blank username, name or password is answered "required" under every fault with the tables unchanged, so only a complete request can meet a failing query |
| PrismaStore.CreateWriteShape | lib/prisma-store.ts:300-317 | the insert adds exactly the new account or nothing, and an answer comes only when both the insert and its event succeeded |
| PrismaStore.RoleRunAgrees | lib/prisma-store.ts:326-361 | any answer is the in-memory role change's answer; the user table ends up as it was or exactly as the policy prescribes |
| PrismaStore.DeleteRunAgrees | lib/prisma-store.ts:368-399 | any answer is the in-memory deletion's answer; a fault changes nothing; the deletion and its event happen together or not at all |
| PrismaStore.RunsKeepSafe | lib/prisma-store.ts:277-400 | whatever the database does, a create, role change or deletion keeps an administrator and unique usernames |
| PrismaStore.OrdersTotal | lib/prisma-store.ts:163-175 | both listing orders compare any two rows |
| PrismaStore.ListingsOrdered | lib/prisma-store.ts:161-177 | the listings hold exactly the table's rows: accounts by creation time ascending then username ascending, events by timestamp descending then id descending |
| PrismaStore.WithoutKeepsIds | lib/prisma-store.ts:387 | deleting an account keeps account ids unique |
| PrismaStore.DurableStore.constructor | lib/prisma-store.ts:17-22 | a fresh process holds the database's tables, with no cached seed and no warning |
| PrismaStore.DurableStore.WarnQueryFallback | lib/prisma-store.ts:51-61 | outside production the flag is set and at most one warning is ever printed; in production nothing happens; the tables do not change |
| PrismaStore.DurableStore.Fail | lib/prisma-store.ts:133-137 | a failure forgets the cached seed, leaves the tables as they are, and warns as `warnPrismaQueryFallback` does: the flag is set outside production and the warning printed only the first time |
| PrismaStore.DurableStore.EnsureSeeded | lib/prisma-store.ts:63-122 | the tables change as the seed prescribes; the seed body starts only when no seed is cached; the promise stays cached afterwards |
| PrismaStore.DurableStore.Open | lib/prisma-store.ts:124-137 | no client means no table or cache change and no answer; otherwise the seed runs, and a failed seed clears the cache; the client globals step as `getPrismaClient` does, the seed body starts only when the call reaches the database with no seed cached, and a failed seed warns once per process outside production |
| PrismaStore.DurableStore.ListUsersDb | lib/prisma-store.ts:161-168 | unavailable without a client or on a fault, with the cache cleared; otherwise the ordered listing of the seeded table; the client globals, seed runs and query warning step as `Stepped` says, a warning coming only from a call that reached the database and failed |
| PrismaStore.DurableStore.ListLogsDb | lib/prisma-store.ts:170-177 | unavailable without a client or on a fault, with the cache cleared; otherwise the ordered event listing; the client globals, seed runs and query warning step as `Stepped` says, a warning coming only from a call that reached the database and failed |
| PrismaStore.DurableStore.GetUserByUsernameDb | lib/prisma-store.ts:179-198 | keeps unavailable (`undefined`) apart from no such account (`null`); the latter is the policy's lookup; the client globals, seed runs and query warning step as `Stepped` says, a warning coming only from a call that reached the database and failed |
| PrismaStore.DurableStore.GetDashboardSummaryDb | lib/prisma-store.ts:200-216 | unavailable or the policy's summary of the seeded tables; the client globals, seed runs and query warning step as `Stepped` says, a warning coming only from a call that reached the database and failed |
| PrismaStore.DurableStore.LoginQuery | lib/prisma-store.ts:222-261 | the tables and the answer are the login callback's; the cache survives exactly when there is an answer; no seed run, and a warning only when there is no answer |
| PrismaStore.DurableStore.AuthenticateUserDb | lib/prisma-store.ts:218-262 | `withPrisma` around the login callback: unavailable without a client, on a seed failure or on a fault, otherwise the callback's answer; the client globals, seed runs and query warning step as `Stepped` says, a warning coming only from a call that reached the database and failed |
| PrismaStore.DurableStore.RecordLogoutDb | lib/prisma-store.ts:264-275 | unavailable, or `true` after exactly one LOGOUT event is added; the client globals, seed runs and query warning step as `Stepped` says, a warning coming only from a call that reached the database and failed |
| PrismaStore.DurableStore.CreateQuery | lib/prisma-store.ts:286-318 | the tables and the answer are the create callback's, the blank check coming before any query; the cache survives exactly when there is an answer; no seed run, and a warning only when there is no answer |
| PrismaStore.DurableStore.CreateWrites | lib/prisma-store.ts:300-315 | the insert, then the event; a failing event leaves the inserted account |
| PrismaStore.DurableStore.CreateUserAccountDb | lib/prisma-store.ts:277-319 | `withPrisma` around the create callback, so once the seed is in place a blank request is answered "required" without a warning or a cleared seed; the client globals, seed runs and query warning step as `Stepped` says, a warning coming only from a call that reached the database and failed |
| PrismaStore.DurableStore.RoleQuery | lib/prisma-store.ts:326-361 | the tables and the answer are the role callback's, with the in-memory check order; no seed run, and a warning only when there is no answer |
| PrismaStore.DurableStore.RoleWrites | lib/prisma-store.ts:348-360 | the update, then the event; a failing event leaves the update |
| PrismaStore.DurableStore.UpdateUserRoleDb | lib/prisma-store.ts:321-362 | `withPrisma` around the role callback; the client globals, seed runs and query warning step as `Stepped` says, a warning coming only from a call that reached the database and failed |
| PrismaStore.DurableStore.DeleteQuery | lib/prisma-store.ts:368-399 | the tables and the answer are the delete callback's: refusals as in memory, then delete and event as one transaction; no seed run, and a warning only when there is no answer |
| PrismaStore.DurableStore.DeleteUserAccountDb | lib/prisma-store.ts:364-400 | `withPrisma` around the delete callback; the client globals, seed runs and query warning step as `Stepped` says, a warning coming only from a call that reached the database and failed |
| Data.PersistenceModeLabel | lib/data.ts:124-126 | "postgresql" exactly when the database switch is on, otherwise "memory" |
| Data.ModeLabelFollowsSwitch | lib/data.ts:124-126 | the label depends only on the database switch, and memory mode always reads "memory" |
| Data.DataLayer.constructor | lib/data.ts:6-9 | a fresh process has not warned |
| Data.DataLayer.WarnDataFallback | lib/data.ts:11-21 | the flag is set before the one warning, and checked first on every later call; production never warns |
| Data.DataLayer.ListUsers | lib/data.ts:23-30 | the database's listing when it has one, otherwise the in-memory listing; an escaping exception is warned about (once per process, never in production) and served from memory; without one, the database's bookkeeping steps as `Stepped` says |
| Data.DataLayer.ListLogs | lib/data.ts:32-39 | the database's event listing when it has one, otherwise the in-memory log; an escaping exception warns once per process outside production, and otherwise the database's bookkeeping steps as `Stepped` says |
| Data.DataLayer.GetUserByUsername | lib/data.ts:41-52 | only an unavailable database falls back; the database's "no such account" is the answer; an escaping exception warns once per process outside production, and otherwise the database's bookkeeping steps as `Stepped` says |
| Data.DataLayer.GetDashboardSummary | lib/data.ts:54-61 | the database's summary when it has one, otherwise the in-memory summary; the role counts always add up to the total; an escaping exception warns once per process outside production, and otherwise the database's bookkeeping steps as `Stepped` says |
| Data.DataLayer.AuthenticateUser | lib/data.ts:67-75 | the database's login answer, refusals included, when it has one, with the in-memory store untouched; otherwise the in-memory login's outcome, and on success exactly the login time set and one LOGIN_SUCCESS event ("mock") prepended, on refusal nothing changed; an escaping exception warns once per process outside production, and otherwise the database's bookkeeping steps as `Stepped` says |
| Data.DataLayer.LoginInMemory | lib/data.ts:69-73 | the in-memory login's outcome, account list and log |
| Data.DataLayer.RecordLogout | lib/data.ts:77-84 | `true` from the database, or no value after the in-memory store prepended the LOGOUT event; an escaping exception warns once per process outside production, and otherwise the database's bookkeeping steps as `Stepped` says |
| Data.DataLayer.CreateUserAccount | lib/data.ts:86-102 | a database refusal is passed through and not masked; only an unavailable database falls back, to the in-memory create, whose account list and CREATE_USER event are stated; an escaping exception warns once per process outside production, and otherwise the database's bookkeeping steps as `Stepped` says |
| Data.DataLayer.CreateInMemory | lib/data.ts:96-100 | the in-memory create's outcome, account list and log |
| Data.DataLayer.UpdateUserRole | lib/data.ts:104-112 | the database's answer when it has one, otherwise the in-memory role change: a refusal or an unchanged role leaves both lists alone, an applied change sets the role and prepends one UPDATE_ROLE event; an escaping exception warns once per process outside production, and otherwise the database's bookkeeping steps as `Stepped` says |
| Data.DataLayer.RoleInMemory | lib/data.ts:106-110 | the in-memory role change's outcome, account list and log |
| Data.DataLayer.DeleteUserAccount | lib/data.ts:114-122 | the database's answer when it has one, otherwise the in-memory deletion: a refusal leaves both lists alone, an approved deletion removes the account and prepends one DELETE_USER event; an escaping exception warns once per process outside production, and otherwise the database's bookkeeping steps as `Stepped` says |
| Data.DataLayer.ListUsersFromDb | lib/data.ts:23-30 | the `try` half: an escaping exception gives no answer, leaves the tables and warns once per process outside production; otherwise the backend's answer and bookkeeping as `Served` and `Stepped` say |
| Data.DataLayer.ListLogsFromDb | lib/data.ts:32-39 | the `try` half: an escaping exception gives no answer, leaves the tables and warns once per process outside production; otherwise the backend's answer and bookkeeping as `Served` and `Stepped` say |
| Data.DataLayer.GetUserByUsernameFromDb | lib/data.ts:41-52 | the `try` half: an escaping exception gives no answer, leaves the tables and warns once per process outside production; otherwise the backend's answer and bookkeeping as `Served` and `Stepped` say |
| Data.DataLayer.GetDashboardSummaryFromDb | lib/data.ts:54-61 | the `try` half: an escaping exception gives no answer, leaves the tables and warns once per process outside production; otherwise the backend's answer and bookkeeping as `Served` and `Stepped` say |
| Data.DataLayer.AuthenticateUserFromDb | lib/data.ts:67-75 | the `try` half: an escaping exception gives no answer, leaves the tables and warns once per process outside production; otherwise the backend's answer and bookkeeping as `Served` and `Stepped` say |
| Data.DataLayer.RecordLogoutFromDb | lib/data.ts:77-84 | the `try` half: an escaping exception gives no answer, leaves the tables and warns once per process outside production; otherwise the backend's answer and bookkeeping as `Served` and `Stepped` say |
| Data.DataLayer.CreateUserAccountFromDb | lib/data.ts:86-102 | the `try` half: an escaping exception gives no answer, leaves the tables and warns once per process outside production; otherwise the backend's answer and bookkeeping as `Served` and `Stepped` say |
| Data.DataLayer.UpdateUserRoleFromDb | lib/data.ts:104-112 | the `try` half: an escaping exception gives no answer, leaves the tables and warns once per process outside production; otherwise the backend's answer and bookkeeping as `Served` and `Stepped` say |
| Data.DataLayer.DeleteUserAccountFromDb | lib/data.ts:114-122 | the `try` half: an escaping exception gives no answer, leaves the tables and warns once per process outside production; otherwise the backend's answer and bookkeeping as `Served` and `Stepped` say |
| Data.DataLayer.DeleteInMemory | lib/data.ts:116-120 | the in-memory deletion's outcome, account list and log |
| Utf8.EncodeChar | lib/auth.ts:11 | one to four bytes per character, and one byte exactly for ASCII |
| Utf8.DecodeOne | lib/auth.ts:20 | the decoder always makes progress and never reads past the input |
| Utf8.DecodeOneIsEncoding | lib/auth.ts:20 | any character other than U+FFFD that the decoder reads is exactly that character's encoding |
| Utf8.DecodeOneEncodeChar | lib/auth.ts:20 | an encoded character reads back as itself, whatever follows it |
| Utf8.DecodeEncode | lib/auth.ts:11 | decoding undoes encoding for every string |
| Utf8.EncodeDecodeWellFormed | lib/auth.ts:20 | bytes that decode without U+FFFD re-encode to themselves |
| Base64Url.ValueOf | lib/auth.ts:20 | a digit value exactly for the letters, the digits and `-_+/` |
| Base64Url.Encode | lib/auth.ts:11 | four digits per three bytes, unpadded, from the URL-safe alphabet only |
| Base64Url.Bytes | lib/auth.ts:20 | three bytes per four digits, and one or two bytes for a trailing two or three digits |
| Base64Url.DecodeEncode | lib/auth.ts:11 | decoding undoes encoding for every byte string |
| Base64Url.DecodeStopsAtPad | lib/auth.ts:20 | whatever follows the first '=' is ignored |
| Json.Get | lib/auth.ts:21 | a member is found exactly when the key occurs, and what is found is the last member with that key, as `JSON.parse` keeps |
| Json.EscapedReads | lib/auth.ts:20 | a written string body reads back as the string |
| Json.QuoteReads | lib/auth.ts:20 | a written string literal parses as that string, whatever follows it |
| Json.MembersTextReads | lib/auth.ts:20 | written members and their closing brace parse as those members |
| Json.ParseStringifyObject | lib/auth.ts:11 | parsing what `JSON.stringify` writes for a string-valued object gives back that object |
| Auth.EncodeSession | lib/auth.ts:10-12 | the cookie value is non-empty and uses only the URL-safe base64 alphabet |
| Auth.ClaimsOf | lib/auth.ts:21-23 | claims come only from an object whose four members are present and truthy, and they are those members |
| Auth.DecodeSession | lib/auth.ts:14-28 | an absent or empty cookie gives nothing; any claims it gives are truthy; it is total, so it never throws |
| Auth.TokenReadsBack | lib/auth.ts:10-20 | the text of a written cookie decodes and parses to the object that was written |
| Auth.DecodeEncodeSession | lib/auth.ts:10-28 | a written cookie reads back as the session's claims exactly when its id, username and name are non-empty, and is refused otherwise |
| Auth.ClaimsOfSession | lib/auth.ts:21-24 | the written session object passes the member check exactly when its id, username and name are non-empty |
| Auth.ClaimsOfMembers | lib/auth.ts:21-24 | an object whose four members are found passes exactly when all four are truthy |
| Auth.NormalizeSession | lib/auth.ts:30-46 | a session exactly when there are claims whose username the directory knows; it is the directory's current id, username, name and role |
| Auth.ClaimedRoleIgnored | lib/auth.ts:35-45 | two cookies with the same username give the same verified session, whatever id, name or role they claim |
| Auth.RequireSession | lib/auth.ts:86-94 | granted exactly with a verified session; otherwise 401 "Unauthorized" |
| Auth.RequireAdmin | lib/auth.ts:96-109 | granted exactly to a verified administrator; no session gives 401, and a non-administrator 403 "Forbidden" |
| Auth.LoginCookieFollowsDirectory | lib/auth.ts:48-63 | a login cookie is accepted exactly while its username exists, with that account's current identity, and passes the admin guard exactly while the account is ADMIN |
| LogsRoute.NormalizeQuery | app/api/logs/route.ts:12 | no query is the empty query; a query is trimmed and lower-cased |
| LogsRoute.ParsedLimit | app/api/logs/route.ts:14 | a missing or empty parameter is NaN; otherwise the parameter's number |
| LogsRoute.EffectiveLimit | app/api/logs/route.ts:15-18 | always between 1 and 200; 100 for a non-finite number; a number in range is kept and others are clamped to the nearer end |
| LogsRoute.MatchingExactly | app/api/logs/route.ts:20-29 | the filter keeps exactly the matching entries, in log order |
| LogsRoute.EmptyQueryKeepsAll | app/api/logs/route.ts:21-23 | an empty query keeps every entry |
| LogsRoute.Search | app/api/logs/route.ts:6-35 | refused with 401 exactly without a verified session |
| LogsRoute.SearchPages | app/api/logs/route.ts:31-34 | the page is the first matches in log order, up to the limit (100 without a parameter), and `total` counts every match |
| Middleware.AnyUnder | middleware.ts:11-13 | `some` holds exactly when one of the prefixes covers the path |
| Middleware.RequiresSessionExactly | middleware.ts:6-13 | a path needs a session exactly when it is a protected prefix or lies below one; `/dashboardx`, `/` and `/login` do not |
| Middleware.GuardDecides | middleware.ts:15-27 | unprotected paths pass; protected ones pass exactly with a non-empty cookie; otherwise the redirect goes to "/" and carries the original path |

## Left out

- `getMetrics` (lib/store.ts:148-169, lib/data.ts:63-65): floating-point `sin`/`cos`/`toFixed` over the clock, outside the directory.
- Concurrency and `async`: every call is modelled as running alone, in sequence. The cached seed promise is a boolean flag, and the in-flight promise two concurrent calls might share is not modelled.
- `console.warn`: the printed text is not modelled; ghost counters record how many warnings were printed.
- `createId` and `nowIso` (lib/store.ts:26-32), and the database's column defaults: ids and timestamps are `Stamp` parameters. The in-memory store's freshness of ids is not modelled. In the database an id collision is the insert throwing.
- Store.MemoryStore.AuthenticateUser: the login time and the event time are given separately, but the data layer passes the same stamp for both; `nowIso()` is called twice in the source.
- `toPublicUser` and `toLog` (lib/prisma-store.ts:24-45): the `Date` round trip of the timestamps is taken as the identity on canonical ISO strings, so the projections are `Types.Sanitize` and the identity.
- Text.Lower: only ASCII capitals are lower-cased. `toLowerCase` also maps non-ASCII letters, so the model treats other characters as having no lower case.
- Text.LexLeq: the text order is by code point. JavaScript compares UTF-16 code units, and the database compares by its collation. The two agree on the ASCII timestamps, ids and usernames the seed and the stamps produce.
- LogsRoute.ParsedLimit: `Number()` of a string is the parameter `toNumber`, and `slice` takes the integer part of the limit.
- Json.Truthy: a number is falsy when its digits are all zero. A literal so small that it underflows to zero is counted as truthy.
- Json.StringBody: a `\u` escape of an unpaired surrogate gives U+FFFD. JavaScript keeps the lone surrogate, which a Dafny `char` cannot hold.
- Base64Url.Decode: Node's lenient legacy decoder is modelled; the differences of newer decoders in corner cases of malformed input are not.
- Auth.NormalizeSession: a username claim that is not a string matches no account. The source hands it to the database query, which rejects it.
- Middleware.Guard: the redirect carries the requested path only. The source clones the request URL, so its other query parameters are kept; the model does not represent them.
- Data.DataLayer: an exception escaping the database backend is the parameter `escapes`, and it is taken to happen before the backend changed anything.
- PrismaStore: database faults are the parameter `Fault`. Only the faults that change which branch runs are distinguished.
- The Prisma schema is not part of this model. Its unique constraints on `User.id`, `User.username` and `ActivityLog.id` are assumed, as `findUnique` on the username requires.
- HTTP wiring: `setSessionCookie`, `clearSessionCookie` and the `cookies()` reads (lib/auth.ts:48-57, 65-84), `NextResponse` bodies and statuses beyond the guards' decisions, and the route handlers that validate the input before calling the directory.
- The React components, pages, `lib/format.ts`, `prisma/seed.mjs` and the styling configuration: rendering and deployment, outside the core.
