# Task API core — a Dafny model

This project models the core of a multi-user task-tracking REST service
(FastAPI + SQLAlchemy): the owner-scoped task store and its query engine,
registration and login, the bearer-token resolver that guards every task
route, the request-body constraints, the table shapes with their defaults,
uniqueness and cascade, and the in-memory sliding-window rate limiter.

Modules, one per source component:

- `Wrappers` (wrappers.dfy): `Option` for the source's `Optional[...]` results, `Result` for raised HTTP errors.
- `Seqs` (seqs.dfy): order-preserving filter, `OFFSET/LIMIT` page, sort by descending key; the building blocks of the query.
- `Text` (text.dfy): the case-insensitive substring test standing for `ILIKE '%s%'`.
- `Security` (security.py is not part of this model): symbolic password hash and signed token with the properties the rest relies on.
- `Models` (models/task.py, models/user.py): the `tasks` and `users` rows, column defaults, unique columns, foreign key and cascade.
- `Schemas` (schemas/task.py, schemas/user.py): field bounds and defaults of the request bodies, the password-free `UserResponse`.
- `Http` (http.dfy): status codes and detail texts of the raised errors.
- `TaskCrud` (crud/task.py): `get_task` and `get_user_tasks` as functions on the table, and a `TaskTable` class whose methods create, partially update and delete rows in place.
- `Auth` (api/auth.py): the `UserTable` class with `register`; `login` and `login_json` as pure decisions.
- `Dependencies` (core/dependencies.py): `get_current_user` and `get_current_active_user`.
- `TaskApi` (api/tasks.py): the `/tasks` handlers.
- `RateLimit` (middleware/rate_limit.py): the `InMemoryRateLimiter` class over `map<string, seq<int>>`.

Calls into code outside this model become parameters: fresh UUIDs (`id`),
password salts, the clock (`now`, whole seconds), the signing key and the
email validator (`normalizeEmail`), which rejects an address or gives its normalized form.

Behaviour of the code that the model keeps as written:

- An inactive user is refused with 400 "Inactive user", not with the 401 used for the other authentication failures.
- Registration checks the email first and the username second, in that fixed order.
- Listing has no tie-breaker among rows with the same `created_at`. The contracts of `GetUserTasks` claim nothing about their order. The model's own sort happens to keep them in table order (`Seqs.SortKeepsTiedPair`), which is a choice of the model, not of the SQL query.
- `updated_at` is not refreshed by an update that changes no column. SQLAlchemy's `onupdate` fires only when an UPDATE statement is issued, and none is issued when nothing changed.
- Email lookups compare strings exactly. The validator normalizes a registered address first, but two addresses that differ in the letter case of the local part stay different users, and a login identifier is compared as typed.

## Model

| member | source | states |
|---|---|---|
| `Security.HashVerifies` | app/api/auth.py:90 | a stored hash accepts exactly the password it was made from, whatever the salt |
| `Security.CreateAccessToken` | app/api/auth.py:97-101 | the issued token carries the given subject and expires `ttl` seconds after issue |
| `Security.VerifyToken` | app/core/dependencies.py:22-24 | verification yields only the token's own subject, and only up to its expiry |
| `Security.IssueThenVerify` | app/core/dependencies.py:22-24 | an issued token verifies to its subject up to its expiry instant and to nothing afterwards |
| `Security.TamperedTokenRejected` | app/core/dependencies.py:22-24 | a valid token with an altered claim, or checked under another key, fails verification |
| `Seqs.Page` | app/crud/task.py:56 | offset/limit yields at most `limit` elements, element i being `s[skip+i]`, and nothing when `skip` is past the end |
| `Seqs.SortDesc` | app/crud/task.py:54 | ordering is a permutation of its input, sorted by descending key |
| `Seqs.FilterFilter` | app/crud/task.py:36-52 | successive filters equal one filter by the conjunction |
| `Text.Contains` | app/crud/task.py:42-45 | the scan answers true exactly when the search text occurs contiguously in the value |
| `Text.CaseDoesNotMatter` | app/crud/task.py:44-45 | the search answers the same whatever the letter case of the column value or of the search text |
| `Text.EmptyOccursEverywhere` | app/crud/task.py:41 | the empty search text occurs in every value |
| `TaskCrud.EmptySearchKeepsAll` | app/crud/task.py:41 | filtering by the empty search text keeps every row, so skipping an empty search changes nothing |
| `Schemas.PriorityLevels` | app/schemas/task.py:7-11 | the accepted priority integers are exactly the values of LOW=0, MEDIUM=1, HIGH=2 |
| `Schemas.ValidateTaskCreate` | app/schemas/task.py:14-18 | a body is accepted iff the title has 1..200 characters, the description at most 2000 and the priority lies in 0..2; `completed` defaults to false, a sent priority is kept and a missing one becomes 0; the title, description and priority are each reported exactly when they are out of bounds |
| `Schemas.TaskUpdateErrors` | app/schemas/task.py:34-38 | every update field is optional and, when sent, carries the same bound as on creation |
| `Schemas.UserCreateErrors` | app/schemas/user.py:6-12 | a user body is accepted iff the validator accepts the email, the username has 3..50 characters and the password at least 8 |
| `Schemas.ValidateUserCreate` | app/schemas/user.py:6-12 | an accepted body carries the validator's normalized email and the username and password as sent; a rejected one reports every offending field |
| `Schemas.UserUpdateErrors` | app/schemas/user.py:25-28 | every user update field is optional and carries its creation bound when sent; a body is accepted iff every sent field is within its bound, so one that sends nothing is accepted |
| `Schemas.ToResponse` | app/schemas/user.py:31-34 | the response carries id, email, username, active flag and creation time of the row |
| `Schemas.ResponseHidesPassword` | app/schemas/user.py:31-51 | users differing only in their hash get identical responses: only the stored row carries the hash |
| `Models.NewTask` | app/models/task.py:15-22 | a new row gets the given fresh id and owner, `completed` false and `priority` 0 by default, and `created_at = updated_at = now` |
| `Models.NewUser` | app/models/user.py:16-21 | a new user row is active by default |
| `Models.DeleteUserCascade` | app/models/user.py:23 | deleting a user removes exactly that user and exactly their tasks, keeping everything else |
| `Models.CascadeKeepsOwnersExisting` | app/models/task.py:20 | after the cascade every remaining task still references an existing user |
| `TaskCrud.FindTaskIndex` | app/crud/task.py:23 | the position returned is the first row matching both id and owner; none exactly when no row matches both |
| `TaskCrud.GetTask` | app/crud/task.py:22-23 | a task is returned only if both its id and its owner match; a wrong owner and an unknown id both give None |
| `TaskCrud.GetTaskIgnoresOtherOwners` | app/crud/task.py:22-23 | other users' rows never influence a lookup |
| `TaskCrud.GetUserTasks` | app/crud/task.py:26-56 | every listed task is in the table, owned by the caller and passes every requested filter; at most `limit` rows, newest first; empty when `skip` reaches the selection's size |
| `TaskCrud.FiltersAreSelection` | app/crud/task.py:36-52 | the chain of owner, status, search and inclusive date filters selects exactly the rows of the reference predicate, in table order |
| `TaskCrud.GetUserTasksIsPageOfSelection` | app/crud/task.py:54-56 | the listing is the page `[skip, skip+limit)` of a newest-first ordering of exactly the selected rows |
| `TaskCrud.GetUserTasksComplete` | app/crud/task.py:36-56 | when the selection fits in the first page, every selected row is listed |
| `TaskCrud.GetUserTasksIgnoresOtherOwners` | app/crud/task.py:36 | the listing depends only on the caller's own rows, whatever the filters |
| `TaskCrud.SetFields` | app/crud/task.py:64 | exactly the sent fields are assigned, each with its sent value, and no other |
| `TaskCrud.Patch` | app/crud/task.py:64-66 | a partial update never changes id, owner or timestamps |
| `TaskCrud.SetAttrsIsPatch` | app/crud/task.py:64-66 | assigning the sent fields one by one gives the reference partial update: sent fields take the sent value, others keep theirs |
| `TaskCrud.AssignFields` | app/crud/task.py:65-66 | the setattr loop assigns the sent fields in order |
| `TaskCrud.Updated` | app/models/task.py:22 | the written row has the sent values, the other columns unchanged, and `updated_at = now` exactly when some column changed |
| `TaskCrud.UpdatedWellFormed` | app/schemas/task.py:34-38 | a validated update keeps a row within the title, description and priority bounds |
| `TaskCrud.EmptyUpdateIsIdentity` | app/crud/task.py:64-68 | an update sending no field leaves the row, including `updated_at`, unchanged |
| `TaskCrud.TaskTable.CreateTask` | app/crud/task.py:8-19 | the new row is appended, owned by the given user, and found again by id and owner; ids stay unique |
| `TaskCrud.TaskTable.UpdateTask` | app/crud/task.py:59-70 | on a miss returns None with the table unchanged; on a hit rewrites exactly that row with the partial update |
| `TaskCrud.TaskTable.DeleteTask` | app/crud/task.py:73-80 | on an owned hit removes exactly that row and answers true; otherwise answers false with the table unchanged |
| `Auth.FindByEmail` | app/api/auth.py:45 | the user found has that email; none exactly when no user has it |
| `Auth.FindByUsername` | app/api/auth.py:52 | the user found has that username; none exactly when no user has it |
| `Auth.FindByOwnEmail` | app/models/user.py:17 | with unique emails, looking a user up by their email finds that user |
| `Auth.RegistrationError` | app/api/auth.py:45-57 | "Email already registered" iff the email exists; "Username already taken" iff the email is new and the username exists; no error iff both are new |
| `Auth.NormalizedEmailAlreadyRegistered` | app/api/auth.py:45-50 | a body whose email normalizes to a registered address is refused with "Email already registered", whatever its spelling as sent |
| `Auth.AppendKeepsUsersValid` | app/models/user.py:16-18 | inserting a user with new email, username and id keeps all three unique |
| `Auth.UserTable.Register` | app/api/auth.py:41-59 | a user is inserted, active and with a hash of the password, only when both checks pass; otherwise the table is unchanged; uniqueness is preserved |
| `Auth.LookupIdentifier` | app/api/auth.py:85-88 | the identifier is matched as an email and, only when no email matches, as a username |
| `Auth.Login` | app/api/auth.py:81-103 | unknown identifier and wrong password give the same 401; on success a bearer token whose subject is the found user's email, expiring after 30 minutes |
| `Auth.LoginJson` | app/api/auth.py:133-155 | the JSON login makes the same decision and issues the same token |
| `Auth.LoginJsonAgreesWithLogin` | app/api/auth.py:133-155 | both login endpoints answer alike for the same identifier and password |
| `Auth.UnknownUserLikeWrongPassword` | app/api/auth.py:90-95 | an unknown account and a wrong password on an existing account get identical answers |
| `Auth.EmailTakesPrecedence` | app/api/auth.py:86-90 | when the identifier is some user's email, only that user's password decides, even if it is another user's username |
| `Dependencies.GetCurrentUser` | app/core/dependencies.py:12-30 | no credentials give "Not authenticated"; a token that fails verification or whose subject is no user's email gives "Could not validate credentials"; the subject is looked up by email only |
| `Dependencies.GetCurrentActiveUser` | app/core/dependencies.py:33-38 | an inactive user is refused with 400 "Inactive user"; an active user is passed unchanged |
| `Dependencies.LoginThenResolve` | app/core/dependencies.py:22-30 | a login token presented before expiry resolves to exactly the user who logged in |
| `Dependencies.ExpiredLoginTokenRejected` | app/core/dependencies.py:22-24 | the same token after its expiry gets "Could not validate credentials" |
| `TaskApi.ValidatePagination` | app/api/tasks.py:85-86 | accepted iff `skip >= 0` and `1 <= limit <= 100`, with defaults 0 and 100; otherwise 422 |
| `TaskApi.ListTasks` | app/api/tasks.py:84-103 | bad pagination gives 422; otherwise the answer is `get_user_tasks` for the caller's id with the validated skip and limit and the sent filters, so at most 100 rows |
| `TaskApi.GetTaskEndpoint` | app/api/tasks.py:106-120 | the caller's task, or 404 "Task not found" when the caller owns no task with that id |
| `TaskApi.OtherUsersTaskInvisible` | app/api/tasks.py:117-119 | another user's task gives 404 on lookup and never appears in a listing |
| `TaskApi.CreateTaskEndpoint` | app/api/tasks.py:46-51 | the created task is owned by the caller, never by a body field |
| `TaskApi.UpdateTaskEndpoint` | app/api/tasks.py:123-138 | a miss gives 404 with the table unchanged; a hit returns the updated row, still owned by the caller, and the table has exactly that row replaced by it |
| `TaskApi.DeleteTaskEndpoint` | app/api/tasks.py:141-154 | success answers 204 and the table loses exactly the caller's matching row; a miss gives 404 with the table unchanged |
| `TaskApi.PublicStats` | app/api/tasks.py:158-165 | the public count bounds every single user's number of tasks |
| `TaskApi.PublicStatsCountsAllOwners` | app/api/tasks.py:158-165 | the public count is not owner-scoped: it is any user's tasks plus everyone else's |
| `RateLimit.ClientId` | app/middleware/rate_limit.py:32-34 | a request is keyed by its client host, or by "unknown" when it has none |
| `RateLimit.PruneKeepsExactlyRecent` | app/middleware/rate_limit.py:36-42 | cleanup keeps exactly the timestamps t with `now - t < 60`, with their multiplicities, in their original order |
| `RateLimit.PruneLater` | app/middleware/rate_limit.py:36-42 | pruning at an earlier time and then a later one equals pruning once at the later one |
| `RateLimit.InMemoryRateLimiter.CleanupOldRequests` | app/middleware/rate_limit.py:36-42 | only the requesting client's list is rebuilt, to its pruned form; an unknown client changes nothing |
| `RateLimit.InMemoryRateLimiter.Dispatch` | app/middleware/rate_limit.py:44-84 | exempt paths record nothing; a full window rejects with 429 and appends nothing; otherwise `now` is appended, only this client's entry changes, no list ever exceeds the limit, and the remaining count is `limit - count`, never negative |

## Left out

- Password hashing (bcrypt) and token signing (HS256): app/core/security.py is not part of this model. Hashes and signatures are symbolic terms. The model proves the round trip, expiry and tamper properties of these terms; real cryptographic strength is assumed, not proved.
- Token expiry: a token is accepted at its expiry instant and refused strictly after it (a JWT check with zero leeway). Timestamps are whole seconds, not datetimes or floats.
- User store functions (`get_user_by_email`, `get_user_by_username`, `create_user`, `delete_user`): app/crud/user.py is not part of this model. They are modelled as first-match scans, an append, and the cascade function on the two tables.
- Search: `ILIKE` is modelled as a plain substring test after lowering ASCII letters, which is what SQLite does. `%` and `_` typed in the search text act as wildcards in SQL but are literal characters here. Unicode case folding, as PostgreSQL does it, is not modelled.
- `TaskCrud.GetUserTasks`: states no order among tasks created at the same instant, because the source's `ORDER BY created_at DESC` has no tie-breaker.
- A `TaskUpdate` that sends an explicit null for `title`, `completed` or `priority` is not modelled. Such a request breaks a NOT NULL column or stores a null, which the datatypes cannot hold. An explicit null `description`, which clears the description, is modelled.
- The email validator (`EmailStr`) is the parameter `normalizeEmail`: it is external code, and its rules (surrounding whitespace, the `Name <addr>` form, the lower-cased domain) are not modelled. `Register` takes the parsed body, whose email is already the normalized address.
- Validation errors are one fixed 422 error carrying the list of offending field names. Pydantic's detailed error body is not modelled.
- Reading the `Authorization` header (the `OAuth2PasswordBearer` scheme) is framework code. A missing header arrives as `Credentials.Missing`.
- Fresh ids (`uuid4`) are parameters, required to be unused. The race between the duplicate checks and the insert, and the database's IntegrityError backstop, are not modelled: each request is one atomic step.
- Rate limiter: the async `call_next` and the response body are not modelled, nor is the float clock. `Dispatch` returns the header values (`X-RateLimit-Limit`, `X-RateLimit-Remaining`, `X-RateLimit-Reset`) or the 429 data. Requests from concurrent tasks are not interleaved.
- `TaskApi` handlers take the user that `Dependencies.GetCurrentActiveUser` resolved, instead of being wired to it through dependency injection. `GET /auth/me` returns that user and has no member of its own.
- Logging, tracing, CORS, configuration loading, the database engine and sessions are not modelled. `ACCESS_TOKEN_EXPIRE_MINUTES` is the constant 30.
