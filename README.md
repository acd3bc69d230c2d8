# Todo server core in Dafny

A Dafny model of two parts of the todo-app-multicolor server, together with
the input contracts they depend on:

- **The task query** (`getTasks`). A task listing belongs to one owner. It is
  narrowed by the optional `completed`, `priority` and `due_before` filters,
  sorted newest first, and cut by `LIMIT`/`OFFSET`. Each row is then projected
  to a `Task`.
- **User registration** (`registerUser`). It rejects an e-mail that is
  already taken. Otherwise it stores the user with a salted SHA-256
  password hash and returns the public view of the user together with a
  base64 session token.
- **The input schemas** that validate and default the requests: task query,
  registration, profile update and task creation. Also the task priority
  enum and the public projection of a user.

Modules, one per file:

| file | module | models |
|---|---|---|
| `wrappers.dfy` | `Wrappers` | `Option` and `Result` |
| `schema.dfy` | `Schema` | `server/src/schema.ts`: entities, parse-and-default functions for each input schema |
| `base64.dfy` | `Base64` | the base64 alphabet and padding of section 4 of RFC 4648, a strict decoder, and round trips in both directions |
| `get_tasks.dfy` | `TaskQuery` | `server/src/handlers/get_tasks.ts`: the query's meaning `Query = project(page(sort(filter(table))))`, and the handler as a method that builds its condition list step by step |
| `pagination_scenario.dfy` | `PaginationScenario` | pages of a table whose rows were inserted one after another |
| `register_user.dfy` | `Registration` | `server/src/handlers/register_user.ts`: `hashPassword`, `generateToken`, and the users table as a class whose `Register` method inserts in place |

What the model takes as inputs rather than computing:

- The database is a sequence of rows. For users, it is the `users` field of a `UserStore` object.
- The `id SERIAL` column is the store's `nextId` counter.
- SQL `NOW()` and `Date.now()` are integer millisecond parameters.
- Whether the INSERT returned its row is a boolean parameter.
- The SHA-256 hex digest is a function-valued field of the store. So is the JSON serialisation of the token payload. Nothing is assumed about either function.

The token payload fields are `userId`, `email` and `exp`, as `generateToken` builds them.

SQL leaves the order of rows with equal `created_at` open. The model breaks such ties by `id`, larger first. This makes every page well defined (`TaskQuery.NewestFirstUnique`).

## Model

| member | source | states |
|---|---|---|
| `Schema.ParsePriority` | server/src/schema.ts:35 | exactly `"low"`, `"medium"` and `"high"` are accepted, each as the priority with that name |
| `Schema.PriorityRoundTrip` | server/src/schema.ts:101 | every priority survives a trip through its wire name |
| `Schema.ToPublic` | server/src/schema.ts:17-24 | the public user carries the user's id, e-mail, name, theme and both timestamps |
| `Schema.PublicForgetsOnlyHash` | server/src/schema.ts:4-24 | two users have the same public view if and only if they agree on every field except `password_hash` |
| `Schema.ParseRegisterUserInput` | server/src/schema.ts:44-49 | accepted if and only if e-mail is present, password length is at least 6 and name is non-empty; fields are copied; `ui_color_theme` defaults to `"blue"` |
| `Schema.ParseUpdateUserInput` | server/src/schema.ts:62-69 | accepted if and only if `id` is present, a given name is non-empty and a given new password has length at least 6; every optional field is passed through as given |
| `Schema.ParseCreateTaskInput` | server/src/schema.ts:74-80 | accepted if and only if `user_id` is present, title is non-empty and a given priority is one of the three names; priority defaults to medium; description and due date may be absent or null and are kept as given |
| `Schema.ParseGetTasksInput` | server/src/schema.ts:98-105 | accepted if and only if `user_id` is present, a given priority is valid, a given limit is an integer in 1..100 and a given offset is an integer at least 0; limit defaults to 50 and offset to 0; the result always has 1 <= limit <= 100 |
| `Base64.Encode` | server/src/handlers/register_user.ts:14 | the text has 4 characters for every started group of 3 bytes |
| `Base64.Decode` | server/src/tests/register_user.test.ts:15-22 | an accepted text has exactly the length `Encode` gives for the returned bytes; a length that is not a multiple of 4 is rejected |
| `Base64.StandardVectors` | server/src/handlers/register_user.ts:14 | the encoder reproduces the test vectors of section 10 of RFC 4648 (`""`, `"Zg=="`, `"Zm8="`, `"Zm9v"`, `"Zm9vYmFy"`) |
| `Base64.StandardVectorDecodes` | server/src/tests/register_user.test.ts:15-22 | the decoder reads `"Zm9vYmFy"` back as `foobar` |
| `Base64.DecodeEncode` | server/src/handlers/register_user.ts:14 | decoding the encoding of any byte sequence returns exactly those bytes |
| `Base64.EncodeDecode` | server/src/handlers/register_user.ts:14 | every text the strict decoder accepts is the encoding of what it decodes to |
| `Base64.SextetCharRoundTrip` | server/src/handlers/register_user.ts:14 | the 64-character alphabet is a bijection with 0..63 and never uses the pad character |
| `TaskQuery.Filter` | server/src/handlers/get_tasks.ts:11-31 | the kept rows are exactly the rows satisfying the predicate, each as often as in the input |
| `TaskQuery.SortNewestFirst` | server/src/handlers/get_tasks.ts:35 | the result is newest first and a permutation of the input |
| `TaskQuery.NewestFirstUnique` | server/src/handlers/get_tasks.ts:35 | with unique ids, two newest-first arrangements of the same rows are equal, so the order is determined |
| `TaskQuery.Page` | server/src/handlers/get_tasks.ts:35 | a page never holds more than `limit` rows or more rows than the input, and is empty once `offset` reaches the end |
| `TaskQuery.PageSlice` | server/src/handlers/get_tasks.ts:35 | `LIMIT`/`OFFSET` is the run of at most `limit` elements from `offset`, cut short by the end |
| `TaskQuery.ToTask` | server/src/handlers/get_tasks.ts:40-50 | the projection changes nothing but `description`, which becomes null exactly when the row's is null or empty and is kept unchanged otherwise |
| `TaskQuery.ProjectAll` | server/src/handlers/get_tasks.ts:40 | the `.map`: one task per row, the i-th being the projection of the i-th row |
| `TaskQuery.ToTaskKeeps` | server/src/handlers/get_tasks.ts:40-50 | the projection keeps every field except `description`, which becomes null exactly when it is null or empty; projecting twice changes nothing more |
| `TaskQuery.Query` | server/src/handlers/get_tasks.ts:5-50 | the result never holds more than `limit` tasks, nor more than the table has rows |
| `TaskQuery.QuerySound` | server/src/handlers/get_tasks.ts:11-27 | each returned task is the projection of a table row of the requested owner that passes every present filter; with `due_before`, the due date is present and not later |
| `TaskQuery.OrderedComplete` | server/src/handlers/get_tasks.ts:11-31 | before paging, a row is selected if and only if it is in the table and matches; it appears as often as in the table, and non-matching rows never appear |
| `TaskQuery.CompletedUnconstrained` | server/src/handlers/get_tasks.ts:17-19 | without the `completed` filter, flipping a task's completion does not change whether it matches |
| `TaskQuery.QueryNewestFirst` | server/src/handlers/get_tasks.ts:35 | `created_at` never increases along the result |
| `TaskQuery.QueryIsSlice` | server/src/handlers/get_tasks.ts:35-50 | the result is the projected slice `[offset, offset+limit)` of the ordered selection; it has at most `limit` tasks and is empty once `offset` reaches the number of matches |
| `TaskQuery.SameFiltersSameOrder` | server/src/handlers/get_tasks.ts:35 | the page bounds do not affect which rows are selected or their order |
| `TaskQuery.QueryPagesConcatenate` | server/src/handlers/get_tasks.ts:35 | page (k, 0) followed by page (k, k) is page (2k, 0) |
| `TaskQuery.AllHoldAppend` | server/src/handlers/get_tasks.ts:29-32 | the conjunction of two lists of conditions joined with AND is the conjunction of each |
| `TaskQuery.BuildWhere` | server/src/handlers/get_tasks.ts:8-32 | the owner condition comes first; each filter's condition is present if and only if that filter is given; a row satisfies all conditions if and only if it matches the input |
| `TaskQuery.GetTasks` | server/src/handlers/get_tasks.ts:5-50 | the handler returns exactly `Query(table, input)`, so never more than 100 tasks |
| `PaginationScenario.ChronologicalOrder` | server/src/tests/get_tasks.test.ts:222-246 | for an owner-only query over rows in insertion order (increasing ids, non-decreasing creation times, equal times allowed), the order is the reverse of insertion |
| `PaginationScenario.ChronologicalPages` | server/src/tests/get_tasks.test.ts:168-199 | in that case the i-th task of the page at `offset` is the row inserted `offset + i` places before the last |
| `PaginationScenario.FiveTasksTwoPerPage` | server/src/tests/get_tasks.test.ts:168-199 | five tasks read two at a time give the 5th and 4th, then the 3rd and 2nd, then the 1st |
| `Registration.HashPassword` | server/src/handlers/register_user.ts:7-9 | the stored hash passes the test suite's re-hash-and-compare check for its password |
| `Registration.HashThenVerify` | server/src/handlers/register_user.ts:7-9 | verifying a password against its own hash succeeds; verification accepts exactly the hash of the password with the suffix `"salt"` |
| `Registration.TokenClaim` | server/src/handlers/register_user.ts:12-14 | the claim carries the user id and e-mail and expires 86 400 000 ms after the clock |
| `Registration.GenerateToken` | server/src/handlers/register_user.ts:12-15 | base64-decoding the token gives back exactly the serialised claim |
| `Registration.Message` | server/src/handlers/register_user.ts:43-57 | each failure has its own text: "Email is already registered" for a taken e-mail, "Failed to create user" for a missing row |
| `Registration.EmailTaken` | server/src/handlers/register_user.ts:38-42 | an e-mail is taken exactly when some stored user has exactly that address |
| `Registration.EmailCaseMatters` | server/src/tests/register_user.test.ts:135-153 | the test's example: with `"test@example.com"` stored, `"TEST@EXAMPLE.COM"` is not taken (so `Register` goes ahead with it) |
| `Registration.NewUser` | server/src/handlers/register_user.ts:47-54 | the inserted row carries the input's e-mail, name and theme, a hash the password verifies against, and both timestamps equal to the database clock |
| `Registration.UserStore.constructor` | server/src/handlers/register_user.ts:20-28 | a freshly created users table (UNIQUE e-mail, SERIAL id starting at 1) is empty and satisfies the table invariant |
| `Registration.UserStore.Register` | server/src/handlers/register_user.ts:32-76 | a taken e-mail fails with `EmailAlreadyRegistered`, and an INSERT that returns no row fails with `FailedToCreateUser`, both leaving the table unchanged; otherwise exactly one row with a fresh id is appended, earlier rows are unchanged, the invariant (unique e-mails, increasing ids) is kept, and the response is the row's public view with its token |
| `Registration.RegisterTwice` | server/src/handlers/register_user.ts:38-58 | after a successful registration, a second one with the same e-mail fails with `EmailAlreadyRegistered`; a second one with a different, untaken e-mail succeeds; two successful registrations get different ids |

## Left out

- Database I/O is not modelled. This covers the SQL text and its string interpolation, and the drivers. The tables are sequences, and the query is specified by its meaning.
- SHA-256 and `JSON.stringify`/`Buffer.from` are opaque functions. No injectivity or irreversibility is claimed for them. So the test's "different passwords give different hashes" is not proved.
- Base64 decoding in the model is the strict decoder of section 4 of RFC 4648: it requires padding and zero unused bits. Node's lenient `Buffer.from(..., 'base64')` accepts more texts, and that is not modelled. For the texts `generateToken` produces, the two decoders agree.
- The token's `exp` uses `Date.now()`, which is a parameter here. JSON parsing of the decoded token is not modelled.
- zod's `.email()` format check is not modelled. Any present e-mail string is accepted.
- String lengths are counted in Dafny characters, not in JavaScript UTF-16 code units.
- `VARCHAR(255)` and `VARCHAR(50)` length limits are not modelled.
- Ids, `user_id` and the other numeric ids are integers. zod accepts fractional numbers there, and that case is not modelled. Only `limit` and `offset`, where the schema checks for an integer, are reals.
- `z.coerce.date()` coercion is not modelled. Timestamps are integer epoch milliseconds.
- `TaskQuery.SortNewestFirst`: SQL sorts only by `created_at` and leaves ties open; the model breaks ties by `id` descending, one of the orders SQL permits.
- The duplicate-e-mail race between concurrent registrations is not modelled: registration is sequential. The UNIQUE constraint on the column is the table invariant `UserStore.Valid`.
- `Registration.UserStore.Register`: an INSERT that returns no row is modelled as adding no row.
- `ensureUsersTable` runs `CREATE TABLE IF NOT EXISTS`. The model starts from a freshly created, empty table; reusing a table that already holds rows is not modelled.
- `TaskQuery.Query`: `offset` is an unbounded natural number. The database reads `OFFSET` as a 64-bit integer, so an offset of 2^63 or more makes the query fail and the handler rethrow; the model returns the empty page instead.
- `Registration.UserStore.Register`: `nextId` is unbounded. The `id SERIAL` column is a 32-bit sequence, so once id 2147483647 has been handed out the INSERT fails; the model keeps registering.
- `Schema.ParseGetTasksInput`, `Schema.ParseRegisterUserInput`, `Schema.ParseUpdateUserInput` and `Schema.ParseCreateTaskInput`: the raw requests are typed, so a field of the wrong JavaScript type, or `null` where the schema does not allow it, cannot be expressed; the acceptance conditions are stated for well-typed requests only.
- Logging and rethrowing in the `catch` blocks, and the async plumbing, are not modelled.
- `updateUser` and `deleteTask` are placeholders without behaviour and are not modelled. Of their schemas, only `updateUserInputSchema` is modelled. `updateTaskInputSchema`, `deleteTaskInputSchema` and `loginUserInputSchema` are not part of this model. `authResponseSchema` is the `AuthResponse` datatype.
