# gs-dash notifications, tasks and accounts — a Dafny model

This project models the server-side core of the gs-dash team dashboard. It
also models the client-side notification panel. The model covers:

- **Notification helpers.** `createNotification` writes one row.
  `notifyAllTeamMembers` writes one row for every account except the actor.
  Both swallow their failures.
- **Tasks route.** `GET /api/tasks` lists tasks newest first, optionally for
  one project. `POST /api/tasks` checks the session, the fields, the project
  and the caller's access. It then inserts the task and notifies the
  assignee and the team.
- **Notifications route.** `GET /api/notifications` returns the caller's
  twenty newest notifications. `PUT /api/notifications` marks the caller's
  notifications read, either all of them or by id.
- **Registration.** `POST /api/auth/register` validates the schema, checks
  for duplicate email or username, and inserts a hashed account.
- **Sign-in and session.** The credentials provider's `authorize`, and the
  `jwt` and `session` callbacks that carry the account id and role into
  every request.
- **Server actions.** `getProjectById`, `createProject` and `createTask`.
- **Notification panel.** The relative-time label, the unread count,
  "mark all as read", "clear all", the click handler, and when the two
  buttons are enabled.

Everything is a pure function over an immutable `Store`, which holds users,
projects, tasks, milestones and notifications. A handler maps a session, a
request and a store to a response and the store it leaves behind.

What the database decides is passed in as parameters:

- A `DbWrite` gives the ids an insert would assign and whether it raises.
- A read that can raise has its own flag: the listing queries, the
  project lookup of `POST /api/tasks` (`TaskWrites.lookupFault`) and the
  duplicate lookup of registration (`readFault`). Raising answers 500 and
  writes nothing.
- An insert also fails when an id is already taken or a foreign key does
  not resolve.
- `findFirst` with several matches returns the row selected by a `pick`
  index. Lemmas quantify over every pick.

bcrypt's `hash` and `compare`, and the email check of the validation library,
are function-valued parameters. JavaScript truthiness of an optional string
is `Truthy`: present and non-empty.

Modules:

| module | file | models |
|---|---|---|
| `Common` | common.dfy | options, truthiness, HTTP responses |
| `Seqs` | seqs.dfy | filter, `findFirst`, stable newest-first ordering |
| `Store` | store.dfy | the tables and the integrity `Valid` the database keeps |
| `Notifications` | notifications.dfy | `src/lib/notifications.ts` |
| `Auth` | auth.dfy | `src/lib/auth.ts` |
| `Register` | register.dfy | `src/app/api/auth/register/route.ts` |
| `TasksRoute` | tasks_route.dfy | `src/app/api/tasks/route.ts` |
| `NotificationsRoute` | notifications_route.dfy | `src/app/api/notifications/route.ts` |
| `ProjectActions` | project_actions.dfy | `src/lib/actions/projects.ts` |
| `NotificationPanel` | panel.dfy | `src/components/panels/NotificationPanel.tsx` |
| `Flows` | flows.dfy | registration followed by sign-in |

## Model

| member | source | states |
|---|---|---|
| Seqs.FindFirst | src/lib/auth.ts:25-32 | `findFirst` yields nothing exactly when no row matches; otherwise it yields a matching row of the table |
| Seqs.FindFirstReaches | src/app/api/auth/register/route.ts:20-24 | every matching row is the one `findFirst` returns for some choice, so no conflicting row can be ruled out |
| Seqs.SortDesc | src/app/api/tasks/route.ts:21-23 | `orderBy desc` returns a permutation of its input, ordered by non-increasing key |
| Notifications.CreateNotification | src/lib/notifications.ts:6-26 | appends exactly one unread row with the given fields when the recipient exists, no error occurs and the id is fresh; otherwise the store is unchanged and nothing is raised; no other table changes |
| Notifications.CreateNotificationInboxes | src/lib/notifications.ts:14-22 | other accounts' inboxes are untouched; the recipient's inbox gains exactly the new row |
| Notifications.Recipients | src/lib/notifications.ts:41-46 | the accounts queried are exactly those whose id differs from the actor's, each once when ids are unique |
| Notifications.Batch | src/lib/notifications.ts:51-59 | one row per recipient, in order, each addressed to that recipient and carrying the shared content |
| Notifications.BatchReachesEachOnce | src/lib/notifications.ts:51-59 | each recipient receives exactly one row of the batch's type, and every other account none |
| Notifications.NotifyAllTeamMembers | src/lib/notifications.ts:32-63 | existing rows are kept as a prefix; every added row is unread, dated now, carries the content, and goes to an account other than the actor; with nobody else, or a failed batch, nothing is written |
| Notifications.FanOutCounts | src/lib/notifications.ts:40-59 | one accepted fan-out gives every account except the actor exactly one row of its type, and nothing of any other type |
| Notifications.CreateNotificationPreservesValid | src/lib/notifications.ts:13-25 | a single notification keeps ids unique and references resolving |
| Notifications.NotifyAllPreservesValid | src/lib/notifications.ts:39-62 | a fan-out keeps ids unique and references resolving |
| Auth.Authorize | src/lib/auth.ts:16-60 | a missing identifier or password, or any raised error, gives `null`; any identity returned belongs to a stored account that matches the identifier by email or username, has a stored hash, and whose hash the password compares equal to |
| Auth.UnknownIdentifierRefused | src/lib/auth.ts:25-37 | an identifier no account has is refused, whichever row the lookup would pick |
| Auth.WrongPasswordRefused | src/lib/auth.ts:34-47 | a wrong password gets the same `null` as an unknown identifier |
| Auth.AuthorizeSucceedsIff | src/lib/auth.ts:16-60 | sign-in can succeed exactly when nothing raises and some account admits the credentials |
| Auth.AuthorizeUniqueMatch | src/lib/auth.ts:25-55 | when exactly one account matches and the password checks out, sign-in returns that account's id, username, email, name and role |
| Auth.Jwt | src/lib/auth.ts:64-70 | at sign-in the token gains the account's id and role; afterwards the token passes through unchanged |
| Auth.SessionCallback | src/lib/auth.ts:71-77 | the session user takes the token's id and role and keeps name and email; without a user or a token the session is unchanged |
| Auth.SignInReachesSession | src/lib/auth.ts:64-77 | after sign-in, every request's caller is the signed-in account, with its role |
| Register.IssuesEmptyIff | src/app/api/auth/register/route.ts:6-11 | the schema reports no issue exactly when every field rule holds |
| Register.Register | src/app/api/auth/register/route.ts:13-77 | a body that is not JSON gives 500; a schema issue gives 400 with the first issue's message; valid input whose duplicate lookup raises gives 500; 201 exactly when the input is acceptable, the lookup does not raise, no account has the email or the username, and the insert succeeds; on 201 the account is appended with a hashed password and returned without it; every non-201 leaves the store unchanged |
| Register.ShortNameRejected | src/app/api/auth/register/route.ts:7 | a name shorter than two characters yields 400 with the name message and writes nothing |
| Register.BadUsernameRejected | src/app/api/auth/register/route.ts:8 | a short username, or one outside `[A-Za-z0-9_]`, yields 400 and writes nothing; with a valid name the message is the username's |
| Register.BadEmailOrPasswordRejected | src/app/api/auth/register/route.ts:9-10 | an invalid email or a password shorter than six yields 400 and writes nothing |
| Register.UsernameConflictReported | src/app/api/auth/register/route.ts:26-38 | a free email with a taken username yields the username message |
| Register.EmailConflictReported | src/app/api/auth/register/route.ts:26-33 | when every conflicting account has the email, the email message is returned |
| Register.ConflictMessageDependsOnRow | src/app/api/auth/register/route.ts:20-38 | with the email taken by one account and the username by another, both messages are possible, depending on the row returned |
| Register.DuplicateRejected | src/app/api/auth/register/route.ts:20-38 | valid input that collides with an account is refused with 400 and nothing is written; the message names the email exactly when the row found has the submitted email |
| Register.RegisteredAccount | src/app/api/auth/register/route.ts:41-56 | a created account keeps the submitted name, username and email, gets role MEMBER (the database default, assumed), stores only the hash of the password, and the reply carries the account without it |
| Register.RegisterPreservesValid | src/app/api/auth/register/route.ts:20-50 | registration keeps ids, emails and usernames unique, because of the duplicate check |
| TasksRoute.Commit | src/app/api/tasks/route.ts:78-117 | 201 exactly when the insert is accepted; then the reply is the inserted task, the task is appended, and the notification steps only add rows |
| TasksRoute.CreateTask | src/app/api/tasks/route.ts:39-122 | checks run in order: 401 without a caller, 500 for a body that is not JSON, 400 without title or project, 500 when the project lookup raises, 404 for an unknown project, 403 for a caller who is neither owner nor member; 201 exactly when all checks and the insert pass; the stored task has assignee and dates `null` when falsy, priority MEDIUM and status TODO by default, and the caller as creator; any non-201 leaves the store unchanged |
| TasksRoute.ListTasks | src/app/api/tasks/route.ts:8-36 | 401 without a caller; otherwise every task, or exactly those of the given project, newest first, with no ownership filter |
| TasksRoute.NotifyStepsCount | src/app/api/tasks/route.ts:96-114 | the two notification steps add one TASK_ASSIGNED row for an assignee other than the creator, and one TASK_CREATED row for every account except the creator |
| TasksRoute.CreateTaskNotifies | src/app/api/tasks/route.ts:96-114 | after a 201 with both writes accepted, each account's TASK_ASSIGNED and TASK_CREATED counts are exactly as promised; the creator gets neither |
| TasksRoute.NotificationFailuresInvisible | src/app/api/tasks/route.ts:96-117 | failures of the notification writes never change the reply or the stored tasks |
| TasksRoute.CreatedTaskIsListed | src/app/api/tasks/route.ts:19-31 | a created task appears in its project's listing |
| TasksRoute.CreateTaskPreservesValid | src/app/api/tasks/route.ts:78-114 | a creation keeps ids unique and references resolving |
| TasksRoute.CreatedTaskDefaults | src/app/api/tasks/route.ts:48-91 | a created task has the caller as creator, falsy assignee and dates as null, priority MEDIUM and status TODO unless truthy ones are given, and a project the caller owns or belongs to |
| NotificationsRoute.Page | src/app/api/notifications/route.ts:14-18 | the page has the requested size, is newest first, is drawn from the caller's rows, and no omitted row is newer than a returned one |
| NotificationsRoute.Latest | src/app/api/notifications/route.ts:6-25 | 401 without a caller, 500 on a database error; otherwise at most twenty of the caller's own notifications, newest first, and no omitted one is newer than a returned one |
| NotificationsRoute.MarkRead | src/app/api/notifications/route.ts:28-61 | 401 without a caller; 200 exactly when there is a caller, the body is JSON, and no database error hits a requested update; a row becomes read only when it is the caller's and `markAll` is truthy or its id is listed in a non-empty `ids`; nothing but the read flags changes; any non-200 leaves the store unchanged |
| NotificationsRoute.OthersUntouched | src/app/api/notifications/route.ts:38-54 | another account's notifications are never changed, whatever ids the body names |
| NotificationsRoute.MarkAllWins | src/app/api/notifications/route.ts:38-46 | a truthy `markAll` makes `ids` irrelevant |
| NotificationsRoute.MarkReadIdempotent | src/app/api/notifications/route.ts:38-54 | repeating the same request changes nothing more |
| NotificationsRoute.NothingAskedNothingChanges | src/app/api/notifications/route.ts:38-56 | a body with neither a truthy markAll nor a non-empty ids array succeeds and changes nothing |
| NotificationsRoute.MarkReadPreservesValid | src/app/api/notifications/route.ts:38-54 | marking read keeps the store's integrity |
| ProjectActions.GetProjectById | src/lib/actions/projects.ts:6-60 | throws without a signed-in user; `null` for a missing project or a failed query; otherwise the project with exactly its tasks, most recently updated first, and exactly its milestones, earliest first |
| ProjectActions.CreateProject | src/lib/actions/projects.ts:62-89 | throws without a caller id or a name; otherwise a new PLANNING project owned by the caller with no members, or `{ success: false }` with the store unchanged when the insert fails |
| ProjectActions.CreateTask | src/lib/actions/projects.ts:91-120 | throws without a caller id, title or project id; succeeds exactly when the database accepts a TODO task with priority MEDIUM by default; makes no access check |
| ProjectActions.ActionSkipsAccessCheck | src/lib/actions/projects.ts:91-120 | a caller refused with 403 by the route can still add the task through the action |
| ProjectActions.CreateProjectPreservesValid | src/lib/actions/projects.ts:75-88 | a project creation keeps the store's integrity |
| ProjectActions.CreateTaskPreservesValid | src/lib/actions/projects.ts:105-119 | an action task creation keeps the store's integrity |
| ProjectActions.ActionTaskDefaults | src/lib/actions/projects.ts:96-116 | the stored task has the caller as creator, status TODO, priority MEDIUM unless a truthy one is given, and no assignee |
| NotificationPanel.NatToStringRoundTrip | src/components/panels/NotificationPanel.tsx:28-32 | the number printed in a label reads back as the number computed |
| NotificationPanel.FormatTimeAgo | src/components/panels/NotificationPanel.tsx:21-33 | under a minute (a future timestamp included) reads "just now"; then whole minutes (1-59) "m ago", whole hours (1-23) "h ago", and whole days "d ago", each the floor of the elapsed seconds divided by the unit |
| NotificationPanel.UnreadCount | src/components/panels/NotificationPanel.tsx:61 | the unread count equals the number of unread items, counted one by one; it never exceeds the list and is zero exactly when every item is read |
| NotificationPanel.MarkAllAsRead | src/components/panels/NotificationPanel.tsx:63-74 | unless the request throws, every item becomes read with nothing else changed, whatever the reply's status; a throw leaves the list alone |
| NotificationPanel.ClearAll | src/components/panels/NotificationPanel.tsx:76-80 | the local list is emptied |
| NotificationPanel.HandleClick | src/components/panels/NotificationPanel.tsx:82-102 | a request is sent exactly for an unread item, and only that item becomes read; navigation happens for a truthy link even when the request throws |
| NotificationPanel.ClickCountsDown | src/components/panels/NotificationPanel.tsx:82-96 | clicking an unread item whose id is unique lowers the unread count by exactly one |
| NotificationPanel.ButtonsAfterActions | src/components/panels/NotificationPanel.tsx:171-176 | after marking all read "Mark all as read" is disabled; after clearing both buttons are |
| NotificationPanel.MarkAllEnabledIff | src/components/panels/NotificationPanel.tsx:171-173 | outside loading, "Mark all as read" is enabled exactly when some item is unread |
| Flows.RegisterThenSignIn | src/lib/auth.ts:18-77 | an account just registered can sign in with its username and password; the request's caller is then that account, with the role it was given (MEMBER, the assumed database default) |
| Flows.RegisterThenSignInByEmail | src/lib/auth.ts:18-77 | an account just registered can sign in with its email and password; the request's caller is then that account, with role MEMBER as above |

## Left out

- Prisma itself. Queries are functions over the `Store`, and database errors are the `fault` flags.
- Concurrent requests are not modelled. A registration racing another with the same email is not covered.
- bcrypt is a parameter. Hashing cost, salts and timing are not modelled. `Flows.RegisterThenSignIn` assumes that `compare` accepts a password against its own hash.
- JWT signing, expiry and cookie handling are not modelled. A session is given as already decoded, or as absent.
- The email regular expression of the validation library is the parameter `validEmail`. Length checks count characters, not UTF-16 code units.
- A field of the wrong JSON type, such as a number for `name`, is not modelled. Fields are present strings or missing.
- A JSON body that is not an object is not modelled as such. A body of `null` makes the handlers throw on their first field access (500), and `None` stands for it as well as for a body that is not JSON. A number, string or array body would reach the registration schema and get 400 with "Expected object"; no input of `Register.Register` yields that reply.
- A missing field reports "Required", the library's default message.
- The Prisma schema is not part of this model. A new account is assumed to get the schema's defaults, role MEMBER and image null, which `Register.NewAccount` writes in; the registration route itself sets neither. Timestamps and any unique index on email or username are not modelled: uniqueness of email and username in the `Store` follows from the route's own duplicate check.
- The priority and status enums are not validated. An invalid value is stored as given. In the database the insert would raise: 500 in the route, `{ success: false }` in the `createTask` action.
- ProjectActions.CreateTask: answers `Success` for a priority outside the enum, where the database's rejection gives `{ success: false, error: "Failed to create task" }`, because the enum is not modelled.
- TasksRoute.CreateTask: likewise stores a priority or status outside the enum, where the route answers 500.
- Date strings such as `startDate` are stored unparsed. An invalid date is not modelled.
- The `include` projections are not modelled. These are the owner, member, assignee, creator and project summaries attached to replies.
- `revalidatePath` and console logging are left out. They do not affect replies or the store.
- `formatTimeAgo` takes elapsed milliseconds as an integer. The clock and the parsing of `createdAt` are not modelled, so an unparseable date (NaN) is not covered.
- The panel's fetching, its `loading` transitions, `getTypeIcon`, the markup and the router are left out. The router is reduced to the URL navigated to.
- The new-project page and the login page are not part of this model. Neither are the end-to-end tests.
- Prisma's order for ties in `orderBy` is unspecified. The model keeps store order for equal keys.
- Notifications.NotifyAllTeamMembers: the per-account count of what the fan-out adds is stated separately, in `Notifications.FanOutCounts`.
- TasksRoute.CreateTaskNotifies: stated for the case where both notification writes are accepted. When a write fails, `TasksRoute.NotificationFailuresInvisible` and the prefix property of `TasksRoute.Commit` cover what remains.
