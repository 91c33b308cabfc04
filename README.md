# ClubHub API request handler, modelled in Dafny

This project models the `fetch` handler of the ClubHub Cloudflare Worker,
`functions/api/worker.js`. The handler does four things in order:

1. It strips a leading `/api` from the path.
2. It answers a CORS preflight.
3. It refuses to work without a database binding.
4. It walks an ordered chain of `if (path-test && method === X)` guards.

The first guard that passes wins. Its handler reads and writes the D1 tables:
`users`, `club_members`, `clubs`, `club_member_links`, `membership`,
`club_announcements`, `general_announcements` and `events`. A request that no
guard accepts falls through to a 404 that echoes the path and the method. A
JavaScript exception thrown inside the guard chain becomes a 500 from the
`catch`.

The model has three layers.

- **Pure decision functions.**
  - `Router` holds the guard table, the regex matcher and the dispatcher.
  - `Queries` holds the reading handlers.
  - `Handlers` holds the writing handlers. Each is a function from a
    database snapshot to the reply and the snapshot it leaves.
  - `Service` holds the whole `fetch`.
- **Properties of those functions.**
  - `Invariants` proves that every writing handler keeps the tables well
    formed.
  - `Scenarios` relates sequences of requests, such as join-then-leave and
    create-then-read.
- **The store as a mutable object.** `Api.Store` has one field per table
  and per key counter. Each writing route is a method that checks the
  request, looks rows up by scanning, and inserts, deletes or updates rows in
  place, as the handler's SQL statements do. Each method is proved to produce
  exactly the reply and tables of the pure handler, and to keep `Valid()`.
  `Api.Store.Fetch` is proved equal to `Service.Serve`.

Modelling decisions:

- Request bodies are already-decoded JSON values (`Values.Json`).
- Reading a property of a `null` body throws (`Values.Prop.Throws`), and the
  `catch` turns that into the 500 reply `Crash`.
- Column values are `Json`, and SQL NULL is `JNull`.
- SQL `=` is value equality. SQLite type affinity is not modelled, so the
  string `"3"` does not equal the number `3`.
- Primary keys come from one counter per table that a route inserts into.
  Every new key is above every key in use, and a key is never handed out
  twice.
- Rows are returned in table order.

The code behaves as follows, and the model follows it:

- A failed login is a 500, not a 401.
  - With no admin and no member match, the code reads `member.id` of a null
    `member` at line 107.
  - The `TypeError` lands in the `catch`, so the 401 at line 122 is
    unreachable.
- Joining a club checks neither that the club exists nor that the member
  exists.
- Creating a club requires `name`, `description` and `image`.
- Deleting a club, user or event does not cascade.
- `totalMemberships` in `GET /stats` counts `club_members` rows, not links.
- The second `GET /members` and the second `PUT /members/:id` guards are
  dead code.
- There is no `GET /clubs` list route and no `/auth/register` route.

## Model

| member | source | states |
|---|---|---|
| Values.Field | functions/api/worker.js:236 | reading a property of a `null` body throws; an object yields its key or `undefined` |
| Values.CoalesceOrNull | functions/api/worker.js:210-212 | the logical-or idiom, `COALESCE` of the value or NULL, takes the supplied value exactly when it is truthy, so `''` and `0` keep the column |
| Values.CoalesceNullish | functions/api/worker.js:561-581 | the nullish idiom, `COALESCE` of the value `??` NULL, takes every supplied non-null value, `''` and `0` included |
| Values.PartialUpdateIdiomsDiffer | functions/api/worker.js:210-212 | the two partial-update idioms differ exactly on defined, non-null, falsy values that differ from the column |
| Router.DigitRun | functions/api/worker.js:146 | the greedy `\d+` run is all digits and stops at the first non-digit |
| Router.MatchSound | functions/api/worker.js:146 | whatever the matcher accepts is the pattern with its `\d+` positions filled by numerals |
| Router.MatchComplete | functions/api/worker.js:234 | a well-formed pattern accepts every path it describes, with exactly those captures |
| Router.MatchIff | functions/api/worker.js:279 | both directions: the regex test accepts a path iff the path is the pattern rendered with numeral captures |
| Router.ToDecimal | functions/api/worker.js:147 | the canonical numeral of an id is a numeral without leading zeros |
| Router.DecimalOfToDecimal | functions/api/worker.js:147 | `parseInt` reads the canonical numeral of `n` back as `n` |
| Router.DecimalLeadingZero | functions/api/worker.js:235 | a leading zero does not change the parsed id |
| Router.Ids | functions/api/worker.js:280-282 | each path id is the decimal value of its captured digits |
| Router.FirstGuard | functions/api/worker.js:50 | the guard chosen accepts the request and no earlier guard does; none is chosen iff no guard accepts |
| Router.GuardShape | functions/api/worker.js:146-729 | every guard's pattern captures as many ids as its handler takes, no GET guard writes, and every pattern is well formed |
| Router.Dispatch | functions/api/worker.js:50-729 | first guard wins; no route iff no guard accepts; the route carries its handler's id count; a GET never reaches a writer |
| Router.GuardAcceptsIff | functions/api/worker.js:146-729 | both directions: a guard of the table takes a request with given captures iff the method fits and the path is its pattern with one numeral per id its handler takes |
| Router.StripApi | functions/api/worker.js:22-24 | a path starting with `/api` loses that prefix and is otherwise unchanged |
| Router.StripApiDropsFour | functions/api/worker.js:22-24 | exactly four characters go, also from `/apix…` |
| Router.Decide | functions/api/worker.js:29-36 | OPTIONS is answered first, then a missing binding; a handler runs iff some guard accepts the stripped path |
| Router.OptionsBeforeDatabase | functions/api/worker.js:29-31 | a preflight is answered whether or not the database is bound |
| Router.UnmatchedIsNotFound | functions/api/worker.js:739-744 | both directions: the 404 echoing path and method is returned exactly when no guard accepts |
| Router.SecondMembersListIsDead | functions/api/worker.js:184-192 | the second `GET /members` guard is never the first to accept |
| Router.SecondMemberUpdateIsDead | functions/api/worker.js:623-626 | the second `PUT /members/:id` guard is never the first to accept |
| Router.DispatchAt | functions/api/worker.js:50-729 | a request goes to the first guard that accepts it, with that guard's ids |
| Router.JoinRoute | functions/api/worker.js:234-235 | `/clubs/<digits>/join` under POST reaches the join handler with the decimal value of the digits |
| Router.ClubPostIsNotFound | functions/api/worker.js:739-744 | `POST /clubs/<digits>` matches no guard, although the path matches other methods' guards |
| Router.ConcreteWrongMethod | functions/api/worker.js:739-744 | `POST /api/clubs/5` gives the not-found decision echoing `/clubs/5` and `POST` |
| Router.ConcreteJoin | functions/api/worker.js:234-235 | `POST /api/clubs/007/join` is the join of club 7 |
| Tables.First | functions/api/worker.js:204 | `.first()` gives a row satisfying the condition, the one at the first satisfying index; none iff no row does |
| Tables.FirstIndex | functions/api/worker.js:204 | the index found is the first whose row satisfies the condition |
| Tables.Filter | functions/api/worker.js:229 | the rows a `DELETE` spares are exactly the rows of the table the condition keeps |
| Tables.FilterKeepsAll | functions/api/worker.js:270-272 | a `DELETE` that matches no row leaves the table as it was |
| Tables.FilterIdempotent | functions/api/worker.js:289-291 | deleting twice deletes nothing more |
| Tables.FilterPairwise | functions/api/worker.js:229 | deleting rows keeps distinct keys distinct |
| Tables.AppendPairwise | functions/api/worker.js:247-249 | appending a row that differs from every row keeps the rows pairwise distinct |
| Tables.FilterRemovesOne | functions/api/worker.js:229 | a `DELETE` that rejects exactly one row shortens the table by one |
| Tables.DropClubCount | functions/api/worker.js:229 | deleting a club by a key in use removes exactly one row |
| Tables.DropEventCount | functions/api/worker.js:470 | deleting an event by a key in use removes exactly one row |
| Tables.DropUserCount | functions/api/worker.js:543 | deleting a user by a key in use removes exactly one row |
| Tables.UpdateWhere | functions/api/worker.js:210-212 | `UPDATE … WHERE` replaces each selected row and leaves the others and the length alone |
| Tables.UpdateKeepsKeys | functions/api/worker.js:453-455 | an update that does not touch the key column keeps every row's key |
| Tables.FindClub | functions/api/worker.js:204 | the club found has the key; none iff no club has it |
| Tables.FindEvent | functions/api/worker.js:447 | the event found has the key; none iff no event has it |
| Tables.FindUser | functions/api/worker.js:516 | the user found has the key; none iff no user has it |
| Tables.FindMember | functions/api/worker.js:553-555 | the member found has the key; none iff no member has it |
| Tables.DropClub | functions/api/worker.js:229 | a club row stays iff it has another key |
| Tables.DropEvent | functions/api/worker.js:470 | an event row stays iff it has another key |
| Tables.DropUser | functions/api/worker.js:543 | a user row stays iff it has another key |
| Tables.DropNote | functions/api/worker.js:376-378 | a general announcement stays iff it has another key |
| Tables.DropClubNote | functions/api/worker.js:337-339 | a club announcement stays unless both its key and its club match |
| Tables.RemovePair | functions/api/worker.js:270-272 | every link of the pair goes, every other link stays, and without such a link the table is unchanged |
| Tables.JoinThenLeaveRestores | functions/api/worker.js:247-272 | inserting a new pair's link and then deleting the pair restores the link table |
| Tables.RemovePairIdempotent | functions/api/worker.js:289-291 | deleting a pair's links twice equals deleting them once |
| Tables.RemovePairValid | functions/api/worker.js:270-272 | deleting a pair keeps the link table free of duplicates |
| Queries.Map | functions/api/worker.js:84 | `.map` yields one image per element, in order |
| Queries.MapMembers | functions/api/worker.js:84 | both directions: a value is in the mapped list iff it is the image of some element |
| Queries.FindAdmin | functions/api/worker.js:58-60 | the admin found has the email and the password; none iff no `users` row has both |
| Queries.FindByCredentials | functions/api/worker.js:74-76 | the member found has the email and the password; none iff no member row has both |
| Queries.LedClub | functions/api/worker.js:87-89 | the club found has the member as its leader; none iff no club does |
| Queries.JoinedClubs | functions/api/worker.js:80-84 | `clubs` holds exactly the `club_id`s of the member's link rows |
| Queries.MemberIdentityOf | functions/api/worker.js:91-102 | a member who leads a club gets role and type `Leader` and `leaderOf` that club; otherwise the stored role or `Member`, type `Member`, no `leaderOf` |
| Queries.Login | functions/api/worker.js:50-123 | a null body gives 500 and missing credentials 400; it is 200 iff an admin or a member matches; never 401 |
| Queries.LoginAdmin | functions/api/worker.js:58-71 | a matching admin logs in as `Admin` with the stored role or `Admin` |
| Queries.LoginAdminIgnoresMembers | functions/api/worker.js:62-71 | once an admin matches, the member, link and club tables play no part |
| Queries.LoginMember | functions/api/worker.js:74-102 | with no admin match, the first matching member logs in with the derived identity |
| Queries.LoginFailureCrashes | functions/api/worker.js:104-122 | wrong credentials give the 500 of the `catch`, not the 401 |
| Queries.ListMembers | functions/api/worker.js:127-135 | one summary per member row |
| Queries.GetMembership | functions/api/worker.js:146-152 | always 200; `{}` iff the club has no plan row, otherwise one of its plan rows |
| Queries.ClubNotesOf | functions/api/worker.js:324-326 | exactly the views of the club's announcements |
| Queries.ListClubAnnouncements | functions/api/worker.js:321-329 | 200 with exactly the club's announcements; the club's existence is not checked |
| Queries.ListAnnouncements | functions/api/worker.js:349-355 | 200 with one view per general announcement |
| Queries.ViewEvent | functions/api/worker.js:400-402 | the LEFT JOIN keeps the event; when a club has the event's `club_id` the view carries that club's name, and when none has it the name is NULL |
| Queries.ListEvents | functions/api/worker.js:388-394 | one joined view per event |
| Queries.GetEvent | functions/api/worker.js:397-409 | 404 "Event not found" iff no event has the key, otherwise 200 with that event and the name its LEFT JOIN gives |
| Queries.ListUsers | functions/api/worker.js:480-486 | one user view per admin account, without the password |
| Queries.Stats | functions/api/worker.js:592-617 | 200 with the row counts of clubs, users, events and club_members |
| Queries.StatsIgnoresOtherTables | functions/api/worker.js:592-617 | the link, plan and announcement tables play no part in the counts |
| Queries.GetMember | functions/api/worker.js:663-685 | 404 iff no member has the key; otherwise the profile, with `null` for a falsy `club_id`, and for a truthy one the club it names whenever such a club exists |
| Queries.Roster | functions/api/worker.js:693-698 | an entry is listed iff some link of the club ties it to a member row |
| Queries.GetClub | functions/api/worker.js:687-720 | 404 iff no club has the key; otherwise the club with its roster, its announcements and exactly its events |
| Handlers.CreateClub | functions/api/worker.js:155-177 | null body 500; 400 unless name, description and image are truthy; otherwise 201 with the fresh key, the supplied fields, admin and leader stored as supplied or NULL when falsy, exactly one club row appended |
| Handlers.UpdateClub | functions/api/worker.js:196-215 | 500, then 400 when all four fields are falsy, then 404; on 200 only the keyed club changes, each field taken only when truthy |
| Handlers.DeleteClub | functions/api/worker.js:219-232 | 404 iff the club is missing; on 200 only the club row goes, other tables stay |
| Handlers.Join | functions/api/worker.js:234-252 | 400 for a falsy `memberId`, 409 leaving the table unchanged for an existing pair, else exactly one link appended; the club is not checked |
| Handlers.Leave | functions/api/worker.js:255-276 | 400 for a falsy `memberId`, 404 changing nothing without a link, else every link of the pair removed and the others kept |
| Handlers.RemoveMember | functions/api/worker.js:279-294 | 404 only when the club is missing; otherwise the pair's links are deleted whether or not there were any |
| Handlers.CreateClubAnnouncement | functions/api/worker.js:300-318 | 400 without text, then 404 without the club; otherwise 201 and exactly one announcement appended |
| Handlers.DeleteClubAnnouncement | functions/api/worker.js:332-342 | always 200; a row goes iff both its key and its club match |
| Handlers.CreateAnnouncement | functions/api/worker.js:358-370 | 400 without text; otherwise 201 and exactly one general announcement appended |
| Handlers.DeleteAnnouncement | functions/api/worker.js:373-381 | always 200; a row goes iff it has the key |
| Handlers.CreateEvent | functions/api/worker.js:412-440 | 400 without title, description and date; the club is checked only for a truthy `clubId`; on 201 one event appended with the supplied fields and the supplied `clubId`, or NULL when falsy, so its club is NULL or existing |
| Handlers.UpdateEvent | functions/api/worker.js:443-458 | 500 for a null body, then 404; on 200 only the keyed event changes, each field taken only when truthy |
| Handlers.DeleteEvent | functions/api/worker.js:461-473 | 404 iff the event is missing; on 200 only that event goes |
| Handlers.UpdateUser | functions/api/worker.js:512-531 | 404 before the role check; 400 for a truthy role outside the whitelist; on 200 only the keyed user changes |
| Handlers.DeleteUser | functions/api/worker.js:534-546 | 404 iff the user is missing; on 200 only that user goes |
| Handlers.UpdateMember | functions/api/worker.js:549-584 | 404 before any property of the body is read; on 200 only the keyed member changes, each profile field taken when not nullish, `''` included |
| Handlers.PatchMembersUpdates | functions/api/worker.js:561-581 | the profile update changes only the keyed rows, each as the `??`-then-COALESCE step says |
| Handlers.PatchedProfile | functions/api/worker.js:561-581 | one row's profile update keeps the key, credentials, role and club |
| Invariants.AppendFresh | functions/api/worker.js:162-164 | a row whose key is above every key in use may be appended without a duplicate key |
| Invariants.CreateClubKeepsValid | functions/api/worker.js:162-164 | club creation keeps keys distinct and fresh |
| Invariants.PatchClubsKeepsValid | functions/api/worker.js:210-212 | the club update keeps keys distinct and fresh |
| Invariants.UpdateClubKeepsValid | functions/api/worker.js:196-215 | club update keeps the tables well formed |
| Invariants.DeleteClubKeepsValid | functions/api/worker.js:229 | club deletion keeps the tables well formed |
| Invariants.JoinKeepsValid | functions/api/worker.js:247-249 | a join never links a pair twice |
| Invariants.LeaveKeepsValid | functions/api/worker.js:270-272 | leaving keeps the link table free of duplicates |
| Invariants.RemoveMemberKeepsValid | functions/api/worker.js:289-291 | leader removal keeps the link table free of duplicates |
| Invariants.CreateClubAnnouncementKeepsValid | functions/api/worker.js:313-315 | the club announcement insert keeps keys distinct and fresh |
| Invariants.DeleteClubAnnouncementKeepsValid | functions/api/worker.js:337-339 | the club announcement delete keeps the tables well formed |
| Invariants.CreateAnnouncementKeepsValid | functions/api/worker.js:365-367 | the general announcement insert keeps keys distinct and fresh |
| Invariants.DeleteAnnouncementKeepsValid | functions/api/worker.js:376-378 | the general announcement delete keeps the tables well formed |
| Invariants.CreateEventKeepsValid | functions/api/worker.js:427-429 | the event insert keeps keys distinct and fresh |
| Invariants.PatchEventsKeepsValid | functions/api/worker.js:453-455 | the event update keeps keys distinct and fresh |
| Invariants.UpdateEventKeepsValid | functions/api/worker.js:443-458 | event update keeps the tables well formed |
| Invariants.DeleteEventKeepsValid | functions/api/worker.js:470 | event deletion keeps the tables well formed |
| Invariants.PatchUsersKeepsValid | functions/api/worker.js:526-528 | the user update keeps user keys distinct |
| Invariants.UpdateUserKeepsValid | functions/api/worker.js:512-531 | user update keeps the tables well formed |
| Invariants.DeleteUserKeepsValid | functions/api/worker.js:543 | user deletion keeps the tables well formed |
| Invariants.PatchMembersKeepsValid | functions/api/worker.js:561-581 | the profile update keeps member keys distinct |
| Invariants.UpdateMemberKeepsValid | functions/api/worker.js:549-584 | profile update keeps the tables well formed |
| Scenarios.JoinThenLeave | functions/api/worker.js:234-276 | a successful join followed by a leave of the same pair restores the database, except the link counter |
| Scenarios.JoinTwiceConflicts | functions/api/worker.js:241-245 | a second join of the same pair is a 409 that changes nothing |
| Scenarios.LeaveTwiceNotFound | functions/api/worker.js:262-267 | a second leave of the same pair is a 404 that changes nothing |
| Scenarios.RemoveMemberIdempotent | functions/api/worker.js:279-294 | leader removal repeated gives the same reply and database |
| Scenarios.CreateClubThenGet | functions/api/worker.js:155-177 | a created club is read back under its new key by `GET /clubs/:id`, with an empty roster, no announcements and no events while no link, announcement or event names that key |
| Scenarios.DeleteClubLeavesOrphans | functions/api/worker.js:219-232 | deleting a club keeps its links and events, and its events lose their club name |
| Scenarios.DeleteEventThenGet | functions/api/worker.js:461-473 | after a deletion, `GET /events/:id` is a 404 |
| Scenarios.CreateEventThenGet | functions/api/worker.js:412-440 | a created event is read back under its new key |
| Scenarios.UpdateUserRoleWhitelisted | functions/api/worker.js:522-523 | an updated user ends with a whitelisted role or the role it had |
| Scenarios.EmptyStringClearsProfile | functions/api/worker.js:573-579 | `''` overwrites a profile field |
| Scenarios.EmptyStringKeepsClubField | functions/api/worker.js:210-212 | `''` leaves a club field as it was |
| Scenarios.AdminShadowsMember | functions/api/worker.js:62-71 | credentials that match both an admin and a member log in as the admin |
| Scenarios.CreateClubCounted | functions/api/worker.js:592-619 | a created club raises `totalClubs` by one and leaves the other counts |
| Scenarios.JoinLeavesStatsAlone | functions/api/worker.js:605-617 | a join leaves every count, `totalMemberships` included |
| Service.Run | functions/api/worker.js:50-736 | the reading handlers never change the database |
| Service.Serve | functions/api/worker.js:15-752 | preflight 204, missing binding 500, unmatched 404 echoing path and method, otherwise the dispatched handler; a GET changes nothing |
| Service.RunKeepsValid | functions/api/worker.js:50-736 | every handler keeps the tables well formed |
| Service.RunMovesStats | functions/api/worker.js:592-619 | over every route: `totalClubs` moves only with a 201 club create (+1) and a 200 club delete (-1), `totalEvents` only with event create and delete, `totalUsers` only with a user delete, and `totalMemberships` never, since no route inserts or deletes a `club_members` row |
| Service.DeleteClubMovesStats | functions/api/worker.js:222-231 | a successful club delete lowers `totalClubs` by one and leaves the other counts |
| Service.DeleteEventMovesStats | functions/api/worker.js:464-472 | a successful event delete lowers `totalEvents` by one and leaves the other counts |
| Service.DeleteUserMovesStats | functions/api/worker.js:537-545 | a successful user delete lowers `totalUsers` by one and leaves the other counts |
| Service.ServeKeepsValid | functions/api/worker.js:15-752 | whatever the request, the tables stay well formed |
| Service.LoginNever401 | functions/api/worker.js:104-122 | a login request ends in 200, 400 or 500, end to end |
| Service.ServeJoin | functions/api/worker.js:234-252 | `POST /api/clubs/007/join` runs the join of club 7 |
| Api.FirstRow | functions/api/worker.js:204 | the scan returns the first row satisfying the condition |
| Api.KeepRows | functions/api/worker.js:229 | the scan keeps exactly the rows a `DELETE` spares, in order |
| Api.UpdateRows | functions/api/worker.js:210-212 | the scan replaces each selected row where it stands |
| Api.Store.CreateClub | functions/api/worker.js:155-177 | the in-place insert gives the reply and tables of `Handlers.CreateClub` and keeps `Valid()` |
| Api.Store.UpdateClub | functions/api/worker.js:196-215 | the in-place update equals `Handlers.UpdateClub` and keeps `Valid()` |
| Api.Store.DeleteClub | functions/api/worker.js:219-232 | the in-place delete equals `Handlers.DeleteClub` and keeps `Valid()` |
| Api.Store.Join | functions/api/worker.js:234-252 | the in-place insert equals `Handlers.Join` and keeps `Valid()` |
| Api.Store.Leave | functions/api/worker.js:255-276 | the in-place delete equals `Handlers.Leave` and keeps `Valid()` |
| Api.Store.RemoveMember | functions/api/worker.js:279-294 | the in-place delete equals `Handlers.RemoveMember` and keeps `Valid()` |
| Api.Store.CreateClubAnnouncement | functions/api/worker.js:300-318 | the in-place insert equals `Handlers.CreateClubAnnouncement` and keeps `Valid()` |
| Api.Store.DeleteClubAnnouncement | functions/api/worker.js:332-342 | the in-place delete equals `Handlers.DeleteClubAnnouncement` and keeps `Valid()` |
| Api.Store.CreateAnnouncement | functions/api/worker.js:358-370 | the in-place insert equals `Handlers.CreateAnnouncement` and keeps `Valid()` |
| Api.Store.DeleteAnnouncement | functions/api/worker.js:373-381 | the in-place delete equals `Handlers.DeleteAnnouncement` and keeps `Valid()` |
| Api.Store.CreateEvent | functions/api/worker.js:412-440 | the in-place insert equals `Handlers.CreateEvent` and keeps `Valid()` |
| Api.Store.UpdateEvent | functions/api/worker.js:443-458 | the in-place update equals `Handlers.UpdateEvent` and keeps `Valid()` |
| Api.Store.DeleteEvent | functions/api/worker.js:461-473 | the in-place delete equals `Handlers.DeleteEvent` and keeps `Valid()` |
| Api.Store.UpdateUser | functions/api/worker.js:512-531 | the in-place update equals `Handlers.UpdateUser` and keeps `Valid()` |
| Api.Store.DeleteUser | functions/api/worker.js:534-546 | the in-place delete equals `Handlers.DeleteUser` and keeps `Valid()` |
| Api.Store.UpdateMember | functions/api/worker.js:549-584 | the in-place update equals `Handlers.UpdateMember` and keeps `Valid()` |
| Api.Store.Query | functions/api/worker.js:50-736 | a reading route answers from the current tables as `Service.Run` does |
| Api.Store.Run | functions/api/worker.js:50-736 | the handler a guard selected runs in place as `Service.Run` says |
| Api.Store.Fetch | functions/api/worker.js:15-752 | one request, run against the store, gives the reply and tables of `Service.Serve` and keeps `Valid()` |

## Left out

- Response construction, the CORS headers and `jsonResponse` (lines 1-13) are transport details. A reply is a status and a body variant.
- `request.json()` is left out. The body is an already-decoded JSON value. The parse error for a malformed body, which the `catch` would turn into a 500, is not modelled.
- Logging (`console.log`, `console.error`) is left out.
- The SQL text and the D1 client are replaced by table operations. D1 errors (a failed statement, a bind of `undefined`) are not modelled.
- SQLite type affinity in comparisons is not modelled: SQL `=` is value equality.
- `datetime("now")`, `created_at` and `joined_at` are left out. So are announcement dates and every `ORDER BY`: listings come back in table order.
- The health check's clock reading is the parameter `now` of `Service.Serve`.
- The `stack` of the 500 from the `catch` is not modelled. Its body is the single value `Crash`.
- `GET /users/:id` (lines 489-509) is routed but not modelled. Its null check is empty, and its join uses columns of a schema the code does not show. The model's handler answers `200` with the body `Unspecified` and leaves the tables alone.
- Router.Ids: Numbers are unbounded integers. The precision loss of `parseInt` and `Number` on digit strings longer than 15 digits is not modelled.
- Request concurrency and `async` interleaving are left out, because the handler is sequential per request.
- Floating-point numbers, `NaN` and non-ASCII text are not modelled inside JSON values.
- Key allocation: a new row's key is the table's counter, which only grows. This matches SQLite only for tables declared `AUTOINCREMENT`; a plain rowid table hands out one more than the largest key in use, so it reuses the key of a deleted last row. The schema is not part of this model.
- Api.Store.Query: the reading routes compute their reply with the `Queries` functions on the store's tables rather than with scanning loops of their own.
