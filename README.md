# HareID business rules in Dafny

HareID is a Go HTTP service for accounts, teams and subscriptions. Users sign in with Google. They create teams and ask to join other teams; join requests and the notifications they raise are kept in tables. The payment provider's subscription webhooks keep a local subscription table in step.
This project models the service layer, repositories, validators and field validation of that system over an in-memory database. It proves what each operation does to the tables and what it returns.

The database is the class `Store.Database`. It has one map per table, keyed by the row id, and one id sequence per table. Each repository function is one table operation:

- inserts take the next sequence value;
- lookups on the primary key are functions;
- lookups on other columns are methods that pick any matching row, because the query leaves the order unspecified;
- the `GetAll` reads are loops that append rows. They take a table whose every row sits under its own id, as the primary key guarantees (the predicate `Keyed` of each repository);
- updates and deletes report affected rows. Zero rows give either an error or a silent 0, as in each source function.

Service operations that write run in a transaction. The model snapshots the tables at `Begin`, and every error path calls `Rollback`, which restores the snapshot. The id sequences are not rolled back, just as database sequences are not.
Driver, connection and constraint failures are modelled with a parameter `refused: set<DbCall>`, which names the calls the database refuses in that run: `Begin`, the n-th write `Write(n)`, or `Commit`. This makes every early-return and rollback path of the transactions and the writes reachable.
Repository writes take the matching `accepted: bool` for their one statement.

The modules follow the Go packages:

- `Models`, `UserModel` and `TeamModel` hold the entities and their validation.
- `Store` holds the database.
- There is one repository module and one service module per table.
- `Validators` holds the ownership checks.
- `Webhook` holds the status mapping and the subscription-event handler.

The entity drafts disagree with the code that uses them. The model adds `Team.ownerId`, `Subscription.userId` and the role `Owner`, as the repositories and services use them. The service calls the team check `ValidateTeam`, but internal/models/team.go:16 defines it as `ValidadeTeam`; this project uses `TeamModel.ValidadeTeam`.

## Model

| member | source | states |
|---|---|---|
| Store.Database.Rollback | internal/services/joinRequest.go:28 | undoing a transaction restores every table to its state at Begin, keeps the sequences, and keeps the store well formed |
| UserModel.TrimSpace | internal/models/user.go:59-62 | the result has no leading or trailing whitespace, is obtained from the input by dropping only leading and trailing whitespace, and is the input itself when the input has none |
| UserModel.TrimSpaceIdempotent | internal/models/user.go:59-62 | trimming twice is trimming once |
| UserModel.Format | internal/models/user.go:59-62 | name and CPF/CNPJ are trimmed of outer whitespace; every other field is unchanged |
| UserModel.FormatIdempotent | internal/models/user.go:59-62 | Format applied twice equals Format applied once |
| UserModel.ValidateData | internal/models/user.go:33-56 | step "update" always passes; otherwise the first missing item among Google subject, name and an auth provider of 0 or 1 gives its message; step "login" also requires consent; it passes exactly when those hold |
| UserModel.ValidateUser | internal/models/user.go:24-31 | returns exactly what ValidateData returns; step "update" always passes |
| UserModel.LoginIsStricterThanCreate | internal/models/user.go:33-56 | a user passing the "login" checks passes the "create" checks |
| UserModel.OtherStepsActAsCreate | internal/models/user.go:33-56 | any step other than "update" and "login" checks exactly what "create" checks |
| TeamModel.ValidateData | internal/models/team.go:23-31 | an empty name gives "name is required"; a name with an empty domain gives "domain is required"; it passes exactly when both are non-empty |
| TeamModel.ValidadeTeam | internal/models/team.go:16-21 | returns exactly what ValidateData returns |
| TeamModel.ValidationIgnoresStep | internal/models/team.go:23-31 | the result does not depend on the step |
| Validators.CanSee | internal/validators/joinRequest.go:12-19 | true exactly when the user id is the team's owner id; a missing team gives the lookup's "team not found" |
| Validators.IsTeamOwner | internal/validators/teams.go:12-20 | true exactly when the user id is the team's owner id; a missing team gives the lookup's error |
| Validators.IsTeamOwnerAgreesWithCanSee | internal/validators/teams.go:19 | IsTeamOwner and CanSee agree on every input |
| Validators.CanSeeDependsOnlyOnOwner | internal/validators/joinRequest.go:18 | for a stored team the answer depends only on that team's owner id |
| Validators.CanModify | internal/validators/users.go:9-11 | true exactly when the two ids are equal |
| Validators.CanModifyIsSymmetric | internal/validators/users.go:10 | swapping the two ids does not change the answer |
| Validators.CanModifyIsReflexive | internal/validators/users.go:10 | every user may modify itself |
| JoinRequestRepository.Create | internal/repository/joinRequest.go:16-38 | a refused insert changes nothing; otherwise one row is added under a fresh id with no decision, and the input is returned with that id |
| JoinRequestRepository.GetAll | internal/repository/joinRequest.go:40-75 | on a table whose rows sit under their own ids, returns every request of the team, once each, and nothing else |
| JoinRequestRepository.GetByID | internal/repository/joinRequest.go:77-108 | succeeds exactly when a row has both the id and the team id, returning it; otherwise "join request not found" |
| JoinRequestRepository.Delete | internal/repository/joinRequest.go:110-128 | removes only the row matching id and team and reports 1; no match gives "no team deleted" and changes nothing |
| JoinRequestRepository.Accept | internal/repository/joinRequest.go:130-145 | on the row matching id and team, sets status 1 and the decider, whatever the current status; no match gives "no request accepted" and changes nothing |
| JoinRequestRepository.Reject | internal/repository/joinRequest.go:147-162 | on the row matching id and team, sets status 2 and the decider, whatever the current status; no match gives "no request accepted" and changes nothing |
| JoinRequestRepository.DecidedTouchesOneRow | internal/repository/joinRequest.go:132-142 | a decision keeps every other row and changes only the status and decider of the decided row |
| JoinRequestServices.Create | internal/services/joinRequest.go:22-62 | on success, adds exactly one pending request from the caller to the team, addressed to the owner, and exactly one unseen notice to the owner that refers to it; a missing team gives "team not found"; any failure leaves every table as it was |
| JoinRequestServices.GetAll | internal/services/joinRequest.go:65-82 | the team owner gets every request of the team, once each, and nothing else; any other caller gets the permission error; a missing team gives "team not found" |
| JoinRequestServices.GetByID | internal/services/joinRequest.go:85-102 | succeeds exactly when the request id equals the team's owner id and the request belongs to the team; the caller id plays no part |
| JoinRequestServices.GetByIDIgnoresCaller | internal/services/joinRequest.go:87 | two callers always get the same answer |
| JoinRequestServices.Delete | internal/services/joinRequest.go:105-131 | deletes only the row matching request id and team, and only when the request id equals the owner id; failures change nothing; join-request statuses keep to the state machine |
| JoinRequestServices.Accept | internal/services/joinRequest.go:133-168 | succeeds exactly when the request id equals the owner id and the request is in the team and pending; then that request gets status 1 and the caller as decider, and nothing else changes; a decided request gives "request already accepted or rejected"; failures change nothing |
| JoinRequestServices.Reject | internal/services/joinRequest.go:170-205 | as Accept, with status 2 and its own permission message |
| NotificationRepository.CreateByJoinRequest | internal/repository/notifications.go:19-51 | a refused insert changes nothing; otherwise one row is added under a fresh id, with the sender of the request, addressed to the team owner, of the join-request kind, referring to the request and unseen |
| NotificationRepository.GetAll | internal/repository/notifications.go:53-93 | on a table whose rows sit under their own ids, returns every notification received by the user, once each, and nothing else; none at all gives "no notifications found" |
| NotificationRepository.GetByID | internal/repository/notifications.go:95-126 | succeeds exactly when a row has both the id and the receiver; otherwise "notification not found" |
| NotificationRepository.Delete | internal/repository/notifications.go:128-144 | removes only the row matching id and receiver; no match gives "no notification deleted" and changes nothing |
| NotificationServices.GetAll | internal/services/notifications.go:18-31 | a caller other than the path user gets "you can only see your own notifications"; otherwise it returns what the repository returns: every notification received by the caller, once each, and nothing else |
| NotificationServices.GetByID | internal/services/notifications.go:33-45 | succeeds only for the caller's own notification; another user's gives the ownership error |
| NotificationServices.Delete | internal/services/notifications.go:47-69 | a caller other than the path user gets the ownership error before any transaction; on success only the matching notification is removed; failures change nothing |
| TeamRepository.Create | internal/repository/team.go:16-34 | one row is added under a fresh id with the given name, domain and owner, and returned |
| TeamRepository.GetAll | internal/repository/team.go:36-69 | on a table whose rows sit under their own ids, returns every team, once each, and nothing else |
| TeamRepository.GetTeamByID | internal/repository/team.go:71-96 | the query with every selected column scanned: finds the stored team, or "team not found" |
| TeamRepository.GetTeamByIDAsWritten | internal/repository/team.go:73-87 | the query as written never returns a team |
| TeamRepository.GetTeamByIDAsWrittenMissesStoredTeams | internal/repository/team.go:73-87 | for every stored team the query as written fails with the driver's scan error, where the intended query finds the team |
| TeamRepository.SearchByOwnerID | internal/repository/team.go:98-123 | finds the team whose id equals the given user id, without its domain; otherwise "team not found" |
| TeamRepository.Update | internal/repository/team.go:125-143 | changes only name and domain of the row with the id and reports 1; no row gives "no team updated" and changes nothing |
| TeamRepository.Delete | internal/repository/team.go:145-162 | removes only the row with the id and reports 1; no row gives "no team deleted" and changes nothing |
| TeamServices.CreateTeam | internal/services/teams.go:18-53 | on success, adds exactly one team owned by the caller, whatever owner the input named, and one membership of the caller in it with role Owner; it returns the empty member; a validation failure or any later failure leaves every table as it was |
| TeamServices.GetAll | internal/services/teams.go:55-73 | returns every team, once each, and nothing else; an empty table gives "no team found" |
| TeamServices.GetByID | internal/services/teams.go:75-89 | returns the stored team, or "team not found" |
| TeamServices.UpdateTeam | internal/services/teams.go:91-113 | any caller may update: with a valid name and domain, the row's name and domain change and nothing else does; validation and lookup failures change nothing |
| TeamServices.CompareUserIDWithTeamOwnerID | internal/services/teams.go:155-167 | passes exactly when the team exists and the user owns it; otherwise "team not found" or "only the owner can delete the team" |
| TeamServices.DeleteTeam | internal/services/teams.go:115-137 | deletes the team only for its owner; a non-owner gets "only the owner can delete the team" and nothing changes; a refused Begin reports 0 rows without error |
| TeamServices.GetTeamOwnerID | internal/services/teams.go:139-153 | returns the stored team's owner id, or the lookup error |
| TeamServices.OwnerCheckAgreesWithOwnerID | internal/services/teams.go:147-164 | the owner check passes for a user exactly when GetTeamOwnerID reports that user |
| TeamMemberRepository.Create | internal/repository/TeamMember.go:16-37 | a refused insert changes nothing; otherwise one row is added under a fresh id with the given role, team and user, and the input is returned with that id |
| TeamMemberRepository.GetAll | internal/repository/TeamMember.go:39-77 | on a table whose rows sit under their own ids, returns one row for each member of the team whose user and team rows both exist, once each, with the user's name, and nothing else |
| TeamMemberRepository.GetByUserID | internal/repository/TeamMember.go:79-106 | returns a membership of the user whose user and team rows exist, with the user's and team's names; none gives "team member not found" |
| TeamMemberServices.CreateTeamMember | internal/services/TeamMember.go:17-41 | on success, adds exactly one membership with the given role, team and user; any failure leaves every table as it was |
| TeamMemberServices.GetAll | internal/services/TeamMember.go:43-51 | always succeeds with the repository's list: one row for each member of the team whose user and team rows exist, once each, with the user's name, and nothing else |
| TeamMemberServices.GetByUserID | internal/services/TeamMember.go:53-62 | returns the repository's row: a stored membership of the user whose user and team rows exist, with its id and role and the user's and team's names; none gives "team member not found" |
| UserRepository.Create | internal/repository/user.go:16-38 | a refused insert changes nothing; otherwise one row is added under a fresh id and the user is returned with that id |
| UserRepository.GetByID | internal/repository/user.go:97-125 | returns the stored user with an empty Google subject, a column the query does not select; otherwise "user not found" |
| UserRepository.GetByGoogleSubscription | internal/repository/user.go:66-95 | the query with every selected column scanned: finds a user with that Google subject, or "user not found" |
| UserRepository.GetByGoogleSubscriptionAsWritten | internal/repository/user.go:68-85 | the query as written never returns a user |
| UserRepository.GetByGoogleSubscriptionAsWrittenMissesStoredUsers | internal/repository/user.go:68-85 | for every stored user, the lookup by its own Google subject fails with the driver's scan error |
| UserRepository.Update | internal/repository/user.go:127-145 | changes only name and CPF/CNPJ of the row; Google subject, Stripe customer, provider and consent stay; no row gives "no user updated" |
| UserRepository.Delete | internal/repository/user.go:147-163 | removes the row and reports 1; a missing user reports 0 without error |
| UserServices.Create | internal/services/users.go:17-38 | on success, stores the user under a fresh id, and only a user passing the "create" checks; a validation failure returns that message; any failure leaves every table as it was |
| UserServices.GetByID | internal/services/users.go:49-57 | returns the stored user, every field as stored except an empty Google subject, or "user not found" |
| UserServices.Update | internal/services/users.go:69-97 | only the user itself may update: another caller gets "Only the owner can update the user"; on success only its name and CPF/CNPJ change; failures change nothing |
| UserServices.Delete | internal/services/users.go:100-122 | only the user itself may delete: another caller gets "Only the owner can delete the user" and nothing changes; a refused Begin reports 0 rows without error |
| SubscriptionRepository.UpdatedKeepsRows | internal/repository/subscription.go:120-124 | an update keeps every row's id, user and external id, and so the set of rows for every external id |
| SubscriptionRepository.InsertAddsOneRow | internal/repository/subscription.go:16-37 | inserting a fresh row adds exactly its key to the rows with its external id |
| SubscriptionRepository.Create | internal/repository/subscription.go:16-37 | a refused insert changes nothing; otherwise one row is added under a fresh id with the given fields |
| SubscriptionRepository.GetBySubscriptionID | internal/repository/subscription.go:64-90 | finds a row with the external id, or "subscription not found" exactly when there is none |
| SubscriptionRepository.GetByID | internal/repository/subscription.go:92-116 | finds the row with the internal id, or "subscription not found" |
| SubscriptionRepository.Update | internal/repository/subscription.go:118-136 | the statement with all four values bound: sets price, status and period end on every row with the external id and reports how many; none gives "no subscription updated" |
| SubscriptionRepository.UpdateAsWritten | internal/repository/subscription.go:120-126 | the statement as written is refused by the driver on every call |
| SubscriptionRepository.Delete | internal/repository/subscription.go:138-155 | removes the row with the internal id and reports 1; no row reports 0 without error |
| SubscriptionServices.Create | internal/services/subscriptions.go:17-38 | an empty external id gives "subscription_id is required" before any transaction; on success one row is added with the given fields; failures change nothing |
| SubscriptionServices.Update | internal/services/subscriptions.go:60-78 | over the corrected `SubscriptionRepository.Update`: on success, the rows with the external id take the new price, status and period end and their count is returned; failures change nothing |
| SubscriptionServices.Delete | internal/services/subscriptions.go:80-97 | removes the row with the internal id; a refused Begin reports 0 rows without error; failures change nothing |
| SubscriptionServices.UpdatedKeepsUnique | internal/repository/subscription.go:120-124 | an update keeps external ids unique |
| SubscriptionServices.InsertKeepsUnique | internal/services/subscriptions.go:109-110 | inserting a row for an external id no row has keeps external ids unique |
| SubscriptionServices.UpsertSubscription | internal/services/subscriptions.go:99-111 | over the corrected update: when a row has the external id, the rows with it are updated and no row is added; otherwise exactly one row is created; at most one row per external id before means at most one after, and unique external ids stay unique; failures change nothing |
| SubscriptionServices.UpdateAsWritten | internal/services/subscriptions.go:60-78 | over the statement as written: every call that opens its transaction fails with the driver's "mismatched param and argument count" and leaves the tables as they were |
| SubscriptionServices.UpsertSubscriptionAsWritten | internal/services/subscriptions.go:99-111 | over the statement as written: an upsert for an external id already stored fails and changes nothing; otherwise it creates the record as UpsertSubscription does, and unique external ids stay unique |
| SubscriptionServices.UpsertLeavesOneRow | internal/services/subscriptions.go:99-111 | with unique external ids, an external id that is present is carried by exactly one row |
| Webhook.LowerChar | internal/controllers/webhook.go:111 | upper-case ASCII letters move to lower case; other characters stay; the result is never upper case |
| Webhook.ToLower | internal/controllers/webhook.go:111 | lower-cases each character in place, keeping the length |
| Webhook.ToLowerKeepsLower | internal/controllers/webhook.go:111 | a string without upper-case letters is its own lower case |
| Webhook.ToLowerIdempotent | internal/controllers/webhook.go:111 | lower-casing twice is lower-casing once |
| Webhook.MapStripeStatusToEnum | internal/controllers/webhook.go:110-129 | a name in the table of seven, in any letter case, maps to its status; any other name maps to Unknown; no input maps to Inactive or Open |
| Webhook.MapStripeStatusToEnumIgnoresCase | internal/controllers/webhook.go:111 | a name and its lower case map to the same status |
| Webhook.MapStripeStatusToEnumOnListedName | internal/controllers/webhook.go:112-125 | each of the seven names maps to its same-named status, never to Unknown |
| Webhook.StripeNameInvertsMap | internal/controllers/webhook.go:112-125 | naming the status a listed name maps to gives the name back |
| Webhook.MapInvertsStripeName | internal/controllers/webhook.go:112-125 | every status other than Unknown, Inactive and Open has a listed name that maps back to it |
| Webhook.MapStripeStatusToEnumDistinguishesNames | internal/controllers/webhook.go:112-125 | distinct listed names map to distinct statuses |
| Webhook.SubscriptionOf | internal/controllers/webhook.go:99-105 | the record takes the user id from the customer, the external id and the first item's price from the event, the mapped status and the period end |
| Webhook.ProcessSubscriptionEvent | internal/controllers/webhook.go:90-108 | a failed customer lookup ends without error and changes nothing; otherwise the built record is upserted over the corrected update, updating the rows with the event's id or creating one, and external ids stay unique |
| Webhook.ProcessSubscriptionEventAsWritten | internal/controllers/webhook.go:90-108 | over the statement as written: an event for a subscription already stored fails and changes nothing; a new one is created as in ProcessSubscriptionEvent |

## Left out

- Driver errors on reads (query, scan, row iteration) are not modelled; a read fails only with its not-found error. So the early returns after a failed repository read at internal/services/joinRequest.go:76-79 and internal/services/TeamMember.go:45-48 are never taken, and `TeamMemberServices.GetAll` always succeeds.
- HTTP controllers are not part of this model: JSON decoding, path parsing and status codes. So the accept-then-add-member step in internal/controllers/joinRequest.go:180-197 is left out; it runs outside the accept transaction and ignores its own error.
- The webhook's request handling: body reading, signature verification, environment lookup and the checkout-session branch. The checkout branch sets the customer id only on the user value it reads. Then it calls the user update, and `UserServices.Update` never writes that column.
- Lookup of a user by payment-provider customer id: its repository function is not part of this model. `Webhook.ProcessSubscriptionEvent` takes the lookup's result as the parameter `customer`.
- `Webhook.ProcessSubscriptionEvent` requires at least one item in the event when the customer lookup succeeds. Only then does the handler index the first item, and it would panic on an event without items; a failed lookup returns before that.
- JWT creation and checking, the login service, the checkout service, routing, middleware, configuration and the connection pool. These are foreign-library I/O or wiring.
- Listing all users and all subscriptions, and the service-level lookup of a subscription by external id. These are pass-throughs outside the modelled core.
- `internal/validators/teamMembers.go`: a stub that always answers true.
- Logging of errors (`log.Println`) has no effect on the tables and is left out.
- Timestamps (`NOW()`, creation dates, `time.Unix`) and the data-consent field. The period end is kept as Unix seconds.
- Concurrency and isolation between requests. Every operation runs alone on the database.
- The model does not say which connection each read uses: the transaction or the pool. Services that read before opening their transaction see the same tables.
- Foreign keys and cascades between tables: the schema is not part of the source. Deleting a team or a user removes only its own row.
- `TeamRepository.Update`: a failed statement returns 0 rows and no error in the source. That path, and the commit of the aborted transaction that would follow it, are not modelled; the statement always executes.
- `TeamRepository.Delete`: the same failed-statement path as `Update` is not modelled.
- `SubscriptionServices.Delete`: the source passes the external id string to a filter on the integer id column. The model takes the integer id directly; a string the database cannot read as an integer is one of the refused writes.
- `UserModel.TrimSpace`: trims ASCII whitespace only. Go's `strings.TrimSpace` also trims Unicode spaces.
- `Webhook.ToLower`: lower-cases ASCII letters only. Go's `strings.ToLower` is Unicode-aware.
- Ids are unbounded naturals. The source's `uint64` ids and its conversion of affected-row counts are not bounded in the model.
- `TeamMemberRepository.GetByUserID`, `UserRepository.GetByGoogleSubscription` and `SubscriptionRepository.GetBySubscriptionID` return some matching row, not a particular one. The source's query has no ORDER BY.

## Findings

| source | as written | input that shows it | evidently intended | confidence | as-written member | corrected member |
|---|---|---|---|---|---|---|
| internal/repository/team.go:73-87 | selects six columns (id, name, domain, owner_id, created_at, updated_at) and scans them into five destinations, without domain; pgx refuses such a scan | any stored team id, e.g. team 1 after one CreateTeam | scan all six columns into the team's fields | not executed | TeamRepository.GetTeamByIDAsWritten | TeamRepository.GetTeamByID |
| internal/repository/user.go:68-85 | selects nine columns, google_sub among them, and scans them into eight destinations, without the Google subject; pgx refuses such a scan | the Google subject of any stored user | scan the Google subject into its field | not executed | UserRepository.GetByGoogleSubscriptionAsWritten | UserRepository.GetByGoogleSubscription |
| internal/repository/subscription.go:120-126 | the statement has four placeholders but binds three values, without the external id for `$4`; pgx refuses the statement | any call, e.g. an upsert for an external id already stored | bind the external id as the fourth value | not executed | SubscriptionRepository.UpdateAsWritten | SubscriptionRepository.Update |

The services look a team up with `Teams.GetByID(ctx, teamID)` (internal/services/teams.go:83, 147 and 157; internal/services/joinRequest.go:30; internal/validators/teams.go:14; internal/validators/joinRequest.go:13). The repository interface declares `GetByID` with a transaction argument (internal/repository/repository.go:23), while `TeamsRepository` defines only `GetTeamByID` (internal/repository/team.go:71). The model reads these as one function, the team lookup of the first row above.
The team lookup fails for every stored team, so as written every service that looks a team up fails wherever the intended lookup succeeds: join-request creation and authorization, team reads (`TeamServices.GetByID`), and team deletion and owner lookup.
The update statement of the third row is refused on every call, so as written every upsert for an external id already stored fails, and so does every event for a subscription already stored; `SubscriptionServices.UpsertSubscriptionAsWritten` and `Webhook.ProcessSubscriptionEventAsWritten` state this.
The model's services and the webhook use the corrected lookups and the corrected `SubscriptionRepository.Update`.
