# loralinka-api: emergencies, emergency units and users

This project is a Dafny model of the service and routing layer of
loralinka-api, an HTTP API for reporting emergencies and dispatching
emergency units to them. The model covers:

- the emergency service: assigning a unit, the partial update that
  releases a unit when an emergency is closed, creation, lookup, and the
  listings ordered most recent first;
- the emergency-unit service: creation, lookups by id and by name, the
  listing by name, the partial update, deletion and the per-unit counts of
  active and total emergencies;
- the two route modules (`/emergencies`, `/emergency-units`): the unit-name
  collision checks, the status-filter branch of the emergency listing, the
  query-parameter bounds and the mapping of a missing row to 404;
- the user service: registration with emergency contacts and
  medical-condition links, lookup by phone, authentication by phone and
  password hash, the listing, the partial update and deletion.

The database is the value `Entities.Db`. It holds one map per table, keyed
by primary key, and the next value of each autoincrement sequence. Every
service operation is a function from a `Db` (and the request) to the new
`Db` and the result. The route functions wrap those results in
`Result<T>`, whose errors are `NotFound` (404), `Conflict` (400), `Invalid`
(422), `MultipleResults` and `QueryFailed`. `MultipleResults` is the
uncaught `MultipleResultsFound` that `scalar_one_or_none` raises when a
query it expects to match one row matches several (500). `QueryFailed` is
a query the database rejects (500). Two operations return it: the user
listing, whose arguments reach the query unchecked, and emergency creation,
whose coordinates are not bounded by the payload and can overflow their
`Numeric(8, 6)` and `Numeric(9, 6)` columns.

`Storage.Store` is the same database as a mutable object, as the services
see it through the ORM session. Each of its methods computes the new rows
and writes them back to its fields. `create_user` builds the user, its
contacts and its condition links in its loops and stores them in one write
after them. Each
method is proved to leave the store in exactly the state, and return
exactly the result, that the matching service function describes. The two
loops of `create_user` are methods with loop invariants.

`AssignmentLinks` is about the two sides of the emergency-unit link. An
emergency names its unit, and a unit names the emergency it serves. The
module proves:

- which operations keep the two sides in agreement;
- how the per-unit counts move under assignment and closing;
- on concrete tables, five cases in which the code lets the two sides
  drift apart.

Outside inputs are parameters:
- the password hash is a function `hash: string -> string`, about which
  nothing is assumed;
- the current time is `now`.

The model follows the code in three places where it leaves the two sides
of the link out of step:
- Assigning a unit that already serves an open emergency is not refused.
- A patch of `assigned_unit` does not update the unit side.
- The invariant "a unit's back-reference is set exactly when one open
  emergency names it" is not maintained by the code. It is stated as
  `AssignmentLinks.LinksConsistent`, proved preserved where it holds, and
  shown broken where it does not.

The `/emergency-units` routes are modelled as written, although the
application entry point registers only the users and emergencies routers
(src/main.py:19-21), so the app as wired does not serve them.

## Model

| member | source | states |
|---|---|---|
| EmergencyService.AssignUnit | src/features/emergencies/service.py:15-36 | None exactly when the emergency or the unit is missing, and then the database is unchanged. On success, the emergency has the unit and status 2 and keeps its other fields. The unit names the emergency and keeps its other fields. No other row and no other table changes. A valid database stays valid. |
| EmergencyService.UpdateEmergency | src/features/emergencies/service.py:40-64 | None and no change for a missing emergency. Status and assigned unit are overwritten only when given in the patch. Other emergency fields are kept, and no other emergency changes. A patch with status 3 clears the back-reference of the unit the emergency had before the update, if that unit exists, and changes no other unit. Without such a release, no unit changes. A valid database stays valid. |
| EmergencyService.CreateEmergency | src/features/emergencies/service.py:67-82 | QueryFailed, with no change, exactly when the latitude or the longitude does not fit its `Numeric(8, 6)` or `Numeric(9, 6)` column (src/entities/EmergenciesEntity.py:16-17). Otherwise the new id is the next one from the sequence. The timestamp is the given one, else `now`. Every other field is copied from the payload. Exactly one row is added and no unit changes. On a valid table the id is fresh and validity is kept. |
| EmergencyService.GetEmergency | src/features/emergencies/service.py:85-91 | Some exactly when the key is present, with that row. |
| EmergencyService.NewerIsTotalPreorder | src/features/emergencies/service.py:99 | Ordering by timestamp descending is a total preorder. |
| EmergencyService.LatestFirst | src/features/emergencies/service.py:99 | All rows of a table, one entry per row, non-increasing in timestamp, each entry a row of the table. |
| EmergencyService.LatestFirstHasRow | src/features/emergencies/service.py:94-100 | Every row of the table appears in the ordering. |
| EmergencyService.LatestFirstFromRows | src/features/emergencies/service.py:94-100 | Every entry of the ordering is one of the rows read from the table. |
| EmergencyService.LatestFirstDistinct | src/features/emergencies/service.py:94-100 | When every row records its key, no row appears twice. |
| EmergencyService.ListEmergencies | src/features/emergencies/service.py:94-100 | The page length is `min(limit, n - skip)`, or 0 when `skip >= n`. The page is most recent first. |
| EmergencyService.ListEmergenciesWindow | src/features/emergencies/service.py:94-100 | The page is the window `[skip, skip + limit)` of the full ordering, and holds table rows only. |
| EmergencyService.ListEmergenciesConsecutive | src/features/emergencies/service.py:94-100 | In the model's one ordering, a page of `a` rows followed by the page of `b` rows that starts where it ended equals the page of `a + b` rows. |
| EmergencyService.ListEmergenciesDisjoint | src/features/emergencies/service.py:94-100 | When every row records its key, consecutive pages of the model's one ordering share no emergency. |
| EmergencyService.OnlyNewestFirstOrder | src/features/emergencies/service.py:94-100 | When no two emergencies share a timestamp, every order the query may return (each row once, newest first) is the model's ordering. |
| EmergencyService.PagesAcrossRequests | src/features/emergencies/service.py:94-100 | When no two emergencies share a timestamp, consecutive pages taken from two separate requests, each in any order the query may return, concatenate to the spanning page and share no emergency. |
| EmergencyService.ReportedBy | src/features/emergencies/service.py:104 | Exactly the rows whose reporter is the user, unchanged. |
| EmergencyService.EmergenciesByUser | src/features/emergencies/service.py:103-109 | One entry per matching row, most recent first, each a table row reported by the user. |
| EmergencyService.EmergenciesByUserComplete | src/features/emergencies/service.py:103-109 | Every emergency the user reported is in the result. |
| EmergencyService.WithStatus | src/features/emergencies/service.py:113 | Exactly the rows with the status, unchanged. |
| EmergencyService.EmergenciesByStatus | src/features/emergencies/service.py:112-118 | One entry per matching row, most recent first, each a table row with the status. |
| EmergencyService.EmergenciesByStatusComplete | src/features/emergencies/service.py:112-118 | Every emergency with the status is in the result. |
| UnitService.CreateUnit | src/features/emergency_units/service.py:9-19 | The next id, the given name and coordinates, and no assigned emergency. One key is added, no existing unit and no other table changes, and on a valid table the id is fresh and validity is kept. |
| UnitService.CreateUnitAddsOne | src/features/emergency_units/service.py:9-19 | On a valid table the number of units grows by exactly one. |
| UnitService.GetUnit | src/features/emergency_units/service.py:22-24 | Some exactly when the key is present, with that row. |
| UnitService.NamedAs | src/features/emergency_units/service.py:29 | Exactly the keys of the units with the name. |
| UnitService.GetUnitByName | src/features/emergency_units/service.py:27-30 | Missing exactly when no unit has the name. Multiple (the query raises) exactly when two or more do. Found only when exactly one does, and then it is that unit. |
| UnitService.NameBeforeIsTotalPreorder | src/features/emergency_units/service.py:35 | Ordering units by name is a total preorder. |
| UnitService.UnitsByName | src/features/emergency_units/service.py:35 | All units, one entry per row, ascending by name, each a unit of the table. |
| UnitService.UnitsByNameHasRow | src/features/emergency_units/service.py:35 | Every unit appears in the ordering. |
| UnitService.ListUnits | src/features/emergency_units/service.py:33-36 | The page length is `min(limit, n - skip)`, or 0 when `skip >= n`. The page holds at most `limit` units and is ascending by name. |
| UnitService.ListUnitsWindow | src/features/emergency_units/service.py:33-36 | The page is the window `[skip, skip + limit)` of the name ordering, and holds table rows only. |
| UnitService.ListUnitsConsecutive | src/features/emergency_units/service.py:33-36 | In the model's one ordering, consecutive pages concatenate to the page that spans both. |
| UnitService.ListUnitsDisjoint | src/features/emergency_units/service.py:33-36 | When every row records its key, consecutive pages of the model's one ordering share no unit. |
| UnitService.UpdateUnit | src/features/emergency_units/service.py:39-55 | None and no change for a missing unit. Name, latitude and longitude are overwritten only where the patch gives them. Id and back-reference are kept, and no other row or table changes. A valid database stays valid. |
| UnitService.DeleteUnit | src/features/emergency_units/service.py:58-66 | False and no change for a missing unit. Otherwise only that key is removed and the other units are unchanged. No emergency row is removed; every emergency keeps its report fields and status, and one that does not name the deleted unit is unchanged. A valid database stays valid. |
| UnitService.ServedBy | src/features/emergency_units/service.py:79-81 | Exactly the emergencies that name the unit. |
| UnitService.ActiveServedBy | src/features/emergency_units/service.py:72-75 | Exactly the emergencies that name the unit and are not closed (status 1 or 2), a subset of `ServedBy`. |
| UnitService.GetUnitStats | src/features/emergency_units/service.py:69-87 | The active count and the total count are the sizes of those two sets, and active is at most total. |
| UnitController.CreateUnitRoute | src/features/emergency_units/controller.py:18-29 | Ok exactly when no unit has the name, and then the result is that of the service create. Conflict (400) exactly when one unit has it. MultipleResults exactly when several do. Any error leaves the database unchanged. |
| UnitController.GetUnitRoute | src/features/emergency_units/controller.py:37-45 | NotFound exactly when the unit is absent, else the unit. |
| UnitController.UnitStatsRoute | src/features/emergency_units/controller.py:53-66 | NotFound exactly when the unit is absent. Otherwise the unit's fields, followed by its active and total counts. |
| UnitController.ListUnitsRoute | src/features/emergency_units/controller.py:74-81 | Invalid exactly when `skip < 0` or `limit` is outside 1..1000. Otherwise the service page, at most `limit` long. |
| UnitController.UpdateUnitRoute | src/features/emergency_units/controller.py:105-126 | Conflict exactly when a non-empty new name is held by one other unit. MultipleResults exactly when it is held by several. NotFound exactly when neither holds and the unit is absent. Ok exactly when neither holds and the unit exists, and then it gives the service update. Errors change nothing. |
| UnitController.DeleteUnitRoute | src/features/emergency_units/controller.py:134-141 | NotFound, with no change, exactly when the unit is absent. Otherwise the service delete. |
| UnitController.CreateKeepsNamesUnique | src/features/emergency_units/controller.py:18-29 | On a valid table with unique names, creation through the route keeps names unique. |
| UnitController.UpdateKeepsNamesUnique | src/features/emergency_units/controller.py:105-126 | On a valid table with unique names, renaming through the route keeps names unique. This relies on the schema's `min_length=1` on the new name (src/features/emergency_units/model.py:12). |
| UnitController.ConflictBeforeNotFound | src/features/emergency_units/controller.py:111-125 | A rename to a name another unit holds is a Conflict even for an id no unit has. |
| UnitController.OwnNameAllowed | src/features/emergency_units/controller.py:112-118 | With unique names, a patch that keeps the unit's own name succeeds. |
| UnitController.OnlyByNameOrder | src/features/emergency_units/service.py:33-36 | With unique names, every order the query may return (each row once, ascending by name) is the model's ordering. |
| UnitController.UnitPagesAcrossRequests | src/features/emergency_units/service.py:33-36 | With unique names, consecutive pages taken from two separate requests, each in any order the query may return, concatenate to the spanning page and share no unit. |
| EmergencyController.CreateEmergencyRoute | src/features/emergencies/controller.py:18-21 | QueryFailed (500), with no change, exactly when a coordinate does not fit its column. Otherwise Ok, with the result of the service create. |
| EmergencyController.GetEmergencyRoute | src/features/emergencies/controller.py:29-37 | NotFound exactly when the emergency is absent, else that row. |
| EmergencyController.ListEmergenciesRoute | src/features/emergencies/controller.py:45-57 | Invalid exactly when `skip`, `limit` or the status filter is out of its declared bounds. With a filter, the by-status result. Without one, the page. |
| EmergencyController.FilterIgnoresPagination | src/features/emergencies/controller.py:52-53 | With a status filter, the result does not depend on `skip` or `limit`. |
| EmergencyController.FilteredListingIsExact | src/features/emergencies/controller.py:52-53 | With a status filter, the result is Ok, most recent first, and contains exactly the emergencies with that status, whatever `limit` is. |
| EmergencyController.AssignUnitRoute | src/features/emergencies/controller.py:65-77 | NotFound, with no change, exactly when the emergency or the unit is missing. Otherwise the service assignment. |
| EmergencyController.UpdateEmergencyRoute | src/features/emergencies/controller.py:85-97 | NotFound, with no change, exactly when the emergency is absent. Otherwise the service update. |
| EmergencyController.EmergenciesByUserRoute | src/features/emergencies/controller.py:105-108 | Always Ok, with the by-user result. |
| UserService.OrEmpty | src/features/users/service.py:33 | An absent list reads as empty, a present one as itself. |
| UserService.NewContacts | src/features/users/service.py:33-41 | One contact per entry, in the order given. Each is numbered consecutively from the first id, owned by the user, and copies the entry's phone, kin and name. |
| UserService.CreateUser | src/features/users/service.py:20-53 | The next id, with the payload's name, phone and birthday, `hash(password)`, and creation time `now`. One contact per entry, each owned by the new user. One condition link per id, in order. The contact sequence advances by the number of contacts. One key is added and nothing else changes. On a valid table validity is kept. |
| UserService.GetUser | src/features/users/service.py:56-61 | Some exactly when the key is present, with that row. |
| UserService.WithPhone | src/features/users/service.py:64 | Exactly the keys of the users with the phone. |
| UserService.GetUserByPhone | src/features/users/service.py:63-65 | Missing exactly when no user has the phone. Multiple exactly when two or more do. Found only for exactly one, and then it is that user. |
| UserService.Authenticate | src/features/users/service.py:68-74 | An error exactly when several users have the phone. No user exactly when none has it, or when the one that has it stores a different hash. A user only when the one holder's stored hash is `hash(password)`, and then it is that holder. |
| UserService.ListUsers | src/features/users/service.py:78-83 | QueryFailed exactly when `skip` or `limit` is negative, which the database rejects. Otherwise the page length is `min(limit, n - skip)`, or 0 when `skip >= n`, and at most `limit`. |
| UserService.ListUsersWindow | src/features/users/service.py:78-83 | For non-negative arguments the query succeeds, and the page is the window `[skip, skip + limit)` of the rows, holding table rows only. |
| UserService.ListUsersConsecutive | src/features/users/service.py:78-83 | Consecutive pages concatenate to the page that spans both. |
| UserService.UpdateUser | src/features/users/service.py:86-103 | None and no change for a missing user. Name, phone, birthday and password are overwritten only where given, and a new password is stored as its hash. Id, creation time, contacts and condition links are kept. No other row or table changes. A valid database stays valid. |
| UserService.DeleteUser | src/features/users/service.py:106-112 | False and no change for a missing user. Otherwise only that user, with its contacts and links, is removed. No emergency row is removed; every emergency keeps all fields but its reporter, and one not reported by the deleted user is unchanged. A valid database stays valid. |
| UserService.RegisterThenLogin | src/features/users/service.py:20-74 | Registering with a phone nobody uses, then authenticating with the same password, returns the new user. |
| UserService.OtherPasswordRejected | src/features/users/service.py:72-74 | For an injective hash, another password never authenticates as the newly registered user. |
| UserService.WrongPasswordLooksUnregistered | src/features/users/service.py:68-74 | A wrong password gives the same answer (no user) as the same table without that user. |
| UserService.NewPasswordLogsIn | src/features/users/service.py:86-103 | After a password change, with the phone held by no other user, the new password authenticates as the updated user. |
| AssignmentLinks.AssignCountsAtTarget | src/features/emergencies/service.py:24-29 | Assignment adds the emergency to the target unit's total and active counts, so its active count is at least 1. |
| AssignmentLinks.AssignCountsElsewhere | src/features/emergencies/service.py:24-29 | Assignment takes the emergency out of every other unit's total and active counts. |
| AssignmentLinks.CloseLeavesTotals | src/features/emergencies/service.py:47-59 | Closing an emergency takes it out of every active count and leaves every total count unchanged. |
| AssignmentLinks.AssignFreeUnitKeepsLinks | src/features/emergencies/service.py:15-36 | Assigning a detached emergency to a free unit keeps every unit's back-reference in agreement with the open emergencies that name it. |
| AssignmentLinks.AssignKeepsUnitLink | src/features/emergencies/service.py:15-36 | The same, unit by unit. |
| AssignmentLinks.CloseOpenKeepsLinks | src/features/emergencies/service.py:40-64 | Closing an open emergency releases its unit and keeps the links in agreement. |
| AssignmentLinks.CreateDetachedKeepsLinks | src/features/emergencies/service.py:67-82 | Creating an emergency with no unit, or a closed one, keeps the links in agreement. |
| AssignmentLinks.CreateDetachedKeepsCounts | src/features/emergencies/service.py:67-82 | Such an emergency joins no unit's active count. |
| AssignmentLinks.AssignOverwritesBusyUnit | src/features/emergencies/service.py:24-33 | From a consistent table, assigning a second emergency to a busy unit overwrites its back-reference while the first stays open on it. |
| AssignmentLinks.ReassignLeavesStaleUnit | src/features/emergencies/service.py:24-33 | Reassigning an emergency leaves the previous unit naming it. |
| AssignmentLinks.PatchedUnitNotLinked | src/features/emergencies/service.py:56-57 | A patch of the assigned unit writes the emergency side only. |
| AssignmentLinks.CreatedWithUnitNotLinked | src/features/emergencies/service.py:67-82 | Creating an open emergency that names a unit leaves the unit unlinked. |
| AssignmentLinks.ReclosingFreesBusyUnit | src/features/emergencies/service.py:47-53 | Closing an already closed emergency still releases the unit it names, even when that unit now serves another open emergency. |
| Storage.Store.constructor | src/entities/EmergenciesEntity.py:12 | An empty database whose sequences start at 1. |
| Storage.Store.AssignUnit | src/features/emergencies/service.py:15-36 | The new store and the result are those of `EmergencyService.AssignUnit`. |
| Storage.Store.UpdateEmergency | src/features/emergencies/service.py:40-64 | The new store and the result are those of `EmergencyService.UpdateEmergency`. |
| Storage.Store.CreateEmergency | src/features/emergencies/service.py:67-82 | The new store and the result are those of `EmergencyService.CreateEmergency`. |
| Storage.Store.CreateUnit | src/features/emergency_units/service.py:9-19 | The new store and the result are those of `UnitService.CreateUnit`. |
| Storage.Store.UpdateUnit | src/features/emergency_units/service.py:39-55 | The new store and the result are those of `UnitService.UpdateUnit`. |
| Storage.Store.DeleteUnit | src/features/emergency_units/service.py:58-66 | The new store and the result are those of `UnitService.DeleteUnit`. |
| Storage.Store.CreateUser | src/features/users/service.py:20-53 | The new store and the result are those of `UserService.CreateUser`. |
| Storage.Store.UpdateUser | src/features/users/service.py:86-103 | The new store and the result are those of `UserService.UpdateUser`. |
| Storage.Store.DeleteUser | src/features/users/service.py:106-112 | The new store and the result are those of `UserService.DeleteUser`. |
| Storage.AddContacts | src/features/users/service.py:33-41 | The loop over the contact entries builds exactly `UserService.NewContacts`. |
| Storage.LinkConditions | src/features/users/service.py:44-50 | The loop over the condition ids links each id once, in the order given. |
| Sorting.Sort | src/features/emergency_units/service.py:35 | The result is a permutation of the input, sorted by the given total preorder. |
| Sorting.Page | src/features/emergency_units/service.py:35 | OFFSET/LIMIT: the elements at `skip .. skip + limit - 1`, with length `min(limit, n - skip)`, or 0 when `skip >= n`. |
| Sorting.SortedUnique | src/features/emergency_units/service.py:35 | Two sorted sequences with the same elements are equal when no two distinct elements tie. |
| Sorting.PageConcat | src/features/emergency_units/service.py:35 | Adjacent windows concatenate to the window that spans both. |

## Left out

- The proximity search (src/features/emergency_units/service.py:90-102) is not modelled. It is floating-point bounding-box arithmetic, and it divides by `abs(latitude)`, so it fails at latitude 0.
- Database setup, rate limiting, the API-key check, the catalog lookups, the users routes and the router wiring are not modelled. They are configuration and HTTP glue with no behaviour of their own.
- SHA-256 is not modelled. The hash is the parameter `hash`, and `datetime.now()` is the parameter `now`.
- The model does not cover commits, transactions, `refresh`, eager loading (`selectinload`) or concurrent requests. Each operation is one atomic step.
- CreateUser: the model stores the user, its contacts and its condition links in one step. The source commits the user row first (src/features/users/service.py:29) and the contacts and links in a second commit (:52). When that second commit fails, for example on a repeated contact phone or condition id, the user row stays stored without its contacts and links. The model does not show that outcome.
- Integrity errors raised at commit are not modelled:
  - foreign keys to catalogs, units and users;
  - the unique `(user_id, contact_phone)` pair;
  - a repeated condition id.
  The model stores whatever the payload gives.
- Payload validation (name lengths, coordinate bounds, `min_length` on passwords) is not modelled. The exceptions are the emergency status range, a type with values 1..3, and the listing query bounds, which are route preconditions returning `Invalid`.
- Coordinates are `real`. A stored coordinate keeps its full value; the rounding to six decimals is not modelled. Timestamps are integers.
- CreateEmergency: the overflow check follows PostgreSQL. On SQLite the `Numeric` columns take any value and the insert succeeds.
- Name order is code-point order with a proper prefix first. The database collation is not modelled.
- LatestFirst: among emergencies with equal timestamps, the order is by key. SQL leaves that order to the database.
- UnitsByName: among units with equal names, the order is by key, for the same reason.
- ListEmergenciesConsecutive: holds for the model's one ordering. Two separate requests may order tied rows differently; `PagesAcrossRequests` covers separate requests only when no two timestamps are equal.
- ListEmergenciesDisjoint: the same limit as `ListEmergenciesConsecutive`.
- ListUnitsConsecutive: holds for the model's one ordering. Two separate requests may order units with equal names differently; `UnitPagesAcrossRequests` covers separate requests only while names are unique.
- ListUnitsDisjoint: the same limit as `ListUnitsConsecutive`.
- ListUsersConsecutive: holds for the model's key order only. The query has no `ORDER BY`, so two separate requests may see the rows in different orders, and no lemma covers them.
- ListUsers: when `DATABASE_URL` names a SQLite database (src/database/db.py:19-21), a negative LIMIT means no limit and a negative OFFSET counts as 0, so the query does not fail. The model follows PostgreSQL, the default dialect (src/database/db.py:23).
- ListUsers: the query has no `ORDER BY`. The model reads the rows in key order, and the contract states the page length and the window but no ordering.
- DeleteUnit: the contract leaves open only the `assigned_unit` of the emergencies that reference the deleted unit. What the ORM does to that reference follows SQLAlchemy defaults, not code in the repository.
- DeleteUser: the contract leaves open only the `user_id` of the emergencies that reference the deleted user, for the same reason. Contacts and condition links are part of the user record in this model and go with it.
- Contact ids are drawn consecutively from one sequence at the commit that stores them.
- The unit back-reference `assigned_emergency_id` is modelled as a stored column. The unit entity maps no such column (src/entities/EmergencyUnitEntity.py:9-14), so the writes at src/features/emergencies/service.py:29 and :52 set a plain attribute that the ORM never flushes, and a later read gets the schema default `None` (src/features/emergency_units/model.py:25). The results of `AssignmentLinks` describe the stored column, which is what the services evidently mean to keep.
- A unit that no longer exists can still be named by emergencies. The model keeps such references as they are.
