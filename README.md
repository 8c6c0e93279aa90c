# Route coverage tracker of SmartTheru, in Dafny

SmartTheru tracks waste-collection routes. An administrator stores routes (an
ordered list of checkpoints) in a routes table and assigns a route to a field
collector. The collector's device then posts GPS pings for the assignment. Each
ping replaces the assignment's current position and permanently marks as
covered every not-yet-covered checkpoint within 20 m of it. The covered count
is the length of the merged, duplicate-free list of covered indices. The status
becomes `completed` once that count reaches the assignment's `totalPoints`, and
`in_progress` otherwise.

The model has five modules, one per source file or component:

- `Common` (common.dfy): options, coordinates, JSON-array columns
  (`JsonList`: an array, or any other JSON value), handler replies, and the
  `NoDup` predicate.
- `RouteAssignments` (route_assignments.dfy): the `RouteAssignment` record,
  the four-value `Status`, the row created with the column defaults
  (`NewAssignment`), and the invariant `Consistent` that every record written by
  the handlers satisfies.
- `Routes` (routes.dfy): the `Route` record and the class `RouteTable`. The
  class holds the table as a `map<int, Route>` with an auto-increment id, and
  its methods are the list, get, create, update and delete handlers. The
  list's `createdAt DESC` ordering is specified by a sort function proved to
  be a newest-first permutation.
- `Coverage` (coverage.dfy): the coverage computation of the GPS handler. It
  holds the scan over the checkpoints (`FindNewlyCovered`, a loop proved
  against `NewlyCovered`), the duplicate-free merge (`Dedup`, standing for
  `[...new Set(...)]`), the effect of one ping on a record (`ApplyPing`), and
  the lemmas about it: permanence, exact coverage at the 20 m boundary, merge
  order, invariant preservation, completed stays completed, idempotence and
  order independence.
- `AssignmentRoutes` (assignment_routes.dfy): the class `Tracker`. It holds the
  assignments table and the route table it reads. Its methods are `Assign`
  (POST /assign) and `GpsUpdate` (POST /gps-update/:assignmentId), and the
  latter is proved to store exactly `ApplyPing` of the loaded record.

The haversine distance is not computed. Every ping takes a distance function
`dist: (Coord, Coord) -> real` as a parameter. A checkpoint is within reach when
`dist(position, checkpoint) <= 20.0`. Clock readings (`new Date()`,
`DataTypes.NOW`, Sequelize timestamps) are `now` parameters.

What the code does, and the model with it:
- The coverage radius is 20 m (`CoverageRadius`), the boundary included.
- An assignment with `totalPoints` 0 (or less) becomes `completed` on its first
  ping on a usable route.
- A `cancelled` assignment is overwritten to `in_progress` or `completed` by a
  ping.
- `completed` stays `completed` only because coverage never shrinks
  (`CompletedStaysCompleted` needs the record to be `Consistent`). No rule
  forbids the transition back.
- Coordinates are not range-checked.
- A route that is missing, or whose `points` is not an array, still gets its
  position written and the record saved.
- A route name must pass the `notEmpty` validation of the `name` column
  (server/src/models/Route.js:8-14), which refuses a name made only of
  whitespace (`Blank`). The handlers' own `!name` test lets such a name
  through, so creating or updating a route with it fails with 500 and writes
  nothing.

## Model

| member | source | states |
|---|---|---|
| `RouteAssignments.NewAssignment` | server/src/models/route_assignments.js:4-53 | A new row has status `assigned`, `pointsCovered` 0, an empty covered array, no position (null lat/lng), `totalPoints` 0 unless one is given, both dates at creation time, and it satisfies the record invariant `Consistent`. |
| `Routes.SortNewestFirstCorrect` | server/src/routes/routes.js:8-10 | The list ordering is sorted by `createdAt`, newest first, and is a permutation of its input. |
| `Routes.ByIdContents` | server/src/routes/routes.js:8-10 | Enumerating the table by id yields exactly the stored routes, each once, in ascending id order. |
| `Routes.RouteTable.ListAll` | server/src/routes/routes.js:6-16 | GET /routes returns every stored route and nothing else, ordered by `createdAt` newest first. |
| `Routes.RouteTable.Get` | server/src/routes/routes.js:19-30 | GET /routes/:id returns the stored route, or 404 for an unknown id. |
| `Routes.RouteTable.Create` | server/src/routes/routes.js:33-52 | A missing or empty name, or `points` absent or not an array, gives 400 and the table is unchanged. A name of whitespace only passes that test but fails the column's `notEmpty` validation: 500, table and id counter unchanged. Otherwise the route is stored under a fresh id with `totalPoints == points.length`, the client's `totalPoints` is ignored, and no other row changes. |
| `Routes.RouteTable.Update` | server/src/routes/routes.js:55-75 | An unknown id gives 404. A missing `points` (the `points.length` throw) or a name that is empty or whitespace only (the column's `notEmpty` validation) gives 500 and the row is unchanged. Otherwise name and points are replaced and `totalPoints` is recounted, and no other row changes. |
| `Routes.RouteTable.Delete` | server/src/routes/routes.js:78-92 | An unknown id gives 404 and nothing changes. Otherwise exactly that id is removed and every other route is unchanged. |
| `Coverage.NewlyCoveredMembers` | server/src/routes/assignmentRoutes.js:103-122 | An index is newly covered iff it is a checkpoint index, it is not already covered, and its checkpoint is within the radius. The newly covered list is strictly ascending. |
| `Coverage.FindNewlyCovered` | server/src/routes/assignmentRoutes.js:103-122 | The `forEach` scan skips covered indices and collects exactly the indices whose checkpoint is at most 20.0 m away, in ascending order. |
| `Coverage.DedupElements` | server/src/routes/assignmentRoutes.js:125 | Spreading the list through a `Set` keeps exactly the same elements. |
| `Coverage.DedupNoDup` | server/src/routes/assignmentRoutes.js:125 | The spread `Set` has no duplicates. |
| `Coverage.DedupOfNoDup` | server/src/routes/assignmentRoutes.js:125 | A list without duplicates passes through the `Set` unchanged. |
| `Coverage.DedupAppendFresh` | server/src/routes/assignmentRoutes.js:125 | Appending distinct, new indices to a list and deduplicating gives the deduplicated list followed by those indices in their order. |
| `Coverage.ApplyPing` | server/src/routes/assignmentRoutes.js:88-139 | A ping always replaces `currentLat`/`currentLng` and `lastUpdated`, and keeps ids, `assignedDate` and `totalPoints`. Without a usable route, the covered list, count and status are unchanged. With one, `pointsCovered` is the covered array's length and the status is `completed` iff `pointsCovered >= totalPoints`, else `in_progress`. |
| `Coverage.PingKeepsCoverage` | server/src/routes/assignmentRoutes.js:98-128 | Every index covered before a ping is covered after it, whatever the route lookup found. |
| `Coverage.PingCoverageExact` | server/src/routes/assignmentRoutes.js:103-128 | With a usable route, an index is covered after the ping iff it was covered before, or it is a checkpoint index whose checkpoint is at most 20.0 m away. The 20 m boundary is covered. |
| `Coverage.PingMergeOrder` | server/src/routes/assignmentRoutes.js:100-128 | The newly covered indices are disjoint from the stored ones and ascending. The merged list is the stored list (its own duplicates dropped) followed by them, and has no duplicates. A duplicate-free stored list is kept as it is in front. A stored value that is not an array counts as empty. |
| `Coverage.PingConsistent` | server/src/routes/assignmentRoutes.js:124-138 | After a ping on a usable route, the record is consistent: covered array without duplicates, count equal to its length, status matching the counts. A consistent record stays consistent after any ping. |
| `Coverage.PingCountGrows` | server/src/routes/assignmentRoutes.js:125-129 | On a consistent record, `pointsCovered` never decreases. |
| `Coverage.CompletedStaysCompleted` | server/src/routes/assignmentRoutes.js:134-138 | A consistent `completed` assignment is still `completed` after any ping, including one far from every checkpoint. |
| `Coverage.PingIdempotent` | server/src/routes/assignmentRoutes.js:88-139 | Applying the same ping twice gives the same record as applying it once, except for the last update time. |
| `Coverage.PingOrderIndependent` | server/src/routes/assignmentRoutes.js:98-138 | Two pings on the same route, in either order, give the same set of covered indices, the same count and the same status. |
| `Coverage.TwoCheckpointRoute` | server/src/routes/assignmentRoutes.js:98-138 | Take a two-checkpoint route with `totalPoints` 2. A ping at the first checkpoint gives `[0]`, count 1, `in_progress`. A ping at the second gives `[0, 1]`, count 2, `completed`. A far ping keeps `[0, 1]`, count 2, `completed`. |
| `AssignmentRoutes.Tracker.Assign` | server/src/routes/assignmentRoutes.js:33-48 | /assign stores a new record under a fresh id, with the column defaults and the request's `totalPoints` (not recomputed from the route), and changes no other record. |
| `AssignmentRoutes.Tracker.GpsUpdate` | server/src/routes/assignmentRoutes.js:78-154 | An unknown assignment id gives 404 and nothing is written. Otherwise exactly that record is replaced by `ApplyPing` of it, using the route looked up by its `routeId`. The reply carries the previous and new counts and the saved coverage. The table invariant (every record consistent) is kept. |

## Left out

- Haversine arithmetic (server/src/routes/assignmentRoutes.js:161-174): floating-point trigonometry. The distance is a function parameter of each ping.
- Concurrency: concurrent load-then-save on the same assignment (server/src/routes/assignmentRoutes.js:83,141) can lose coverage. The model applies updates one at a time.
- Persistence failures: a throwing `save`, `create`, `update` or `destroy`, and a failing `findAll`, would be answered 500. The model's database operations always succeed.
- Request parsing: `parseInt`/`parseFloat` and NaN. `Assign` and `GpsUpdate` take already-parsed numbers, and a stored checkpoint is an already-parsed coordinate pair.
- Routes.RouteTable.Update: the request's `points` is either absent or an array. A non-array, non-null value (a string or a number, whose `.length` may be defined or undefined) is not modelled. The request's `name` is a string; an absent name is not modelled.
- Logging and reply decoration: the `console.log`/`console.error` calls (server/src/routes/assignmentRoutes.js:106,115,120,131,151) write only to the console, and the constant `success: true` field of the position-update reply (server/src/routes/assignmentRoutes.js:143) carries no information. `PingReply` holds the other five fields.
- Routes.RouteTable.ListAll: routes with equal `createdAt` come out in an order the database does not fix. The model fixes one.
- AssignmentRoutes.Tracker.GpsUpdate: the table invariant `Valid()` holds every stored record `Consistent`, so the handler's tolerance of a stored `coveredPoints` that is not an array (server/src/routes/assignmentRoutes.js:100; the column is JSON and may hold any value) is never exercised through `GpsUpdate`. It is shown on `ApplyPing` alone, by `PingConsistent`, `PingMergeOrder` and `PingCoverageExact`.
- AssignmentRoutes.Tracker.Assign: the foreign-key checks a database may apply to `collectorId`/`routeId` are not modelled. The handler itself checks neither.
- The read-only list handlers GET /collectors, GET /available-routes and GET / of the assignment router: plain `findAll` calls with nothing beyond the stored rows.
- Sequelize `createdAt`/`updatedAt` columns of the assignments table: bookkeeping that no handler reads.
- Router mounting and model exports (server/src/server.js, server/src/models/index.js): the handlers are modelled as written, not as wired.
- The React client, authentication and the collector CRUD: outside the coverage tracker.
