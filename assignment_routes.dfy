/** The assignment handlers: POST /assign creates an assignment, and
    POST /gps-update/:assignmentId records a position and the coverage it earns. */
module AssignmentRoutes {
  import opened Common
  import opened RouteAssignments
  import opened Routes
  import opened Coverage

  /** The JSON body the position-update handler answers with. */
  datatype PingReply = PingReply(
    previouslyCovered: nat,
    newlyCovered: nat,
    totalCovered: int,
    coveredPoints: JsonList<int>,
    totalPoints: int)

  /** The answer to a ping on `a`: the sizes of the stored and the newly covered
      lists (both 0 when the route is not usable) and the updated record's
      coverage. */
  function Reported(a: RouteAssignment, route: Option<Route>, pos: Coord, dist: Distance, now: Timestamp): PingReply
  {
    var b := ApplyPing(a, route, pos, dist, now);
    if Usable(route) then
      var points := route.value.points.items;
      var prev := Prior(a.coveredPoints);
      PingReply(|prev|, |NewlyCovered(points, prev, pos, dist, |points|)|, b.pointsCovered, b.coveredPoints, b.totalPoints)
    else
      PingReply(0, 0, b.pointsCovered, b.coveredPoints, b.totalPoints)
  }

  /** The RouteAssignments table, with the routes table it reads checkpoints from. */
  class Tracker {
    var assignments: map<int, RouteAssignment>
    var nextId: int
    const routes: RouteTable

    /** Ids come from an auto-increment counter, and every stored record is
        consistent. */
    ghost predicate Valid()
      reads this
    {
      && 1 <= nextId
      && forall id :: id in assignments ==>
           1 <= id < nextId && assignments[id].id == id && Consistent(assignments[id])
    }

    constructor (routes: RouteTable)
      ensures Valid() && assignments == map[] && nextId == 1 && this.routes == routes
    {
      assignments := map[];
      nextId := 1;
      this.routes := routes;
    }

    /** POST /assign: a new record with the column defaults and the
        `totalPoints` of the request body, which is not checked against the
        route. */
    method Assign(collectorId: int, routeId: int, totalPoints: int, now: Timestamp)
      returns (r: Reply<RouteAssignment>)
      requires Valid()
      modifies this
      ensures Valid()
      ensures r == Ok(NewAssignment(old(nextId), collectorId, routeId, Some(totalPoints), now))
      ensures assignments == old(assignments)[old(nextId) := r.value]
      ensures nextId == old(nextId) + 1
    {
      var assignment := NewAssignment(nextId, collectorId, routeId, Some(totalPoints), now);
      assignments := assignments[nextId := assignment];
      nextId := nextId + 1;
      r := Ok(assignment);
    }

    /** POST /gps-update/:assignmentId. An unknown id is answered 404 and
        nothing is written. Otherwise the position is replaced; when the route
        exists and its `points` is an array, the checkpoints within the radius
        that were not covered yet are added to the covered list, the count is
        its length and the status follows from the count; the record is saved. */
    method GpsUpdate(assignmentId: int, pos: Coord, dist: Distance, now: Timestamp)
      returns (r: Reply<PingReply>)
      requires Valid()
      modifies this
      ensures Valid() && nextId == old(nextId)
      ensures assignmentId !in old(assignments) ==> r == NotFound && assignments == old(assignments)
      ensures assignmentId in old(assignments) ==>
        var a := old(assignments)[assignmentId];
        var route := Lookup(routes.table, a.routeId);
        && assignments == old(assignments)[assignmentId := ApplyPing(a, route, pos, dist, now)]
        && r == Ok(Reported(a, route, pos, dist, now))
    {
      if assignmentId !in assignments {
        return NotFound;
      }
      var assignment := assignments[assignmentId];
      ghost var loaded := assignment;
      assignment := assignment.(currentLat := Some(pos.lat), currentLng := Some(pos.lng), lastUpdated := now);

      var previouslyCovered: seq<int> := [];
      var newlyCovered: seq<int> := [];
      var route := Lookup(routes.table, assignment.routeId);
      if route.Some? && route.value.points.List? {
        previouslyCovered := Prior(assignment.coveredPoints);
        newlyCovered := FindNewlyCovered(route.value.points.items, previouslyCovered, pos, dist);
        var allCoveredPoints := Dedup(previouslyCovered + newlyCovered);
        assignment := assignment.(coveredPoints := List(allCoveredPoints), pointsCovered := |allCoveredPoints|);
        if assignment.pointsCovered >= assignment.totalPoints {
          assignment := assignment.(status := Completed);
        } else {
          assignment := assignment.(status := InProgress);
        }
      }

      assignments := assignments[assignmentId := assignment];
      PingConsistent(loaded, route, pos, dist, now);
      r := Ok(PingReply(|previouslyCovered|, |newlyCovered|, assignment.pointsCovered,
                        assignment.coveredPoints, assignment.totalPoints));
    }
  }
}
