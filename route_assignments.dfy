/** The RouteAssignment record: one collector bound to one route, with the
    coverage state that position updates accumulate. */
module RouteAssignments {
  import opened Common

  /** The four values of the status enum. */
  datatype Status = Assigned | InProgress | Completed | Cancelled

  /** One row of the RouteAssignments table. `coveredPoints` is a JSON column and
      may hold something other than an array; `currentLat`/`currentLng` are null
      (None) until the first position update. */
  datatype RouteAssignment = RouteAssignment(
    id: int,
    collectorId: int,
    routeId: int,
    assignedDate: Timestamp,
    status: Status,
    pointsCovered: int,
    totalPoints: int,
    coveredPoints: JsonList<int>,
    currentLat: Option<real>,
    currentLng: Option<real>,
    lastUpdated: Timestamp)

  /** The row created with the column defaults: status `assigned`, nothing covered,
      no position yet, `totalPoints` 0 unless one is given, both dates at `now`. */
  function NewAssignment(id: int, collectorId: int, routeId: int, totalPoints: Option<int>, now: Timestamp): (a: RouteAssignment)
    ensures a.id == id && a.collectorId == collectorId && a.routeId == routeId
    ensures a.status == Assigned
    ensures a.pointsCovered == 0 && a.coveredPoints == List([])
    ensures totalPoints.None? ==> a.totalPoints == 0
    ensures totalPoints.Some? ==> a.totalPoints == totalPoints.value
    ensures a.currentLat.None? && a.currentLng.None?
    ensures a.assignedDate == now && a.lastUpdated == now
    ensures Consistent(a)
  {
    RouteAssignment(id, collectorId, routeId, now, Assigned, 0,
                    match totalPoints case Some(t) => t case None => 0,
                    List([]), None, None, now)
  }

  /** The invariant that creation establishes and every position update keeps:
      the covered list is an array without duplicates, `pointsCovered` is its
      length, and `completed`/`in_progress` agree with the counts. */
  predicate Consistent(a: RouteAssignment)
  {
    && a.coveredPoints.List?
    && NoDup(a.coveredPoints.items)
    && a.pointsCovered == |a.coveredPoints.items|
    && (a.status == Completed ==> a.pointsCovered >= a.totalPoints)
    && (a.status == InProgress ==> a.pointsCovered < a.totalPoints)
  }
}
