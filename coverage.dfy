/** The coverage computation of the position-update handler: which checkpoints
    a ping newly covers, the permanent merge with the stored list, the count and
    the status derived from it. */
module Coverage {
  import opened Common
  import opened RouteAssignments
  import opened Routes

  /** The great-circle distance in metres between a position and a checkpoint.
      The haversine arithmetic is not modelled; it is a parameter of each ping. */
  type Distance = (Coord, Coord) -> real

  /** The coverage radius, in metres. */
  const CoverageRadius: real := 20.0

  /** A checkpoint is reached when it lies within the radius, the boundary
      included. */
  predicate Within(dist: Distance, pos: Coord, checkpoint: Coord)
  {
    dist(pos, checkpoint) <= CoverageRadius
  }

  /** The stored covered list as the handler reads it: anything that is not an
      array counts as empty. */
  function Prior(covered: JsonList<int>): seq<int>
  {
    if covered.List? then covered.items else []
  }

  /** The handler computes coverage only for a route that exists and whose
      `points` is an array. */
  predicate Usable(route: Option<Route>)
  {
    route.Some? && route.value.points.List?
  }

  // ---------------------------------------------------------------------------
  // Newly covered checkpoints

  /** The indices below `n` that are not in `prev` and whose checkpoint is
      within the radius of `pos`, in the order the scan meets them. */
  function NewlyCovered(points: seq<Coord>, prev: seq<int>, pos: Coord, dist: Distance, n: nat): seq<int>
    requires n <= |points|
  {
    if n == 0 then []
    else
      NewlyCovered(points, prev, pos, dist, n - 1)
      + (if n - 1 !in prev && Within(dist, pos, points[n - 1]) then [n - 1] else [])
  }

  lemma {:induction false} NewlyCoveredMembers(points: seq<Coord>, prev: seq<int>, pos: Coord, dist: Distance, n: nat)
    requires n <= |points|
    ensures forall k :: k in NewlyCovered(points, prev, pos, dist, n) <==>
      0 <= k < n && k !in prev && Within(dist, pos, points[k])
    ensures StrictlyIncreasing(NewlyCovered(points, prev, pos, dist, n))
  {
    if n > 0 {
      var before := NewlyCovered(points, prev, pos, dist, n - 1);
      NewlyCoveredMembers(points, prev, pos, dist, n - 1);
      if n - 1 !in prev && Within(dist, pos, points[n - 1]) {
        var s := before + [n - 1];
        forall i, j | 0 <= i < j < |s|
          ensures s[i] < s[j]
        {
          assert s[i] == before[i];
          assert before[i] in before;
        }
      }
    }
  }

  /** Nothing is newly covered when every checkpoint within the radius is
      already in `prev`. */
  lemma {:induction false} NewlyCoveredNone(points: seq<Coord>, prev: seq<int>, pos: Coord, dist: Distance, n: nat)
    requires n <= |points|
    requires forall k :: 0 <= k < n && Within(dist, pos, points[k]) ==> k in prev
    ensures NewlyCovered(points, prev, pos, dist, n) == []
  {
    if n > 0 {
      NewlyCoveredNone(points, prev, pos, dist, n - 1);
    }
  }

  /** The scan over the route's checkpoints: already-covered indices are
      skipped, every other checkpoint within the radius is collected. */
  method FindNewlyCovered(points: seq<Coord>, prev: seq<int>, pos: Coord, dist: Distance)
    returns (newly: seq<int>)
    ensures newly == NewlyCovered(points, prev, pos, dist, |points|)
    ensures forall k :: k in newly <==> 0 <= k < |points| && k !in prev && Within(dist, pos, points[k])
    ensures StrictlyIncreasing(newly)
  {
    newly := [];
    var index := 0;
    while index < |points|
      invariant 0 <= index <= |points|
      invariant newly == NewlyCovered(points, prev, pos, dist, index)
    {
      if index !in prev {
        if Within(dist, pos, points[index]) {
          newly := newly + [index];
        }
      }
      index := index + 1;
    }
    NewlyCoveredMembers(points, prev, pos, dist, |points|);
  }

  // ---------------------------------------------------------------------------
  // Duplicate-free merge: the list spread out of a Set, first occurrences kept.

  function Dedup(s: seq<int>): seq<int>
  {
    if |s| == 0 then []
    else if s[|s| - 1] in s[..|s| - 1] then Dedup(s[..|s| - 1])
    else Dedup(s[..|s| - 1]) + [s[|s| - 1]]
  }

  lemma {:induction false} DedupElements(s: seq<int>)
    ensures forall x :: x in Dedup(s) <==> x in s
  {
    if |s| > 0 {
      DedupElements(s[..|s| - 1]);
      assert s == s[..|s| - 1] + [s[|s| - 1]];
    }
  }

  lemma {:induction false} DedupNoDup(s: seq<int>)
    ensures NoDup(Dedup(s))
  {
    if |s| > 0 {
      var init, x := s[..|s| - 1], s[|s| - 1];
      DedupNoDup(init);
      DedupElements(init);
      if x !in init {
        var d := Dedup(init);
        assert Dedup(s) == d + [x];
        forall i, j | 0 <= i < j < |d| + 1
          ensures (d + [x])[i] != (d + [x])[j]
        {
          if j == |d| {
            assert (d + [x])[i] == d[i];
            assert d[i] in d;
          }
        }
      }
    }
  }

  lemma {:induction false} DedupOfNoDup(s: seq<int>)
    requires NoDup(s)
    ensures Dedup(s) == s
  {
    if |s| > 0 {
      var init, x := s[..|s| - 1], s[|s| - 1];
      assert NoDup(init);
      DedupOfNoDup(init);
      assert s == init + [x];
    }
  }

  /** Appending indices that are new and distinct leaves them at the end,
      untouched, after the deduplicated old list. */
  lemma {:induction false} DedupAppendFresh(s: seq<int>, t: seq<int>)
    requires NoDup(t)
    requires forall x :: x in t ==> x !in s
    ensures Dedup(s + t) == Dedup(s) + t
  {
    if |t| == 0 {
      assert s + t == s;
    } else {
      var init, x := t[..|t| - 1], t[|t| - 1];
      assert NoDup(init);
      DedupAppendFresh(s, init);
      assert (s + t)[..|s + t| - 1] == s + init;
      assert (s + t)[|s + t| - 1] == x;
      assert x !in s + init;
      assert t == init + [x];
    }
  }

  lemma {:induction false} NoDupLength(s: seq<int>)
    requires NoDup(s)
    ensures |Elements(s)| == |s|
  {
    if |s| > 0 {
      var init, x := s[..|s| - 1], s[|s| - 1];
      assert NoDup(init);
      NoDupLength(init);
      assert s == init + [x];
      assert Elements(s) == Elements(init) + {x};
      assert x !in Elements(init);
    }
  }

  // ---------------------------------------------------------------------------
  // One position update applied to one assignment record

  /** The status rule: `completed` once the covered count reaches the total. */
  function StatusFor(pointsCovered: int, totalPoints: int): Status
  {
    if pointsCovered >= totalPoints then Completed else InProgress
  }

  /** The covered list after a ping on a usable route. */
  function Merged(a: RouteAssignment, points: seq<Coord>, pos: Coord, dist: Distance): seq<int>
  {
    var prev := Prior(a.coveredPoints);
    Dedup(prev + NewlyCovered(points, prev, pos, dist, |points|))
  }

  /** The record after one position update, given what the route lookup found. */
  function ApplyPing(a: RouteAssignment, route: Option<Route>, pos: Coord, dist: Distance, now: Timestamp): (b: RouteAssignment)
    ensures b.currentLat == Some(pos.lat) && b.currentLng == Some(pos.lng) && b.lastUpdated == now
    ensures b.id == a.id && b.collectorId == a.collectorId && b.routeId == a.routeId
    ensures b.assignedDate == a.assignedDate && b.totalPoints == a.totalPoints
    ensures !Usable(route) ==>
      b.coveredPoints == a.coveredPoints && b.pointsCovered == a.pointsCovered && b.status == a.status
    ensures Usable(route) ==> b.coveredPoints.List? && b.pointsCovered == |b.coveredPoints.items|
    ensures Usable(route) ==> (b.status == Completed <==> b.pointsCovered >= b.totalPoints)
    ensures Usable(route) ==> (b.status == InProgress <==> b.pointsCovered < b.totalPoints)
  {
    var moved := a.(currentLat := Some(pos.lat), currentLng := Some(pos.lng), lastUpdated := now);
    if Usable(route) then
      var all := Merged(a, route.value.points.items, pos, dist);
      moved.(coveredPoints := List(all), pointsCovered := |all|, status := StatusFor(|all|, a.totalPoints))
    else
      moved
  }

  /** Coverage is permanent: every index covered before a ping is covered after it. */
  lemma PingKeepsCoverage(a: RouteAssignment, route: Option<Route>, pos: Coord, dist: Distance, now: Timestamp)
    ensures forall k :: k in Prior(a.coveredPoints) ==> k in Prior(ApplyPing(a, route, pos, dist, now).coveredPoints)
  {
    if Usable(route) {
      var prev := Prior(a.coveredPoints);
      var points := route.value.points.items;
      DedupElements(prev + NewlyCovered(points, prev, pos, dist, |points|));
    }
  }

  /** After a ping on a usable route the covered indices are exactly the old ones
      plus the checkpoints within 20 m of the position, 20 m itself included. */
  lemma PingCoverageExact(a: RouteAssignment, route: Option<Route>, pos: Coord, dist: Distance, now: Timestamp)
    requires Usable(route)
    ensures forall k :: k in Prior(ApplyPing(a, route, pos, dist, now).coveredPoints) <==>
      k in Prior(a.coveredPoints)
      || (0 <= k < |route.value.points.items| && Within(dist, pos, route.value.points.items[k]))
  {
    var prev := Prior(a.coveredPoints);
    var points := route.value.points.items;
    DedupElements(prev + NewlyCovered(points, prev, pos, dist, |points|));
    NewlyCoveredMembers(points, prev, pos, dist, |points|);
  }

  /** The merged list is the old list, with its own duplicates dropped, followed
      by the newly covered indices in ascending order; those are disjoint from the
      old list, and the result has no duplicates. A duplicate-free old list is
      kept as it is. */
  lemma PingMergeOrder(a: RouteAssignment, route: Option<Route>, pos: Coord, dist: Distance, now: Timestamp)
    requires Usable(route)
    ensures var prev := Prior(a.coveredPoints);
            var newly := NewlyCovered(route.value.points.items, prev, pos, dist, |route.value.points.items|);
            && (forall k :: k in newly ==> k !in prev)
            && StrictlyIncreasing(newly)
            && ApplyPing(a, route, pos, dist, now).coveredPoints == List(Dedup(prev) + newly)
            && NoDup(Dedup(prev) + newly)
            && (NoDup(prev) ==> ApplyPing(a, route, pos, dist, now).coveredPoints == List(prev + newly))
  {
    var prev := Prior(a.coveredPoints);
    var points := route.value.points.items;
    var newly := NewlyCovered(points, prev, pos, dist, |points|);
    NewlyCoveredMembers(points, prev, pos, dist, |points|);
    DedupAppendFresh(prev, newly);
    DedupNoDup(prev + newly);
    if NoDup(prev) {
      DedupOfNoDup(prev);
    }
  }

  /** A ping on a usable route makes the record consistent, and a consistent
      record stays consistent whatever the route lookup found. */
  lemma PingConsistent(a: RouteAssignment, route: Option<Route>, pos: Coord, dist: Distance, now: Timestamp)
    requires Usable(route) || Consistent(a)
    ensures Consistent(ApplyPing(a, route, pos, dist, now))
  {
    if Usable(route) {
      var prev := Prior(a.coveredPoints);
      var points := route.value.points.items;
      DedupNoDup(prev + NewlyCovered(points, prev, pos, dist, |points|));
    }
  }

  /** On a consistent record the covered count never decreases. */
  lemma PingCountGrows(a: RouteAssignment, route: Option<Route>, pos: Coord, dist: Distance, now: Timestamp)
    requires Consistent(a)
    ensures ApplyPing(a, route, pos, dist, now).pointsCovered >= a.pointsCovered
  {
    if Usable(route) {
      PingMergeOrder(a, route, pos, dist, now);
    }
  }

  /** A completed assignment stays completed, even when the ping is far from
      every checkpoint. */
  lemma CompletedStaysCompleted(a: RouteAssignment, route: Option<Route>, pos: Coord, dist: Distance, now: Timestamp)
    requires Consistent(a) && a.status == Completed
    ensures ApplyPing(a, route, pos, dist, now).status == Completed
  {
    PingCountGrows(a, route, pos, dist, now);
  }

  /** Repeating a ping changes nothing but the time of the last update. */
  lemma PingIdempotent(a: RouteAssignment, route: Option<Route>, pos: Coord, dist: Distance, t1: Timestamp, t2: Timestamp)
    ensures ApplyPing(ApplyPing(a, route, pos, dist, t1), route, pos, dist, t2) == ApplyPing(a, route, pos, dist, t2)
  {
    if Usable(route) {
      var b := ApplyPing(a, route, pos, dist, t1);
      var points := route.value.points.items;
      var covered := b.coveredPoints.items;
      PingCoverageExact(a, route, pos, dist, t1);
      PingConsistent(a, route, pos, dist, t1);
      var again := NewlyCovered(points, covered, pos, dist, |points|);
      NewlyCoveredNone(points, covered, pos, dist, |points|);
      assert covered + again == covered;
      DedupOfNoDup(covered);
    }
  }

  /** Two pings on the same route give the same covered indices, count and
      status in either order. */
  lemma PingOrderIndependent(a: RouteAssignment, route: Option<Route>, p1: Coord, p2: Coord, dist: Distance, t1: Timestamp, t2: Timestamp)
    requires Usable(route)
    ensures var x := ApplyPing(ApplyPing(a, route, p1, dist, t1), route, p2, dist, t2);
            var y := ApplyPing(ApplyPing(a, route, p2, dist, t1), route, p1, dist, t2);
            && Elements(Prior(x.coveredPoints)) == Elements(Prior(y.coveredPoints))
            && x.pointsCovered == y.pointsCovered
            && x.status == y.status
  {
    var a1 := ApplyPing(a, route, p1, dist, t1);
    var a2 := ApplyPing(a, route, p2, dist, t1);
    var x := ApplyPing(a1, route, p2, dist, t2);
    var y := ApplyPing(a2, route, p1, dist, t2);
    PingCoverageExact(a, route, p1, dist, t1);
    PingCoverageExact(a, route, p2, dist, t1);
    PingCoverageExact(a1, route, p2, dist, t2);
    PingCoverageExact(a2, route, p1, dist, t2);
    forall k
      ensures k in Elements(Prior(x.coveredPoints)) <==> k in Elements(Prior(y.coveredPoints))
    {
    }
    PingConsistent(a1, route, p2, dist, t2);
    PingConsistent(a2, route, p1, dist, t2);
    NoDupLength(x.coveredPoints.items);
    NoDupLength(y.coveredPoints.items);
  }

  /** One step of the scenario below: a ping whose newly covered list is known. */
  lemma ScenarioPing(a: RouteAssignment, route: Route, prev: seq<int>, pos: Coord, dist: Distance, now: Timestamp, newly: seq<int>)
    requires route.points.List? && |route.points.items| == 2
    requires a.coveredPoints == List(prev) && NoDup(prev)
    requires NewlyCovered(route.points.items, prev, pos, dist, 2) == newly
    ensures ApplyPing(a, Some(route), pos, dist, now).coveredPoints == List(prev + newly)
    ensures ApplyPing(a, Some(route), pos, dist, now).pointsCovered == |prev| + |newly|
    ensures ApplyPing(a, Some(route), pos, dist, now).totalPoints == a.totalPoints
  {
    PingMergeOrder(a, Some(route), pos, dist, now);
  }

  lemma ScenarioFirst(route: Route, c0: Coord, c1: Coord, p0: Coord, dist: Distance, a0: RouteAssignment, t1: Timestamp)
    requires route.points == List([c0, c1])
    requires Within(dist, p0, c0) && !Within(dist, p0, c1)
    requires a0.coveredPoints == List([]) && a0.totalPoints == 2
    ensures var a1 := ApplyPing(a0, Some(route), p0, dist, t1);
            a1.coveredPoints == List([0]) && a1.pointsCovered == 1 && a1.totalPoints == 2
  {
    assert NewlyCovered([c0, c1], [], p0, dist, 1) == [0];
    ScenarioPing(a0, route, [], p0, dist, t1, [0]);
    assert [] + [0] == [0];
  }

  lemma ScenarioSecond(route: Route, c0: Coord, c1: Coord, p1: Coord, dist: Distance, a1: RouteAssignment, t2: Timestamp)
    requires route.points == List([c0, c1])
    requires Within(dist, p1, c1)
    requires a1.coveredPoints == List([0]) && a1.totalPoints == 2
    ensures var a2 := ApplyPing(a1, Some(route), p1, dist, t2);
            a2.coveredPoints == List([0, 1]) && a2.pointsCovered == 2 && a2.totalPoints == 2
  {
    assert NewlyCovered([c0, c1], [0], p1, dist, 1) == [];
    ScenarioPing(a1, route, [0], p1, dist, t2, [1]);
    assert [0] + [1] == [0, 1];
  }

  lemma ScenarioFar(route: Route, c0: Coord, c1: Coord, far: Coord, dist: Distance, a2: RouteAssignment, t3: Timestamp)
    requires route.points == List([c0, c1])
    requires !Within(dist, far, c0) && !Within(dist, far, c1)
    requires a2.coveredPoints == List([0, 1]) && a2.totalPoints == 2
    ensures var a3 := ApplyPing(a2, Some(route), far, dist, t3);
            a3.coveredPoints == List([0, 1]) && a3.pointsCovered == 2
  {
    assert NewlyCovered([c0, c1], [0, 1], far, dist, 1) == [];
    ScenarioPing(a2, route, [0, 1], far, dist, t3, []);
    assert [0, 1] + [] == [0, 1];
  }

  /** A route with two checkpoints and `totalPoints` 2: a ping at the first
      covers index 0 (in progress), a ping at the second adds index 1
      (completed), and a ping far from both changes neither list nor status. */
  lemma TwoCheckpointRoute(route: Route, c0: Coord, c1: Coord, p0: Coord, p1: Coord, far: Coord, dist: Distance,
                           a0: RouteAssignment, a1: RouteAssignment, a2: RouteAssignment, a3: RouteAssignment,
                           t1: Timestamp, t2: Timestamp, t3: Timestamp)
    requires route.points == List([c0, c1])
    requires Within(dist, p0, c0) && !Within(dist, p0, c1)
    requires Within(dist, p1, c1)
    requires !Within(dist, far, c0) && !Within(dist, far, c1)
    requires a0 == NewAssignment(a0.id, a0.collectorId, route.id, Some(2), a0.assignedDate)
    requires a1 == ApplyPing(a0, Some(route), p0, dist, t1)
    requires a2 == ApplyPing(a1, Some(route), p1, dist, t2)
    requires a3 == ApplyPing(a2, Some(route), far, dist, t3)
    ensures a1.coveredPoints == List([0]) && a1.pointsCovered == 1 && a1.status == InProgress
    ensures a2.coveredPoints == List([0, 1]) && a2.pointsCovered == 2 && a2.status == Completed
    ensures a3.coveredPoints == List([0, 1]) && a3.pointsCovered == 2 && a3.status == Completed
  {
    ScenarioFirst(route, c0, c1, p0, dist, a0, t1);
    ScenarioSecond(route, c0, c1, p1, dist, a1, t2);
    ScenarioFar(route, c0, c1, far, dist, a2, t3);
  }
}
