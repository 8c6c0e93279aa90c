/** The route table and its REST handlers: list, get by id, create, update, delete. */
module Routes {
  import opened Common

  /** One row of the routes table: an ordered list of checkpoints (a JSON column)
      and the count the handlers derive from it. */
  datatype Route = Route(
    id: int,
    name: string,
    points: JsonList<Coord>,
    totalPoints: int,
    createdAt: Timestamp,
    updatedAt: Timestamp)

  /** A character matched by `\s` in a JavaScript regular expression. */
  predicate Whitespace(c: char)
  {
    || c == ' ' || c == '\t' || c == '\n' || c == '\r'
    || c == '\U{000B}' || c == '\U{000C}' || c == '\U{00A0}' || c == '\U{1680}'
    || ('\U{2000}' <= c <= '\U{200A}')
    || c == '\U{2028}' || c == '\U{2029}' || c == '\U{202F}' || c == '\U{205F}'
    || c == '\U{3000}' || c == '\U{FEFF}'
  }

  /** The strings the `notEmpty` validation of the `name` column refuses: those
      made only of whitespace, the empty string included. */
  predicate Blank(s: string)
  {
    forall i :: 0 <= i < |s| ==> Whitespace(s[i])
  }

  /** What every route written by the handlers looks like: a name that passes
      `notEmpty`, an array of checkpoints, and `totalPoints` equal to that
      array's length. */
  predicate WellFormed(r: Route)
  {
    !Blank(r.name) && r.points.List? && r.totalPoints == |r.points.items|
  }

  /** findByPk on a table. */
  function Lookup(table: map<int, Route>, id: int): Option<Route>
  {
    if id in table then Some(table[id]) else None
  }

  /** The validation of the create handler: a name that is present and not
      empty, and a `points` field that is present and an array. */
  predicate ValidRouteBody(name: Option<string>, points: Option<JsonList<Coord>>)
  {
    name.Some? && name.value != "" && points.Some? && points.value.List?
  }

  // ---------------------------------------------------------------------------
  // Ordering of the list handler: createdAt, newest first.

  predicate NewestFirst(s: seq<Route>)
  {
    forall i, j :: 0 <= i < j < |s| ==> s[i].createdAt >= s[j].createdAt
  }

  /** The routes whose ids lie in [1, n), in ascending id order. */
  function ById(table: map<int, Route>, n: int): seq<Route>
    decreases n
  {
    if n <= 1 then []
    else ById(table, n - 1) + (if n - 1 in table then [table[n - 1]] else [])
  }

  /** Places `r` in front of the first route that is not newer than it. */
  function InsertNewest(r: Route, s: seq<Route>): seq<Route>
  {
    if s == [] then [r]
    else if r.createdAt >= s[0].createdAt then [r] + s
    else [s[0]] + InsertNewest(r, s[1..])
  }

  /** The routes of `s` reordered by createdAt, newest first. */
  function SortNewestFirst(s: seq<Route>): seq<Route>
  {
    if s == [] then [] else InsertNewest(s[0], SortNewestFirst(s[1..]))
  }

  lemma {:induction false} InsertNewestPermutes(r: Route, s: seq<Route>)
    ensures multiset(InsertNewest(r, s)) == multiset(s) + multiset{r}
  {
    if s != [] && r.createdAt < s[0].createdAt {
      InsertNewestPermutes(r, s[1..]);
      assert s == [s[0]] + s[1..];
    }
  }

  lemma {:induction false} InsertNewestSorted(r: Route, s: seq<Route>)
    requires NewestFirst(s)
    ensures NewestFirst(InsertNewest(r, s))
  {
    if s != [] && r.createdAt < s[0].createdAt {
      var tail := InsertNewest(r, s[1..]);
      InsertNewestSorted(r, s[1..]);
      InsertNewestPermutes(r, s[1..]);
      forall k | 0 <= k < |tail|
        ensures tail[k].createdAt <= s[0].createdAt
      {
        assert tail[k] in multiset(tail);
        assert tail[k] == r || tail[k] in s[1..];
      }
      assert InsertNewest(r, s) == [s[0]] + tail;
    }
  }

  /** The ordering of the list handler is a permutation sorted newest first. */
  lemma {:induction false} SortNewestFirstCorrect(s: seq<Route>)
    ensures NewestFirst(SortNewestFirst(s))
    ensures multiset(SortNewestFirst(s)) == multiset(s)
  {
    if s != [] {
      SortNewestFirstCorrect(s[1..]);
      InsertNewestSorted(s[0], SortNewestFirst(s[1..]));
      InsertNewestPermutes(s[0], SortNewestFirst(s[1..]));
      assert s == [s[0]] + s[1..];
    }
  }

  /** Listing the ids below `n` yields exactly the stored routes with those ids,
      each once, in ascending id order. */
  lemma {:induction false} ByIdContents(table: map<int, Route>, n: int)
    requires forall id :: id in table ==> table[id].id == id
    ensures forall rt :: rt in ById(table, n) <==> rt.id in table && table[rt.id] == rt && 1 <= rt.id < n
    ensures forall i, j :: 0 <= i < j < |ById(table, n)| ==> ById(table, n)[i].id < ById(table, n)[j].id
  {
    if n > 1 {
      ByIdContents(table, n - 1);
    }
  }

  /** The routes table. Ids come from an auto-increment counter. */
  class RouteTable {
    var table: map<int, Route>
    var nextId: int

    ghost predicate Valid()
      reads this
    {
      && 1 <= nextId
      && forall id :: id in table ==> 1 <= id < nextId && table[id].id == id && WellFormed(table[id])
    }

    constructor ()
      ensures Valid() && table == map[] && nextId == 1
    {
      table := map[];
      nextId := 1;
    }

    /** GET /routes: every stored route, ordered by createdAt, newest first. */
    method ListAll() returns (routes: seq<Route>)
      requires Valid()
      ensures NewestFirst(routes)
      ensures forall rt :: rt in routes <==> rt.id in table && table[rt.id] == rt
      ensures multiset(routes) == multiset(ById(table, nextId))
    {
      var stored := ById(table, nextId);
      routes := SortNewestFirst(stored);
      SortNewestFirstCorrect(stored);
      ByIdContents(table, nextId);
      assert forall rt :: rt in routes <==> rt in multiset(stored);
    }

    /** GET /routes/:id. */
    method Get(id: int) returns (r: Reply<Route>)
      ensures id in table ==> r == Ok(table[id])
      ensures id !in table ==> r == NotFound
    {
      if id !in table {
        return NotFound;
      }
      r := Ok(table[id]);
    }

    /** POST /routes. A missing or empty name, or `points` missing or not an
        array, is answered 400. A name of whitespace only passes that check but
        fails the `notEmpty` validation of `Route.create`, which throws: 500,
        nothing stored. Otherwise the route is stored under a fresh id with
        `totalPoints` counted from `points`; the client's `totalPoints` is
        ignored. */
    method Create(name: Option<string>, points: Option<JsonList<Coord>>, clientTotal: Option<int>, now: Timestamp)
      returns (r: Reply<Route>)
      requires Valid()
      modifies this
      ensures Valid()
      ensures !ValidRouteBody(name, points) ==>
        r == BadRequest && table == old(table) && nextId == old(nextId)
      ensures ValidRouteBody(name, points) && Blank(name.value) ==>
        r == ServerError && table == old(table) && nextId == old(nextId)
      ensures ValidRouteBody(name, points) && !Blank(name.value) ==>
        && r.Ok?
        && r.value == Route(old(nextId), name.value, points.value, |points.value.items|, now, now)
        && table == old(table)[old(nextId) := r.value]
        && nextId == old(nextId) + 1
    {
      if !ValidRouteBody(name, points) {
        return BadRequest;
      }
      if Blank(name.value) {
        return ServerError;
      }
      var route := Route(nextId, name.value, points.value, |points.value.items|, now, now);
      table := table[nextId := route];
      nextId := nextId + 1;
      r := Ok(route);
    }

    /** PUT /routes/:id. An unknown id is answered 404 before the body is looked
        at. A missing `points` makes `points.length` throw, so the request fails
        with 500 and the row is unchanged; so does a name that is empty or
        whitespace only, which the `notEmpty` validation of `route.update`
        refuses. Otherwise name and points are
        replaced and `totalPoints` is recounted; the client's value is ignored. */
    method Update(id: int, name: string, points: Option<seq<Coord>>, clientTotal: Option<int>, now: Timestamp)
      returns (r: Reply<Route>)
      requires Valid()
      modifies this
      ensures Valid() && nextId == old(nextId)
      ensures id !in old(table) ==> r == NotFound && table == old(table)
      ensures id in old(table) && (points.None? || Blank(name)) ==> r == ServerError && table == old(table)
      ensures id in old(table) && points.Some? && !Blank(name) ==>
        && r.Ok?
        && r.value == old(table)[id].(name := name, points := List(points.value),
                                      totalPoints := |points.value|, updatedAt := now)
        && table == old(table)[id := r.value]
    {
      if id !in table {
        return NotFound;
      }
      if points.None? || Blank(name) {
        return ServerError;
      }
      var route := table[id].(name := name, points := List(points.value),
                              totalPoints := |points.value|, updatedAt := now);
      table := table[id := route];
      r := Ok(route);
    }

    /** DELETE /routes/:id: removes that route and no other. */
    method Delete(id: int) returns (r: Reply<()>)
      requires Valid()
      modifies this
      ensures Valid() && nextId == old(nextId)
      ensures id !in old(table) ==> r == NotFound && table == old(table)
      ensures id in old(table) ==> r == Ok(()) && table == old(table) - {id}
    {
      if id !in table {
        return NotFound;
      }
      table := table - {id};
      r := Ok(());
    }
  }
}
