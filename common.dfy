/** Values shared by the route table, the assignment record and the coverage tracker. */
module Common {

  datatype Option<T> = None | Some(value: T)

  /** Milliseconds since the epoch; every clock reading of the handlers is a parameter. */
  type Timestamp = int

  /** A latitude/longitude pair in degrees, after parseFloat. */
  datatype Coord = Coord(lat: real, lng: real)

  /** The content of a JSON column or request field that the handlers test with
      Array.isArray: either an array of items, or any other value (null, a string,
      an object). */
  datatype JsonList<T> = List(items: seq<T>) | NotList

  /** What a handler sends back: a JSON body (status 200 or 201), or one of the
      error statuses the handlers produce. */
  datatype Reply<T> = Ok(value: T) | BadRequest | NotFound | ServerError

  /** No index occurs twice in the list. */
  predicate NoDup(s: seq<int>)
  {
    forall i, j :: 0 <= i < j < |s| ==> s[i] != s[j]
  }

  /** The indices are listed in ascending order, each once. */
  predicate StrictlyIncreasing(s: seq<int>)
  {
    forall i, j :: 0 <= i < j < |s| ==> s[i] < s[j]
  }

  /** The set of elements of a list. */
  function Elements(s: seq<int>): set<int>
  {
    set x | x in s
  }
}
