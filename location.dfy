/**
  * `/location`: each employee has one last-known location, overwritten by
  * every ping; the admin lists all of them with their users.
  */
module Location {
  import opened Wrappers
  import opened Seqs
  import opened Js
  import opened Http
  import opened AuthRoutes

  datatype LastLocation = LastLocation(id: int, userId: int, lat: Number, lng: Number, updatedAt: int)

  /** No two rows belong to the same user. */
  predicate OnePerUser(rows: seq<LastLocation>)
  {
    forall i, j :: 0 <= i < j < |rows| ==> rows[i].userId != rows[j].userId
  }

  class LocationTable {
    var rows: seq<LastLocation>
    var nextId: int

    ghost predicate Valid()
      reads this
    {
      && 1 <= nextId
      && (forall i :: 0 <= i < |rows| ==> 1 <= rows[i].id < nextId)
      && (forall i, j :: 0 <= i < j < |rows| ==> rows[i].id != rows[j].id)
      && OnePerUser(rows)
    }

    constructor ()
      ensures Valid() && rows == [] && nextId == 1
    {
      rows, nextId := [], 1;
    }
  }

  function LocationIndex(rows: seq<LastLocation>, userId: int): (k: int)
    ensures -1 <= k < |rows|
    ensures k >= 0 ==> rows[k].userId == userId
    ensures k < 0 <==> forall i :: 0 <= i < |rows| ==> rows[i].userId != userId
  {
    IndexWhere(rows, (l: LastLocation) => l.userId == userId)
  }

  /** The answer of a successful ping. */
  datatype PingAnswer = PingAnswer(ok: bool, location: LastLocation)

  /**
    * POST /location/live. 400 when lat or lng is null or absent; otherwise
    * the caller's row gets the new coordinates (created on the first ping)
    * and every other row stays as it was.
    */
  method Live(locations: LocationTable, rt: Runtime, now: int, userId: int, lat: Value, lng: Value)
    returns (r: Reply<PingAnswer>)
    requires locations.Valid()
    modifies locations
    ensures locations.Valid()
    ensures Nullish(lat) || Nullish(lng) ==>
      r == Err(400, "lat and lng are required") && locations.rows == old(locations.rows) && locations.nextId == old(locations.nextId)
    ensures !Nullish(lat) && !Nullish(lng) ==>
      var k := LocationIndex(old(locations.rows), userId);
      && (k >= 0 ==>
        var l := LastLocation(old(locations.rows)[k].id, userId, rt.toNumber(lat), rt.toNumber(lng), now);
        && locations.rows == old(locations.rows)[k := l] && locations.nextId == old(locations.nextId)
        && r == Ok(200, PingAnswer(true, l)))
      && (k < 0 ==>
        var l := LastLocation(old(locations.nextId), userId, rt.toNumber(lat), rt.toNumber(lng), now);
        && locations.rows == old(locations.rows) + [l] && locations.nextId == old(locations.nextId) + 1
        && r == Ok(200, PingAnswer(true, l)))
    ensures r.Ok? ==> r.value.location.userId == userId && locations.rows == Pinged(old(locations.rows), r.value.location)
  {
    if Nullish(lat) || Nullish(lng) {
      return Err(400, "lat and lng are required");
    }
    var k := LocationIndex(locations.rows, userId);
    var l: LastLocation;
    if k >= 0 {
      l := LastLocation(locations.rows[k].id, userId, rt.toNumber(lat), rt.toNumber(lng), now);
      locations.rows := locations.rows[k := l];
    } else {
      l := LastLocation(locations.nextId, userId, rt.toNumber(lat), rt.toNumber(lng), now);
      locations.rows := locations.rows + [l];
      locations.nextId := locations.nextId + 1;
    }
    r := Ok(200, PingAnswer(true, l));
  }

  datatype LocationView = LocationView(location: LastLocation, user: Option<UserSummary>)

  /** GET /location/all (admin): every last location, each with its user's profile. */
  function All(rows: seq<LastLocation>, users: seq<User>): (r: seq<LocationView>)
    ensures |r| == |rows|
    ensures forall i :: 0 <= i < |rows| ==> r[i] == LocationView(rows[i], SummaryOf(users, rows[i].userId))
  {
    seq(|rows|, i requires 0 <= i < |rows| => LocationView(rows[i], SummaryOf(users, rows[i].userId)))
  }

  /** The table after an accepted ping `l`: the caller's row overwritten, or `l` appended on the first ping. */
  function Pinged(rows: seq<LastLocation>, l: LastLocation): (after: seq<LastLocation>)
    ensures |after| == |rows| || |after| == |rows| + 1
  {
    var k := LocationIndex(rows, l.userId);
    if k >= 0 then rows[k := l] else rows + [l]
  }

  /**
    * After a ping, first or not, the admin listing shows exactly one location
    * for the caller: the one just sent.
    */
  lemma PingIsLatest(rows: seq<LastLocation>, users: seq<User>, l: LastLocation)
    requires OnePerUser(rows)
    ensures OnePerUser(Pinged(rows, l))
    ensures exists k :: 0 <= k < |Pinged(rows, l)| && All(Pinged(rows, l), users)[k].location == l
    ensures forall i :: 0 <= i < |Pinged(rows, l)| && All(Pinged(rows, l), users)[i].location.userId == l.userId ==>
      All(Pinged(rows, l), users)[i].location == l
  {
    var k := LocationIndex(rows, l.userId);
    var after := Pinged(rows, l);
    if k >= 0 {
      assert All(after, users)[k].location == l;
    } else {
      assert after == rows + [l];
      assert All(after, users)[|rows|].location == l;
    }
  }
}
