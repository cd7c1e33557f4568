/**
  * `/attendance`: an employee marks attendance (append-only, with an
  * advisory IN/OUT mode) and lists their latest fifty records.
  */
module Attendance {
  import opened Wrappers
  import opened Seqs
  import opened Text
  import opened Js
  import opened Http

  datatype Mode = In | Out

  /** The enum text of a mode, as stored and as sent. */
  function ModeName(m: Mode): string
  {
    match m
    case In => "IN"
    case Out => "OUT"
  }

  datatype Record = Record(
    id: int,
    userId: int,
    timestamp: int,
    lat: Option<Number>,
    lng: Option<Number>,
    deviceId: Option<string>,
    photoUrl: Option<string>,
    mode: Option<Mode>)

  class AttendanceTable {
    var rows: seq<Record>
    var nextId: int

    ghost predicate Valid()
      reads this
    {
      && 1 <= nextId
      && (forall i :: 0 <= i < |rows| ==> 1 <= rows[i].id < nextId)
      && (forall i, j :: 0 <= i < j < |rows| ==> rows[i].id != rows[j].id)
    }

    constructor ()
      ensures Valid() && rows == [] && nextId == 1
    {
      rows, nextId := [], 1;
    }
  }

  /** The mode stored for a body's `mode`: IN or OUT in any letter case, anything else silently null. */
  function NormalizeMode(rt: Runtime, mode: Value): (m: Option<Mode>)
    ensures m == Some(In) <==> Truthy(mode) && Upper(String(rt, mode)) == "IN"
    ensures m == Some(Out) <==> Truthy(mode) && Upper(String(rt, mode)) == "OUT"
    ensures m.Some? ==> ModeName(m.value) == Upper(String(rt, mode))
  {
    if !Truthy(mode) then None
    else
      var upper := Upper(String(rt, mode));
      if upper == "IN" then Some(In) else if upper == "OUT" then Some(Out) else None
  }

  /** A mode given as text is read the same whatever its letter case. */
  lemma NormalizeModeIgnoresCase(rt: Runtime, mode: string)
    ensures NormalizeMode(rt, Str(mode)) == NormalizeMode(rt, Str(Upper(mode)))
  {
    UpperIdempotent(mode);
    if mode != [] {
      assert Upper(mode)[0] == UpperChar(mode[0]);
    }
  }

  /** `timestamp ? new Date(timestamp) : new Date()`: None when the given timestamp is an Invalid Date. */
  function MarkTime(rt: Runtime, now: int, timestamp: Value): (t: Option<int>)
    ensures !Truthy(timestamp) ==> t == Some(now)
    ensures Truthy(timestamp) ==> t == rt.newDate(timestamp)
  {
    if Truthy(timestamp) then rt.newDate(timestamp) else Some(now)
  }

  /**
    * POST /attendance/mark. Never a validation error: the record is added
    * with the given or current time and the normalised mode. The database
    * refuses (500) an Invalid Date, coordinates that are not numbers, and a
    * device id or photo URL that is truthy but not text.
    */
  method Mark(table: AttendanceTable, rt: Runtime, now: int, userId: int,
              timestamp: Value, lat: Value, lng: Value, deviceId: Value, photoUrl: Value, mode: Value)
    returns (r: Reply<Record>)
    requires table.Valid()
    modifies table
    ensures table.Valid()
    ensures r.Err? ==> r == Err(500, ServerError) && table.rows == old(table.rows) && table.nextId == old(table.nextId)
    ensures r.Ok? <==> (MarkTime(rt, now, timestamp).Some? && FloatColumn(lat).Accepted? && FloatColumn(lng).Accepted?
      && TextOrNull(deviceId).Accepted? && TextOrNull(photoUrl).Accepted?)
    ensures r.Ok? ==>
      var rec := Record(old(table.nextId), userId, MarkTime(rt, now, timestamp).value,
                        FloatColumn(lat).value, FloatColumn(lng).value,
                        TextOrNull(deviceId).value, TextOrNull(photoUrl).value, NormalizeMode(rt, mode));
      && r == Ok(201, rec)
      && table.rows == old(table.rows) + [rec]
      && table.nextId == old(table.nextId) + 1
  {
    var time := MarkTime(rt, now, timestamp);
    var latColumn, lngColumn := FloatColumn(lat), FloatColumn(lng);
    var deviceColumn, photoColumn := TextOrNull(deviceId), TextOrNull(photoUrl);
    if time.None? || latColumn.Rejected? || lngColumn.Rejected? || deviceColumn.Rejected? || photoColumn.Rejected? {
      return Err(500, ServerError);
    }
    var rec := Record(table.nextId, userId, time.value, latColumn.value, lngColumn.value,
                      deviceColumn.value, photoColumn.value, NormalizeMode(rt, mode));
    table.rows := table.rows + [rec];
    table.nextId := table.nextId + 1;
    r := Ok(201, rec);
  }

  /** Newest first. */
  predicate Newer(a: Record, b: Record)
  {
    a.timestamp >= b.timestamp
  }

  lemma NewerIsPreorder()
    ensures TotalPreorder(Newer)
  {
  }

  /** How many records `/mine` answers at most. */
  const PageSize: nat := 50

  /** The `where: { userId }` condition of `/mine`. */
  function OwnedBy(userId: int): Record -> bool
  {
    (x: Record) => x.userId == userId
  }

  /** The records of a user, in table order. */
  function Own(rows: seq<Record>, userId: int): (r: seq<Record>)
    ensures forall x :: x in r <==> x in rows && x.userId == userId
  {
    Filter(rows, OwnedBy(userId))
  }

  /** GET /attendance/mine: the caller's records, newest first, at most fifty. */
  function Mine(rows: seq<Record>, userId: int): (r: seq<Record>)
    ensures |r| <= PageSize
    ensures forall x :: x in r ==> x in rows && x.userId == userId
    ensures forall x :: multiset(r)[x] <= multiset(rows)[x]
    ensures Sorted(r, Newer)
  {
    NewerIsPreorder();
    var own := Select(rows, OwnedBy(userId), Newer);
    var r := Take(own, PageSize);
    assert forall i :: 0 <= i < |r| ==> r[i] == own[i];
    assert forall x :: multiset(r)[x] <= multiset(own)[x];
    r
  }

  /** A record of the caller that `/mine` leaves out is no newer than any it lists, and then fifty are listed. */
  lemma MineKeepsNewest(rows: seq<Record>, userId: int, x: Record)
    requires x in rows && x.userId == userId
    requires x !in Mine(rows, userId)
    ensures |Mine(rows, userId)| == PageSize
    ensures forall i :: 0 <= i < |Mine(rows, userId)| ==> Mine(rows, userId)[i].timestamp >= x.timestamp
  {
    NewerIsPreorder();
    var own := Select(rows, OwnedBy(userId), Newer);
    var r := Mine(rows, userId);
    assert r == Take(own, PageSize);
    assert x in own;
    var j :| 0 <= j < |own| && own[j] == x;
    assert forall i :: 0 <= i < |r| ==> r[i] == own[i];
    assert j >= |r|;
    forall i | 0 <= i < |r| ensures r[i].timestamp >= x.timestamp {
      assert r[i] == own[i];
      assert Newer(own[i], own[j]);
    }
  }

  /** When the caller has fifty records or fewer, `/mine` lists every one of them. */
  lemma MineIsCompleteWhenFew(rows: seq<Record>, userId: int, x: Record)
    requires x in rows && x.userId == userId
    requires |Own(rows, userId)| <= PageSize
    ensures x in Mine(rows, userId)
  {
    NewerIsPreorder();
    var own := Select(rows, OwnedBy(userId), Newer);
    assert own == Sort(Own(rows, userId), Newer);
    assert Mine(rows, userId) == own;
  }
}
