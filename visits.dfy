/**
  * `/visits`: check-in appends a visit for an existing dealer, check-out
  * stamps `checkOutAt` once and only for the visit's owner, and `/mine`
  * lists the caller's visits newest check-in first.
  */
module Visits {
  import opened Wrappers
  import opened Seqs
  import opened Js
  import opened Http
  import opened Dates
  import opened Dealers

  datatype Visit = Visit(
    id: int,
    userId: int,
    dealerId: int,
    checkInAt: int,
    checkOutAt: Option<int>,
    lat: Option<Number>,
    lng: Option<Number>,
    notes: Option<string>)

  /** A visit with its dealer joined (`include: { dealer: true }`). */
  datatype VisitWithDealer = VisitWithDealer(visit: Visit, dealer: Option<Dealer>)

  class VisitTable {
    var rows: seq<Visit>
    var nextId: int

    ghost predicate Valid()
      reads this
    {
      && 1 <= nextId
      && (forall i :: 0 <= i < |rows| ==> 1 <= rows[i].id < nextId)
      && (forall i, j :: 0 <= i < j < |rows| ==> rows[i].id != rows[j].id)
    }

    constructor ()
      ensures Valid() && rows == [] && nextId == 1
    {
      rows, nextId := [], 1;
    }
  }

  function VisitIndex(rows: seq<Visit>, id: int): (k: int)
    ensures -1 <= k < |rows|
    ensures k >= 0 ==> rows[k].id == id
    ensures k < 0 <==> forall i :: 0 <= i < |rows| ==> rows[i].id != id
  {
    IndexWhere(rows, (v: Visit) => v.id == id)
  }

  /** The dealer joined to a row with this dealer id. */
  function DealerOf(dealers: seq<Dealer>, id: int): (d: Option<Dealer>)
    ensures d.Some? ==> d.value in dealers && d.value.id == id
    ensures d.None? ==> forall x :: x in dealers ==> x.id != id
  {
    var k := DealerIndex(dealers, id);
    if k < 0 then None else Some(dealers[k])
  }

  /**
    * POST /visits/check-in. 400 without a dealerId, 404 when no dealer has
    * that id; otherwise a visit of the caller at that dealer, checked in now,
    * not checked out, with lat/lng null unless supplied.
    */
  method CheckIn(visits: VisitTable, dealers: seq<Dealer>, rt: Runtime, now: int, userId: int,
                 dealerId: Value, lat: Value, lng: Value, notes: Value)
    returns (r: Reply<VisitWithDealer>)
    requires visits.Valid()
    modifies visits
    ensures visits.Valid()
    ensures !Truthy(dealerId) ==> r == Err(400, "dealerId is required")
    ensures Truthy(dealerId) && IntOf(rt.toNumber(dealerId)).Some? && DealerIndex(dealers, IntOf(rt.toNumber(dealerId)).value) < 0 ==>
      r == Err(404, "Dealer not found")
    ensures r.Err? && r.status == 400 ==> !Truthy(dealerId)
    ensures r.Err? && r.status == 404 ==> IntOf(rt.toNumber(dealerId)).Some? && DealerIndex(dealers, IntOf(rt.toNumber(dealerId)).value) < 0
    ensures r.Err? && r.status !in {400, 404} ==> r == Err(500, ServerError)
    ensures r.Ok? <==>
      && Truthy(dealerId) && IntOf(rt.toNumber(dealerId)).Some?
      && DealerIndex(dealers, IntOf(rt.toNumber(dealerId)).value) >= 0 && TextOrNull(notes).Accepted?
    ensures r.Err? ==> visits.rows == old(visits.rows) && visits.nextId == old(visits.nextId)
    ensures r.Ok? ==>
      && r.status == 201
      && var v := r.value.visit;
      && v == Visit(old(visits.nextId), userId, IntOf(rt.toNumber(dealerId)).value, now, None,
                    NumberOrNull(rt, lat), NumberOrNull(rt, lng), TextOrNull(notes).value)
      && r.value.dealer.Some? && r.value.dealer == DealerOf(dealers, v.dealerId)
      && visits.rows == old(visits.rows) + [v]
      && visits.nextId == old(visits.nextId) + 1
  {
    if !Truthy(dealerId) {
      return Err(400, "dealerId is required");
    }
    var id := IntOf(rt.toNumber(dealerId));
    if id.None? {
      return Err(500, ServerError);
    }
    var dealer := DealerOf(dealers, id.value);
    if dealer.None? {
      return Err(404, "Dealer not found");
    }
    var notesColumn := TextOrNull(notes);
    if notesColumn.Rejected? {
      return Err(500, ServerError);
    }
    var v := Visit(visits.nextId, userId, id.value, now, None, NumberOrNull(rt, lat), NumberOrNull(rt, lng), notesColumn.value);
    visits.rows := visits.rows + [v];
    visits.nextId := visits.nextId + 1;
    r := Ok(201, VisitWithDealer(v, dealer));
  }

  /** The visit after check-out: stamped now, coordinates replaced only when supplied. */
  function CheckedOut(v: Visit, rt: Runtime, now: int, lat: Value, lng: Value): (w: Visit)
    ensures w.checkOutAt == Some(now)
    ensures w.id == v.id && w.userId == v.userId && w.dealerId == v.dealerId && w.checkInAt == v.checkInAt && w.notes == v.notes
    ensures w.lat == (if Nullish(lat) then v.lat else Some(rt.toNumber(lat)))
    ensures w.lng == (if Nullish(lng) then v.lng else Some(rt.toNumber(lng)))
  {
    v.(checkOutAt := Some(now),
       lat := if Nullish(lat) then v.lat else Some(rt.toNumber(lat)),
       lng := if Nullish(lng) then v.lng else Some(rt.toNumber(lng)))
  }

  /**
    * POST /visits/:id/check-out. A missing visit and another user's visit get
    * the same 404; a visit already checked out gets 400 and keeps its first
    * `checkOutAt`; otherwise only that visit changes.
    */
  method CheckOut(visits: VisitTable, dealers: seq<Dealer>, rt: Runtime, now: int, userId: int,
                  idParam: string, lat: Value, lng: Value)
    returns (r: Reply<VisitWithDealer>)
    requires visits.Valid()
    modifies visits
    ensures visits.Valid()
    ensures visits.nextId == old(visits.nextId)
    ensures r.Err? ==> visits.rows == old(visits.rows)
    ensures var id := IntOf(rt.toNumber(Str(idParam)));
      && (id.None? ==> r == Err(500, ServerError))
      && (id.Some? ==>
        var k := VisitIndex(old(visits.rows), id.value);
        && (k < 0 || old(visits.rows)[k].userId != userId ==> r == Err(404, "Visit not found or not yours"))
        && (k >= 0 && old(visits.rows)[k].userId == userId && old(visits.rows)[k].checkOutAt.Some? ==>
              r == Err(400, "Visit already checked out"))
        && (k >= 0 && old(visits.rows)[k].userId == userId && old(visits.rows)[k].checkOutAt.None? ==>
              var w := CheckedOut(old(visits.rows)[k], rt, now, lat, lng);
              && visits.rows == old(visits.rows)[k := w]
              && r == Ok(200, VisitWithDealer(w, DealerOf(dealers, w.dealerId)))))
  {
    var id := IntOf(rt.toNumber(Str(idParam)));
    if id.None? {
      return Err(500, ServerError);
    }
    var k := VisitIndex(visits.rows, id.value);
    if k < 0 || visits.rows[k].userId != userId {
      return Err(404, "Visit not found or not yours");
    }
    if visits.rows[k].checkOutAt.Some? {
      return Err(400, "Visit already checked out");
    }
    var w := CheckedOut(visits.rows[k], rt, now, lat, lng);
    visits.rows := visits.rows[k := w];
    r := Ok(200, VisitWithDealer(w, DealerOf(dealers, w.dealerId)));
  }

  /** Newest check-in first. */
  predicate NewerCheckIn(a: Visit, b: Visit)
  {
    a.checkInAt >= b.checkInAt
  }

  lemma NewerCheckInIsPreorder()
    ensures TotalPreorder(NewerCheckIn)
  {
  }

  /** The `where` of `/mine`: the caller's visits, in range, at the dealer when one is named. */
  predicate MineMatches(v: Visit, userId: int, range: Range, dealerId: Option<int>)
  {
    v.userId == userId && InRange(v.checkInAt, range) && (dealerId.Some? ==> v.dealerId == dealerId.value)
  }

  /** The visits of a joined listing, in listing order. */
  function VisitsOf(js: seq<VisitWithDealer>): (r: seq<Visit>)
    ensures |r| == |js|
    ensures forall i :: 0 <= i < |js| ==> r[i] == js[i].visit
  {
    seq(|js|, i requires 0 <= i < |js| => js[i].visit)
  }

  function JoinDealers(rows: seq<Visit>, dealers: seq<Dealer>): (r: seq<VisitWithDealer>)
    ensures VisitsOf(r) == rows
    ensures forall i :: 0 <= i < |r| ==> r[i].dealer == DealerOf(dealers, r[i].visit.dealerId)
  {
    seq(|rows|, i requires 0 <= i < |rows| => VisitWithDealer(rows[i], DealerOf(dealers, rows[i].dealerId)))
  }

  /** The rows `/mine` returns once its conditions are known, newest check-in first. */
  function MineRows(rows: seq<Visit>, dealers: seq<Dealer>, userId: int, range: Range, dealerId: Option<int>)
    : (r: seq<VisitWithDealer>)
    ensures forall v :: v in VisitsOf(r) <==> v in rows && MineMatches(v, userId, range, dealerId)
    ensures forall v :: multiset(VisitsOf(r))[v] == if MineMatches(v, userId, range, dealerId) then multiset(rows)[v] else 0
    ensures Sorted(VisitsOf(r), NewerCheckIn)
    ensures forall i :: 0 <= i < |r| ==> r[i].dealer == DealerOf(dealers, r[i].visit.dealerId)
  {
    NewerCheckInIsPreorder();
    JoinDealers(Select(rows, (v: Visit) => MineMatches(v, userId, range, dealerId), NewerCheckIn), dealers)
  }

  /** The day range of `/mine`: applied only when both bounds are given; None when a given bound is not a date. */
  function MineRange(rt: Runtime, from: Query, to: Query): (r: Option<Range>)
    ensures !(Given(from) && Given(to)) ==> r == Some(Unbounded)
    ensures Given(from) && Given(to) ==>
      (r.None? <==> rt.dayOf(Str(from.value)).None? || rt.dayOf(Str(to.value)).None?)
    ensures Given(from) && Given(to) && r.Some? ==>
      r.value == Between(DayStart(rt.dayOf(Str(from.value)).value), DayEnd(rt.dayOf(Str(to.value)).value))
  {
    if !(Given(from) && Given(to)) then Some(Unbounded)
    else match (rt.dayOf(Str(from.value)), rt.dayOf(Str(to.value)))
      case (Some(f), Some(t)) => Some(Between(DayStart(f), DayEnd(t)))
      case _ => None
  }

  /**
    * GET /visits/mine. Only the caller's visits; the day range applies only
    * when both from and to are given, the dealer filter only when given;
    * newest check-in first. A bound or dealer id the database cannot take is a 500.
    */
  function Mine(rows: seq<Visit>, dealers: seq<Dealer>, rt: Runtime, userId: int, from: Query, to: Query, dealerId: Query)
    : (r: Reply<seq<VisitWithDealer>>)
    ensures r.Err? <==> MineRange(rt, from, to).None? || (Given(dealerId) && IntOf(rt.toNumber(Str(dealerId.value))).None?)
    ensures r.Err? ==> r == Err(500, ServerError)
    ensures r.Ok? ==>
      var filter := if Given(dealerId) then IntOf(rt.toNumber(Str(dealerId.value))) else None;
      r == Ok(200, MineRows(rows, dealers, userId, MineRange(rt, from, to).value, filter))
  {
    var range := MineRange(rt, from, to);
    if range.None? then Err(500, ServerError)
    else if !Given(dealerId) then Ok(200, MineRows(rows, dealers, userId, range.value, None))
    else match IntOf(rt.toNumber(Str(dealerId.value)))
      case None => Err(500, ServerError)
      case Some(d) => Ok(200, MineRows(rows, dealers, userId, range.value, Some(d)))
  }

  /** Without filters, `/mine` lists every visit of the caller, and only those. */
  lemma MineUnfilteredIsAllOwn(rows: seq<Visit>, dealers: seq<Dealer>, rt: Runtime, userId: int, v: Visit)
    ensures var r := Mine(rows, dealers, rt, userId, None, None, None);
      r.Ok? && (v in VisitsOf(r.value) <==> v in rows && v.userId == userId)
  {
  }

  /** A checked-in visit is listed by `/mine` for its owner, and for nobody else. */
  lemma CheckedInVisitIsMine(rows: seq<Visit>, dealers: seq<Dealer>, rt: Runtime, v: Visit, other: int)
    requires v in rows && other != v.userId
    ensures v in VisitsOf(Mine(rows, dealers, rt, v.userId, None, None, None).value)
    ensures v !in VisitsOf(Mine(rows, dealers, rt, other, None, None, None).value)
  {
  }

  /** With a day range, a listed visit was checked in on one of the range's UTC days. */
  lemma MineRangeIsWholeDays(rows: seq<Visit>, dealers: seq<Dealer>, rt: Runtime, userId: int,
                             from: string, to: string, dealerId: Query, v: Visit)
    requires from != "" && to != ""
    requires rt.dayOf(Str(from)).Some? && rt.dayOf(Str(to)).Some?
    requires Mine(rows, dealers, rt, userId, Some(from), Some(to), dealerId).Ok?
    ensures v in VisitsOf(Mine(rows, dealers, rt, userId, Some(from), Some(to), dealerId).value) ==>
      rt.dayOf(Str(from)).value <= v.checkInAt / DayMs <= rt.dayOf(Str(to)).value
  {
    WholeDays(rt.dayOf(Str(from)).value, rt.dayOf(Str(to)).value, v.checkInAt);
  }
}
